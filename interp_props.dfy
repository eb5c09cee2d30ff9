/** Properties of the store projector: what a write leaves in the store,
    what the resolution pass may change, what reading back records, and
    the round trip of a flat document. */
module InterpreterProperties {
  import opened Wrappers
  import opened Text
  import opened Document
  import opened Tcl
  import opened ValueConverter
  import opened TclInterpreter

  // ---------------------------------------------------------------------
  // Leaves and their tags

  /** A leaf whose literal `set` is known to store: every scalar except a
      string that holds a brace or a backslash. */
  predicate Storable(v: Value)
  {
    match v
    case Null => true
    case Bool(_) => true
    case Int(_) => true
    case Str(s) => IsBraceFree(s)
    case _ => false
  }

  /** The text a storable leaf leaves in its slot. */
  function Stored(v: Value): string
  {
    match v
    case Bool(b) => if b then "1" else "0"
    case Int(n) => FormatInt(n)
    case Str(s) => s
    case _ => ""
  }

  /** The literal of a storable leaf is not empty, and `set` stores the
      leaf's text. */
  lemma StoredReadsBack(ev: Evaluator, v: Value)
    requires Storable(v)
    ensures Encode(v) != "" && ev.word(Encode(v)) == Some(Stored(v))
  {
    match v
    case Null =>
      assert Encode(v) == "\"\"";
    case Bool(b) =>
      assert IsBareWord("1") && IsBareWord("0");
    case Int(n) =>
      ParseFormatInt(n);
      ParsedIsNumeral(FormatInt(n));
      assert IsBareWord(FormatInt(n));
    case Str(s) =>
      EncodedStringReadsBack(ev, s);
  }

  /** Every tag is a bare word, so `set` stores it as it is. */
  lemma TagIsBare(v: Value)
    ensures IsBareWord(Tag(v)) && Tag(v) != "unknown"
  {
  }

  /** A storable leaf's text converts back to the leaf under its tag. */
  lemma {:induction false} TypedRoundTrip(ev: Evaluator, v: Value)
    requires Storable(v)
    ensures ConvertTagged(ev, Stored(v), Tag(v)) == Some(v)
  {
    match v
    case Null =>
    case Bool(b) =>
      assert Lower("0") == "0";
    case Int(n) =>
      ParseFormatInt(n);
    case Str(s) =>
  }

  /** With a tag other than `unknown`, the mode does not matter; in `str`
      mode an untagged value is its raw text. */
  lemma ModeOnlyForUntagged(ev: Evaluator, value: string, tag: string, name: string, m1: Mode, m2: Mode)
    ensures tag != "unknown" ==> ConvertValue(ev, value, tag, name, m1) == ConvertValue(ev, value, tag, name, m2)
    ensures ConvertValue(ev, value, "unknown", name, StrMode) == Some(Str(value))
  {
  }

  // ---------------------------------------------------------------------
  // Writing

  /** A top-level leaf goes to the scalar slot `name`, its tag to the type
      table under `name`, and `name` stops being a default.  A default of
      that name is unset first, so a default array is replaced by the
      scalar; a non-default array of that name makes the `set` fail. */
  lemma SetLeafScalar(ev: Evaluator, st: State, name: string, v: Value)
    requires Storable(v) && name != TypesName && TypesName !in st.scalars
    ensures name in st.arrays && (name !in st.defaults || name in st.scalars) ==> !SetLeaf(ev, st, name, [], v).ok
    ensures name !in st.arrays || (name in st.defaults && name !in st.scalars) ==>
      SetLeaf(ev, st, name, [], v) == Outcome(
        State(st.scalars[name := Stored(v)],
              st.arrays[TypesName := st.CellsOf(TypesName)[name := Tag(v)]] - {name},
              st.defaults - {name}),
        true)
  {
    TagIsBare(v);
    StoredReadsBack(ev, v);
    var types := st.arrays[TypesName := st.CellsOf(TypesName)[name := Tag(v)]];
    if name !in st.arrays {
      assert types - {name} == types;
    }
    assert (st.scalars - {name})[name := Stored(v)] == st.scalars[name := Stored(v)];
  }

  /** A leaf reached through the keys `path` goes to the cell
      `name(k1,…,kn)`, its tag to the type table under that key, and `name`
      stops being a default.  A default of that name is unset first, so a
      default array is replaced by one holding only the new cell and a
      default scalar gives way to the array; a non-default scalar of that
      name makes the `set` fail. */
  lemma SetLeafCell(ev: Evaluator, st: State, name: string, path: seq<string>, v: Value)
    requires Storable(v) && name != TypesName && path != [] && TypesName !in st.scalars
    ensures name in st.scalars && name !in st.defaults ==> !SetLeaf(ev, st, name, path, v).ok
    ensures name !in st.scalars || (name in st.defaults && name !in st.arrays) ==>
      var types := st.arrays[TypesName := st.CellsOf(TypesName)[name + "(" + Index(path) + ")" := Tag(v)]];
      var cells := if name in st.defaults then map[] else st.CellsOf(name);
      SetLeaf(ev, st, name, path, v) == Outcome(
        State(st.scalars - {name}, types[name := cells[Index(path) := Stored(v)]], st.defaults - {name}),
        true)
  {
    TagIsBare(v);
    StoredReadsBack(ev, v);
    var types := st.arrays[TypesName := st.CellsOf(TypesName)[name + "(" + Index(path) + ")" := Tag(v)]];
    var cell := map[Index(path) := Stored(v)];
    assert (types - {name})[name := cell] == types[name := cell];
    if name !in st.scalars {
      assert st.scalars - {name} == st.scalars;
    }
  }

  /** A dictionary with no entries writes nothing. */
  lemma EmptyDictWritesNothing(ev: Evaluator, st: State, name: string, path: seq<string>)
    ensures SetVar(ev, st, name, path, Dict([])) == Outcome(st, true)
  {
  }

  function ScalarAt(st: State, n: string): Option<string>
  {
    if n in st.scalars then Some(st.scalars[n]) else None
  }

  function ArrayAt(st: State, n: string): Option<map<string, string>>
  {
    if n in st.arrays then Some(st.arrays[n]) else None
  }

  /** Each of the commands `set` and `unset` touches only the variable it
      names. */
  lemma ScalarFrame(ev: Evaluator, st: State, a: string, lit: string, n: string)
    requires n != a
    ensures var o := SetScalar(ev, st, a, lit);
      ScalarAt(o.st, n) == ScalarAt(st, n) && ArrayAt(o.st, n) == ArrayAt(st, n) && o.st.defaults == st.defaults
  {
  }

  lemma CellFrame(ev: Evaluator, st: State, a: string, idx: string, lit: string, n: string)
    requires n != a
    ensures var o := SetCell(ev, st, a, idx, lit);
      ScalarAt(o.st, n) == ScalarAt(st, n) && ArrayAt(o.st, n) == ArrayAt(st, n) && o.st.defaults == st.defaults
  {
  }

  lemma UnsetFrame(st: State, a: string, n: string)
    requires n != a
    ensures var o := Unset(st, a);
      ScalarAt(o.st, n) == ScalarAt(st, n) && ArrayAt(o.st, n) == ArrayAt(st, n) && o.st.defaults == st.defaults
  {
  }

  lemma CommandValid(ev: Evaluator, st: State, a: string, idx: string, lit: string)
    requires st.Valid()
    ensures SetScalar(ev, st, a, lit).st.Valid() && SetCell(ev, st, a, idx, lit).st.Valid() && Unset(st, a).st.Valid()
  {
  }

  lemma SetLeafFrame(ev: Evaluator, st: State, name: string, path: seq<string>, v: Value, n: string)
    requires n != name && n != TypesName
    ensures var o := SetLeaf(ev, st, name, path, v);
      ScalarAt(o.st, n) == ScalarAt(st, n) && ArrayAt(o.st, n) == ArrayAt(st, n)
      && st.defaults - {name} <= o.st.defaults <= st.defaults
  {
    WriteLeafFrame(ev, st, name, path, Tag(v), Encode(v), n);
  }

  lemma WriteLeafFrame(ev: Evaluator, st: State, name: string, path: seq<string>, tag: string, lit: string, n: string)
    requires n != name && n != TypesName
    ensures var o := WriteLeaf(ev, st, name, path, tag, lit);
      ScalarAt(o.st, n) == ScalarAt(st, n) && ArrayAt(o.st, n) == ArrayAt(st, n)
      && st.defaults - {name} <= o.st.defaults <= st.defaults
  {
    var tagged := SetCell(ev, st, TypesName, TypeKey(name, path), tag);
    CellFrame(ev, st, TypesName, TypeKey(name, path), tag, n);
    if tagged.ok {
      var cleared := if name in tagged.st.defaults then Unset(tagged.st, name).st else tagged.st;
      UnsetFrame(tagged.st, name, n);
      if path == [] {
        ScalarFrame(ev, cleared, name, lit, n);
      } else {
        CellFrame(ev, cleared, name, Index(path), lit, n);
      }
    }
  }

  lemma SetLeafValid(ev: Evaluator, st: State, name: string, path: seq<string>, v: Value)
    requires st.Valid()
    ensures SetLeaf(ev, st, name, path, v).st.Valid()
  {
    WriteLeafValid(ev, st, name, path, Tag(v), Encode(v));
  }

  lemma WriteLeafValid(ev: Evaluator, st: State, name: string, path: seq<string>, tag: string, lit: string)
    requires st.Valid()
    ensures WriteLeaf(ev, st, name, path, tag, lit).st.Valid()
  {
    var tagged := SetCell(ev, st, TypesName, TypeKey(name, path), tag);
    CommandValid(ev, st, TypesName, TypeKey(name, path), tag);
    if tagged.ok {
      var cleared := if name in tagged.st.defaults then Unset(tagged.st, name).st else tagged.st;
      CommandValid(ev, tagged.st, name, "", "");
      CommandValid(ev, cleared, name, Index(path), lit);
    }
  }

  /** Writing a variable touches only that name and the type table, and
      only removes `name` from the defaults; this holds when a write fails
      part-way too. */
  lemma {:induction false} SetVarFrame(ev: Evaluator, st: State, name: string, path: seq<string>, v: Value, n: string)
    requires n != name && n != TypesName
    ensures var o := SetVar(ev, st, name, path, v);
      ScalarAt(o.st, n) == ScalarAt(st, n) && ArrayAt(o.st, n) == ArrayAt(st, n)
      && st.defaults - {name} <= o.st.defaults <= st.defaults
    decreases v
  {
    if v.Dict? {
      SetEntriesFrame(ev, st, name, path, v.entries, 0, v, n);
    } else {
      SetLeafFrame(ev, st, name, path, v, n);
    }
  }

  lemma {:induction false} SetEntriesFrame(ev: Evaluator, st: State, name: string, path: seq<string>, es: Entries, i: nat, parent: Value, n: string)
    requires i <= |es| && parent == Dict(es)
    requires n != name && n != TypesName
    ensures var o := SetEntries(ev, st, name, path, es, i, parent);
      ScalarAt(o.st, n) == ScalarAt(st, n) && ArrayAt(o.st, n) == ArrayAt(st, n)
      && st.defaults - {name} <= o.st.defaults <= st.defaults
    decreases parent, |es| - i
  {
    if i < |es| {
      var o := SetVar(ev, st, name, path + [es[i].0], es[i].1);
      SetVarFrame(ev, st, name, path + [es[i].0], es[i].1, n);
      if o.ok {
        SetEntriesFrame(ev, o.st, name, path, es, i + 1, parent, n);
      }
    }
  }

  /** Every command keeps a name from being both a scalar and an array. */
  lemma {:induction false} SetVarValid(ev: Evaluator, st: State, name: string, path: seq<string>, v: Value)
    requires st.Valid()
    ensures SetVar(ev, st, name, path, v).st.Valid()
    decreases v
  {
    if v.Dict? {
      SetEntriesValid(ev, st, name, path, v.entries, 0, v);
    } else {
      SetLeafValid(ev, st, name, path, v);
    }
  }

  lemma {:induction false} SetEntriesValid(ev: Evaluator, st: State, name: string, path: seq<string>, es: Entries, i: nat, parent: Value)
    requires i <= |es| && parent == Dict(es) && st.Valid()
    ensures SetEntries(ev, st, name, path, es, i, parent).st.Valid()
    decreases parent, |es| - i
  {
    if i < |es| {
      var o := SetVar(ev, st, name, path + [es[i].0], es[i].1);
      SetVarValid(ev, st, name, path + [es[i].0], es[i].1);
      if o.ok {
        SetEntriesValid(ev, o.st, name, path, es, i + 1, parent);
      }
    }
  }

  lemma {:induction false} SetAllValid(ev: Evaluator, st: State, data: Entries, i: nat)
    requires i <= |data| && st.Valid()
    ensures SetAll(ev, st, data, i).st.Valid()
    decreases |data| - i
  {
    if i < |data| {
      var o := SetVar(ev, st, data[i].0, [], data[i].1);
      SetVarValid(ev, st, data[i].0, [], data[i].1);
      if o.ok {
        SetAllValid(ev, o.st, data, i + 1);
      }
    }
  }

  // ---------------------------------------------------------------------
  // Resolving

  /** The variables `vs` have the same names, scalar and array, as `st`. */
  predicate SameNames(vs: Vars, st: State)
  {
    vs.scalars.Keys == st.scalars.Keys && vs.arrays.Keys == st.arrays.Keys
  }

  /** A slot text the resolution pass leaves alone whatever the values of
      the variables of `st`, as long as the same variables exist. */
  ghost predicate Stable(ev: Evaluator, st: State, s: string)
  {
    forall vs :: SameNames(vs, st) ==> Resolved(ev, vs, s) == None
  }

  /** A text is stable when it has no `$`, when `subst` fails on it
      whatever the values of the existing variables (a reference to a
      variable that does not exist), or when `subst` returns it
      unchanged. */
  lemma StableCases(ev: Evaluator, st: State, s: string)
    ensures '$' !in s ==> Stable(ev, st, s)
    ensures (forall vs :: SameNames(vs, st) ==> ev.subst(vs, s).None?) ==> Stable(ev, st, s)
    ensures (forall vs :: SameNames(vs, st) ==> ev.subst(vs, s) == Some(s)) ==> Stable(ev, st, s)
  {
  }

  /** The pass may rewrite the slots of `n`: not a default, not the type
      table. */
  predicate Resolvable(st: State, n: string)
  {
    !StartsWith(n, TypesName) && n !in st.defaults
  }

  /** `b` is `a` after rewriting some slots: the same variables, cells and
      defaults, and a slot changes only where it may be resolved and its
      text is not stable. */
  ghost predicate Evolves(ev: Evaluator, a: State, b: State)
  {
    && a.defaults == b.defaults
    && a.scalars.Keys == b.scalars.Keys
    && a.arrays.Keys == b.arrays.Keys
    && (forall n :: n in a.arrays ==> b.arrays[n].Keys == a.arrays[n].Keys)
    && (forall n :: n in a.scalars ==>
          b.scalars[n] == a.scalars[n] || (Resolvable(a, n) && !Stable(ev, a, a.scalars[n])))
    && (forall n, idx :: n in a.arrays && idx in a.arrays[n] ==>
          b.arrays[n][idx] == a.arrays[n][idx] || (Resolvable(a, n) && !Stable(ev, a, a.arrays[n][idx])))
  }

  lemma EvolvesTrans(ev: Evaluator, a: State, b: State, c: State)
    requires Evolves(ev, a, b) && Evolves(ev, b, c)
    ensures Evolves(ev, a, c)
  {
  }

  lemma {:induction false} ResolveCellsEvolves(ev: Evaluator, st: State, name: string, idxs: seq<string>, j: nat)
    requires name in st.arrays && j <= |idxs| && Resolvable(st, name)
    ensures Evolves(ev, st, ResolveCells(ev, st, name, idxs, j))
    decreases |idxs| - j
  {
    if j < |idxs| {
      var next := ResolveCell(ev, st, name, idxs[j]);
      CellStepEvolves(ev, st, name, idxs[j]);
      ResolveCellsEvolves(ev, next, name, idxs, j + 1);
      EvolvesTrans(ev, st, next, ResolveCells(ev, next, name, idxs, j + 1));
    }
  }

  lemma CellStepEvolves(ev: Evaluator, st: State, name: string, idx: string)
    requires name in st.arrays && Resolvable(st, name)
    ensures Evolves(ev, st, ResolveCell(ev, st, name, idx))
  {
  }

  lemma ResolveVarEvolves(ev: Evaluator, st: State, name: string)
    ensures Evolves(ev, st, ResolveVar(ev, st, name))
  {
    if !StartsWith(name, TypesName) && name !in st.defaults && name in st.arrays {
      ResolveCellsEvolves(ev, st, name, ev.arrayNames(st.arrays[name]), 0);
    }
  }

  lemma {:induction false} ResolveFromEvolves(ev: Evaluator, st: State, names: seq<string>, i: nat)
    requires i <= |names|
    ensures Evolves(ev, st, ResolveFrom(ev, st, names, i))
    decreases |names| - i
  {
    if i < |names| {
      var next := ResolveVar(ev, st, names[i]);
      ResolveVarEvolves(ev, st, names[i]);
      ResolveFromEvolves(ev, next, names, i + 1);
      EvolvesTrans(ev, st, next, ResolveFrom(ev, next, names, i + 1));
    }
  }

  /** The resolution pass keeps every variable, cell and default, and
      rewrites only slots of names it may resolve whose text is not
      stable. */
  lemma ResolveEvolves(ev: Evaluator, st: State)
    ensures Evolves(ev, st, Resolve(ev, st))
  {
    ResolveFromEvolves(ev, st, ev.infoVars(st.Variables()), 0);
  }

  /** No name is listed twice, as `info vars` and `array names` list
      them. */
  predicate Distinct(s: seq<string>)
  {
    forall i, j :: 0 <= i < j < |s| ==> s[i] != s[j]
  }

  /** `w` is the text `before` of a slot, or what substituting `before`
      against some variables with the names of `st` gives. */
  ghost predicate RewriteOf(ev: Evaluator, st: State, before: string, w: string)
  {
    w == before || exists vs :: SameNames(vs, st) && Resolved(ev, vs, before) == Some(w)
  }

  lemma {:induction false} ResolveCellsFrame(ev: Evaluator, st: State, name: string, idxs: seq<string>, j: nat, n: string)
    requires name in st.arrays && j <= |idxs|
    ensures var r := ResolveCells(ev, st, name, idxs, j);
      r.scalars == st.scalars && (n != name ==> ArrayAt(r, n) == ArrayAt(st, n))
    decreases |idxs| - j
  {
    if j < |idxs| {
      ResolveCellsFrame(ev, ResolveCell(ev, st, name, idxs[j]), name, idxs, j + 1, n);
    }
  }

  /** Resolving one variable leaves the slots of every other name alone. */
  lemma ResolveVarFrame(ev: Evaluator, st: State, m: string, n: string)
    requires m != n
    ensures ScalarAt(ResolveVar(ev, st, m), n) == ScalarAt(st, n)
    ensures ArrayAt(ResolveVar(ev, st, m), n) == ArrayAt(st, n)
  {
    if !StartsWith(m, TypesName) && m !in st.defaults && m in st.arrays {
      ResolveCellsFrame(ev, st, m, ev.arrayNames(st.arrays[m]), 0, n);
    }
  }

  /** Resolving one variable keeps every name and the default set. */
  lemma ResolveVarNames(ev: Evaluator, st: State, m: string)
    ensures SameNames(ResolveVar(ev, st, m).Variables(), st) && ResolveVar(ev, st, m).defaults == st.defaults
  {
    ResolveVarEvolves(ev, st, m);
  }

  /** One name of the pass touches only its own scalar, and rewrites it by
      one substitution. */
  lemma ScalarStepRewrite(ev: Evaluator, st0: State, st: State, m: string, n: string)
    requires n in st.scalars && SameNames(st.Variables(), st0)
    ensures var r := ResolveVar(ev, st, m);
      n in r.scalars
      && (m != n ==> r.scalars[n] == st.scalars[n])
      && (m == n ==> RewriteOf(ev, st0, st.scalars[n], r.scalars[n]))
  {
    ResolveVarNames(ev, st, m);
    if m != n {
      ResolveVarFrame(ev, st, m, n);
    } else if !StartsWith(n, TypesName) && n !in st.defaults && n in st.arrays {
      ResolveCellsFrame(ev, st, n, ev.arrayNames(st.arrays[n]), 0, n);
    }
  }

  lemma {:induction false} ResolveFromScalar(ev: Evaluator, st0: State, st: State, names: seq<string>, i: nat, n: string)
    requires i <= |names| && Distinct(names) && n in st0.scalars && SameNames(st.Variables(), st0)
    requires n in names[i..] ==> st.scalars[n] == st0.scalars[n]
    requires RewriteOf(ev, st0, st0.scalars[n], st.scalars[n])
    ensures var r := ResolveFrom(ev, st, names, i);
      n in r.scalars && RewriteOf(ev, st0, st0.scalars[n], r.scalars[n])
    decreases |names| - i
  {
    if i < |names| {
      var next := ResolveVar(ev, st, names[i]);
      ResolveVarNames(ev, st, names[i]);
      ScalarStepRewrite(ev, st0, st, names[i], n);
      if names[i] != n {
        assert n in names[i + 1..] ==> n in names[i..];
      } else {
        NotListedAgain(names, i);
      }
      ResolveFromScalar(ev, st0, next, names, i + 1, n);
    }
  }

  lemma NotListedAgain(s: seq<string>, i: nat)
    requires Distinct(s) && i < |s|
    ensures s[i] !in s[i + 1..]
  {
    forall k | i + 1 <= k < |s|
      ensures s[k] != s[i]
    {
    }
  }

  /** One index of the pass touches only its own cell, and rewrites it by
      one substitution. */
  lemma CellStepRewrite(ev: Evaluator, st0: State, st: State, name: string, k: string, idx: string)
    requires name in st.arrays && idx in st.arrays[name] && SameNames(st.Variables(), st0)
    ensures var r := ResolveCell(ev, st, name, k);
      idx in r.arrays[name]
      && (k != idx ==> r.arrays[name][idx] == st.arrays[name][idx])
      && (k == idx ==> RewriteOf(ev, st0, st.arrays[name][idx], r.arrays[name][idx]))
  {
  }

  lemma {:induction false} ResolveCellsCell(ev: Evaluator, st0: State, st: State, name: string, idxs: seq<string>, j: nat, idx: string)
    requires j <= |idxs| && Distinct(idxs) && SameNames(st.Variables(), st0)
    requires name in st.arrays && idx in st.arrays[name]
    requires name in st0.arrays && idx in st0.arrays[name]
    requires idx in idxs[j..] ==> st.arrays[name][idx] == st0.arrays[name][idx]
    requires RewriteOf(ev, st0, st0.arrays[name][idx], st.arrays[name][idx])
    ensures var r := ResolveCells(ev, st, name, idxs, j);
      name in r.arrays && idx in r.arrays[name] && RewriteOf(ev, st0, st0.arrays[name][idx], r.arrays[name][idx])
    decreases |idxs| - j
  {
    if j < |idxs| {
      var next := ResolveCell(ev, st, name, idxs[j]);
      CellStepRewrite(ev, st0, st, name, idxs[j], idx);
      assert SameNames(next.Variables(), st0);
      if idxs[j] != idx {
        assert idx in idxs[j + 1..] ==> idx in idxs[j..];
      } else {
        NotListedAgain(idxs, j);
      }
      ResolveCellsCell(ev, st0, next, name, idxs, j + 1, idx);
    }
  }

  /** One name of the pass leaves the cells of other arrays alone and
      passes its own array to the loop over its indices. */
  lemma ArrayStep(ev: Evaluator, st: State, m: string, n: string)
    requires n in st.arrays
    ensures var r := ResolveVar(ev, st, m);
      n in r.arrays
      && (m != n ==> r.arrays[n] == st.arrays[n])
      && (m == n && !StartsWith(n, TypesName) && n !in st.defaults ==>
            r == ResolveCells(ev, st, n, ev.arrayNames(st.arrays[n]), 0))
      && (m == n && (StartsWith(n, TypesName) || n in st.defaults) ==> r == st)
  {
    ResolveVarNames(ev, st, m);
    if m != n {
      ResolveVarFrame(ev, st, m, n);
    }
  }

  lemma {:induction false} ResolveFromCell(ev: Evaluator, st0: State, st: State, names: seq<string>, i: nat, n: string, idx: string)
    requires i <= |names| && Distinct(names) && SameNames(st.Variables(), st0)
    requires n in st0.arrays && idx in st0.arrays[n] && Distinct(ev.arrayNames(st0.arrays[n]))
    requires n in st.arrays && idx in st.arrays[n]
    requires n in names[i..] ==> st.arrays[n] == st0.arrays[n]
    requires RewriteOf(ev, st0, st0.arrays[n][idx], st.arrays[n][idx])
    ensures var r := ResolveFrom(ev, st, names, i);
      n in r.arrays && idx in r.arrays[n] && RewriteOf(ev, st0, st0.arrays[n][idx], r.arrays[n][idx])
    decreases |names| - i
  {
    if i < |names| {
      var next := ResolveVar(ev, st, names[i]);
      ResolveVarNames(ev, st, names[i]);
      ArrayStep(ev, st, names[i], n);
      if names[i] != n {
        assert n in names[i + 1..] ==> n in names[i..];
      } else {
        NotListedAgain(names, i);
        if !StartsWith(n, TypesName) && n !in st.defaults {
          ResolveCellsCell(ev, st0, st, n, ev.arrayNames(st.arrays[n]), 0, idx);
        }
      }
      ResolveFromCell(ev, st0, next, names, i + 1, n, idx);
    }
  }

  /** With every name listed once, the pass visits each slot once: a
      scalar ends up with its old text or with what substituting that text
      against the variables of the moment, which have the same names, gave. */
  lemma ResolveRewritesScalar(ev: Evaluator, st: State, n: string)
    requires Distinct(ev.infoVars(st.Variables())) && n in st.scalars
    ensures n in Resolve(ev, st).scalars
    ensures RewriteOf(ev, st, st.scalars[n], Resolve(ev, st).scalars[n])
  {
    ResolveFromScalar(ev, st, st, ev.infoVars(st.Variables()), 0, n);
  }

  /** The same for a cell, with the indices of its array listed once. */
  lemma ResolveRewritesCell(ev: Evaluator, st: State, n: string, idx: string)
    requires Distinct(ev.infoVars(st.Variables())) && n in st.arrays && idx in st.arrays[n]
    requires Distinct(ev.arrayNames(st.arrays[n]))
    ensures n in Resolve(ev, st).arrays && idx in Resolve(ev, st).arrays[n]
    ensures RewriteOf(ev, st, st.arrays[n][idx], Resolve(ev, st).arrays[n][idx])
  {
    ResolveFromCell(ev, st, st, ev.infoVars(st.Variables()), 0, n, idx);
  }

  /** The type table and every default variable come out of the pass
      unchanged. */
  lemma ResolveKeepsProtected(ev: Evaluator, st: State, n: string)
    requires n == TypesName || n in st.defaults
    ensures ScalarAt(Resolve(ev, st), n) == ScalarAt(st, n)
    ensures ArrayAt(Resolve(ev, st), n) == ArrayAt(st, n)
  {
    ResolveEvolves(ev, st);
    var r := Resolve(ev, st);
    assert StartsWith(TypesName, TypesName);
    if n in st.arrays {
      assert r.arrays[n] == st.arrays[n];
    }
  }

  /** A reference `subst` cannot resolve in this store, such as one to an
      undefined variable, stays as written: the pass never adds or removes
      a variable, so the reference stays unresolvable throughout. */
  lemma UnresolvableKept(ev: Evaluator, st: State, n: string)
    requires n in st.scalars
    requires forall vs :: SameNames(vs, st) ==> ev.subst(vs, st.scalars[n]).None?
    ensures n in Resolve(ev, st).scalars && Resolve(ev, st).scalars[n] == st.scalars[n]
  {
    ResolveEvolves(ev, st);
    StableCases(ev, st, st.scalars[n]);
  }

  /** A store where no slot the pass may rewrite holds a `$` is left as it
      is. */
  lemma ResolveWithoutReferences(ev: Evaluator, st: State)
    requires forall n :: n in st.scalars && Resolvable(st, n) ==> '$' !in st.scalars[n]
    requires forall n, idx :: n in st.arrays && idx in st.arrays[n] && Resolvable(st, n) ==> '$' !in st.arrays[n][idx]
    ensures Resolve(ev, st) == st
  {
    ResolveEvolves(ev, st);
    var r := Resolve(ev, st);
    forall n | n in st.scalars
      ensures r.scalars[n] == st.scalars[n]
    {
      StableCases(ev, st, st.scalars[n]);
    }
    forall n | n in st.arrays
      ensures r.arrays[n] == st.arrays[n]
    {
      forall idx | idx in st.arrays[n]
        ensures r.arrays[n][idx] == st.arrays[n][idx]
      {
        StableCases(ev, st, st.arrays[n][idx]);
      }
    }
  }

  /** Loading keeps a name from being both a scalar and an array. */
  lemma LoadValid(ev: Evaluator, st: State, data: Entries)
    requires st.Valid()
    ensures Load(ev, st, data).st.Valid()
  {
    var init := InitTypes(st);
    if init.ok {
      SetAllValid(ev, init.st, data, 0);
      ResolveEvolves(ev, SetAll(ev, init.st, data, 0).st);
    }
  }

  // ---------------------------------------------------------------------
  // Reading back

  lemma {:induction false} DecodeVarsLookup(ev: Evaluator, st: State, hasTypes: bool, names: seq<string>, i: nat, mode: Mode, acc: Entries, n: string)
    requires i <= |names|
    ensures Lookup(DecodeVars(ev, st, hasTypes, names, i, mode, acc), n) ==
      if n in names[i..] && VarEntry(ev, st, hasTypes, n, mode).Some? then VarEntry(ev, st, hasTypes, n, mode)
      else Lookup(acc, n)
    decreases |names| - i
  {
    if i < |names| {
      DecodeVarsLookup(ev, st, hasTypes, names, i + 1, mode, DecodeVar(ev, st, hasTypes, names[i], mode, acc), n);
      assert names[i..] == [names[i]] + names[i + 1..];
    }
  }

  lemma {:induction false} DecodeVarsUnique(ev: Evaluator, st: State, hasTypes: bool, names: seq<string>, i: nat, mode: Mode, acc: Entries)
    requires i <= |names| && UniqueKeys(acc)
    ensures UniqueKeys(DecodeVars(ev, st, hasTypes, names, i, mode, acc))
    decreases |names| - i
  {
    if i < |names| {
      DecodeVarsUnique(ev, st, hasTypes, names, i + 1, mode, DecodeVar(ev, st, hasTypes, names[i], mode, acc));
    }
  }

  /** What `tclinterp2dict` records under a name: the variable's value when
      the name is listed and the variable yields one, nothing otherwise. */
  lemma ToDictLookup(ev: Evaluator, st: State, mode: Mode, n: string)
    ensures Lookup(ToDict(ev, st, mode), n) ==
      if n in ev.infoVars(st.Variables()) then VarEntry(ev, st, HasTypes(ev, st), n, mode) else None
  {
    var names := ev.infoVars(st.Variables());
    DecodeVarsLookup(ev, st, HasTypes(ev, st), names, 0, mode, [], n);
    assert names[0..] == names;
  }

  /** The rebuilt document has unique keys and never holds the type table
      or a default variable. */
  lemma ToDictFilters(ev: Evaluator, st: State, mode: Mode)
    ensures UniqueKeys(ToDict(ev, st, mode))
    ensures TypesName !in Keys(ToDict(ev, st, mode))
    ensures forall n :: n in st.defaults ==> n !in Keys(ToDict(ev, st, mode))
  {
    DecodeVarsUnique(ev, st, HasTypes(ev, st), ev.infoVars(st.Variables()), 0, mode, []);
    ToDictLookup(ev, st, mode, TypesName);
    forall n | n in st.defaults
      ensures n !in Keys(ToDict(ev, st, mode))
    {
      ToDictLookup(ev, st, mode, n);
    }
  }

  /** `d[k1][k2]…[kn]`, when every step is a dictionary. */
  function LookupPath(d: Entries, keys: seq<string>): Option<Value>
    requires |keys| >= 1
    decreases |keys|
  {
    var here := Lookup(d, keys[0]);
    if |keys| == 1 then here
    else if here.Some? && here.value.Dict? then LookupPath(here.value.entries, keys[1..])
    else None
  }

  /** After inserting along a path the value is found along it; the first
      key is added to the keys and every other top-level key keeps its
      value. */
  lemma {:induction false} InsertPathLookup(d: Entries, keys: seq<string>, x: Value)
    requires |keys| >= 1
    ensures LookupPath(InsertPath(d, keys, x), keys) == Some(x)
    ensures Keys(InsertPath(d, keys, x)) == Keys(d) + {keys[0]}
    ensures forall k :: k != keys[0] ==> Lookup(InsertPath(d, keys, x), k) == Lookup(d, k)
    ensures UniqueKeys(d) ==> UniqueKeys(InsertPath(d, keys, x))
    decreases |keys|
  {
    if |keys| > 1 {
      var below := Lookup(d, keys[0]);
      var sub := if below.Some? && below.value.Dict? then below.value.entries else [];
      InsertPathLookup(sub, keys[1..], x);
    }
  }

  /** An index with two or more keys contains a comma. */
  lemma IndexHasComma(path: seq<string>)
    requires |path| >= 2
    ensures ',' in Index(path)
  {
    var j := Index(path);
    assert j == path[0] + "," + Join(",", path[1..]);
    assert j[|path[0]|] == ',';
  }

  /** A cell written under the keys `path` is put back under the same
      keys, provided no key contains a comma. */
  lemma CellPathRoundTrip(acc: Entries, path: seq<string>, x: Value)
    requires |path| >= 1
    requires forall i :: 0 <= i < |path| ==> ',' !in path[i]
    ensures PutCell(acc, Index(path), x) == InsertPath(acc, path, x)
  {
    if |path| == 1 {
      assert Index(path) == path[0];
    } else {
      IndexHasComma(path);
      SplitOnJoin(path, ',');
      assert Index(path) == Join([','], path);
    }
  }

  /** In `auto` mode an unbraced value with a space that is not a `[list]`
      literal becomes a list exactly when `detect_tcl_list` says so: of
      integers when every token is one, of the tokens otherwise; else it
      stays the raw text. */
  lemma AutoFollowsDetection(ev: Evaluator, value: string, name: string)
    requires !IsListLiteral(value) && !IsBraced(value) && ' ' in value
    ensures var items := SplitWs(value);
      LooksLikeList(value, name) ==>
        ConvertAuto(ev, value, name) == Some(List(if AllNumeric(items) then Integers(items) else Strings(items)))
    ensures !LooksLikeList(value, name) ==> ConvertAuto(ev, value, name) == Some(Str(value))
  {
  }

  /** The decimal numerals of some integers. */
  function Numerals(ns: seq<int>): seq<string>
  {
    seq(|ns|, i requires 0 <= i < |ns| => FormatInt(ns[i]))
  }

  /** In `auto` mode two or more integers joined by spaces come back as
      the list of those integers, whatever the name. */
  lemma AutoIntegerList(ev: Evaluator, ns: seq<int>, name: string)
    requires |ns| >= 2
    ensures var r := ConvertAuto(ev, Join(" ", Numerals(ns)), name);
      r.Some? && r.value.List? && |r.value.items| == |ns|
      && forall i :: 0 <= i < |ns| ==> r.value.items[i] == Int(ns[i])
  {
    var ws := Numerals(ns);
    NumeralWords(ns, ws);
    JoinedWords(ws);
    AutoSplits(ev, Join(" ", ws), name, ws);
  }

  lemma NumeralWords(ns: seq<int>, ws: seq<string>)
    requires |ws| == |ns| && forall i :: 0 <= i < |ns| ==> ws[i] == FormatInt(ns[i])
    ensures AllNumeric(ws)
    ensures forall i :: 0 <= i < |ws| ==> IsBareWord(ws[i]) && ParseInt(ws[i]) == Some(ns[i])
  {
    forall i | 0 <= i < |ws|
      ensures IsBareWord(ws[i]) && ParseInt(ws[i]) == Some(ns[i])
    {
      ParseFormatInt(ns[i]);
      ParsedIsNumeral(ws[i]);
    }
  }

  /** In `auto` mode two or more bare words joined by spaces, not all of
      them integers, come back as the list of those words under a hinting
      name and as the raw text under any other. */
  lemma AutoWordList(ev: Evaluator, ws: seq<string>, name: string)
    requires |ws| >= 2 && !AllNumeric(ws)
    requires forall i :: 0 <= i < |ws| ==> IsBareWord(ws[i])
    ensures var r := ConvertAuto(ev, Join(" ", ws), name);
      HasListHint(name) ==>
        r.Some? && r.value.List? && |r.value.items| == |ws|
        && forall i :: 0 <= i < |ws| ==> r.value.items[i] == Str(ws[i])
    ensures !HasListHint(name) ==> ConvertAuto(ev, Join(" ", ws), name) == Some(Str(Join(" ", ws)))
  {
    JoinedWords(ws);
    AutoSplits(ev, Join(" ", ws), name, ws);
  }

  lemma AutoSplits(ev: Evaluator, s: string, name: string, items: seq<string>)
    requires !IsListLiteral(s) && !IsBraced(s) && ' ' in s && SplitWs(s) == items && |items| > 1
    ensures AllNumeric(items) ==> ConvertAuto(ev, s, name) == Some(List(Integers(items)))
    ensures !AllNumeric(items) && HasListHint(name) ==> ConvertAuto(ev, s, name) == Some(List(Strings(items)))
    ensures !AllNumeric(items) && !HasListHint(name) ==> ConvertAuto(ev, s, name) == Some(Str(s))
  {
  }

  /** In `auto` mode a braced value loses its one pair of braces. */
  lemma AutoStripsBraces(ev: Evaluator, s: string, name: string)
    ensures ConvertAuto(ev, "{" + s + "}", name) == Some(Str(s))
  {
    var b := "{" + s + "}";
    assert b[0] == '{';
    assert !IsListLiteral(b) by {
      if |b| >= 6 {
        assert b[..6][0] == '{';
      }
    }
    assert IsBraced(b) by {
      assert b[..1] == "{";
      assert b[|b| - 1..] == "}";
    }
    assert Unbrace(b) == s;
  }

  /** An array none of whose cells decodes is left out of the document. */
  lemma EmptyArrayOmitted(ev: Evaluator, st: State, mode: Mode, n: string)
    requires n in st.arrays && n != TypesName && n !in st.defaults
    requires RebuildCells(ev, st, HasTypes(ev, st), n, ev.arrayNames(st.arrays[n]), 0, [], mode) == []
    ensures n !in Keys(ToDict(ev, st, mode))
  {
    ToDictLookup(ev, st, mode, n);
  }

  // ---------------------------------------------------------------------
  // The round trip of a flat document

  /** `info vars` lists every variable and nothing else. */
  ghost predicate ListsAll(ev: Evaluator)
  {
    forall vs: Vars, n: string :: n in ev.infoVars(vs) <==> n in vs.scalars || n in vs.arrays
  }

  /** A key the `set` commands of the projector take as one plain variable
      name: a bare word without parentheses, which would name an array
      cell, and without colons, which could form a `::` namespace
      qualifier. */
  predicate IsPlainName(k: string)
  {
    IsBareWord(k) && '(' !in k && ')' !in k && ':' !in k
  }

  /** A document of distinct top-level plain keys other than the type
      table, each holding a storable leaf without `$`. */
  predicate FlatEntries(es: Entries)
    decreases |es|
  {
    es == [] ||
      (es[0].0 != TypesName && IsPlainName(es[0].0) && Storable(es[0].1) && '$' !in Stored(es[0].1)
       && es[0].0 !in Keys(es[1..]) && FlatEntries(es[1..]))
  }

  lemma {:induction false} FlatLookup(es: Entries, k: string)
    requires FlatEntries(es) && k in Keys(es)
    ensures k != TypesName && Storable(Lookup(es, k).value) && '$' !in Stored(Lookup(es, k).value)
    decreases |es|
  {
    if es[0].0 != k {
      FlatLookup(es[1..], k);
    }
  }

  /** The store after one top-level leaf is written: a default array of
      the same name is gone. */
  function WriteOne(st: State, k: string, v: Value): State
  {
    State(st.scalars[k := Stored(v)], st.arrays[TypesName := st.CellsOf(TypesName)[k := Tag(v)]] - {k}, st.defaults - {k})
  }

  /** The store after a flat document is written. */
  function FlatWrite(st: State, es: Entries): State
    decreases |es|
  {
    if es == [] then st else FlatWrite(WriteOne(st, es[0].0, es[0].1), es[1..])
  }

  lemma {:induction false} SetAllFlat(ev: Evaluator, st: State, data: Entries, i: nat)
    requires i <= |data| && FlatEntries(data[i..])
    requires TypesName !in st.scalars
    requires forall n :: n in Keys(data[i..]) ==> n !in st.arrays || (n in st.defaults && n !in st.scalars)
    ensures SetAll(ev, st, data, i) == Outcome(FlatWrite(st, data[i..]), true)
    decreases |data| - i
  {
    if i < |data| {
      var es := data[i..];
      assert es[0] == data[i] && es[1..] == data[i + 1..];
      var k := data[i].0;
      var v := data[i].1;
      assert k in Keys(es) && Keys(data[i + 1..]) <= Keys(es);
      assert !v.Dict? && SetVar(ev, st, k, [], v) == SetLeaf(ev, st, k, [], v);
      SetLeafScalar(ev, st, k, v);
      var next := WriteOne(st, k, v);
      assert SetAll(ev, st, data, i) == SetAll(ev, next, data, i + 1);
      assert FlatEntries(data[i + 1..]);
      forall n | n in Keys(data[i + 1..])
        ensures n !in next.arrays || (n in next.defaults && n !in next.scalars)
      {
        FlatLookup(data[i + 1..], n);
      }
      SetAllFlat(ev, next, data, i + 1);
    }
  }

  lemma {:induction false} FlatWriteFacts(st: State, es: Entries, n: string)
    requires FlatEntries(es) && TypesName in st.arrays && TypesName !in st.scalars && n != TypesName
    ensures var r := FlatWrite(st, es);
      && TypesName in r.arrays && TypesName !in r.scalars
      && r.arrays.Keys == st.arrays.Keys - Keys(es)
      && r.defaults == st.defaults - Keys(es)
      && (n in Keys(es) ==>
            n in r.scalars && n !in r.arrays && r.scalars[n] == Stored(Lookup(es, n).value)
            && n in r.arrays[TypesName] && r.arrays[TypesName][n] == Tag(Lookup(es, n).value))
      && (n !in Keys(es) ==>
            ScalarAt(r, n) == ScalarAt(st, n) && ArrayAt(r, n) == ArrayAt(st, n)
            && (n in r.arrays[TypesName] <==> n in st.arrays[TypesName])
            && (n in st.arrays[TypesName] ==> r.arrays[TypesName][n] == st.arrays[TypesName][n]))
    decreases |es|
  {
    if es != [] {
      FlatWriteFacts(WriteOne(st, es[0].0, es[0].1), es[1..], n);
    }
  }

  /** After a flat document is written into a fresh interpreter, no slot
      the resolution pass may rewrite holds a `$`. */
  lemma FlatWriteResolved(ev: Evaluator, init: State, data: Entries)
    requires FlatEntries(data) && TypesName in init.arrays && TypesName !in init.scalars
    requires forall n :: (n in init.scalars || n in init.arrays) && n != TypesName ==> n in init.defaults
    ensures Resolve(ev, FlatWrite(init, data)) == FlatWrite(init, data)
  {
    var r := FlatWrite(init, data);
    forall n | n in r.scalars && Resolvable(r, n)
      ensures '$' !in r.scalars[n]
    {
      assert StartsWith(TypesName, TypesName);
      FlatWriteFacts(init, data, n);
      if n in Keys(data) {
        FlatLookup(data, n);
      }
    }
    forall n | n in r.arrays
      ensures !Resolvable(r, n)
    {
      assert StartsWith(TypesName, TypesName);
      if n != TypesName {
        FlatWriteFacts(init, data, n);
      }
    }
    ResolveWithoutReferences(ev, r);
  }

  /** The store a flat document leaves: its leaves written one by one,
      with nothing for the resolution pass to rewrite. */
  lemma FlatLoadState(ev: Evaluator, st: State, data: Entries)
    requires FlatEntries(data) && st.Valid() && TypesName !in st.scalars
    requires forall n :: n in st.scalars || n in st.arrays ==> n in st.defaults
    ensures Load(ev, st, data) == Outcome(FlatWrite(InitTypes(st).st, data), true)
  {
    var init := InitTypes(st).st;
    assert init.scalars == st.scalars && init.arrays.Keys == st.arrays.Keys + {TypesName};
    assert data[0..] == data;
    forall n | n in Keys(data)
      ensures n !in init.arrays || (n in init.defaults && n !in init.scalars)
    {
      FlatLookup(data, n);
    }
    SetAllFlat(ev, init, data, 0);
    FlatWriteResolved(ev, init, data);
  }

  /** Loading a flat document into a fresh interpreter and reading it back
      gives every key its value again, in any mode; a key that names a
      default variable, scalar or array, overrides it. */
  lemma FlatRoundTrip(ev: Evaluator, st: State, data: Entries, mode: Mode, n: string)
    requires ListsAll(ev)
    requires FlatEntries(data) && st.Valid() && TypesName !in st.scalars
    requires forall k :: k in st.scalars || k in st.arrays ==> k in st.defaults
    ensures Load(ev, st, data).ok
    ensures Lookup(ToDict(ev, Load(ev, st, data).st, mode), n) == Lookup(data, n)
  {
    FlatLoadState(ev, st, data);
    var init := InitTypes(st).st;
    assert TypesName in init.arrays && init.scalars == st.scalars;
    var r := FlatWrite(init, data);
    ToDictLookup(ev, r, mode, n);
    assert HasTypes(ev, r) by {
      FlatWriteFacts(init, data, "");
    }
    if n == TypesName {
      if n in Keys(data) {
        FlatLookup(data, n);
      }
    } else {
      FlatWriteFacts(init, data, n);
      if n in Keys(data) {
        var v := Lookup(data, n).value;
        FlatLookup(data, n);
        TypedRoundTrip(ev, v);
        TagIsBare(v);
        assert VarEntry(ev, r, true, n, mode) == ConvertTagged(ev, Stored(v), Tag(v));
      }
    }
  }

  // ---------------------------------------------------------------------
  // Exporting

  /** The exported variables are the listed names that are not defaults,
      plus the type table whenever it is listed. */
  lemma {:induction false} ExportedNames(names: seq<string>, defaults: set<string>, n: string)
    ensures n in Exported(names, defaults) <==> n in names && (n !in defaults || n == TypesName)
    decreases |names|
  {
    if names != [] {
      ExportedNames(names[1..], defaults, n);
      assert names == [names[0]] + names[1..];
    }
  }

  lemma {:induction false} VarsLinesHas(ev: Evaluator, st: State, names: seq<string>, i: nat, j: nat, line: string)
    requires i <= j < |names| && line in VarLines(ev, st, names[j])
    ensures line in VarsLines(ev, st, names, i)
    decreases j - i
  {
    var here := VarLines(ev, st, names[i]);
    var rest := VarsLines(ev, st, names, i + 1);
    assert VarsLines(ev, st, names, i) == here + rest;
    if i < j {
      VarsLinesHas(ev, st, names, i + 1, j, line);
      assert line in rest;
    } else {
      assert line in here;
    }
  }

  /** Every listed scalar that is not a default is written as one `set`
      line with its value quoted as the encoder quotes it. */
  lemma ExportScalarLine(ev: Evaluator, st: State, n: string)
    requires st.Valid() && n in st.scalars && n !in st.defaults
    requires n in ev.infoVars(st.Variables())
    ensures "set " + n + " " + EncodeString(st.scalars[n]) in ExportLines(ev, st)
  {
    var names := ev.infoVars(st.Variables());
    var chosen := Exported(names, st.defaults);
    ExportedNames(names, st.defaults, n);
    var j :| 0 <= j < |chosen| && chosen[j] == n;
    VarsLinesHas(ev, st, chosen, 0, j, "set " + n + " " + EncodeString(st.scalars[n]));
  }

  /** The type table is exported after a header that recreates it,
      whenever it is listed and is an array. */
  lemma ExportTypeHeader(ev: Evaluator, st: State)
    requires TypesName in ev.infoVars(st.Variables()) && TypesName in st.arrays
    ensures "array set __configkit_types__ {}" in ExportLines(ev, st)
  {
    var body := VarsLines(ev, st, Exported(ev.infoVars(st.Variables()), st.defaults), 0);
    var cells := st.arrays[TypesName];
    var all := body + TypeHeader + TypeLines(cells, ev.arrayNames(cells), 0);
    assert all[|body| + 2] == TypeHeader[2];
  }

  lemma {:induction false} TypeLinesHas(cells: map<string, string>, idxs: seq<string>, j: nat, k: nat)
    requires j <= k < |idxs| && idxs[k] in cells
    ensures "set " + TypesName + "(" + ExportQuoteAsWritten(idxs[k]) + ") " + cells[idxs[k]] in TypeLines(cells, idxs, j)
    decreases k - j
  {
    if j < k {
      TypeLinesHas(cells, idxs, j + 1, k);
    }
  }

  /** Every recorded tag is exported after the header as a `set` line
      whose index is quoted with the exporter's own rule, so an empty
      index is written `()`, and the tag is written bare. */
  lemma ExportTypeLine(ev: Evaluator, st: State, idx: string)
    requires TypesName in ev.infoVars(st.Variables()) && TypesName in st.arrays
    requires idx in ev.arrayNames(st.arrays[TypesName]) && idx in st.arrays[TypesName]
    ensures "set " + TypesName + "(" + ExportQuoteAsWritten(idx) + ") " + st.arrays[TypesName][idx] in ExportLines(ev, st)
  {
    var body := VarsLines(ev, st, Exported(ev.infoVars(st.Variables()), st.defaults), 0);
    var cells := st.arrays[TypesName];
    var idxs := ev.arrayNames(cells);
    var k :| 0 <= k < |idxs| && idxs[k] == idx;
    TypeLinesHas(cells, idxs, 0, k);
    assert ExportLines(ev, st) == (body + TypeHeader) + TypeLines(cells, idxs, 0);
  }

  /** The export rule as written and the corrected encoder's rule brace
      the same strings, except the empty string and those whose only
      reason for braces is a tab, a newline, a carriage return, `;`, a
      vertical tab or a form feed: the exporter writes those bare. */
  lemma QuotingRulesDiffer(s: string)
    ensures ExportQuoteAsWritten(s) != EncodeString(s) <==>
      s == [] || ((exists i :: 0 <= i < |s| && s[i] in "\t\n\r;\U{000B}\U{000C}") && !(exists i :: 0 <= i < |s| && s[i] in ExportBracedChars))
  {
    if ExportQuoteAsWritten(s) != EncodeString(s) {
      assert |"{" + s + "}"| != |s|;
    }
  }

  /** As written, the exporter leaves bare a value whose words are
      separated by a tab, a newline or a carriage return, so its `set` line
      splits into four words: with a tab or a carriage return `set` refuses
      them, and with a newline Tcl ends the command after `w1` and runs `w2`
      as a command of its own. */
  lemma ExportBlankGap(name: string, w1: string, c: char, w2: string)
    requires IsBareWord(name) && IsBareWord(w1) && IsBareWord(w2) && c in "\t\n\r"
    ensures ExportQuoteAsWritten(w1 + [c] + w2) == w1 + [c] + w2
    ensures SplitWs("set " + name + " " + ExportQuoteAsWritten(w1 + [c] + w2)) == ["set", name, w1, w2]
  {
    var v := w1 + [c] + w2;
    BlankSeparatedIsBare(w1, c, w2);
    SetLineWords(name, v);
    BlankSeparatedWords(w1, c, w2);
  }

  /** As written, the exporter leaves the empty value bare, so
      `set name ` reads `name` instead of writing it. */
  lemma ExportEmptyGap(name: string)
    requires IsBareWord(name)
    ensures ExportQuoteAsWritten("") == ""
    ensures SplitWs("set " + name + " " + ExportQuoteAsWritten("")) == ["set", name]
  {
    var q := ExportQuoteAsWritten("");
    assert !(exists i :: 0 <= i < |q| && q[i] in ExportBracedChars);
    assert "set " + name + " " + q == "set " + name + " " + "";
    SetLineWords(name, "");
    assert SplitWs("") == [];
  }

  lemma BlankSeparatedIsBare(w1: string, c: char, w2: string)
    requires IsBareWord(w1) && IsBareWord(w2) && c in "\t\n\r"
    ensures ExportQuoteAsWritten(w1 + [c] + w2) == w1 + [c] + w2
  {
    var v := w1 + [c] + w2;
    forall i | 0 <= i < |v|
      ensures v[i] !in ExportBracedChars
    {
      if i < |w1| {
        assert v[i] == w1[i];
      } else if i > |w1| {
        assert v[i] == w2[i - |w1| - 1];
      }
    }
  }

  lemma BlankSeparatedWords(w1: string, c: char, w2: string)
    requires IsBareWord(w1) && IsBareWord(w2) && c in "\t\n\r"
    ensures SplitWs(w1 + [c] + w2) == [w1, w2]
  {
    assert NoSpace(w1) && NoSpace(w2) && IsSpace(c);
    SplitWsBlank(w1, c, w2);
    SplitWsWord(w2);
  }

  /** The words of a `set` line: `set`, the name, then the words of the
      value. */
  lemma SetLineWords(name: string, v: string)
    requires IsBareWord(name)
    ensures SplitWs("set " + name + " " + v) == ["set", name] + SplitWs(v)
  {
    assert NoSpace(name) && NoSpace("set");
    assert "set " == "set" + " ";
    SplitWsTwoWords("set", name, v);
  }

  // ---------------------------------------------------------------------
  // The empty string

  /** As written, the empty string is encoded as nothing at all, so the
      command that should write it under a name the interpreter does not
      hold is a read of a missing variable, and fails. */
  lemma EmptyStringWriteFails(ev: Evaluator, st: State, x: string)
    requires x !in st.scalars
    ensures EncodeStringAsWritten("") == ""
    ensures !SetScalar(ev, st, x, EncodeStringAsWritten("")).ok
  {
    assert !NeedsBraces("");
  }

  /** With the corrected encoding the empty string is written as `{}`, and
      `set` stores it. */
  lemma EmptyStringStored(ev: Evaluator, st: State, x: string)
    requires x !in st.arrays
    ensures Encode(Str("")) == "{}"
    ensures SetScalar(ev, st, x, Encode(Str(""))) == Outcome(st.(scalars := st.scalars[x := ""]), true)
  {
    EncodedStringReadsBack(ev, "");
  }
}
