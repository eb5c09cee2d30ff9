/** The value codec: `value_format_py2tcl` writes a document value as a Tcl
    literal, `detect_tcl_list` guesses whether a string is a list, and
    `value_format_tcl2py` reads a literal back by trying its rules in order:
    empty, number, boolean word, `[list …]`, heuristic list,
    `[dict create …]`, and otherwise the raw string. */
module ValueConverter {
  import opened Wrappers
  import opened Text
  import opened Document
  import opened Tcl

  // ---------------------------------------------------------------------
  // Python to Tcl

  /** The characters that make `value_format_py2tcl` brace a string. */
  const BracedChars: string := " \t\n\r{}[]$\"\\"

  predicate NeedsBraces(s: string)
  {
    exists i :: 0 <= i < |s| && s[i] in BracedChars
  }

  /** A string as `value_format_py2tcl` writes it: braced when it holds a
      blank or a special character.  The empty string is left as nothing
      at all, which is the first finding. */
  function EncodeStringAsWritten(s: string): string
  {
    if NeedsBraces(s) then "{" + s + "}" else s
  }

  /** Characters the encoder leaves bare although they stop a string from
      being one Tcl word: `;` ends the command, and a vertical tab or a
      form feed separates words.  This is the second finding. */
  const CommandBreakChars: string := ";\U{000B}\U{000C}"

  predicate BreaksCommand(s: string)
  {
    exists i :: 0 <= i < |s| && s[i] in CommandBreakChars
  }

  /** The string encoding the rest of the model uses: as written, except
      that the empty string and a string holding `;`, a vertical tab or a
      form feed are braced too, so that each is still one word. */
  function EncodeString(s: string): string
  {
    if s == [] || NeedsBraces(s) || BreaksCommand(s) then "{" + s + "}" else s
  }

  /** `value_format_py2tcl`, with strings quoted by the corrected
      `EncodeString`.  Its output is never empty, and it starts with a
      bracket exactly for a list or a dictionary, whose encodings the
      decoder recognises as `[list …]` and `[dict create …]` literals.
      The code as written encodes `""` as the empty literal and leaves a
      string with `;`, a vertical tab or a form feed bare; that rule is
      kept as `EncodeStringAsWritten`. */
  function Encode(v: Value): (r: string)
    ensures r != []
    ensures v.List? ==> IsListLiteral(r)
    ensures v.Dict? ==> IsDictLiteral(r)
    ensures r[0] == '[' <==> v.List? || v.Dict?
    decreases v
  {
    match v
    case Null => "\"\""
    case Bool(b) => if b then "1" else "0"
    case Int(n) =>
      ParseFormatInt(n);
      ParsedIsNumeral(FormatInt(n));
      FormatInt(n)
    case Str(s) =>
      assert s != [] && !NeedsBraces(s) ==> s[0] !in BracedChars;
      EncodeString(s)
    case List(xs) =>
      var w := "[list " + Join(" ", seq(|xs|, i requires 0 <= i < |xs| => Encode(xs[i]))) + "]";
      assert w[..6] == "[list " && w[|w| - 1..] == "]";
      w
    case Dict(es) =>
      var w := "[dict create "
        + Join(" ", seq(|es|, i requires 0 <= i < |es| => EncodeString(es[i].0) + " " + Encode(es[i].1)))
        + "]";
      assert w[..13] == "[dict create " && w[|w| - 1..] == "]";
      w
  }

  // ---------------------------------------------------------------------
  // Recognising literals

  predicate IsListLiteral(s: string)
  {
    StartsWith(s, "[list ") && EndsWith(s, "]")
  }

  predicate IsDictLiteral(s: string)
  {
    StartsWith(s, "[dict create ") && EndsWith(s, "]")
  }

  predicate IsBraced(s: string)
  {
    StartsWith(s, "{") && EndsWith(s, "}")
  }

  /** `s[1:-1]` of a braced value: the text between the braces. */
  function Unbrace(s: string): (r: string)
    requires IsBraced(s)
    ensures "{" + r + "}" == s
  {
    assert s[0] == '{' && s[|s| - 1] == '}';
    s[1..|s| - 1]
  }

  /** The text between `[list ` and the closing bracket. */
  function ListBody(s: string): (r: string)
    requires IsListLiteral(s)
    ensures |r| < |s|
  {
    assert s[5] == ' ';
    s[6..|s| - 1]
  }

  /** The text from index 12 to the closing bracket: the space that ends
      `[dict create ` is included (and later stripped). */
  function DictBody(s: string): (r: string)
    requires IsDictLiteral(s)
    ensures |r| < |s|
  {
    assert s[12] == ' ';
    s[12..|s| - 1]
  }

  /** A token `detect_tcl_list` counts as a number.  Only integers are
      modelled, so a token is a number when `int` accepts it. */
  predicate IsNumeric(tok: string)
  {
    ParseInt(tok).Some?
  }

  predicate AllNumeric(toks: seq<string>)
  {
    forall i :: 0 <= i < |toks| ==> IsNumeric(toks[i])
  }

  /** The variable name suggests a list. */
  predicate HasListHint(name: string)
  {
    var n := Lower(name);
    name != ""
      && (IsInfix("list", n) || IsInfix("array", n) || IsInfix("items", n)
          || IsInfix("elements", n) || IsInfix("values", n))
  }

  /** The decision `detect_tcl_list` makes. */
  predicate LooksLikeList(s: string, name: string)
  {
    if IsListLiteral(s) || IsBraced(s) || ' ' !in s then false
    else
      var items := SplitWs(s);
      |items| > 1 && (AllNumeric(items) || HasListHint(name))
  }

  /** `detect_tcl_list`, with its loop that clears a flag at the first
      token that is not a number. */
  method DetectTclList(s: string, name: string) returns (r: bool)
    ensures r == LooksLikeList(s, name)
  {
    if IsListLiteral(s) {
      return false;
    }
    if IsBraced(s) {
      return false;
    }
    if ' ' !in s {
      return false;
    }
    var byName := HasListHint(name);
    var items := SplitWs(s);
    var allNumbers := true;
    var i := 0;
    while i < |items|
      invariant 0 <= i <= |items|
      invariant allNumbers && AllNumeric(items[..i])
    {
      if !IsNumeric(items[i]) {
        allNumbers := false;
        break;
      }
      i := i + 1;
    }
    assert allNumbers ==> items[..i] == items;
    if allNumbers && |items| > 1 {
      return true;
    }
    if byName && |items| > 1 {
      return true;
    }
    return false;
  }

  // ---------------------------------------------------------------------
  // Tcl to Python

  /** `value_format_tcl2py`; `None` where it raises.  Every element the
      evaluator hands back is shorter than the literal, which bounds the
      recursion. */
  function Decode(ev: Evaluator, s: string): (r: Option<Value>)
    ensures r.None? ==> IsListLiteral(s) || LooksLikeList(s, "")
    decreases |s|, 1
  {
    if ScalarRule(s).Some? then ScalarRule(s)
    else if IsListLiteral(s) then
      if Strip(ListBody(s)) == "" then Some(List([]))
      else
        match ev.evalItems(s)
        case None => None
        case Some(items) => AsList(DecodeAll(ev, items, |s|))
    else if LooksLikeList(s, "") then
      match ev.splitList(s)
      case None => None
      case Some(items) => AsList(DecodeAll(ev, items, |s|))
    else if IsDictLiteral(s) then
      if Strip(DictBody(s)) == "" then Some(Dict([]))
      else
        match ev.evalItems(s)
        case None => Some(Str(s))
        case Some(items) =>
          match DecodePairs(ev, items, 0, [], |s|)
          case None => Some(Str(s))
          case Some(es) => Some(Dict(es))
    else Some(Str(s))
  }

  /** The first rules of `value_format_tcl2py`: the empty literal, an
      integer, and the boolean words; `None` when none applies. */
  function ScalarRule(s: string): Option<Value>
  {
    if s == "" || s == "\"\"" then Some(Null)
    else if '.' !in s && ParseInt(s).Some? then Some(Int(ParseInt(s).value))
    else if s == "1" || Lower(s) == "true" then Some(Bool(true))
    else if s == "0" || Lower(s) == "false" then Some(Bool(false))
    else None
  }

  /** The comprehension `[value_format_tcl2py(item) for item in items]`:
      `None` as soon as one element raises. */
  function DecodeAll(ev: Evaluator, items: seq<string>, ghost n: nat): (r: Option<seq<Value>>)
    requires forall j :: 0 <= j < |items| ==> |items[j]| < n
    ensures r.Some? ==> |r.value| == |items|
    decreases n, 0, |items|
  {
    if items == [] then Some([])
    else
      match Decode(ev, items[0])
      case None => None
      case Some(x) =>
        match DecodeAll(ev, items[1..], n)
        case None => None
        case Some(xs) => Some([x] + xs)
  }

  function AsList(xs: Option<seq<Value>>): Option<Value>
  {
    if xs.Some? then Some(List(xs.value)) else None
  }

  /** Decoding fails, or gives a value Python cannot use as a key. */
  predicate BadKey(k: Option<Value>)
  {
    k.None? || k.value.List? || k.value.Dict?
  }

  /** The stepped loop over key/value elements from position `i` on, with
      `acc` the dictionary built so far.  An odd last element is ignored;
      `None` where a key or value raises or a key is unhashable. */
  function DecodePairs(ev: Evaluator, items: seq<string>, i: nat, acc: Entries, ghost n: nat): Option<Entries>
    requires forall j :: 0 <= j < |items| ==> |items[j]| < n
    requires i <= |items| + 1
    decreases n, 0, |items| + 1 - i
  {
    if i + 1 >= |items| then Some(acc)
    else
      var k := Decode(ev, items[i]);
      var v := Decode(ev, items[i + 1]);
      if BadKey(k) || v.None? then None
      else DecodePairs(ev, items, i + 2, Put(acc, items[i], v.value), n)
  }

  /** The loop that fills `result_dict`, stepping over the elements two at
      a time. */
  method DecodeDictItems(ev: Evaluator, items: seq<string>, ghost n: nat) returns (r: Option<Entries>)
    requires forall j :: 0 <= j < |items| ==> |items[j]| < n
    ensures r == DecodePairs(ev, items, 0, [], n)
  {
    var acc: Entries := [];
    var i := 0;
    while i < |items|
      invariant i <= |items| + 1
      invariant DecodePairs(ev, items, i, acc, n) == DecodePairs(ev, items, 0, [], n)
      decreases |items| + 1 - i
    {
      if i + 1 < |items| {
        var key := Decode(ev, items[i]);
        var value := Decode(ev, items[i + 1]);
        if BadKey(key) || value.None? {
          return None;
        }
        acc := Put(acc, items[i], value.value);
      }
      i := i + 2;
    }
    return Some(acc);
  }

  /** Position `j` holds a key the loop started at `i` visits: it is
      reached in steps of two and has a value after it. */
  predicate IsKeyAt(items: seq<string>, i: nat, j: int)
  {
    i <= j && j + 1 < |items| && (j - i) % 2 == 0
  }

  /** The pair at key position `j` makes the `try` give up: the key fails
      to decode or is unhashable, or the value fails to decode. */
  predicate PairFails(ev: Evaluator, items: seq<string>, j: nat)
    requires j + 1 < |items|
  {
    BadKey(Decode(ev, items[j])) || Decode(ev, items[j + 1]).None?
  }

  /** No later key position holds the same key as `j`. */
  predicate LastKeyAt(items: seq<string>, i: nat, j: nat)
    requires j < |items|
  {
    forall j' :: j < j' < |items| && IsKeyAt(items, i, j') ==> items[j'] != items[j]
  }

  /** The key positions from `i` on are `i` and those from `i + 2` on. */
  lemma KeyPositionsStep(items: seq<string>, i: nat)
    ensures forall j :: IsKeyAt(items, i, j) <==> (j == i && i + 1 < |items|) || IsKeyAt(items, i + 2, j)
  {
  }

  /** The pairs loop fails exactly when one of the pairs it visits fails. */
  lemma {:induction false} DecodePairsFails(ev: Evaluator, items: seq<string>, i: nat, acc: Entries, n: nat)
    requires forall j :: 0 <= j < |items| ==> |items[j]| < n
    requires i <= |items| + 1
    ensures DecodePairs(ev, items, i, acc, n).None? <==>
      exists j :: IsKeyAt(items, i, j) && PairFails(ev, items, j)
    decreases |items| + 1 - i
  {
    if i + 1 >= |items| {
      assert forall j :: !IsKeyAt(items, i, j);
    } else if PairFails(ev, items, i) {
      assert IsKeyAt(items, i, i);
    } else {
      var v := Decode(ev, items[i + 1]);
      var acc' := Put(acc, items[i], v.value);
      assert DecodePairs(ev, items, i, acc, n) == DecodePairs(ev, items, i + 2, acc', n);
      DecodePairsFails(ev, items, i + 2, acc', n);
      KeyPositionsStep(items, i);
    }
  }

  /** When the pairs loop succeeds, its dictionary has unique keys, holds
      exactly the keys it visits besides those of `acc`, maps each key to
      the decoded value after its last occurrence, and keeps `acc`'s value
      for a key it never visits. */
  lemma {:induction false} DecodePairsEntries(ev: Evaluator, items: seq<string>, i: nat, acc: Entries, n: nat, r: Entries)
    requires forall j :: 0 <= j < |items| ==> |items[j]| < n
    requires i <= |items| + 1
    requires DecodePairs(ev, items, i, acc, n) == Some(r)
    ensures UniqueKeys(acc) ==> UniqueKeys(r)
    ensures forall k :: k in Keys(r) <==> k in Keys(acc) || exists j :: IsKeyAt(items, i, j) && items[j] == k
    ensures forall j :: IsKeyAt(items, i, j) && LastKeyAt(items, i, j) ==> Lookup(r, items[j]) == Decode(ev, items[j + 1])
    ensures forall k :: (forall j :: IsKeyAt(items, i, j) ==> items[j] != k) ==> Lookup(r, k) == Lookup(acc, k)
    decreases |items| + 1 - i
  {
    KeyPositionsStep(items, i);
    if i + 1 >= |items| {
      assert r == acc;
    } else {
      var v := Decode(ev, items[i + 1]);
      var acc' := Put(acc, items[i], v.value);
      assert !PairFails(ev, items, i) && DecodePairs(ev, items, i + 2, acc', n) == Some(r);
      DecodePairsEntries(ev, items, i + 2, acc', n, r);
      forall j | IsKeyAt(items, i, j) && LastKeyAt(items, i, j)
        ensures Lookup(r, items[j]) == Decode(ev, items[j + 1])
      {
        if j == i {
          assert forall j' :: IsKeyAt(items, i + 2, j') ==> items[j'] != items[i];
        } else {
          assert LastKeyAt(items, i + 2, j);
        }
      }
    }
  }

  /** A non-empty `[dict create …]` literal always decodes: to the raw
      string exactly when the evaluator rejects it or one of its pairs
      fails, and otherwise to a dictionary. */
  lemma DictLiteralDecodes(ev: Evaluator, s: string)
    requires IsDictLiteral(s) && Strip(DictBody(s)) != ""
    ensures Decode(ev, s).Some?
    ensures Decode(ev, s) == Some(Str(s)) <==>
      ev.evalItems(s).None? || exists j :: IsKeyAt(ev.evalItems(s).value, 0, j) && PairFails(ev, ev.evalItems(s).value, j)
    ensures Decode(ev, s) == Some(Str(s)) || Decode(ev, s).value.Dict?
  {
    DictLiteralRule(ev, s);
    if ev.evalItems(s).Some? {
      DecodePairsFails(ev, ev.evalItems(s).value, 0, [], |s|);
    }
  }

  /** The dictionary a non-empty `[dict create …]` literal decodes to has
      unique keys, holds exactly the keys of the evaluated elements, and
      maps each to the decoded value after its last occurrence. */
  lemma DecodedDictEntries(ev: Evaluator, s: string, es: Entries)
    requires IsDictLiteral(s) && Strip(DictBody(s)) != ""
    requires Decode(ev, s) == Some(Dict(es))
    ensures ev.evalItems(s).Some?
    ensures UniqueKeys(es)
    ensures forall k :: k in Keys(es) <==> exists j :: IsKeyAt(ev.evalItems(s).value, 0, j) && ev.evalItems(s).value[j] == k
    ensures forall j :: IsKeyAt(ev.evalItems(s).value, 0, j) && LastKeyAt(ev.evalItems(s).value, 0, j) ==>
      Lookup(es, ev.evalItems(s).value[j]) == Decode(ev, ev.evalItems(s).value[j + 1])
  {
    DictLiteralRule(ev, s);
    var items := ev.evalItems(s).value;
    DecodePairsEntries(ev, items, 0, [], |s|, es);
  }

  /** The rule a non-empty dictionary literal reaches. */
  lemma DictLiteralRule(ev: Evaluator, s: string)
    requires IsDictLiteral(s) && Strip(DictBody(s)) != ""
    ensures ev.evalItems(s).None? ==> Decode(ev, s) == Some(Str(s))
    ensures ev.evalItems(s).Some? ==>
      var d := DecodePairs(ev, ev.evalItems(s).value, 0, [], |s|);
      Decode(ev, s) == if d.None? then Some(Str(s)) else Some(Dict(d.value))
  {
    DictLiteralNotList(s);
    NotScalarWord(s);
  }

  // ---------------------------------------------------------------------
  // Properties of the encoder and the decoder

  /** A string that does not start with a digit or a sign is no integer. */
  lemma NotNumber(s: string)
    requires s != [] && !IsDigit(s[0]) && s[0] != '-' && s[0] != '+'
    ensures ParseInt(s).None?
  {
  }

  /** A literal whose first character cannot start a number, a boolean word
      or `""` passes the first rules of the decoder. */
  lemma NotScalarWord(s: string)
    requires s != [] && !IsDigit(s[0]) && s[0] != '-' && s[0] != '+' && s[0] != '"'
    requires LowerChar(s[0]) != 't' && LowerChar(s[0]) != 'f'
    ensures ScalarRule(s).None?
  {
    NotNumber(s);
    assert Lower(s)[0] == LowerChar(s[0]);
  }

  /** A string that starts with neither `[` nor `{` is no literal the
      decoder recognises by its shape. */
  lemma NotBracketed(s: string)
    requires s != [] && s[0] != '[' && s[0] != '{'
    ensures !IsListLiteral(s) && !IsDictLiteral(s) && !IsBraced(s)
  {
    if |s| >= 6 { assert s[..6][0] == s[0]; }
    if |s| >= 13 { assert s[..13][0] == s[0]; }
    assert s[..1][0] == s[0];
  }

  /** A dictionary literal is neither a list literal nor, without a name
      hint, a heuristic list: its first token starts with `[`. */
  lemma DictLiteralNotList(s: string)
    requires IsDictLiteral(s)
    ensures s[0] == '[' && !IsListLiteral(s) && !LooksLikeList(s, "")
  {
    assert s[..13] == "[dict create ";
    assert s[0] == '[' && s[1] == 'd';
    assert s[..6] != "[list " by { assert s[..6][1] == 'd'; }
    if ' ' in s && !IsBraced(s) {
      SplitWsFirst(s);
      var tok := SplitWs(s)[0];
      assert tok[0] == '[';
      NotNumber(tok);
      assert !AllNumeric(SplitWs(s));
    }
  }

  /** `None` is written `""`; `""` and the empty string both read back as
      `None`. */
  lemma NullRoundTrip(ev: Evaluator)
    ensures Encode(Null) == "\"\""
    ensures Decode(ev, Encode(Null)) == Some(Null)
    ensures Decode(ev, "") == Some(Null)
  {
  }

  /** `int(str(n)) == n`: every integer reads back as itself. */
  lemma IntRoundTrip(ev: Evaluator, n: int)
    ensures Decode(ev, Encode(Int(n))) == Some(Int(n))
  {
    ParseFormatInt(n);
  }

  lemma ParseOneZero()
    ensures ParseInt("1") == Some(1) && ParseInt("0") == Some(0)
  {
    assert "1"[..0] == [] && "0"[..0] == [];
  }

  /** Booleans are written `1`/`0` (not as Python's `True`/`False`), and
      since the number rule runs first they read back as the integers 1
      and 0. */
  lemma BoolEncoding(ev: Evaluator, b: bool)
    ensures Encode(Bool(b)) == if b then "1" else "0"
    ensures Decode(ev, Encode(Bool(b))) == Some(Int(if b then 1 else 0))
  {
    ParseOneZero();
  }

  /** Only `true`, in any letter case, reads back as `True`. */
  lemma DecodeTrue(ev: Evaluator, s: string)
    ensures Decode(ev, s) == Some(Bool(true)) <==> Lower(s) == "true"
  {
    ParseOneZero();
    if Lower(s) == "true" {
      assert LowerChar(s[0]) == 't';
      NotNumber(s);
    }
  }

  /** Only `false`, in any letter case, reads back as `False`. */
  lemma DecodeFalse(ev: Evaluator, s: string)
    ensures Decode(ev, s) == Some(Bool(false)) <==> Lower(s) == "false"
  {
    ParseOneZero();
    if Lower(s) == "false" {
      assert LowerChar(s[0]) == 'f';
      NotNumber(s);
      assert Lower(s) != "true";
    }
  }

  /** A list literal with a blank body reads back as the empty list. */
  lemma EmptyListLiteral(ev: Evaluator, s: string)
    requires IsListLiteral(s) && Strip(ListBody(s)) == ""
    ensures Decode(ev, s) == Some(List([]))
  {
    assert s[..6] == "[list ";
    assert s[0] == "[list "[0];
    NotScalarWord(s);
  }

  /** A dictionary literal with a blank body reads back as the empty
      dictionary. */
  lemma EmptyDictLiteral(ev: Evaluator, s: string)
    requires IsDictLiteral(s) && Strip(DictBody(s)) == ""
    ensures Decode(ev, s) == Some(Dict([]))
  {
    DictLiteralNotList(s);
    NotScalarWord(s);
  }

  /** The empty list and the empty dictionary round-trip. */
  lemma EmptyListRoundTrip(ev: Evaluator)
    ensures Encode(List([])) == "[list ]"
    ensures Decode(ev, Encode(List([]))) == Some(List([]))
  {
    var e := Encode(List([]));
    assert Join(" ", []) == "";
    assert e == "[list ]";
    assert IsListLiteral(e) by { assert e[..6] == "[list "; }
    assert ListBody(e) == "";
    EmptyListLiteral(ev, e);
  }

  lemma EmptyDictRoundTrip(ev: Evaluator)
    ensures Encode(Dict([])) == "[dict create ]"
    ensures Decode(ev, Encode(Dict([]))) == Some(Dict([]))
  {
    var e := Encode(Dict([]));
    assert Join(" ", []) == "";
    assert e == "[dict create ]";
    assert IsDictLiteral(e) by { assert e[..13] == "[dict create "; }
    assert DictBody(e) == " ";
    assert Strip(" ") == "" by {
      assert TrimRight(" ") == TrimRight("");
    }
    EmptyDictLiteral(ev, e);
  }

  /** A dictionary literal the evaluator rejects is returned unchanged, as
      a string. */
  lemma RejectedDictIsString(ev: Evaluator, s: string)
    requires IsDictLiteral(s) && Strip(DictBody(s)) != ""
    requires ev.evalItems(s).None?
    ensures Decode(ev, s) == Some(Str(s))
  {
    DictLiteralNotList(s);
    NotScalarWord(s);
  }

  /** A braced literal matches no rule: it is returned unchanged, braces
      included. */
  lemma BracedIsString(ev: Evaluator, s: string)
    ensures Decode(ev, "{" + s + "}") == Some(Str("{" + s + "}"))
  {
    var w := "{" + s + "}";
    NotScalarWord(w);
    assert IsBraced(w);
  }

  /** A plain string that does not look like a number or a boolean word is
      written as it is and reads back as itself. */
  lemma PlainStringRoundTrip(ev: Evaluator, s: string)
    requires IsBareWord(s) && '.' !in s && !IsNumeric(s)
    requires Lower(s) != "true" && Lower(s) != "false"
    ensures Encode(Str(s)) == s
    ensures Decode(ev, Encode(Str(s))) == Some(Str(s))
  {
    BareWordShape(s);
    ParseOneZero();
    assert ScalarRule(s).None?;
    RawStringRule(ev, s);
  }

  /** A bare word is written as it is and is no literal of any kind. */
  lemma BareWordShape(s: string)
    requires IsBareWord(s)
    ensures EncodeString(s) == s && ' ' !in s
    ensures !IsListLiteral(s) && !IsDictLiteral(s) && !LooksLikeList(s, "")
  {
    assert !NeedsBraces(s);
    assert !IsSpecial(s[0]) && IsSpecial('[') && IsSpecial('{');
    NotBracketed(s);
  }

  /** Text no earlier rule takes is kept as the raw string. */
  lemma RawStringRule(ev: Evaluator, s: string)
    requires ScalarRule(s).None? && !IsListLiteral(s) && !LooksLikeList(s, "") && !IsDictLiteral(s)
    ensures Decode(ev, s) == Some(Str(s))
  {
  }

  /** No literal the encoder writes is taken for a list by the heuristic
      the decoder applies (which passes no name). */
  lemma EncodedNeverLooksLikeList(v: Value)
    ensures !LooksLikeList(Encode(v), "")
  {
    match v
    case Int(n) =>
      ParseFormatInt(n);
    case Str(s) =>
      StringNeverLooksLikeList(s);
    case List(xs) =>
      ListNeverLooksLikeList(xs);
    case Dict(es) =>
      DictNeverLooksLikeList(es);
    case Null =>
      assert Encode(v) == "\"\"";
    case Bool(b) =>
      assert Encode(v) == if b then "1" else "0";
  }

  lemma ListNeverLooksLikeList(xs: seq<Value>)
    ensures !LooksLikeList(Encode(List(xs)), "")
  {
    var e := Encode(List(xs));
    assert e[..6] == "[list ";
  }

  lemma DictNeverLooksLikeList(es: Entries)
    ensures !LooksLikeList(Encode(Dict(es)), "")
  {
    var e := Encode(Dict(es));
    assert e[..13] == "[dict create ";
    DictLiteralNotList(e);
  }

  lemma StringNeverLooksLikeList(s: string)
    ensures !LooksLikeList(EncodeString(s), "")
  {
    if s != [] && !NeedsBraces(s) && !BreaksCommand(s) {
      assert EncodeString(s) == s && ' ' !in s;
    } else {
      var e := "{" + s + "}";
      assert EncodeString(s) == e;
      assert e[0] == '{' && e[|e| - 1] == '}';
      assert IsBraced(e);
    }
  }

  /** With no name hint a multi-token string is a list exactly when every
      token is an integer. */
  lemma DetectWithoutName(s: string)
    ensures LooksLikeList(s, "") <==>
      !IsListLiteral(s) && !IsBraced(s) && ' ' in s && |SplitWs(s)| > 1 && AllNumeric(SplitWs(s))
  {
  }

  /** Two or more integers separated by spaces are a list whatever the
      name. */
  lemma IntegersLookLikeList(ns: seq<int>, name: string)
    requires |ns| >= 2
    ensures LooksLikeList(Join(" ", seq(|ns|, i requires 0 <= i < |ns| => FormatInt(ns[i]))), name)
  {
    var ws := seq(|ns|, i requires 0 <= i < |ns| => FormatInt(ns[i]));
    forall i | 0 <= i < |ws|
      ensures ws[i] != [] && NoSpace(ws[i]) && IsNumeric(ws[i])
    {
      ParseFormatInt(ns[i]);
    }
    assert AreWords(ws);
    SplitWsJoin(ws);
    JoinShape(ws);
    var s := Join(" ", ws);
    assert s[0] != '[' && s[0] != '{' by {
      assert s[0] == ws[0][0];
      if ns[0] >= 0 { assert IsDigit(ws[0][0]); }
    }
    NotBracketed(s);
    assert AllNumeric(SplitWs(s));
  }

  /** Bare words joined by single spaces: the heuristic sees exactly those
      words. */
  lemma JoinedWords(ws: seq<string>)
    requires |ws| >= 2
    requires forall i :: 0 <= i < |ws| ==> IsBareWord(ws[i])
    ensures ' ' in Join(" ", ws) && SplitWs(Join(" ", ws)) == ws
    ensures !IsListLiteral(Join(" ", ws)) && !IsBraced(Join(" ", ws))
  {
    assert AreWords(ws);
    SplitWsJoin(ws);
    JoinShape(ws);
    var s := Join(" ", ws);
    assert s[0] != '[' && s[0] != '{' by {
      assert s[0] == ws[0][0];
      assert !IsSpecial(ws[0][0]);
    }
    NotBracketed(s);
  }

  /** Two or more words separated by spaces are a list under a hinting
      name. */
  lemma HintedWordsLookLikeList(ws: seq<string>, name: string)
    requires |ws| >= 2 && HasListHint(name)
    requires forall i :: 0 <= i < |ws| ==> IsBareWord(ws[i])
    ensures LooksLikeList(Join(" ", ws), name)
  {
    JoinedWords(ws);
  }

  /** With no name, words separated by spaces are not a list as soon as
      one of them is not an integer. */
  lemma UnhintedWordsAreNoList(ws: seq<string>, j: nat)
    requires |ws| >= 2 && j < |ws| && !IsNumeric(ws[j])
    requires forall i :: 0 <= i < |ws| ==> IsBareWord(ws[i])
    ensures !LooksLikeList(Join(" ", ws), "")
  {
    JoinedWords(ws);
  }

  /** `color_list` is a hinting name; a braced value is not a list under
      any name. */
  lemma HintExamples(s: string)
    ensures HasListHint("color_list")
    ensures !LooksLikeList("{" + s + "}", "color_list")
  {
    ColorListHint();
    assert IsBraced("{" + s + "}");
  }

  lemma ColorListHint()
    ensures HasListHint("color_list")
  {
    var n := "color_list";
    assert n == "color_" + "list";
    InfixOfSuffix("color_", "list");
    LowerUnchanged(n);
  }

  // ---------------------------------------------------------------------
  // Reading encoded strings back

  /** `set` reads every encoded string without braces or backslashes back
      as itself: an unbraced one is a bare word, and a braced one, the
      empty string included, loses only its braces. */
  lemma EncodedStringReadsBack(ev: Evaluator, s: string)
    requires IsBraceFree(s)
    ensures ev.word(EncodeString(s)) == Some(s)
  {
    if s != [] && !NeedsBraces(s) && !BreaksCommand(s) {
      assert IsBareWord(s);
    }
  }

  /** The encoding as written and the corrected one differ on the empty
      string, which the code writes as nothing at all, and on the strings
      whose only reason for braces is `;`, a vertical tab or a form feed. */
  lemma EmptyStringAsWritten(s: string)
    ensures EncodeStringAsWritten(s) != EncodeString(s) <==> s == [] || (BreaksCommand(s) && !NeedsBraces(s))
    ensures EncodeStringAsWritten("") == ""
  {
    if EncodeStringAsWritten(s) != EncodeString(s) {
      assert |"{" + s + "}"| != |s|;
    }
  }

  /** As written, a string holding `;` is left without braces, so
      `set name a;b` ends the command at the `;`; the corrected encoding
      braces it, and `set` stores it whole. */
  lemma SemicolonLeftBare(ev: Evaluator)
    ensures EncodeStringAsWritten("a;b") == "a;b" && !IsBareWord("a;b")
    ensures EncodeString("a;b") == "{a;b}" && ev.word(EncodeString("a;b")) == Some("a;b")
  {
    assert !NeedsBraces("a;b");
    assert IsSpecial("a;b"[1]);
    assert "a;b"[1] in CommandBreakChars;
    EncodedStringReadsBack(ev, "a;b");
  }
}
