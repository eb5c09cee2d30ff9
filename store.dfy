/** The store projector: `dict2tclinterp` flattens a document into the
    variables of a Tcl interpreter, records a type tag per written leaf in
    the array `__configkit_types__`, evicts overwritten names from the
    default-variable set and then substitutes `$` references;
    `tclinterp2dict` rebuilds a document from the variables; and
    `_write_tcl_vars_to_file` chooses and quotes the lines of an export.

    The interpreter is a `State`: scalar slots, arrays of cells and the set
    of default names.  Each operation is a function from one state to the
    next (an `Outcome` whose `ok` is false where the source raises), and
    the class `Interp` carries out the same operations in place. */
module TclInterpreter {
  import opened Wrappers
  import opened Text
  import opened Document
  import opened Tcl
  import opened ValueConverter

  /** The array that holds the type tags. */
  const TypesName: string := "__configkit_types__"

  datatype State = State(
    scalars: map<string, string>,
    arrays: map<string, map<string, string>>,
    defaults: set<string>)
  {
    /** A Tcl name is a scalar or an array, never both. */
    predicate Valid()
    {
      scalars.Keys !! arrays.Keys
    }

    function Variables(): Vars
    {
      Vars(scalars, arrays)
    }

    /** The cells of an array, empty when there is no such array. */
    function CellsOf(name: string): map<string, string>
    {
      if name in arrays then arrays[name] else map[]
    }
  }

  /** The state after a command, and whether the command succeeded. */
  datatype Outcome = Outcome(st: State, ok: bool)

  // ---------------------------------------------------------------------
  // The Tcl commands the projector issues

  /** `set name literal`.  An empty literal leaves `set name`, which reads
      the slot and fails when there is none. */
  function SetScalar(ev: Evaluator, st: State, name: string, lit: string): Outcome
  {
    if lit == "" then Outcome(st, name in st.scalars)
    else if name in st.arrays then Outcome(st, false)
    else
      match ev.word(lit)
      case None => Outcome(st, false)
      case Some(w) => Outcome(st.(scalars := st.scalars[name := w]), true)
  }

  /** `set name(idx) literal`, creating the array when there is none. */
  function SetCell(ev: Evaluator, st: State, name: string, idx: string, lit: string): Outcome
  {
    if lit == "" then Outcome(st, name in st.arrays && idx in st.arrays[name])
    else if name in st.scalars then Outcome(st, false)
    else
      match ev.word(lit)
      case None => Outcome(st, false)
      case Some(w) => Outcome(st.(arrays := st.arrays[name := st.CellsOf(name)[idx := w]]), true)
  }

  /** `unset name`. */
  function Unset(st: State, name: string): Outcome
  {
    if name in st.scalars then Outcome(st.(scalars := st.scalars - {name}), true)
    else if name in st.arrays then Outcome(st.(arrays := st.arrays - {name}), true)
    else Outcome(st, false)
  }

  /** `array set __configkit_types__ {}`: creates the array, keeps an
      existing one, fails on a scalar of that name. */
  function InitTypes(st: State): Outcome
  {
    if TypesName in st.scalars then Outcome(st, false)
    else Outcome(st.(arrays := st.arrays[TypesName := st.CellsOf(TypesName)]), true)
  }

  // ---------------------------------------------------------------------
  // Writing a document

  /** The type tag of a leaf, tested in the source's order. */
  function Tag(v: Value): string
  {
    match v
    case List(_) => "list"
    case Bool(_) => "bool"
    case Null => "none"
    case Int(_) => "number"
    case _ => "string"
  }

  /** The index of a leaf: its dictionary keys joined by commas. */
  function Index(path: seq<string>): string
  {
    Join(",", path)
  }

  /** The key of a leaf in the type table: `name` or `name(k1,…,kn)`. */
  function TypeKey(name: string, path: seq<string>): string
  {
    if path == [] then name else name + "(" + Index(path) + ")"
  }

  /** The leaf branch of `_set_tcl_var`: tag, evict a default of the same
      name, write, and forget the name as a default. */
  function SetLeaf(ev: Evaluator, st: State, name: string, path: seq<string>, v: Value): Outcome
  {
    WriteLeaf(ev, st, name, path, Tag(v), Encode(v))
  }

  /** The commands of a leaf with tag `tag` and literal `lit`. */
  function WriteLeaf(ev: Evaluator, st: State, name: string, path: seq<string>, tag: string, lit: string): Outcome
  {
    var tagged := SetCell(ev, st, TypesName, TypeKey(name, path), tag);
    if !tagged.ok then tagged
    else
      var cleared := if name in tagged.st.defaults then Unset(tagged.st, name).st else tagged.st;
      var written :=
        if path == [] then SetScalar(ev, cleared, name, lit)
        else SetCell(ev, cleared, name, Index(path), lit);
      if !written.ok then written
      else Outcome(written.st.(defaults := written.st.defaults - {name}), true)
  }

  /** `_set_tcl_var(name, v, path)`: a dictionary is walked key by key,
      anything else is a leaf. */
  function SetVar(ev: Evaluator, st: State, name: string, path: seq<string>, v: Value): Outcome
    decreases v
  {
    if v.Dict? then SetEntries(ev, st, name, path, v.entries, 0, v)
    else SetLeaf(ev, st, name, path, v)
  }

  /** The loop of `_set_tcl_var` over a dictionary's entries from position
      `i` on; the first failure stops it. */
  function SetEntries(ev: Evaluator, st: State, name: string, path: seq<string>, es: Entries, i: nat, ghost parent: Value): Outcome
    requires i <= |es| && parent == Dict(es)
    decreases parent, |es| - i
  {
    if i == |es| then Outcome(st, true)
    else
      var o := SetVar(ev, st, name, path + [es[i].0], es[i].1);
      if !o.ok then o else SetEntries(ev, o.st, name, path, es, i + 1, parent)
  }

  /** The top-level loop of `dict2tclinterp` from position `i` on. */
  function SetAll(ev: Evaluator, st: State, data: Entries, i: nat): Outcome
    requires i <= |data|
    decreases |data| - i
  {
    if i == |data| then Outcome(st, true)
    else
      var o := SetVar(ev, st, data[i].0, [], data[i].1);
      if !o.ok then o else SetAll(ev, o.st, data, i + 1)
  }

  /** `dict2tclinterp(data, interp)`: the resolution pass runs only when
      every write succeeded. */
  function Load(ev: Evaluator, st: State, data: Entries): Outcome
  {
    var init := InitTypes(st);
    if !init.ok then init
    else
      var written := SetAll(ev, init.st, data, 0);
      if !written.ok then written else Outcome(Resolve(ev, written.st), true)
  }

  // ---------------------------------------------------------------------
  // Resolving `$` references

  /** The new text of a slot holding `current`, or `None` when the slot
      keeps its value: no `$`, `subst` fails, `subst` changes nothing, or
      the write of the braced result fails. */
  function Resolved(ev: Evaluator, vars: Vars, current: string): Option<string>
  {
    if '$' !in current then None
    else
      match ev.subst(vars, current)
      case None => None
      case Some(r) => if r == current then None else ev.word("{" + r + "}")
  }

  /** One index of an array in the resolution pass. */
  function ResolveCell(ev: Evaluator, st: State, name: string, idx: string): (r: State)
    requires name in st.arrays
    ensures name in r.arrays
  {
    var cells := st.arrays[name];
    if idx !in cells then st
    else
      match Resolved(ev, st.Variables(), cells[idx])
      case None => st
      case Some(w) => st.(arrays := st.arrays[name := cells[idx := w]])
  }

  /** The loop over the indices of array `name` from position `j` on. */
  function ResolveCells(ev: Evaluator, st: State, name: string, idxs: seq<string>, j: nat): State
    requires name in st.arrays && j <= |idxs|
    decreases |idxs| - j
  {
    if j == |idxs| then st
    else ResolveCells(ev, ResolveCell(ev, st, name, idxs[j]), name, idxs, j + 1)
  }

  /** One variable of the resolution pass. */
  function ResolveVar(ev: Evaluator, st: State, name: string): State
  {
    if StartsWith(name, TypesName) || name in st.defaults then st
    else if name in st.arrays then ResolveCells(ev, st, name, ev.arrayNames(st.arrays[name]), 0)
    else if name in st.scalars then
      match Resolved(ev, st.Variables(), st.scalars[name])
      case None => st
      case Some(w) => st.(scalars := st.scalars[name := w])
    else st
  }

  /** The resolution pass over the names from position `i` on. */
  function ResolveFrom(ev: Evaluator, st: State, names: seq<string>, i: nat): State
    requires i <= |names|
    decreases |names| - i
  {
    if i == |names| then st else ResolveFrom(ev, ResolveVar(ev, st, names[i]), names, i + 1)
  }

  /** `_resolve_variable_references`: the names are listed once, first. */
  function Resolve(ev: Evaluator, st: State): State
  {
    ResolveFrom(ev, st, ev.infoVars(st.Variables()), 0)
  }

  // ---------------------------------------------------------------------
  // Reading a document back

  /** The `mode` argument of `tclinterp2dict`: `str`, `list`, and anything
      else, which behaves as `auto`. */
  datatype Mode = AutoMode | StrMode | ListMode

  function ModeOf(mode: string): Mode
  {
    if mode == "str" then StrMode else if mode == "list" then ListMode else AutoMode
  }

  /** `get_var_type`: the tag recorded under `key`, or `unknown` when
      there is none or the store keeps no type table. */
  function TypeOf(st: State, hasTypes: bool, key: string): (r: string)
    ensures r == "unknown" || (TypesName in st.arrays && r in st.arrays[TypesName].Values)
    ensures !hasTypes ==> r == "unknown"
  {
    if hasTypes && TypesName in st.arrays && key in st.arrays[TypesName] then st.arrays[TypesName][key]
    else "unknown"
  }

  /** A length no element exceeds. */
  function Longest(items: seq<string>): (n: nat)
    ensures forall j :: 0 <= j < |items| ==> |items[j]| <= n
  {
    if items == [] then 0
    else
      var m := Longest(items[1..]);
      assert forall j :: 1 <= j < |items| ==> items[j] == items[1..][j - 1];
      if |items[0]| > m then |items[0]| else m
  }

  /** `[value_format_tcl2py(item) for item in interp.splitlist(value)]`. */
  function DecodeSplit(ev: Evaluator, value: string): Option<Value>
  {
    match ev.splitList(value)
    case None => None
    case Some(items) => AsList(DecodeAll(ev, items, Longest(items) + 1))
  }

  /** `convert_value` with an explicit type tag.  Only the `list` tag can
      raise or give a container; every other tag gives a scalar. */
  function ConvertTagged(ev: Evaluator, value: string, tag: string): (r: Option<Value>)
    ensures tag != "list" ==> r.Some? && !r.value.List? && !r.value.Dict?
  {
    if tag == "list" then
      if IsListLiteral(value) then Decode(ev, value) else DecodeSplit(ev, value)
    else if tag == "bool" then Some(Bool(value == "1" || Lower(value) == "true"))
    else if tag == "none" then Some(Null)
    else if tag == "number" then
      if '.' !in value && ParseInt(value).Some? then Some(Int(ParseInt(value).value)) else Some(Str(value))
    else Some(Str(value))
  }

  /** The integers of a list of numeric tokens. */
  function Integers(items: seq<string>): (r: seq<Value>)
    requires AllNumeric(items)
    ensures |r| == |items|
    ensures forall i :: 0 <= i < |items| ==> r[i] == Int(ParseInt(items[i]).value)
  {
    seq(|items|, i requires 0 <= i < |items| => Int(ParseInt(items[i]).value))
  }

  /** The tokens themselves, as strings. */
  function Strings(items: seq<string>): (r: seq<Value>)
    ensures |r| == |items|
    ensures forall i :: 0 <= i < |items| ==> r[i] == Str(items[i])
  {
    seq(|items|, i requires 0 <= i < |items| => Str(items[i]))
  }

  /** `convert_value` without a type tag, in `auto` mode: the first rule
      that applies wins.  Only a `[list …]` literal can make it raise. */
  function ConvertAuto(ev: Evaluator, value: string, name: string): (r: Option<Value>)
    ensures r.None? ==> IsListLiteral(value)
  {
    if IsListLiteral(value) then Decode(ev, value)
    else if IsBraced(value) then Some(Str(Unbrace(value)))
    else if ' ' !in value then Decode(ev, value)
    else
      var items := SplitWs(value);
      if AllNumeric(items) && |items| > 1 then Some(List(Integers(items)))
      else if HasListHint(name) && |items| > 1 then Some(List(Strings(items)))
      else Some(Str(value))
  }

  /** `convert_value(value, tag, name)`; `None` where it raises, which
      only reading a list can do, and never in `str` mode. */
  function ConvertValue(ev: Evaluator, value: string, tag: string, name: string, mode: Mode): (r: Option<Value>)
    ensures r.None? ==> tag == "list" || (tag == "unknown" && (mode == ListMode || (mode == AutoMode && IsListLiteral(value))))
    ensures tag != "list" && tag != "unknown" ==> r.Some? && !r.value.List? && !r.value.Dict?
  {
    if tag != "unknown" then ConvertTagged(ev, value, tag)
    else
      match mode
      case StrMode => Some(Str(value))
      case ListMode =>
        if ' ' in value && !IsBraced(value) then DecodeSplit(ev, value) else Decode(ev, value)
      case AutoMode => ConvertAuto(ev, value, name)
  }

  /** `current[k1][k2]…[kn] = x`, creating a dictionary at every level that
      is missing one or holds something else. */
  function InsertPath(d: Entries, keys: seq<string>, x: Value): Entries
    requires |keys| >= 1
    decreases |keys|
  {
    if |keys| == 1 then Put(d, keys[0], x)
    else
      var below := Lookup(d, keys[0]);
      var sub := if below.Some? && below.value.Dict? then below.value.entries else [];
      Put(d, keys[0], Dict(InsertPath(sub, keys[1..], x)))
  }

  /** One decoded cell put into the dictionary of its array. */
  function PutCell(acc: Entries, idx: string, x: Value): Entries
  {
    if ',' in idx then InsertPath(acc, SplitOn(idx, ','), x) else Put(acc, idx, x)
  }

  /** The loop over the indices of an array from position `j` on: cells
      that are missing or fail to convert are skipped. */
  function RebuildCells(ev: Evaluator, st: State, hasTypes: bool, name: string, idxs: seq<string>, j: nat, acc: Entries, mode: Mode): Entries
    requires name in st.arrays && j <= |idxs|
    decreases |idxs| - j
  {
    if j == |idxs| then acc
    else
      var idx := idxs[j];
      var cells := st.arrays[name];
      var key := name + "(" + idx + ")";
      var next :=
        if idx !in cells then acc
        else
          match ConvertValue(ev, cells[idx], TypeOf(st, hasTypes, key), key, mode)
          case None => acc
          case Some(x) => PutCell(acc, idx, x);
      RebuildCells(ev, st, hasTypes, name, idxs, j + 1, next, mode)
  }

  /** The value `tclinterp2dict` records for one variable, or `None`
      when it records nothing: the type table, a default, an array with
      no decodable cell, a scalar whose conversion raises, or no variable
      at all. */
  function VarEntry(ev: Evaluator, st: State, hasTypes: bool, name: string, mode: Mode): Option<Value>
  {
    if name == TypesName || name in st.defaults then None
    else if name in st.arrays then
      var d := RebuildCells(ev, st, hasTypes, name, ev.arrayNames(st.arrays[name]), 0, [], mode);
      if d == [] then None else Some(Dict(d))
    else if name in st.scalars then ConvertValue(ev, st.scalars[name], TypeOf(st, hasTypes, name), name, mode)
    else None
  }

  /** One variable of `tclinterp2dict` added to `result`. */
  function DecodeVar(ev: Evaluator, st: State, hasTypes: bool, name: string, mode: Mode, result: Entries): Entries
  {
    match VarEntry(ev, st, hasTypes, name, mode)
    case None => result
    case Some(x) => Put(result, name, x)
  }

  /** The loop of `tclinterp2dict` over the names from position `i` on. */
  function DecodeVars(ev: Evaluator, st: State, hasTypes: bool, names: seq<string>, i: nat, mode: Mode, result: Entries): Entries
    requires i <= |names|
    decreases |names| - i
  {
    if i == |names| then result
    else DecodeVars(ev, st, hasTypes, names, i + 1, mode, DecodeVar(ev, st, hasTypes, names[i], mode, result))
  }

  /** Type information is used when the type table is listed and is an
      array. */
  function HasTypes(ev: Evaluator, st: State): bool
  {
    TypesName in ev.infoVars(st.Variables()) && TypesName in st.arrays
  }

  /** `tclinterp2dict(interp, mode)`. */
  function ToDict(ev: Evaluator, st: State, mode: Mode): Entries
  {
    DecodeVars(ev, st, HasTypes(ev, st), ev.infoVars(st.Variables()), 0, mode, [])
  }

  // ---------------------------------------------------------------------
  // Exporting

  /** The characters that make the exporter brace a value. */
  const ExportBracedChars: string := " {}[]$\"\\"

  /** A value or index as `_write_tcl_vars_to_file` writes it: braced only
      for a space or a special character, which is the third finding.
      The export below quotes values with the corrected `EncodeString`
      and type-table indices with this rule. */
  function ExportQuoteAsWritten(s: string): string
  {
    if exists i :: 0 <= i < |s| && s[i] in ExportBracedChars then "{" + s + "}" else s
  }

  /** The variables written: every listed name that is not a default, and
      the type table whenever it is listed. */
  function Exported(names: seq<string>, defaults: set<string>): (r: seq<string>)
    ensures |r| <= |names|
    ensures forall n :: n in r ==> n in names && (n !in defaults || n == TypesName)
    decreases |names|
  {
    if names == [] then []
    else
      var rest := Exported(names[1..], defaults);
      if names[0] !in defaults || names[0] == TypesName then [names[0]] + rest else rest
  }

  /** A `set` command. */
  predicate IsSetLine(line: string)
  {
    StartsWith(line, "set ")
  }

  lemma SetLinePrefix(rest: string)
    ensures IsSetLine("set " + rest)
  {
    assert ("set " + rest)[..4] == "set ";
  }

  /** The `set` lines for the cells of an array from position `j` on. */
  function CellLines(name: string, cells: map<string, string>, idxs: seq<string>, j: nat): (r: seq<string>)
    requires j <= |idxs|
    ensures forall i :: 0 <= i < |r| ==> IsSetLine(r[i])
    decreases |idxs| - j
  {
    if j == |idxs| then []
    else
      var idx := idxs[j];
      SetLinePrefix(name + "(" + idx + ") " + EncodeString(if idx in cells then cells[idx] else ""));
      assert "set " + name + "(" + idx + ") " + EncodeString(if idx in cells then cells[idx] else "")
        == "set " + (name + "(" + idx + ") " + EncodeString(if idx in cells then cells[idx] else ""));
      var line := if idx in cells then ["set " + name + "(" + idx + ") " + EncodeString(cells[idx])] else [];
      line + CellLines(name, cells, idxs, j + 1)
  }

  /** The lines for one variable. */
  function VarLines(ev: Evaluator, st: State, name: string): (r: seq<string>)
    ensures forall i :: 0 <= i < |r| ==> IsSetLine(r[i])
  {
    if name in st.arrays then CellLines(name, st.arrays[name], ev.arrayNames(st.arrays[name]), 0)
    else if name in st.scalars then
      SetLinePrefix(name + " " + EncodeString(st.scalars[name]));
      assert "set " + name + " " + EncodeString(st.scalars[name]) == "set " + (name + " " + EncodeString(st.scalars[name]));
      ["set " + name + " " + EncodeString(st.scalars[name])]
    else []
  }

  /** The lines for the variables from position `i` on. */
  function VarsLines(ev: Evaluator, st: State, names: seq<string>, i: nat): (r: seq<string>)
    requires i <= |names|
    ensures forall k :: 0 <= k < |r| ==> IsSetLine(r[k])
    decreases |names| - i
  {
    if i == |names| then [] else VarLines(ev, st, names[i]) + VarsLines(ev, st, names, i + 1)
  }

  /** The type-table lines: the tag is written bare and the index is
      quoted with the exporter's own rule, `ExportQuoteAsWritten`. */
  function TypeLines(cells: map<string, string>, idxs: seq<string>, j: nat): (r: seq<string>)
    requires j <= |idxs|
    ensures forall i :: 0 <= i < |r| ==> IsSetLine(r[i])
    decreases |idxs| - j
  {
    if j == |idxs| then []
    else
      var idx := idxs[j];
      SetLinePrefix(TypesName + "(" + ExportQuoteAsWritten(idx) + ") " + (if idx in cells then cells[idx] else ""));
      assert "set " + TypesName + "(" + ExportQuoteAsWritten(idx) + ") " + (if idx in cells then cells[idx] else "")
        == "set " + (TypesName + "(" + ExportQuoteAsWritten(idx) + ") " + (if idx in cells then cells[idx] else ""));
      var line := if idx in cells then ["set " + TypesName + "(" + ExportQuoteAsWritten(idx) + ") " + cells[idx]] else [];
      line + TypeLines(cells, idxs, j + 1)
  }

  const TypeHeader: seq<string> := ["", "# Type information for configkit", "array set __configkit_types__ {}"]

  /** The lines `_write_tcl_vars_to_file` writes, in the order the names
      are listed: nothing but `set` commands and the type-table header,
      whose `array set` line appears exactly when the type table is listed
      and is an array. */
  function ExportLines(ev: Evaluator, st: State): (r: seq<string>)
    ensures forall i :: 0 <= i < |r| ==> IsSetLine(r[i]) || r[i] in TypeHeader
    ensures TypeHeader[2] in r <==> TypesName in ev.infoVars(st.Variables()) && TypesName in st.arrays
  {
    assert !IsSetLine(TypeHeader[2]) by { assert TypeHeader[2][..4][0] == 'a'; }
    var names := ev.infoVars(st.Variables());
    var body := VarsLines(ev, st, Exported(names, st.defaults), 0);
    if TypesName in names && TypesName in st.arrays then
      var cells := st.arrays[TypesName];
      body + TypeHeader + TypeLines(cells, ev.arrayNames(cells), 0)
    else body
  }

  // ---------------------------------------------------------------------
  // The interpreter object

  /** An interpreter that the projector writes into and reads from.  The
      commands it evaluates are the functions above; `ev` supplies what the
      model leaves to Tcl. */
  class Interp {
    var scalars: map<string, string>
    var arrays: map<string, map<string, string>>
    /** `_configkit_default_vars`: the names the interpreter held before
        any document was loaded. */
    var defaults: set<string>
    const ev: Evaluator

    function Snapshot(): State
      reads this
    {
      State(scalars, arrays, defaults)
    }

    ghost predicate Valid()
      reads this
    {
      Snapshot().Valid()
    }

    /** An interpreter holding the given variables, all of them defaults. */
    constructor (ev: Evaluator, scalars: map<string, string>, arrays: map<string, map<string, string>>, defaults: set<string>)
      requires scalars.Keys !! arrays.Keys
      ensures Valid()
      ensures Snapshot() == State(scalars, arrays, defaults) && this.ev == ev
    {
      this.ev := ev;
      this.scalars := scalars;
      this.arrays := arrays;
      this.defaults := defaults;
    }

    method Assign(st: State)
      modifies this
      ensures Snapshot() == st
    {
      scalars, arrays, defaults := st.scalars, st.arrays, st.defaults;
    }

    /** `interp.eval("set name literal")`. */
    method SetScalarCmd(name: string, lit: string) returns (ok: bool)
      modifies this
      ensures Outcome(Snapshot(), ok) == SetScalar(ev, old(Snapshot()), name, lit)
    {
      var o := SetScalar(ev, Snapshot(), name, lit);
      Assign(o.st);
      ok := o.ok;
    }

    /** `interp.eval("set name(idx) literal")`. */
    method SetCellCmd(name: string, idx: string, lit: string) returns (ok: bool)
      modifies this
      ensures Outcome(Snapshot(), ok) == SetCell(ev, old(Snapshot()), name, idx, lit)
    {
      var o := SetCell(ev, Snapshot(), name, idx, lit);
      Assign(o.st);
      ok := o.ok;
    }

    /** `interp.eval("unset name")`. */
    method UnsetCmd(name: string) returns (ok: bool)
      modifies this
      ensures Outcome(Snapshot(), ok) == Unset(old(Snapshot()), name)
    {
      if name in scalars {
        scalars := scalars - {name};
        ok := true;
      } else if name in arrays {
        arrays := arrays - {name};
        ok := true;
      } else {
        ok := false;
      }
    }

    /** The leaf branch of `_set_tcl_var`. */
    method SetLeafVar(name: string, path: seq<string>, v: Value) returns (ok: bool)
      modifies this
      ensures Outcome(Snapshot(), ok) == SetLeaf(ev, old(Snapshot()), name, path, v)
    {
      ok := SetCellCmd(TypesName, TypeKey(name, path), Tag(v));
      if !ok {
        return;
      }
      if name in defaults {
        var _ := UnsetCmd(name);
      }
      if path == [] {
        ok := SetScalarCmd(name, Encode(v));
      } else {
        ok := SetCellCmd(name, Index(path), Encode(v));
      }
      if ok {
        defaults := defaults - {name};
      }
    }

    /** `_set_tcl_var(name, v, path)`; false where it raises. */
    method SetTclVar(name: string, path: seq<string>, v: Value) returns (ok: bool)
      modifies this
      ensures Outcome(Snapshot(), ok) == SetVar(ev, old(Snapshot()), name, path, v)
      decreases v
    {
      if !v.Dict? {
        ok := SetLeafVar(name, path, v);
        return;
      }
      var es := v.entries;
      var i := 0;
      while i < |es|
        invariant i <= |es|
        invariant SetEntries(ev, Snapshot(), name, path, es, i, v) == SetVar(ev, old(Snapshot()), name, path, v)
      {
        assert es[i].1 < v;
        ok := SetTclVar(name, path + [es[i].0], es[i].1);
        if !ok {
          return;
        }
        i := i + 1;
      }
      ok := true;
    }

    /** `_resolve_variable_references`. */
    method ResolveReferences()
      modifies this
      ensures Snapshot() == Resolve(ev, old(Snapshot()))
    {
      var names := ev.infoVars(Snapshot().Variables());
      var i := 0;
      while i < |names|
        invariant i <= |names|
        invariant ResolveFrom(ev, Snapshot(), names, i) == Resolve(ev, old(Snapshot()))
      {
        ResolveName(names[i]);
        i := i + 1;
      }
    }

    /** One name of the resolution pass. */
    method ResolveName(name: string)
      modifies this
      ensures Snapshot() == ResolveVar(ev, old(Snapshot()), name)
    {
      if StartsWith(name, TypesName) || name in defaults {
      } else if name in arrays {
        ResolveArray(name);
      } else if name in scalars {
        var r := Resolved(ev, Snapshot().Variables(), scalars[name]);
        if r.Some? {
          scalars := scalars[name := r.value];
        }
      }
    }

    /** The loop over the indices of array `name`. */
    method ResolveArray(name: string)
      requires name in arrays
      modifies this
      ensures Snapshot() == ResolveCells(ev, old(Snapshot()), name, ev.arrayNames(old(arrays[name])), 0)
    {
      var idxs := ev.arrayNames(arrays[name]);
      var j := 0;
      while j < |idxs|
        invariant j <= |idxs| && name in arrays
        invariant ResolveCells(ev, Snapshot(), name, idxs, j) == ResolveCells(ev, old(Snapshot()), name, idxs, 0)
      {
        var idx := idxs[j];
        if idx in arrays[name] {
          var r := Resolved(ev, Snapshot().Variables(), arrays[name][idx]);
          if r.Some? {
            arrays := arrays[name := arrays[name][idx := r.value]];
          }
        }
        j := j + 1;
      }
    }

    /** `dict2tclinterp(data, interp)`; false where it raises. */
    method LoadDict(data: Entries) returns (ok: bool)
      modifies this
      ensures Outcome(Snapshot(), ok) == Load(ev, old(Snapshot()), data)
    {
      if TypesName in scalars {
        return false;
      }
      arrays := arrays[TypesName := Snapshot().CellsOf(TypesName)];
      ghost var init := Snapshot();
      var i := 0;
      while i < |data|
        invariant i <= |data|
        invariant SetAll(ev, Snapshot(), data, i) == SetAll(ev, init, data, 0)
      {
        ok := SetTclVar(data[i].0, [], data[i].1);
        if !ok {
          return;
        }
        i := i + 1;
      }
      ResolveReferences();
      ok := true;
    }

    /** The cells of array `name` rebuilt into a dictionary. */
    method RebuildArray(st: State, hasTypes: bool, name: string, mode: Mode) returns (d: Entries)
      requires st == Snapshot() && name in arrays
      ensures d == RebuildCells(ev, st, hasTypes, name, ev.arrayNames(arrays[name]), 0, [], mode)
    {
      var cells := arrays[name];
      var idxs := ev.arrayNames(cells);
      d := [];
      var j := 0;
      while j < |idxs|
        invariant j <= |idxs|
        invariant RebuildCells(ev, st, hasTypes, name, idxs, j, d, mode)
               == RebuildCells(ev, st, hasTypes, name, idxs, 0, [], mode)
      {
        var idx := idxs[j];
        if idx in cells {
          var key := name + "(" + idx + ")";
          var x := ConvertValue(ev, cells[idx], TypeOf(st, hasTypes, key), key, mode);
          if x.Some? {
            d := PutCell(d, idx, x.value);
          }
        }
        j := j + 1;
      }
    }

    /** One variable of `tclinterp2dict` added to `acc`. */
    method ReadVar(st: State, hasTypes: bool, name: string, mode: Mode, acc: Entries) returns (result: Entries)
      requires st == Snapshot()
      ensures result == DecodeVar(ev, st, hasTypes, name, mode, acc)
    {
      result := acc;
      if name == TypesName || name in defaults {
      } else if name in arrays {
        var d := RebuildArray(st, hasTypes, name, mode);
        if d != [] {
          result := Put(result, name, Dict(d));
        }
      } else if name in scalars {
        var x := ConvertValue(ev, scalars[name], TypeOf(st, hasTypes, name), name, mode);
        if x.Some? {
          result := Put(result, name, x.value);
        }
      }
    }

    /** `tclinterp2dict(interp, mode)`. */
    method ReadDict(mode: Mode) returns (result: Entries)
      ensures result == ToDict(ev, Snapshot(), mode)
    {
      var st := Snapshot();
      var names := ev.infoVars(st.Variables());
      var hasTypes := TypesName in names && TypesName in arrays;
      ghost var goal := DecodeVars(ev, st, hasTypes, names, 0, mode, []);
      assert goal == ToDict(ev, st, mode) by {
        assert hasTypes == HasTypes(ev, st);
      }
      result := [];
      var i := 0;
      while i < |names|
        invariant i <= |names| && st == Snapshot()
        invariant DecodeVars(ev, st, hasTypes, names, i, mode, result) == goal
      {
        result := ReadVar(st, hasTypes, names[i], mode, result);
        i := i + 1;
      }
    }
  }
}
