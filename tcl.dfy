/** The Tcl interpreter, seen from the converter: a handful of partial
    functions whose results the converter takes as given.  Nothing here
    parses Tcl.  Each function is a field of `Evaluator`; the few facts the
    converter relies on are the constraints of the field types:

    - `word`: the text `set name literal` stores for a literal.  A bare word
      is stored as it is, `""` as the empty string and `{s}` as `s`.
    - `evalItems`: `splitlist` of the result of evaluating `return literal`,
      or `None` where the evaluation or the split raises.  Its elements are
      shorter than the literal.
    - `splitList`: `splitlist` of a string, or `None` where it raises.  On a
      string with a space in it, every element is shorter than the string.
    - `subst`: substitution of `$` references against the current
      variables, or `None` where it raises (for example an undefined
      variable).
    - `infoVars` and `arrayNames`: the order in which `info vars` and
      `array names` enumerate names. */
module Tcl {
  import opened Wrappers
  import opened Text

  /** The variables of an interpreter: scalar slots and arrays of cells. */
  datatype Vars = Vars(scalars: map<string, string>, arrays: map<string, map<string, string>>)

  /** Characters that make a Tcl word anything but its literal text. */
  predicate IsSpecial(c: char)
  {
    c in "{}[]$\";\\"
  }

  /** A word Tcl reads back as exactly its own text. */
  predicate IsBareWord(w: string)
  {
    w != [] && forall i :: 0 <= i < |w| ==> !IsSpace(w[i]) && !IsSpecial(w[i])
  }

  /** Text that can sit between one pair of braces and be read back verbatim. */
  predicate IsBraceFree(s: string)
  {
    forall i :: 0 <= i < |s| ==> s[i] != '{' && s[i] != '}' && s[i] != '\\'
  }

  ghost predicate ReadsWords(f: string -> Option<string>)
  {
    && (forall w :: IsBareWord(w) ==> f(w) == Some(w))
    && f("\"\"") == Some("")
    && (forall s :: IsBraceFree(s) ==> f("{" + s + "}") == Some(s))
  }

  /** One word reader that meets the constraints: braces stripped from a
      brace-free braced word, `""` read as empty, bare words kept, anything
      else rejected. */
  function ReadWord(w: string): (r: Option<string>)
    ensures IsBareWord(w) ==> r == Some(w)
    ensures w == "\"\"" ==> r == Some("")
    ensures |w| >= 2 && w[0] == '{' && w[|w| - 1] == '}' && IsBraceFree(w[1..|w| - 1]) ==> r == Some(w[1..|w| - 1])
  {
    if w != [] && w[0] == '{' then
      if |w| >= 2 && w[|w| - 1] == '}' && IsBraceFree(w[1..|w| - 1]) then Some(w[1..|w| - 1]) else None
    else if w == "\"\"" then Some("")
    else if IsBareWord(w) then Some(w)
    else None
  }

  type WordReader = f: string -> Option<string> | ReadsWords(f)
    witness ReadWord

  /** Element lists whose elements are all shorter than the text they were
      read from. */
  ghost predicate ShorterItems(f: string -> Option<seq<string>>)
  {
    forall lit :: f(lit).Some? ==> forall i :: 0 <= i < |f(lit).value| ==> |f(lit).value[i]| < |lit|
  }

  ghost predicate ShorterItemsWhenSpaced(f: string -> Option<seq<string>>)
  {
    forall s :: ' ' in s && f(s).Some? ==> forall i :: 0 <= i < |f(s).value| ==> |f(s).value[i]| < |s|
  }

  function NoItems(s: string): (r: Option<seq<string>>)
    ensures r == None
  {
    None
  }

  type ItemReader = f: string -> Option<seq<string>> | ShorterItems(f)
    witness NoItems

  type ListSplitter = f: string -> Option<seq<string>> | ShorterItemsWhenSpaced(f)
    witness NoItems

  /** The interpreter operations the converter calls. */
  datatype Evaluator = Evaluator(
    word: WordReader,
    evalItems: ItemReader,
    splitList: ListSplitter,
    subst: (Vars, string) -> Option<string>,
    infoVars: Vars -> seq<string>,
    arrayNames: map<string, string> -> seq<string>)
}
