# configkit core, modelled in Dafny

configkit moves configuration between Python dictionaries and Tcl
interpreters. This project models the three parts of its core:

- **The value codec** (`configkit/core/value_converter.py`).
  - `value_format_py2tcl` writes a document value as a Tcl literal.
  - `detect_tcl_list` guesses whether a string is a list.
  - `value_format_tcl2py` reads a literal back. It tries, in order: the empty literal, an integer, a boolean word, `[list …]`, a heuristic list, `[dict create …]`, and finally the raw string.
- **The store projector** (`core/tcl_interpreter.py`).
  - `dict2tclinterp` flattens a document into interpreter variables:
    - a nested dictionary becomes an array whose index joins the keys with commas;
    - a type tag for each written leaf goes into the array `__configkit_types__`;
    - a default variable that is overwritten is evicted from the default set;
    - afterwards, `$` references are substituted.
  - `tclinterp2dict` rebuilds a document from the variables, guided by the type tags and a conversion mode.
  - `_write_tcl_vars_to_file` chooses the variables of an export and quotes their values.
- **`merge_dict`** (`core/dict_operations.py`): a recursive merge in which nested dictionaries are merged, lists are concatenated and anything else is overridden.

**Modules.** The modules follow that structure:

- `Document`: the document value. Dictionaries are association lists in insertion order, as Python dicts are.
- `DictOperations`: `merge_dict`.
- `Tcl`: what the model takes from the Tcl interpreter.
- `ValueConverter`: the codec.
- `TclInterpreter`: the interpreter state, the projector as functions from state to state, and the class `Interp` that runs the same operations in place.
- `InterpreterProperties`: the properties of the projector.
- `Text` and `Wrappers`: helpers.

**How Tcl is represented.** The interpreter itself is not modelled as a Tcl parser. It is an `Evaluator` value whose fields supply:

- what `set` stores for a literal;
- the elements of an evaluated list;
- `splitlist`;
- `subst`;
- the enumeration orders of `info vars` and `array names`.

Each field is constrained only by the facts the converter relies on. For example, a bare word is stored as itself, and `{s}` as `s` when `s` contains no braces or backslashes.

## Model

| member | source | states |
|---|---|---|
| DictOperations.Merge | core/dict_operations.py:19-48 | The loop over the second dictionary computes `MergeDict(d1, d2)`, which the lemmas below characterise. |
| DictOperations.MergeKeys | core/dict_operations.py:31-46 | The merged keys are exactly the keys of the first dictionary plus the keys of the second. |
| DictOperations.MergeLookup | core/dict_operations.py:33-46 | A key only in the first dictionary keeps its value. A key only in the second takes the second's value. A key in both gets the recursive merge when both values are dictionaries, the concatenation when both are lists, and otherwise the second value. |
| DictOperations.MergeUnique | core/dict_operations.py:31-46 | Merging never duplicates a key. |
| DictOperations.MergeIdentity | core/dict_operations.py:31-46 | Merging with an empty dictionary, on either side, returns the other dictionary unchanged. |
| DictOperations.MergeExample | tests/test_basic.py:64-82 | The nested example merges to `{a: 2, b: {x: 10, y: 30, z: 40}, c: 3}`, with keys in that order. |
| DictOperations.MergeShape | core/dict_operations.py:31-46 | Merging `{a: scalar, b: dict}` with `{a, b: dict, c}` gives the second's `a`, the recursive merge of the two `b` dictionaries and then `c`, in the first dictionary's key order with the new key appended. |
| DictOperations.NestedMergeExample | tests/test_basic.py:64-82 | The inner dictionaries of the nested example merge to `{x: 10, y: 30, z: 40}`. |
| DictOperations.MergeListExample | core/dict_operations.py:38-40 | Two lists under the same key are appended, duplicates included. |
| Document.Lookup | core/dict_operations.py:34 | A lookup succeeds exactly when the key is present. |
| Document.Put | core/dict_operations.py:41-46 | Assigning a key makes it present with the new value and leaves every other key alone. Uniqueness is kept. A fresh key is appended at the end. |
| ValueConverter.Encode | configkit/core/value_converter.py:19-52 | With the corrected string quoting, `value_format_py2tcl` never writes an empty literal, and its output starts with `[` exactly for a list or a dictionary, which it writes as a `[list …]` or `[dict create …]` literal that the decoder's rules recognise. The code as written returns `""` for the empty string and leaves strings with `;`, \v or \f bare; that rule is `ValueConverter.EncodeStringAsWritten`. |
| ValueConverter.DetectTclList | configkit/core/value_converter.py:55-106 | The method with its early-exit number loop decides `LooksLikeList`. The result is false for a `[list …]` literal, a braced word, or text without a space. Otherwise it is true when there are at least two whitespace-separated tokens and either all of them are numbers or the name carries a list hint. |
| ValueConverter.DetectWithoutName | configkit/core/value_converter.py:82-104 | Without a variable name, only the all-numbers rule can make a list. |
| ValueConverter.IntegersLookLikeList | configkit/core/value_converter.py:89-98 | Two or more integers joined by spaces are always detected as a list. |
| ValueConverter.HintedWordsLookLikeList | configkit/core/value_converter.py:82-104 | Two or more bare words under a hinted name (`list`, `array`, `items`, `elements`, `values`, in any case) are a list. |
| ValueConverter.UnhintedWordsAreNoList | configkit/core/value_converter.py:89-106 | Without a hint, one non-numeric word is enough to make the text no list. |
| ValueConverter.HintExamples | configkit/core/value_converter.py:74-83 | `color_list` carries a hint, but a braced value is never a list, whatever the name. |
| ValueConverter.EncodedNeverLooksLikeList | configkit/core/value_converter.py:19-52 | No literal the corrected encoder writes is taken for a list by `detect_tcl_list` (lines 55-106) without a name, as the decoder calls it. `[list …]` literals and braced strings are rejected at once. Bare strings, integers, booleans and `""` have no space. A `[dict create …]` literal fails the all-numbers test, because its first token starts with `[`. |
| ValueConverter.Decode | configkit/core/value_converter.py:109-190 | `value_format_tcl2py` raises only while reading a list, from a `[list …]` literal or from text `detect_tcl_list` takes for a list; every other literal, a `[dict create …]` one included, decodes. |
| ValueConverter.DecodeDictItems | configkit/core/value_converter.py:166-187 | The stepped loop over key/value elements builds the pair list `DecodePairs` describes. It ignores an odd last element and fails where a key or value raises or a key is unhashable. `DecodePairsFails` and `DecodePairsEntries` state when it fails and what it holds. |
| ValueConverter.Unbrace | core/tcl_interpreter.py:448-449 | The text inside a braced value, which auto mode returns: putting the braces back gives the value. |
| ValueConverter.NullRoundTrip | configkit/core/value_converter.py:123-124 | `None` encodes as `""` (lines 29-30), which decodes to `None`, and so does the empty string. |
| ValueConverter.IntRoundTrip | configkit/core/value_converter.py:127-133 | Every integer survives encoding (lines 33-34) and decoding. |
| ValueConverter.BoolEncoding | configkit/core/value_converter.py:127-139 | Booleans encode as `1`/`0` (lines 31-32). Because the number rule comes before the boolean rule, they decode as the integers 1 and 0. |
| ValueConverter.DecodeTrue | configkit/core/value_converter.py:136-137 | The decoder yields `True` exactly for the case-insensitive word `true`. |
| ValueConverter.DecodeFalse | configkit/core/value_converter.py:138-139 | The decoder yields `False` exactly for the case-insensitive word `false`. |
| ValueConverter.EmptyListLiteral | configkit/core/value_converter.py:142-145 | A `[list …]` literal with a blank body decodes to the empty list. |
| ValueConverter.EmptyDictLiteral | configkit/core/value_converter.py:159-162 | A `[dict create …]` literal with a blank body decodes to the empty dictionary. |
| ValueConverter.EmptyListRoundTrip | configkit/core/value_converter.py:142-145 | The empty list, encoded at lines 35-38, round-trips. |
| ValueConverter.EmptyDictRoundTrip | configkit/core/value_converter.py:159-162 | The empty dictionary, encoded at lines 39-44, round-trips. |
| ValueConverter.DecodePairsFails | configkit/core/value_converter.py:164-187 | The loop over key/value elements gives up exactly when, at some key position it visits, the key fails to decode or decodes to a list or dictionary, or the value after it fails to decode. |
| ValueConverter.DecodePairsEntries | configkit/core/value_converter.py:168-183 | When the loop succeeds, its dictionary has unique keys and holds exactly the keys it visits. Each key maps to the decoded value after its last occurrence, since a later `result_dict[key]` overwrites an earlier one. |
| ValueConverter.DictLiteralDecodes | configkit/core/value_converter.py:159-187 | A non-empty `[dict create …]` literal always decodes. It gives the raw string exactly when the evaluation raises or one of its pairs fails, which is what the `except` catches, and otherwise a dictionary. |
| ValueConverter.DecodedDictEntries | configkit/core/value_converter.py:164-184 | The dictionary a non-empty `[dict create …]` literal decodes to has unique keys, holds exactly the keys of the evaluated elements, and maps each to the decoded value after its last occurrence. |
| ValueConverter.RejectedDictIsString | configkit/core/value_converter.py:164-187 | A dictionary literal that Tcl cannot evaluate comes back as the raw string. |
| ValueConverter.BracedIsString | configkit/core/value_converter.py:142-190 | The decoder never unbraces: a braced word comes back as the same braced string. |
| ValueConverter.PlainStringRoundTrip | configkit/core/value_converter.py:45-52 | A bare word that is neither a number nor a boolean word encodes as itself and decodes as the same string (line 190). |
| ValueConverter.EncodedStringReadsBack | configkit/core/value_converter.py:45-52 | With the corrected encoding, `set` stores every encoded string without braces or backslashes as the original string, the empty string and strings with `;`, vertical tabs or form feeds included. |
| ValueConverter.EmptyStringAsWritten | configkit/core/value_converter.py:45-52 | The encoding as written differs from the corrected one exactly on the empty string, which it writes as nothing at all, and on strings whose only reason for braces is `;`, a vertical tab or a form feed, which it writes bare. |
| ValueConverter.SemicolonLeftBare | configkit/core/value_converter.py:45-52 | As written, `a;b` is encoded bare and is not a bare Tcl word, because `;` ends the command. The corrected encoding braces it, and `set` stores `a;b` whole. |
| TclInterpreter.TypeOf | core/tcl_interpreter.py:388-400 | `get_var_type` returns `unknown` or a tag recorded in the type table, and always `unknown` when the store has no type information. |
| TclInterpreter.ConvertTagged | core/tcl_interpreter.py:404-428 | With a tag other than `list`, `convert_value` never raises and always gives a scalar. |
| TclInterpreter.ConvertAuto | core/tcl_interpreter.py:444-475 | In auto mode, only a `[list …]` literal can make `convert_value` raise. |
| TclInterpreter.ConvertValue | core/tcl_interpreter.py:402-475 | `convert_value` raises only while reading a list: under the `list` tag, in list mode, or for a `[list …]` literal in auto mode. It never raises in `str` mode. A scalar tag gives a scalar. |
| TclInterpreter.ExportLines | core/tcl_interpreter.py:161-242 | The export writes nothing but `set` commands and the type-table header. The `array set __configkit_types__ {}` line appears exactly when the type table is listed and is an array. |
| TclInterpreter.Exported | core/tcl_interpreter.py:164-180 | Every exported name is a listed name, and it is not a default unless it is the type table. The export is no longer than the listing. |
| TclInterpreter.Interp.constructor | core/tcl_interpreter.py:22-34 | Starts from given variables and a given default set. The result satisfies the scalar/array disjointness invariant. |
| TclInterpreter.Interp.SetScalarCmd | core/tcl_interpreter.py:96-98 | `set name literal` in place. The new state and success are those of `SetScalar`: an empty literal only reads, and a name held by an array fails. |
| TclInterpreter.Interp.SetCellCmd | core/tcl_interpreter.py:102-105 | `set name(index) literal` in place, as `SetCell`. |
| TclInterpreter.Interp.UnsetCmd | core/tcl_interpreter.py:84-89 | `unset name` in place, as `Unset`. A missing name fails. |
| TclInterpreter.Interp.SetLeafVar | core/tcl_interpreter.py:63-108 | Writes one leaf in place: the type tag, then the unset of a default, then the `set`, then the eviction from the default set. |
| TclInterpreter.Interp.SetTclVar | core/tcl_interpreter.py:55-108 | `_set_tcl_var` in place. It recurses into dictionaries with the key path extended, and stops at the first failing command. |
| TclInterpreter.Interp.ResolveReferences | core/tcl_interpreter.py:114-155 | The nested loops of `_resolve_variable_references` leave the state `Resolve` describes. |
| TclInterpreter.Interp.ResolveName | core/tcl_interpreter.py:116-153 | One pass of the outer loop in place: the type table and default variables are skipped, an array is resolved cell by cell, and a scalar as `ResolveVar` says. |
| TclInterpreter.Interp.ResolveArray | core/tcl_interpreter.py:128-141 | The inner loop over an array's indices leaves the state `ResolveCells` describes. |
| TclInterpreter.Interp.LoadDict | core/tcl_interpreter.py:37-158 | `dict2tclinterp` in place. It creates the type table, writes every top-level key in order and, only if nothing raised, resolves references. |
| TclInterpreter.Interp.RebuildArray | core/tcl_interpreter.py:497-528 | The loop over an array's indices builds the nested dictionary `RebuildCells` describes. |
| TclInterpreter.Interp.ReadVar | core/tcl_interpreter.py:492-546 | Reads one variable into the result, as `DecodeVar`. An empty array is omitted, and a failing conversion skips the variable. |
| TclInterpreter.Interp.ReadDict | core/tcl_interpreter.py:364-548 | `tclinterp2dict` in place: the result is `ToDict` of the current state. |
| InterpreterProperties.StoredReadsBack | core/tcl_interpreter.py:96-98 | With the corrected encoding, the literal of a `None`, a boolean, an integer or a string without braces or backslashes is never empty, and `set` stores the leaf's text. As written, the empty string's literal is empty, and a string with `;` is not one word; see the first and second findings. |
| InterpreterProperties.TagIsBare | core/tcl_interpreter.py:72-81 | Every type tag is a bare word other than `unknown`. |
| InterpreterProperties.TypedRoundTrip | core/tcl_interpreter.py:404-428 | A tagged boolean, integer, `None` or string converts back to exactly the value that was written. |
| InterpreterProperties.ModeOnlyForUntagged | core/tcl_interpreter.py:404-433 | The mode matters only for untagged values. `str` mode returns the raw text. |
| InterpreterProperties.SetLeafScalar | core/tcl_interpreter.py:66-101 | A top-level leaf tags `name` in the type table, stores its text in the scalar `name` and removes `name` from the default set. A default of that name, scalar or array, is unset first, so a default array is replaced by the scalar. A non-default array of that name makes the write fail. |
| InterpreterProperties.SetLeafCell | core/tcl_interpreter.py:66-108 | A nested leaf tags `name(a,b,…)` and stores its text in the cell indexed by the comma-joined path. A default of that name is unset first: a default array is replaced by one holding only the new cell, and a default scalar gives way to the array. A non-default scalar of that name makes the write fail. |
| InterpreterProperties.EmptyDictWritesNothing | core/tcl_interpreter.py:59-62 | An empty dictionary writes nothing and succeeds. |
| InterpreterProperties.SetVarFrame | core/tcl_interpreter.py:55-108 | Writing a key changes no variable other than that key and the type table. |
| InterpreterProperties.SetVarValid | core/tcl_interpreter.py:55-108 | Writing keeps every name a scalar or an array, never both. |
| InterpreterProperties.SetAllValid | core/tcl_interpreter.py:110-111 | So does the loop over the top-level keys. |
| InterpreterProperties.LoadValid | core/tcl_interpreter.py:37-158 | So does the whole of `dict2tclinterp`. |
| InterpreterProperties.StableCases | core/tcl_interpreter.py:130-153 | A value is never rewritten when it has no `$`, or when its substitution fails (or returns it unchanged) whatever the values of the store's existing variables. A reference to an undefined variable is such a value. |
| InterpreterProperties.EvolvesTrans | core/tcl_interpreter.py:114-155 | Resolution steps compose. |
| InterpreterProperties.ResolveEvolves | core/tcl_interpreter.py:114-155 | Resolution keeps the variable names, the arrays and their indices, and the default set. It touches only non-default variables outside the type table. A value it changes contains a `$` and has a successful, changing substitution against some store with the same variable names. |
| InterpreterProperties.ResolveKeepsProtected | core/tcl_interpreter.py:119-124 | The type table and default variables are never rewritten. |
| InterpreterProperties.UnresolvableKept | tests/test_variable_resolution.py:218-235 | A value whose substitution fails against every store with this store's variable names, such as a reference to an undefined variable, is kept as written. |
| InterpreterProperties.ResolveRewritesScalar | core/tcl_interpreter.py:143-153 | With `info vars` listing each name once, a scalar ends up with either its old text or the result of substituting that old text against the variables at that moment, which have the same names. |
| InterpreterProperties.ResolveRewritesCell | core/tcl_interpreter.py:128-141 | With each name and each index listed once, an array cell ends up with either its old text or the result of one substitution of that old text against variables with the same names. |
| InterpreterProperties.ResolveWithoutReferences | core/tcl_interpreter.py:133-145 | A store with no `$` in any resolvable value is left unchanged. |
| InterpreterProperties.DecodeVarsLookup | core/tcl_interpreter.py:477-546 | The result holds a name exactly when it was listed and read successfully. |
| InterpreterProperties.ToDictLookup | core/tcl_interpreter.py:477-546 | Each name in the result maps to what reading that variable yields. Names not enumerated are absent. |
| InterpreterProperties.ToDictFilters | core/tcl_interpreter.py:477-484 | The result has unique keys and never contains the type table or a default variable. |
| InterpreterProperties.InsertPathLookup | core/tcl_interpreter.py:513-526 | Inserting along a key path makes the value reachable by that path and leaves other top-level keys alone. |
| InterpreterProperties.IndexHasComma | core/tcl_interpreter.py:100-105 | A nested leaf's index contains a comma, so reading takes the nested branch. |
| InterpreterProperties.CellPathRoundTrip | core/tcl_interpreter.py:513-528 | For keys without commas, splitting the comma-joined index built at lines 102-105 rebuilds the original path. |
| InterpreterProperties.AutoFollowsDetection | core/tcl_interpreter.py:448-475 | For unbracketed text with a space, auto mode returns a list exactly when `detect_tcl_list` would say list. |
| InterpreterProperties.AutoIntegerList | core/tcl_interpreter.py:455-467 | In auto mode, two or more integers joined by spaces come back as the list of those integers, element by element, whatever the name. |
| InterpreterProperties.AutoWordList | core/tcl_interpreter.py:455-475 | In auto mode, two or more bare words joined by spaces, not all of them integers, come back as the list of those words under a hinting name, and as the raw text under any other name. |
| InterpreterProperties.AutoStripsBraces | core/tcl_interpreter.py:448-449 | Auto mode strips one pair of outer braces. |
| InterpreterProperties.EmptyArrayOmitted | core/tcl_interpreter.py:533-534 | An array that rebuilds to nothing is left out of the result. |
| InterpreterProperties.FlatRoundTrip | tests/test_basic.py:85-95 | Start from an interpreter holding only default variables. Load a document of distinct top-level keys that are plain bare words without parentheses or colons, holding booleans, integers, `None` or strings. Each string is brace-free and `$`-free, and the empty string is allowed. The load succeeds, including for keys that override a default scalar or array. Every key then reads back as the value that was written, in any mode. |
| InterpreterProperties.ExportedNames | core/tcl_interpreter.py:164-180 | A name is exported exactly when it is listed and is either not a default or is the type table. |
| InterpreterProperties.ExportScalarLine | core/tcl_interpreter.py:207-215 | A listed non-default scalar is exported as `set name value`, quoted as the encoder quotes it. |
| InterpreterProperties.ExportTypeHeader | core/tcl_interpreter.py:221-223 | A listed type table adds the `array set __configkit_types__ {}` header. |
| InterpreterProperties.ExportTypeLine | core/tcl_interpreter.py:225-236 | Every recorded tag of a listed type table is exported as `set __configkit_types__(<index>) <tag>`, with the tag bare and the index braced only for a space or one of `{}[]$"\`, the exporter's own rule. |
| InterpreterProperties.QuotingRulesDiffer | core/tcl_interpreter.py:196-215 | The export's quoting as written differs from the corrected codec's exactly for the empty value and for values whose only quoting characters are tabs, newlines, carriage returns, `;`, vertical tabs or form feeds. |
| InterpreterProperties.ExportBlankGap | core/tcl_interpreter.py:212-215 | As written, a value with a tab, a newline or a carriage return between two words is exported bare, and the line splits into four words. With a tab or carriage return, `set` refuses the four words. With a newline, Tcl ends the command after the first word of the value and runs the second as a command of its own. |
| InterpreterProperties.ExportEmptyGap | core/tcl_interpreter.py:212-215 | An empty value is exported as `set name `, which reads back as a read, not a write. |
| InterpreterProperties.EmptyStringWriteFails | core/tcl_interpreter.py:96-98 | As written, the command that writes an empty string under a name the interpreter does not hold is a read, and fails. |
| InterpreterProperties.EmptyStringStored | configkit/core/value_converter.py:45-52 | With the corrected encoding, the empty string is written as `{}` and stored. |

## Left out

- **Floats.** Floating point is not modelled. Numbers are integers; a `number` tag on text with a `.` gives the raw string, and auto mode or `detect_tcl_list` never treat such a token as a number.
- **Unicode in `split()`, `strip()`, `lower()` and `int()`.** Whitespace, case and digits are ASCII here, and whitespace is only space, tab, newline, carriage return, vertical tab and form feed. Python's `split()` and `strip()` also treat the separators U+001C to U+001F and Unicode whitespace as blanks, `lower()` folds non-ASCII letters, and `int()` accepts Unicode decimal digits, surrounding whitespace and digit separators (`_`). `float` also accepts `1e3`, `inf` and `nan`. The model takes only optionally signed ASCII decimal digits as a number.
- **Dictionary-literal keys.** Keys decoded by `value_format_tcl2py` are kept as their element text, because document keys are strings. Python would use the decoded value, so `1`, `true` and `""` become an int, a bool or `None`, and keys may then collide. A key that fails to decode, or decodes to a list or dictionary, still makes the literal fall back to the raw string.
- **The Tcl interpreter.** Evaluation is not modelled. The `Evaluator` fields stand for it, constrained only as stated in the introduction. Beyond those constraints, a round trip of lists and dictionaries through Tcl depends on the evaluator, and is not proved.
- **Element lengths of evaluated literals.** The `Evaluator` field for the elements of an evaluated `[list …]` or `[dict create …]` literal is assumed to return elements shorter than the literal. Only this assumption lets the recursive decoding terminate. Real Tcl breaks it: `[list [string repeat x 50]]` evaluates to one element longer than the literal. On such input the source can recurse without bound until Python raises `RecursionError`; the model cannot express that case.
- **Names that are not plain words.** Top-level keys and nested keys are used verbatim in the model's commands. In the source they are pasted into `set` and `unset` command text (`core/tcl_interpreter.py:73-81, 98, 105`). A key holding whitespace, a bracket, a `$` or a `;` then breaks the command, and the load raises: `{"my key": 1}` fails at `set __configkit_types__(my key) number`. A key holding parentheses, such as `a(b)`, writes a cell of array `a`. A key holding `::` is a namespace-qualified name: `set a::b 1` fails because namespace `a` does not exist, and `set ::x 1` writes the global `x`, which `info vars` then lists as `x`. The model does not capture these failures. `FlatRoundTrip` therefore admits only bare-word keys without parentheses or colons.
- **Word re-splitting.** The `.split()` re-splitting of `info vars` and `array names` output is not modelled. Names and indices are used verbatim in commands, and the enumerations are assumed duplicate-free.
- **Export order.** `_write_tcl_vars_to_file` iterates a Python set. The model writes in `info vars` order.
- **The fallback name filter** in `tclinterp2dict` and `_write_tcl_vars_to_file`, used when the interpreter has no recorded default set. The modelled interpreter always carries one.
- **Interpreter creation.** `create_tcl_interp` is not modelled; the default set is a constructor parameter.
- **File and YAML I/O.** These are not modelled: `tclinterp2tclfile`, `tclfiles2tclinterp`, the YAML loaders and the `configkit/api` entry points. The export is modelled as the list of lines it writes.
- **`merge_dict` copying.** The shallow-copy aliasing of `merge_dict` is not modelled: values are immutable here.
- **Other `dict_operations.py` helpers.** Only `merge_dict` is modelled.
- ValueConverter.Encode: quotes strings with the corrected `EncodeString`, so it never writes an empty literal. As written, `value_format_py2tcl` returns `""` for the empty string and leaves a string holding `;`, \v or \f bare (the first two findings). The code's rule is kept as `EncodeStringAsWritten`.
- **Uncorrected quoting.** The model uses the corrected quoting of the three findings for every value it writes, in `ValueConverter.Encode` and in the export; the code's own rules are kept as `EncodeStringAsWritten` and `ExportQuoteAsWritten`. The one exception is the type-table index of the export (`core/tcl_interpreter.py:232-235`), which the model quotes with the code's own rule, `ExportQuoteAsWritten`, as `ExportTypeLine` states. So an empty index is written `set __configkit_types__() tag`, and an index holding a tab, a newline, a carriage return, `;`, \v or \f is written bare. Braces inside the parentheses are not Tcl quoting either, so a braced index does not read back as the same index; the model writes the lines as text and does not read them back.
- InterpreterProperties.FlatRoundTrip: covers flat documents of scalars only. Nested dictionaries are covered piecewise by `SetLeafCell`, `CellPathRoundTrip` and `InsertPathLookup`. Lists depend on the evaluator.

## Findings

| source | as written | input that shows it | evidently intended | confidence | as-written member | corrected member |
|---|---|---|---|---|---|---|
| configkit/core/value_converter.py:45-52 with core/tcl_interpreter.py:96-98 | The empty string encodes as the empty literal, so `dict2tclinterp` issues `set x `, which reads `x` instead of assigning it | `{"x": ""}` in a fresh interpreter: the read fails and the load raises | An empty string is written as `{}` and stored as the empty string | not executed | ValueConverter.EmptyStringAsWritten, InterpreterProperties.EmptyStringWriteFails | ValueConverter.EncodedStringReadsBack, InterpreterProperties.EmptyStringStored, InterpreterProperties.FlatRoundTrip |
| configkit/core/value_converter.py:45-52 with core/tcl_interpreter.py:96-98 | A string holding `;`, a vertical tab or a form feed, but none of the characters of line 49, is encoded bare | `{"x": "a;b"}`: `dict2tclinterp` issues `set x a;b`, which stores `a` and then runs a command `b`, so the load raises or runs a command the document never named | Brace such a string too, so that `set` stores it whole | not executed | ValueConverter.SemicolonLeftBare, ValueConverter.EmptyStringAsWritten | ValueConverter.EncodedStringReadsBack, InterpreterProperties.StoredReadsBack |
| core/tcl_interpreter.py:196-199, 212-215 | The export braces a value only for a space or one of `{}[]$"\`. A value with a tab, a newline or a carriage return, or an empty value, is written bare | scalar `x` = `a<TAB>b` gives `set x a<TAB>b`, a four-word command that `set` refuses; `a<LF>b` gives `set x a` followed by a command `b`; `x` = `` gives `set x `, a read | Quote as the codec does, with the empty value braced too | not executed | InterpreterProperties.ExportBlankGap, InterpreterProperties.ExportEmptyGap | InterpreterProperties.ExportScalarLine, ValueConverter.EncodedStringReadsBack |

**How the model uses the corrections.** `EncodeStringAsWritten` and `ExportQuoteAsWritten` keep the code's rules for the findings. The rest of the model uses the corrected `EncodeString`, both for the values `dict2tclinterp` writes and for the values in the lines of the export. Only the type-table index of the export is quoted with the code's own rule, `ExportQuoteAsWritten`.
