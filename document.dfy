/** The document model: the nested values that YAML loading produces and
    that the converter exchanges with the Tcl store.  A Python `dict` is an
    association list in insertion order; `Put` is Python's `d[k] = v`
    (an existing key keeps its place, a new key goes last). */
module Document {
  import opened Wrappers

  datatype Value =
    | Null
    | Bool(b: bool)
    | Int(n: int)
    | Str(s: string)
    | List(items: seq<Value>)
    | Dict(entries: seq<(string, Value)>)

  type Entries = seq<(string, Value)>

  /** The keys of a dictionary. */
  function Keys(es: Entries): set<string>
    decreases |es|
  {
    if es == [] then {} else {es[0].0} + Keys(es[1..])
  }

  /** No key occurs twice: what every Python `dict` satisfies. */
  predicate UniqueKeys(es: Entries)
    decreases |es|
  {
    es == [] || (es[0].0 !in Keys(es[1..]) && UniqueKeys(es[1..]))
  }

  /** `d.get(k)`: the value stored under `k`, if any. */
  function Lookup(es: Entries, k: string): (r: Option<Value>)
    ensures r.Some? <==> k in Keys(es)
    decreases |es|
  {
    if es == [] then None
    else if es[0].0 == k then Some(es[0].1)
    else Lookup(es[1..], k)
  }

  /** `d[k] = v`. */
  function Put(es: Entries, k: string, v: Value): (r: Entries)
    ensures Keys(r) == Keys(es) + {k}
    ensures Lookup(r, k) == Some(v)
    ensures forall k' :: k' != k ==> Lookup(r, k') == Lookup(es, k')
    ensures UniqueKeys(es) ==> UniqueKeys(r)
    ensures k !in Keys(es) ==> r == es + [(k, v)]
    decreases |es|
  {
    if es == [] then [(k, v)]
    else if es[0].0 == k then [(k, v)] + es[1..]
    else
      var rest := Put(es[1..], k, v);
      assert ([es[0]] + rest)[1..] == rest;
      assert k !in Keys(es) ==> [es[0]] + es[1..] + [(k, v)] == es + [(k, v)];
      [es[0]] + rest
  }

  /** In a dictionary with unique keys, the key at position `n` is not among
      the keys before it. */
  lemma {:induction false} UniquePrefixFresh(es: Entries, n: nat)
    requires UniqueKeys(es) && n < |es|
    ensures es[n].0 !in Keys(es[..n])
    decreases n
  {
    if n > 0 {
      UniquePrefixFresh(es[1..], n - 1);
      assert es[..n][1..] == es[1..][..n - 1];
      assert es[n].0 != es[0].0 by { KeysHas(es[1..], n - 1); }
    }
  }

  /** Every key at some position is among the keys. */
  lemma {:induction false} KeysHas(es: Entries, i: nat)
    requires i < |es|
    ensures es[i].0 in Keys(es)
    decreases i
  {
    if i > 0 {
      KeysHas(es[1..], i - 1);
    }
  }
}
