/** `merge_dict`: the recursive union of two documents.  The right-hand
    dictionary is folded into a copy of the left-hand one key by key:
    two dictionaries merge recursively, two lists concatenate, and in every
    other case the right-hand value replaces the left-hand one. */
module DictOperations {
  import opened Wrappers
  import opened Document

  /** The value stored under a key that both sides hold. */
  function Combine(a: Value, b: Value): Value
    decreases b
  {
    if a.Dict? && b.Dict? then Dict(MergeFrom(a.entries, b.entries, 0, b))
    else if a.List? && b.List? then List(a.items + b.items)
    else b
  }

  /** The loop of `merge_dict` from position `i` of `d2` on, with `acc` the
      result built so far.  `parent` is the dictionary value `d2` came from;
      it only serves to show that the recursion terminates. */
  function MergeFrom(acc: Entries, d2: Entries, i: nat, ghost parent: Value): Entries
    requires i <= |d2| && parent == Dict(d2)
    decreases parent, |d2| - i
  {
    if i == |d2| then acc
    else
      var k := d2[i].0;
      var v := d2[i].1;
      var next := if k in Keys(acc) then Combine(Lookup(acc, k).value, v) else v;
      MergeFrom(Put(acc, k, next), d2, i + 1, parent)
  }

  /** `merge_dict(d1, d2)`. */
  function MergeDict(d1: Entries, d2: Entries): Entries
  {
    MergeFrom(d1, d2, 0, Dict(d2))
  }

  /** `merge_dict` as the source runs it: copy `d1`, then assign the keys of
      `d2` one at a time, recursing for nested dictionaries. */
  method Merge(d1: Entries, d2: Entries) returns (r: Entries)
    ensures r == MergeDict(d1, d2)
    decreases Dict(d2)
  {
    r := d1;
    var i := 0;
    while i < |d2|
      invariant i <= |d2|
      invariant MergeFrom(r, d2, i, Dict(d2)) == MergeDict(d1, d2)
      decreases |d2| - i
    {
      var k := d2[i].0;
      var v := d2[i].1;
      if k in Keys(r) {
        var cur := Lookup(r, k).value;
        if cur.Dict? && v.Dict? {
          assert Dict(v.entries) == v;
          var m := Merge(cur.entries, v.entries);
          r := Put(r, k, Dict(m));
        } else if cur.List? && v.List? {
          r := Put(r, k, List(cur.items + v.items));
        } else {
          r := Put(r, k, v);
        }
      } else {
        r := Put(r, k, v);
      }
      i := i + 1;
    }
  }

  // ---------------------------------------------------------------------
  // Properties

  lemma {:induction false} MergeFromKeys(acc: Entries, d2: Entries, i: nat, parent: Value)
    requires i <= |d2| && parent == Dict(d2)
    ensures Keys(MergeFrom(acc, d2, i, parent)) == Keys(acc) + Keys(d2[i..])
    decreases |d2| - i
  {
    if i < |d2| {
      var k := d2[i].0;
      var v := d2[i].1;
      var next := if k in Keys(acc) then Combine(Lookup(acc, k).value, v) else v;
      MergeFromKeys(Put(acc, k, next), d2, i + 1, parent);
      assert d2[i..][1..] == d2[i + 1..];
    }
  }

  /** The keys of the merge are exactly the keys of both sides. */
  lemma MergeKeys(d1: Entries, d2: Entries)
    ensures Keys(MergeDict(d1, d2)) == Keys(d1) + Keys(d2)
  {
    MergeFromKeys(d1, d2, 0, Dict(d2));
    assert d2[0..] == d2;
  }

  /** What a key holds after the merge, given what the two sides hold. */
  function MergedAt(a: Option<Value>, b: Option<Value>): Option<Value>
  {
    match b
    case None => a
    case Some(y) => if a.Some? then Some(Combine(a.value, y)) else b
  }

  lemma {:induction false} MergeFromLookup(acc: Entries, d2: Entries, i: nat, parent: Value, k: string)
    requires i <= |d2| && parent == Dict(d2) && UniqueKeys(d2[i..])
    ensures Lookup(MergeFrom(acc, d2, i, parent), k) == MergedAt(Lookup(acc, k), Lookup(d2[i..], k))
    decreases |d2| - i
  {
    if i < |d2| {
      var k' := d2[i].0;
      var v := d2[i].1;
      var next := if k' in Keys(acc) then Combine(Lookup(acc, k').value, v) else v;
      assert d2[i..][1..] == d2[i + 1..];
      MergeFromLookup(Put(acc, k', next), d2, i + 1, parent, k);
    }
  }

  /** The value of every key after the merge: a key only in `d1` keeps its
      value, a key only in `d2` takes `d2`'s; where both hold a value, two
      dictionaries merge recursively, two lists concatenate in order, and
      otherwise `d2`'s value wins. */
  lemma MergeLookup(d1: Entries, d2: Entries, k: string)
    requires UniqueKeys(d2)
    ensures k !in Keys(d2) ==> Lookup(MergeDict(d1, d2), k) == Lookup(d1, k)
    ensures k !in Keys(d1) ==> Lookup(MergeDict(d1, d2), k) == Lookup(d2, k)
    ensures k in Keys(d1) && k in Keys(d2) ==>
      var a := Lookup(d1, k).value;
      var b := Lookup(d2, k).value;
      Lookup(MergeDict(d1, d2), k) ==
        Some(if a.Dict? && b.Dict? then Dict(MergeDict(a.entries, b.entries))
             else if a.List? && b.List? then List(a.items + b.items)
             else b)
  {
    assert d2[0..] == d2;
    MergeFromLookup(d1, d2, 0, Dict(d2), k);
  }

  lemma {:induction false} MergeFromUnique(acc: Entries, d2: Entries, i: nat, parent: Value)
    requires i <= |d2| && parent == Dict(d2) && UniqueKeys(acc)
    ensures UniqueKeys(MergeFrom(acc, d2, i, parent))
    decreases |d2| - i
  {
    if i < |d2| {
      var k := d2[i].0;
      var v := d2[i].1;
      var next := if k in Keys(acc) then Combine(Lookup(acc, k).value, v) else v;
      MergeFromUnique(Put(acc, k, next), d2, i + 1, parent);
    }
  }

  /** Merging into a dictionary keeps its keys unique. */
  lemma MergeUnique(d1: Entries, d2: Entries)
    requires UniqueKeys(d1)
    ensures UniqueKeys(MergeDict(d1, d2))
  {
    MergeFromUnique(d1, d2, 0, Dict(d2));
  }

  lemma {:induction false} MergeFromEmpty(d: Entries, i: nat, parent: Value)
    requires i <= |d| && parent == Dict(d) && UniqueKeys(d)
    ensures MergeFrom(d[..i], d, i, parent) == d
    decreases |d| - i
  {
    if i < |d| {
      UniquePrefixFresh(d, i);
      assert d[..i] + [d[i]] == d[..i + 1];
      MergeFromEmpty(d, i + 1, parent);
    } else {
      assert d[..i] == d;
    }
  }

  /** Merging into an empty dictionary gives the right-hand side back, and
      merging an empty dictionary changes nothing. */
  lemma MergeIdentity(d: Entries)
    requires UniqueKeys(d)
    ensures MergeDict([], d) == d
    ensures MergeDict(d, []) == d
  {
    MergeFromEmpty(d, 0, Dict(d));
  }

  /** The merge of the two dictionaries in `test_merge_dict`. */
  lemma MergeExample()
    ensures MergeDict(
              [("a", Int(1)), ("b", Dict([("x", Int(10)), ("y", Int(20))]))],
              [("a", Int(2)), ("b", Dict([("y", Int(30)), ("z", Int(40))])), ("c", Int(3))])
         == [("a", Int(2)), ("b", Dict([("x", Int(10)), ("y", Int(30)), ("z", Int(40))])), ("c", Int(3))]
  {
    var inner1 := [("x", Int(10)), ("y", Int(20))];
    var inner2 := [("y", Int(30)), ("z", Int(40))];
    NestedMergeExample();
    MergeShape("a", "b", "c", Int(1), Int(2), inner1, inner2, Int(3));
  }

  /** The shape of `test_merge_dict`: a key in both with scalar values, a
      key in both with dictionary values, and a key only on the right. */
  lemma MergeShape(ka: string, kb: string, kc: string, x1: Value, x2: Value, e1: Entries, e2: Entries, x3: Value)
    requires ka != kb && kb != kc && ka != kc && !x1.Dict? && !x1.List?
    ensures MergeDict([(ka, x1), (kb, Dict(e1))], [(ka, x2), (kb, Dict(e2)), (kc, x3)])
         == [(ka, x2), (kb, Dict(MergeDict(e1, e2))), (kc, x3)]
  {
    var d2 := [(ka, x2), (kb, Dict(e2)), (kc, x3)];
    var p := Dict(d2);
    ShapeFirst(ka, kb, x1, x2, e1, d2);
    ShapeSecond(ka, kb, x2, e1, d2);
    ShapeThird(ka, kb, x2, MergeDict(e1, e2), d2);
  }

  lemma ShapeFirst(ka: string, kb: string, x1: Value, x2: Value, e1: Entries, d2: Entries)
    requires ka != kb && !x1.Dict? && !x1.List? && |d2| == 3 && d2[0] == (ka, x2)
    ensures MergeFrom([(ka, x1), (kb, Dict(e1))], d2, 0, Dict(d2)) == MergeFrom([(ka, x2), (kb, Dict(e1))], d2, 1, Dict(d2))
  {
    var d1 := [(ka, x1), (kb, Dict(e1))];
    assert ka in Keys(d1) && Lookup(d1, ka) == Some(x1);
    assert Put(d1, ka, x2) == [(ka, x2), (kb, Dict(e1))];
    MergeFromStep(d1, d2, 0, Dict(d2));
  }

  lemma ShapeSecond(ka: string, kb: string, x2: Value, e1: Entries, d2: Entries)
    requires ka != kb && |d2| == 3 && d2[1].0 == kb && d2[1].1.Dict?
    ensures MergeFrom([(ka, x2), (kb, Dict(e1))], d2, 1, Dict(d2))
         == MergeFrom([(ka, x2), (kb, Dict(MergeDict(e1, d2[1].1.entries)))], d2, 2, Dict(d2))
  {
    var s1 := [(ka, x2), (kb, Dict(e1))];
    assert kb in Keys(s1) && Lookup(s1, kb) == Some(Dict(e1));
    assert Combine(Dict(e1), d2[1].1) == Dict(MergeDict(e1, d2[1].1.entries));
    assert Put(s1, kb, Dict(MergeDict(e1, d2[1].1.entries))) == [(ka, x2), (kb, Dict(MergeDict(e1, d2[1].1.entries)))];
    MergeFromStep(s1, d2, 1, Dict(d2));
  }

  lemma ShapeThird(ka: string, kb: string, x2: Value, m: Entries, d2: Entries)
    requires |d2| == 3 && d2[2].0 != ka && d2[2].0 != kb
    ensures MergeFrom([(ka, x2), (kb, Dict(m))], d2, 2, Dict(d2)) == [(ka, x2), (kb, Dict(m)), d2[2]]
  {
    var s2 := [(ka, x2), (kb, Dict(m))];
    assert s2[1..] == [(kb, Dict(m))] && s2[1..][1..] == [];
    assert Keys(s2[1..]) == {kb};
    assert Keys(s2) == {ka, kb};
    MergeFromStep(s2, d2, 2, Dict(d2));
  }

  /** One turn of the loop of `merge_dict`. */
  lemma MergeFromStep(acc: Entries, d2: Entries, i: nat, parent: Value)
    requires i < |d2| && parent == Dict(d2)
    ensures var k := d2[i].0;
      MergeFrom(acc, d2, i, parent)
      == MergeFrom(Put(acc, k, if k in Keys(acc) then Combine(Lookup(acc, k).value, d2[i].1) else d2[i].1), d2, i + 1, parent)
  {
  }

  /** The nested dictionaries of `test_merge_dict`: `y` is overridden and
      `z` appended. */
  lemma NestedMergeExample()
    ensures MergeDict([("x", Int(10)), ("y", Int(20))], [("y", Int(30)), ("z", Int(40))])
         == [("x", Int(10)), ("y", Int(30)), ("z", Int(40))]
  {
    var inner1 := [("x", Int(10)), ("y", Int(20))];
    var inner2 := [("y", Int(30)), ("z", Int(40))];
    var inner := [("x", Int(10)), ("y", Int(30)), ("z", Int(40))];
    var q := Dict(inner2);
    assert "y" in Keys(inner1) && Lookup(inner1, "y") == Some(Int(20));
    var i1 := Put(inner1, "y", Int(30));
    assert i1 == [("x", Int(10)), ("y", Int(30))];
    assert "z" !in Keys(i1);
    assert MergeFrom(i1, inner2, 1, q) == MergeFrom(inner, inner2, 2, q);
  }

  /** Lists under the same key are concatenated, duplicates kept. */
  lemma MergeListExample()
    ensures MergeDict([("xs", List([Int(1), Int(2)]))], [("xs", List([Int(2), Int(3)]))])
         == [("xs", List([Int(1), Int(2), Int(2), Int(3)]))]
  {
    var d1 := [("xs", List([Int(1), Int(2)]))];
    assert "xs" in Keys(d1) && Lookup(d1, "xs") == Some(List([Int(1), Int(2)]));
    assert [Int(1), Int(2)] + [Int(2), Int(3)] == [Int(1), Int(2), Int(2), Int(3)];
  }
}
