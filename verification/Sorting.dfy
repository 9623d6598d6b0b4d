/** Sorting, as sort.Sort and sort.Strings promise it. */
module Sorting {
  import opened ByteStrings
  import opened DatastoreModel
  import opened DatastoreSteps

  /** Some order of the same values with nondecreasing timestamps. */
  method SortByTimestamp(values: seq<Sample>) returns (sorted: seq<Sample>)
    ensures SortedByTime(sorted) && multiset(sorted) == multiset(values)
  {
    sorted := [];
    for i := 0 to |values|
      invariant SortedByTime(sorted) && multiset(sorted) == multiset(values[..i])
    {
      assert values[..i + 1] == values[..i] + [values[i]];
      sorted := InsertByTime(sorted, values[i]);
    }
    assert values[..|values|] == values;
  }

  method InsertByTime(sorted: seq<Sample>, v: Sample) returns (r: seq<Sample>)
    requires SortedByTime(sorted)
    ensures SortedByTime(r) && multiset(r) == multiset(sorted) + multiset{v}
  {
    var j := |sorted|;
    while j > 0 && sorted[j - 1].timestamp > v.timestamp
      invariant 0 <= j <= |sorted|
      invariant forall l :: j <= l < |sorted| ==> sorted[l].timestamp > v.timestamp
    {
      j := j - 1;
    }
    r := sorted[..j] + [v] + sorted[j..];
    InsertedValues(sorted, j, v);
    InsertedOrder(sorted, j, v);
  }

  lemma InsertedValues(sorted: seq<Sample>, j: nat, v: Sample)
    requires j <= |sorted|
    ensures multiset(sorted[..j] + [v] + sorted[j..]) == multiset(sorted) + multiset{v}
  {
    assert sorted == sorted[..j] + sorted[j..];
  }

  lemma InsertedOrder(sorted: seq<Sample>, j: nat, v: Sample)
    requires j <= |sorted| && SortedByTime(sorted)
    requires j > 0 ==> sorted[j - 1].timestamp <= v.timestamp
    requires forall l :: j <= l < |sorted| ==> sorted[l].timestamp > v.timestamp
    ensures SortedByTime(sorted[..j] + [v] + sorted[j..])
  {
  }

  /** The same strings in increasing order. */
  method SortStrings(keys: seq<Bytes>) returns (sorted: seq<Bytes>)
    requires forall i, j :: 0 <= i < j < |keys| ==> keys[i] != keys[j]
    ensures Increasing(sorted) && Elements(sorted) == Elements(keys)
  {
    sorted := [];
    for i := 0 to |keys|
      invariant Increasing(sorted) && Elements(sorted) == Elements(keys[..i])
    {
      sorted := InsertString(sorted, keys[i]) by { assert keys[i] !in keys[..i]; assert keys[i] !in Elements(sorted); }
      assert keys[..i + 1] == keys[..i] + [keys[i]];
      assert Elements(keys[..i + 1]) == Elements(keys[..i]) + {keys[i]};
    }
    assert keys[..|keys|] == keys;
  }

  method InsertString(sorted: seq<Bytes>, k: Bytes) returns (r: seq<Bytes>)
    requires Increasing(sorted) && k !in Elements(sorted)
    ensures Increasing(r) && Elements(r) == Elements(sorted) + {k}
  {
    hide Less;
    Order();
    var j := |sorted|;
    while j > 0 && Less(k, sorted[j - 1])
      invariant 0 <= j <= |sorted|
      invariant forall l :: j <= l < |sorted| ==> Less(k, sorted[l])
    {
      j := j - 1;
    }
    r := sorted[..j] + [k] + sorted[j..];
    if j > 0 {
      assert sorted[j - 1] in Elements(sorted);
      assert Less(sorted[j - 1], k);
    }
    assert forall x :: x in r <==> x in sorted || x == k by {
      assert sorted == sorted[..j] + sorted[j..];
    }
  }
}
