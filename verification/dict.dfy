/** Python's `dict` with string keys: a finite map that also remembers the
    order in which its keys were first inserted, which is the order in which
    `.items()` and `.values()` visit them. */
module Dict {

  datatype Dict<V> = Dict(keys: seq<string>, values: map<string, V>)

  /** No element occurs twice. */
  predicate Distinct<T(==)>(s: seq<T>) {
    forall i, j :: 0 <= i < j < |s| ==> s[i] != s[j]
  }

  /** How many times `x` occurs in `s`. */
  function CountOf(s: seq<string>, x: string): nat {
    if |s| == 0 then 0 else (if s[0] == x then 1 else 0) + CountOf(s[1..], x)
  }

  /** An element of a sequence without repetitions occurs in it once. */
  lemma {:induction false} OccursOnce(s: seq<string>, x: string)
    requires Distinct(s) && x in s
    ensures CountOf(s, x) == 1
  {
    if s[0] == x {
      NotOccurring(s[1..], x);
    } else {
      OccursOnce(s[1..], x);
    }
  }

  /** An element not in a sequence occurs in it zero times. */
  lemma {:induction false} NotOccurring(s: seq<string>, x: string)
    requires x !in s
    ensures CountOf(s, x) == 0
  {
    if |s| > 0 {
      NotOccurring(s[1..], x);
    }
  }

  /** The key order lists every key of the map exactly once. */
  ghost predicate Valid<V>(d: Dict<V>) {
    && Distinct(d.keys)
    && (forall k :: k in d.values <==> k in d.keys)
  }

  /** The index of the first occurrence of `k` in `s`. */
  function Position(s: seq<string>, k: string): (p: nat)
    requires k in s
    ensures p < |s| && s[p] == k && k !in s[..p]
  {
    if s[0] == k then 0
    else
      assert s == [s[0]] + s[1..];
      var p := 1 + Position(s[1..], k);
      assert s[..p] == [s[0]] + s[1..][..p - 1];
      p
  }

  /** No occurrence of `k` comes before its first one. */
  lemma {:induction false} PositionIsFirst(s: seq<string>, k: string, i: nat)
    requires i < |s| && s[i] == k
    ensures Position(s, k) <= i
  {
    if s[0] != k {
      PositionIsFirst(s[1..], k, i - 1);
    }
  }

  /** Appending to a sequence does not move the first occurrence of a key
      already in it. */
  lemma PositionAppend(s: seq<string>, x: string, k: string)
    requires k in s
    ensures Position(s + [x], k) == Position(s, k)
  {
    var p := Position(s, k);
    PositionIsFirst(s + [x], k, p);
    PositionIsFirst(s, k, Position(s + [x], k));
  }

  /** The key order after assigning to `ids` one after another: a key not
      yet present goes after all keys already there, so the keys added follow
      the order in which they first occur in `ids`. */
  function Extend(keys: seq<string>, ids: seq<string>): (r: seq<string>)
    ensures |keys| <= |r| && r[..|keys|] == keys
    ensures forall k :: k in r <==> k in keys || k in ids
    ensures Distinct(keys) ==> Distinct(r)
    ensures forall p :: |keys| <= p < |r| ==> r[p] in ids && r[p] !in keys
    ensures forall p, q :: |keys| <= p < q < |r| ==> Position(ids, r[p]) < Position(ids, r[q])
  {
    if |ids| == 0 then keys
    else
      var init := ids[..|ids| - 1];
      var before := Extend(keys, init);
      var id := ids[|ids| - 1];
      assert ids == init + [id];
      forall k | k in init
        ensures Position(ids, k) == Position(init, k)
      {
        PositionAppend(init, id, k);
      }
      if id in before then before
      else
        assert (before + [id])[..|keys|] == before[..|keys|];
        assert Position(ids, id) == |ids| - 1 by {
          assert id !in init;
        }
        before + [id]
  }

  /** A sequence without repetitions has as many distinct elements as it is long. */
  lemma {:induction false} DistinctCardinality<T>(s: seq<T>)
    requires Distinct(s)
    ensures |set x | x in s| == |s|
  {
    if |s| > 0 {
      var init := s[..|s| - 1];
      var last := s[|s| - 1];
      assert Distinct(init);
      DistinctCardinality(init);
      assert last !in init;
      assert (set x | x in s) == (set x | x in init) + {last} by {
        assert s == init + [last];
      }
    }
  }

  /** A valid dict has exactly one key-order slot per key. */
  lemma SizeIsKeyCount<V>(d: Dict<V>)
    requires Valid(d)
    ensures |d.values| == |d.keys|
  {
    DistinctCardinality(d.keys);
    assert d.values.Keys == set x | x in d.keys;
  }
}
