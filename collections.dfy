/**
 * The two Kotlin collections the decode loops fill: a `LinkedHashMap` (the storage of a
 * Dictionary) as an insertion-ordered association list, and the deduplication performed when a
 * Set is built from the decoded list.
 */
module Collections {
  import opened Values

  /** The `storage` of a Dictionary: entries in iteration order. */
  type Entries = seq<(Value, Value)>

  predicate HasKey(d: Entries, k: Value)
  {
    exists i :: 0 <= i < |d| && d[i].0 == k
  }

  /** No key occurs twice, as in any map. */
  predicate DistinctKeys(d: Entries)
  {
    forall i, j :: 0 <= i < j < |d| ==> d[i].0 != d[j].0
  }

  /**
   * `map[k] = v` on a LinkedHashMap: an existing key keeps its position and takes the new value
   * (last write wins); a new key is appended at the end of the iteration order.
   */
  function Put(d: Entries, k: Value, v: Value): (r: Entries)
    ensures |r| == if HasKey(d, k) then |d| else |d| + 1
    ensures HasKey(r, k)
    ensures forall i :: 0 <= i < |r| && r[i].0 == k ==> r[i].1 == v
    ensures forall i :: 0 <= i < |d| && d[i].0 != k ==> r[i] == d[i]
    ensures forall k' :: HasKey(r, k') <==> HasKey(d, k') || k' == k
    ensures !HasKey(d, k) ==> r == d + [(k, v)]
    ensures DistinctKeys(d) ==> DistinctKeys(r)
  {
    if HasKey(d, k) then
      var r := seq(|d|, i requires 0 <= i < |d| => if d[i].0 == k then (k, v) else d[i]);
      var j :| 0 <= j < |d| && d[j].0 == k;
      assert r[j].0 == k;
      r
    else
      var r := d + [(k, v)];
      assert r[|d|].0 == k;
      r
  }

  predicate NoDuplicates(xs: seq<Value>)
  {
    forall i, j :: 0 <= i < j < |xs| ==> xs[i] != xs[j]
  }

  /** The position of the first occurrence of `x` in `xs`. */
  function FirstIndex(xs: seq<Value>, x: Value): (i: nat)
    requires x in xs
    ensures i < |xs| && xs[i] == x
    ensures forall j :: 0 <= j < i ==> xs[j] != x
  {
    if xs[0] == x then 0 else 1 + FirstIndex(xs[1..], x)
  }

  /** An element of a prefix occurs first at the same position in the whole list. */
  lemma FirstIndexInPrefix(xs: seq<Value>, m: nat)
    requires m <= |xs|
    ensures forall x :: x in xs[..m] ==> x in xs && FirstIndex(xs, x) == FirstIndex(xs[..m], x) < m
  {
    forall x | x in xs[..m]
      ensures x in xs && FirstIndex(xs, x) == FirstIndex(xs[..m], x) < m
    {
      var b := FirstIndex(xs[..m], x);
      assert xs[b] == x;
      var a := FirstIndex(xs, x);
      assert a <= b;
      assert xs[..m][a] == x;
    }
  }

  /**
   * The elements of a Set built from a list: each distinct element once, ordered by the
   * position of its first occurrence (see `DedupKeepsFirstOccurrenceOrder`).
   */
  function Dedup(xs: seq<Value>): (r: seq<Value>)
    ensures forall x :: x in r <==> x in xs
    ensures NoDuplicates(r)
    ensures |r| <= |xs|
    ensures NoDuplicates(xs) ==> r == xs
  {
    if xs == [] then []
    else
      var prefix := Dedup(xs[..|xs| - 1]);
      var last := xs[|xs| - 1];
      assert xs == xs[..|xs| - 1] + [last];
      if last in prefix then prefix else prefix + [last]
  }

  /** The elements of `Dedup(xs)` appear in the order of their first occurrences in `xs`. */
  lemma {:induction false} DedupKeepsFirstOccurrenceOrder(xs: seq<Value>)
    ensures forall i, j :: 0 <= i < j < |Dedup(xs)| ==> FirstIndex(xs, Dedup(xs)[i]) < FirstIndex(xs, Dedup(xs)[j])
    decreases |xs|
  {
    if xs != [] {
      var init := xs[..|xs| - 1];
      var last := xs[|xs| - 1];
      var prefix := Dedup(init);
      var r := Dedup(xs);
      assert xs == init + [last];
      DedupKeepsFirstOccurrenceOrder(init);
      FirstIndexInPrefix(xs, |xs| - 1);
      if last in prefix {
        assert r == prefix;
      } else {
        assert r == prefix + [last];
        assert last !in init;
        assert FirstIndex(xs, last) == |xs| - 1;
      }
      forall i, j | 0 <= i < j < |r|
        ensures FirstIndex(xs, r[i]) < FirstIndex(xs, r[j])
      {
        assert r[i] == prefix[i] && r[i] in init;
        if j < |prefix| {
          assert r[j] == prefix[j];
        }
      }
    }
  }
}
