/**
 The records that the data bank stores. A key is a 64-bit word. A value is a plain-old-data value;
 since such a type is finite, a value is represented by its rank in the type's own order, which is
 the only thing the sort reads from it.
 */
module Entries {
  import opened Sequences

  type Key = k: nat | k < 0x1_0000_0000_0000_0000
  type Value = nat

  datatype Entry = Entry(key: Key, value: Value)

  /** The order of `std::tuple<KeyType, ValueType>`. */
  predicate Leq(a: Entry, b: Entry) {
    a.key < b.key || (a.key == b.key && a.value <= b.value)
  }

  ghost predicate Sorted(s: seq<Entry>) {
    forall i, j :: 0 <= i < j < |s| ==> Leq(s[i], s[j])
  }

  lemma SortedKeys(s: seq<Entry>, i: nat, j: nat)
    requires Sorted(s)
    requires i <= j < |s|
    ensures s[i].key <= s[j].key
  {
    assert i < j ==> Leq(s[i], s[j]);
  }

  /** Sorted with no key twice, as the nodes of a `std::map` are. */
  ghost predicate StrictlySorted(s: seq<Entry>) {
    forall i, j :: 0 <= i < j < |s| ==> s[i].key < s[j].key
  }

  ghost predicate DistinctKeys(s: seq<Entry>) {
    forall i, j :: 0 <= i < j < |s| ==> s[i].key != s[j].key
  }

  predicate HasKey(s: seq<Entry>, k: Key) {
    exists i :: 0 <= i < |s| && s[i].key == k
  }

  /** The reference answer: the value beside the first occurrence of `k`. */
  function Scan(s: seq<Entry>, k: Key): Option<Value> {
    if s == [] then None else if s[0].key == k then Some(s[0].value) else Scan(s[1..], k)
  }

  function CountBelow(s: seq<Entry>, k: Key): (n: nat)
    ensures n <= |s|
  {
    if s == [] then 0 else (if s[0].key < k then 1 else 0) + CountBelow(s[1..], k)
  }

  /** How many entries of a key have a value below `v`. */
  function CountLess(s: seq<Entry>, k: Key, v: Value): nat {
    if s == [] then 0 else (if s[0].key == k && s[0].value < v then 1 else 0) + CountLess(s[1..], k, v)
  }

  /** The reference sort: insertion by (key, value). */
  function Insert(e: Entry, s: seq<Entry>): seq<Entry> {
    if s == [] || Leq(e, s[0]) then [e] + s else [s[0]] + Insert(e, s[1..])
  }

  function SortEntries(s: seq<Entry>): seq<Entry> {
    if s == [] then [] else Insert(s[0], SortEntries(s[1..]))
  }

  lemma {:induction false} InsertSorted(e: Entry, s: seq<Entry>)
    requires Sorted(s)
    ensures Sorted(Insert(e, s))
    ensures multiset(Insert(e, s)) == multiset{e} + multiset(s)
  {
    if s != [] && !Leq(e, s[0]) {
      InsertSorted(e, s[1..]);
      var r := Insert(e, s[1..]);
      assert s == [s[0]] + s[1..];
      forall x | x in r ensures Leq(s[0], x) {
        assert x in multiset(r);
        assert x == e || x in s[1..];
      }
    }
  }

  lemma {:induction false} SortEntriesCorrect(s: seq<Entry>)
    ensures Sorted(SortEntries(s))
    ensures multiset(SortEntries(s)) == multiset(s)
    ensures |SortEntries(s)| == |s|
  {
    if s != [] {
      SortEntriesCorrect(s[1..]);
      InsertSorted(s[0], SortEntries(s[1..]));
      assert s == [s[0]] + s[1..];
    }
    assert |multiset(SortEntries(s))| == |multiset(s)|;
  }

  /** A sorted arrangement of a multiset of entries is unique. */
  lemma {:induction false} SortedUnique(a: seq<Entry>, b: seq<Entry>)
    requires Sorted(a) && Sorted(b)
    requires multiset(a) == multiset(b)
    ensures a == b
  {
    assert |a| == |multiset(a)| == |multiset(b)| == |b|;
    if a != [] {
      assert a[0] in multiset(b) && b[0] in multiset(a);
      assert Leq(b[0], a[0]) && Leq(a[0], b[0]);
      assert a == [a[0]] + a[1..] && b == [b[0]] + b[1..];
      assert multiset(a[1..]) == multiset(a) - multiset{a[0]};
      SortedUnique(a[1..], b[1..]);
    }
  }

  lemma {:induction false} ScanCorrect(s: seq<Entry>, k: Key)
    ensures Scan(s, k).Some? <==> HasKey(s, k)
    ensures Scan(s, k).Some? ==> Entry(k, Scan(s, k).value) in s
  {
    if s != [] && s[0].key != k {
      ScanCorrect(s[1..], k);
      if HasKey(s, k) {
        var i :| 0 <= i < |s| && s[i].key == k;
        assert s[1..][i - 1].key == k;
      }
      assert s == [s[0]] + s[1..];
    }
  }

  /** With distinct keys, membership determines what the scan returns. */
  lemma ScanDistinct(s: seq<Entry>, e: Entry)
    requires DistinctKeys(s)
    requires e in s
    ensures Scan(s, e.key) == Some(e.value)
  {
    ScanCorrect(s, e.key);
    var i :| 0 <= i < |s| && s[i] == e;
    assert HasKey(s, e.key);
    var j :| 0 <= j < |s| && s[j] == Entry(e.key, Scan(s, e.key).value);
    assert i == j;
  }

  lemma HasKeyPermutation(a: seq<Entry>, b: seq<Entry>, k: Key)
    requires multiset(a) == multiset(b)
    ensures HasKey(a, k) <==> HasKey(b, k)
  {
    if HasKey(a, k) {
      var i :| 0 <= i < |a| && a[i].key == k;
      assert a[i] in multiset(b);
    }
    if HasKey(b, k) {
      var i :| 0 <= i < |b| && b[i].key == k;
      assert b[i] in multiset(a);
    }
  }

  lemma {:induction false} CountBelowInsert(e: Entry, s: seq<Entry>, k: Key)
    ensures CountBelow(Insert(e, s), k) == (if e.key < k then 1 else 0) + CountBelow(s, k)
  {
    if s == [] || Leq(e, s[0]) {
      assert ([e] + s)[1..] == s;
    } else {
      CountBelowInsert(e, s[1..], k);
      assert Insert(e, s)[1..] == Insert(e, s[1..]);
    }
  }

  lemma {:induction false} CountBelowSort(s: seq<Entry>, k: Key)
    ensures CountBelow(SortEntries(s), k) == CountBelow(s, k)
  {
    if s != [] {
      CountBelowSort(s[1..], k);
      CountBelowInsert(s[0], SortEntries(s[1..]), k);
    }
  }

  /** In sorted data the entries below `k` are exactly the first `CountBelow` ones. */
  lemma {:induction false} CountBelowSorted(s: seq<Entry>, k: Key)
    requires Sorted(s)
    ensures forall i :: 0 <= i < |s| ==> (s[i].key < k <==> i < CountBelow(s, k))
  {
    if s != [] {
      CountBelowSorted(s[1..], k);
      forall i | 0 < i < |s| ensures s[i].key < k <==> i < CountBelow(s, k) {
        assert s[i] == s[1..][i - 1];
        assert Leq(s[0], s[i]);
      }
    }
  }

  lemma {:induction false} CountLessInsert(e: Entry, s: seq<Entry>, k: Key, v: Value)
    ensures CountLess(Insert(e, s), k, v) == (if e.key == k && e.value < v then 1 else 0) + CountLess(s, k, v)
  {
    if s == [] || Leq(e, s[0]) {
      assert ([e] + s)[1..] == s;
    } else {
      CountLessInsert(e, s[1..], k, v);
      assert Insert(e, s)[1..] == Insert(e, s[1..]);
    }
  }

  lemma {:induction false} CountLessSort(s: seq<Entry>, k: Key, v: Value)
    ensures CountLess(SortEntries(s), k, v) == CountLess(s, k, v)
  {
    if s != [] {
      CountLessSort(s[1..], k, v);
      CountLessInsert(s[0], SortEntries(s[1..]), k, v);
    }
  }

  lemma {:induction false} CountsWithin(s: seq<Entry>, k: Key, v: Value, p: nat)
    requires p <= |s|
    requires forall i :: p <= i < |s| ==> s[i].key > k || (s[i].key == k && s[i].value >= v)
    ensures CountBelow(s, k) + CountLess(s, k, v) <= p
  {
    if s != [] {
      CountsWithin(s[1..], k, v, if p == 0 then 0 else p - 1);
    }
  }

  /** In sorted data all entries of smaller keys, and those of the key with smaller values, come before an entry. */
  lemma CountsBefore(s: seq<Entry>, p: nat)
    requires Sorted(s) && p < |s|
    ensures CountBelow(s, s[p].key) + CountLess(s, s[p].key, s[p].value) <= p
  {
    forall i | p < i < |s| ensures Leq(s[p], s[i]) {
    }
    CountsWithin(s, s[p].key, s[p].value, p);
  }

  /** The sort arranges the entries by key, and those of one key by value. */
  lemma SortedByKeyThenValue(s: seq<Entry>)
    ensures var r := SortEntries(s);
            && multiset(r) == multiset(s)
            && (forall i, j :: 0 <= i < j < |r| ==> r[i].key <= r[j].key)
            && (forall i, j :: 0 <= i < j < |r| && r[i].key == r[j].key ==> r[i].value <= r[j].value)
  {
    SortEntriesCorrect(s);
  }
}
