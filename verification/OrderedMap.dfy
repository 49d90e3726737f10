/**
 The `std::map` a partition is sorted through. Its nodes are kept as the sequence that iterating
 the map yields.
 */
module OrderedMap {
  import opened Sequences
  import opened Entries

  /** `std::map::emplace`: found by lower bound; a key that is already present keeps its first value. */
  function Emplace(nodes: seq<Entry>, e: Entry): seq<Entry> {
    var p := CountBelow(nodes, e.key);
    if p < |nodes| && nodes[p].key == e.key then nodes else nodes[..p] + [e] + nodes[p..]
  }

  /** The map after every entry of a chunk has been emplaced in file order. */
  function SortChunk(chunk: seq<Entry>): seq<Entry> {
    if chunk == [] then [] else Emplace(SortChunk(chunk[..|chunk| - 1]), chunk[|chunk| - 1])
  }

  lemma SortChunkNext(chunk: seq<Entry>, i: nat)
    requires i < |chunk|
    ensures SortChunk(chunk[..i + 1]) == Emplace(SortChunk(chunk[..i]), chunk[i])
  {
    assert chunk[..i + 1][..i] == chunk[..i];
  }

  function SortChunks(chunks: seq<seq<Entry>>): (r: seq<seq<Entry>>)
    ensures |r| == |chunks|
    ensures forall i :: 0 <= i < |r| ==> r[i] == SortChunk(chunks[i])
  {
    seq(|chunks|, i requires 0 <= i < |chunks| => SortChunk(chunks[i]))
  }

  lemma StrictlySortedIsSorted(nodes: seq<Entry>)
    requires StrictlySorted(nodes)
    ensures Sorted(nodes) && DistinctKeys(nodes)
  {
  }

  /** The lower bound of a key finds its node, if it has one. */
  lemma LowerBound(nodes: seq<Entry>, k: Key)
    requires StrictlySorted(nodes)
    ensures var p := CountBelow(nodes, k);
            HasKey(nodes, k) <==> p < |nodes| && nodes[p].key == k
  {
    StrictlySortedIsSorted(nodes);
    CountBelowSorted(nodes, k);
    if HasKey(nodes, k) {
      var i :| 0 <= i < |nodes| && nodes[i].key == k;
      SortedKeys(nodes, CountBelow(nodes, k), i);
    }
  }

  lemma EmplaceStrict(nodes: seq<Entry>, e: Entry)
    requires StrictlySorted(nodes)
    ensures StrictlySorted(Emplace(nodes, e))
  {
    StrictlySortedIsSorted(nodes);
    CountBelowSorted(nodes, e.key);
    var p := CountBelow(nodes, e.key);
    if p < |nodes| {
      forall i | p <= i < |nodes| ensures nodes[p].key <= nodes[i].key {
        SortedKeys(nodes, p, i);
      }
    }
  }

  lemma EmplaceCorrect(nodes: seq<Entry>, e: Entry)
    requires StrictlySorted(nodes)
    ensures StrictlySorted(Emplace(nodes, e))
    ensures HasKey(nodes, e.key) ==> Emplace(nodes, e) == nodes
    ensures !HasKey(nodes, e.key) ==> multiset(Emplace(nodes, e)) == multiset(nodes) + multiset{e}
    ensures !HasKey(nodes, e.key) ==> |Emplace(nodes, e)| == |nodes| + 1
  {
    EmplaceStrict(nodes, e);
    LowerBound(nodes, e.key);
    var p := CountBelow(nodes, e.key);
    assert nodes == nodes[..p] + nodes[p..];
  }

  lemma {:induction false} ScanAppend(s: seq<Entry>, t: seq<Entry>, k: Key)
    ensures Scan(s + t, k) == if Scan(s, k).Some? then Scan(s, k) else Scan(t, k)
  {
    if s == [] {
      assert s + t == t;
    } else {
      ScanAppend(s[1..], t, k);
      assert (s + t)[1..] == s[1..] + t;
    }
  }

  lemma ScanOne(e: Entry, k: Key)
    ensures Scan([e], k) == if e.key == k then Some(e.value) else None
  {
  }

  /** An entry with a new key in the middle is found under that key, and hides no other. */
  lemma ScanAround(a: seq<Entry>, e: Entry, b: seq<Entry>, k: Key)
    requires !HasKey(a + b, e.key)
    ensures Scan(a + [e] + b, k) == if k == e.key then Some(e.value) else Scan(a + b, k)
  {
    ScanCorrect(a + b, e.key);
    ScanAppend(a, b, k);
    ScanAppend(a + [e], b, k);
    ScanAppend(a, [e], k);
    ScanOne(e, k);
  }

  lemma NoneFound(s: seq<Entry>, k: Key)
    requires !HasKey(s, k)
    ensures Scan(s, k) == None
  {
    ScanCorrect(s, k);
  }

  lemma EmplaceScan(nodes: seq<Entry>, e: Entry, k: Key)
    requires StrictlySorted(nodes)
    ensures Scan(Emplace(nodes, e), k)
         == if Scan(nodes, k).None? && k == e.key then Some(e.value) else Scan(nodes, k)
  {
    LowerBound(nodes, e.key);
    if HasKey(nodes, e.key) {
      ScanCorrect(nodes, e.key);
    } else {
      var p := CountBelow(nodes, e.key);
      var a, b := nodes[..p], nodes[p..];
      assert a + b == nodes;
      ScanAround(a, e, b, k);
      NoneFound(nodes, e.key);
    }
  }

  /** A map that answers as the entries before does so once one more entry is emplaced. */
  lemma EmplaceAnswers(nodes: seq<Entry>, front: seq<Entry>, e: Entry, k: Key)
    requires StrictlySorted(nodes)
    requires Scan(nodes, k) == Scan(front, k)
    ensures StrictlySorted(Emplace(nodes, e))
    ensures Scan(Emplace(nodes, e), k) == Scan(front + [e], k)
  {
    EmplaceStrict(nodes, e);
    EmplaceScan(nodes, e, k);
    ScanAppend(front, [e], k);
    ScanOne(e, k);
  }

  /** Sorting a chunk through the map answers every lookup as scanning the chunk does. */
  lemma {:induction false} SortChunkScan(chunk: seq<Entry>, k: Key)
    ensures StrictlySorted(SortChunk(chunk))
    ensures Scan(SortChunk(chunk), k) == Scan(chunk, k)
  {
    if chunk == [] {
      assert SortChunk(chunk) == [];
    } else {
      var n := |chunk| - 1;
      var front, last := chunk[..n], chunk[n];
      SortChunkScan(front, k);
      EmplaceAnswers(SortChunk(front), front, last, k);
      assert chunk == front + [last];
    }
  }

  /**
   The map never holds more nodes than the chunk has entries, and it holds as many exactly when no
   key is repeated; then nothing was dropped.
   */
  lemma {:induction false} SortChunkSize(chunk: seq<Entry>)
    ensures |SortChunk(chunk)| <= |chunk|
    ensures |SortChunk(chunk)| == |chunk| <==> DistinctKeys(chunk)
    ensures DistinctKeys(chunk) ==> multiset(SortChunk(chunk)) == multiset(chunk)
  {
    if chunk != [] {
      var n := |chunk| - 1;
      var front, last := chunk[..n], chunk[n];
      assert chunk == front + [last];
      SortChunkSize(front);
      SortChunkScan(front, last.key);
      EmplaceCorrect(SortChunk(front), last);
      ScanCorrect(front, last.key);
      ScanCorrect(SortChunk(front), last.key);
      assert DistinctKeys(chunk) <==> DistinctKeys(front) && !HasKey(front, last.key) by {
        if DistinctKeys(chunk) {
          assert forall i, j :: 0 <= i < j < |front| ==> chunk[i].key != chunk[j].key;
        }
      }
    }
  }

  lemma SortChunkSorted(chunk: seq<Entry>)
    ensures Sorted(SortChunk(chunk))
  {
    SortChunkScan(chunk, 0);
  }

  ghost predicate ChunksDistinct(chunks: seq<seq<Entry>>) {
    forall i :: 0 <= i < |chunks| ==> DistinctKeys(chunks[i])
  }

  /**
   The temporary file that the sort phase writes is never longer than the data, and it is as long
   exactly when no chunk repeats a key. Otherwise the slices, which are cut at the data's own
   offsets, run past its end.
   */
  lemma {:induction false} SortedRunsFillFile(chunks: seq<seq<Entry>>)
    ensures |Concat(SortChunks(chunks))| <= |Concat(chunks)|
    ensures |Concat(SortChunks(chunks))| == |Concat(chunks)| <==> ChunksDistinct(chunks)
    ensures ChunksDistinct(chunks) ==> multiset(Concat(SortChunks(chunks))) == multiset(Concat(chunks))
  {
    if chunks != [] {
      SortChunkSize(chunks[0]);
      SortedRunsFillFile(chunks[1..]);
      assert SortChunks(chunks)[1..] == SortChunks(chunks[1..]);
      assert ChunksDistinct(chunks) <==> DistinctKeys(chunks[0]) && ChunksDistinct(chunks[1..]) by {
        assert forall i :: 0 < i < |chunks| ==> chunks[i] == chunks[1..][i - 1];
      }
    }
  }

  /** Of two entries with one key in a chunk the second is lost, and the file is an entry short. */
  lemma RepeatedKeyLost()
    ensures var chunks: seq<seq<Entry>> := [[Entry(1, 7), Entry(1, 8)]];
            Concat(SortChunks(chunks)) == [Entry(1, 7)] && |Concat(chunks)| == 2
  {
    var chunk: seq<Entry> := [Entry(1, 7), Entry(1, 8)];
    assert chunk[..1] == [Entry(1, 7)] && [Entry(1, 7)][..0] == [];
    assert SortChunk([Entry(1, 7)]) == [Entry(1, 7)];
    assert SortChunk(chunk) == [Entry(1, 7)];
    ConcatSnoc([], chunk);
    ConcatSnoc([], SortChunk(chunk));
    assert [] + [chunk] == [chunk] && [] + [SortChunk(chunk)] == [SortChunk(chunk)] == SortChunks([chunk]);
  }

  /** A chunk without repeated keys comes out as its sort by (key, value). */
  lemma SortChunkIsSort(chunk: seq<Entry>)
    requires DistinctKeys(chunk)
    ensures SortChunk(chunk) == SortEntries(chunk)
  {
    SortChunkSize(chunk);
    SortChunkSorted(chunk);
    SortEntriesCorrect(chunk);
    SortedUnique(SortChunk(chunk), SortEntries(chunk));
  }
}
