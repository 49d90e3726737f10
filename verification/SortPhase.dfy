/** The slices of the temporary file that the sort phase leaves behind. */
module SortPhase {
  import opened Sequences
  import opened Entries
  import opened OrderedMap
  import opened Partitions
  import opened Merging

  /** The slice that chunk `i` occupies in the data file. */
  function SliceOf(chunks: seq<seq<Entry>>, i: nat, entrySize: nat): Cursor
    requires i < |chunks|
  {
    Opened(|Concat(chunks[..i])| * entrySize, |chunks[i]| * entrySize)
  }

  /** The partitions are, in order, the slices that the chunks occupy in the data file. */
  ghost predicate TilesFile(partitions: seq<Partition>, temp: TempFile, chunks: seq<seq<Entry>>, entrySize: nat)
    reads partitions
  {
    && |partitions| == |chunks|
    && (forall i, j :: 0 <= i < j < |partitions| ==> partitions[i] != partitions[j])
    && (forall i :: 0 <= i < |partitions| ==>
          partitions[i].src == temp && partitions[i].State() == SliceOf(chunks, i, entrySize))
  }

  lemma SliceOfSnoc(chunks: seq<seq<Entry>>, chunk: seq<Entry>, i: nat, entrySize: nat)
    requires i <= |chunks|
    ensures SliceOf(chunks + [chunk], i, entrySize)
         == if i < |chunks| then SliceOf(chunks, i, entrySize)
            else Opened(|Concat(chunks)| * entrySize, |chunk| * entrySize)
  {
    assert (chunks + [chunk])[..i] == chunks[..i];
    assert i == |chunks| ==> chunks[..i] == chunks;
  }

  lemma TilesSnoc(partitions: seq<Partition>, p: Partition, temp: TempFile, done: seq<seq<Entry>>,
                  chunk: seq<Entry>, entrySize: nat)
    requires TilesFile(partitions, temp, done, entrySize)
    requires p !in partitions && p.src == temp
    requires p.State() == Opened(|Concat(done)| * entrySize, |chunk| * entrySize)
    ensures TilesFile(partitions + [p], temp, done + [chunk], entrySize)
  {
    forall i | 0 <= i < |partitions| + 1
      ensures (partitions + [p])[i].src == temp
      ensures (partitions + [p])[i].State() == SliceOf(done + [chunk], i, entrySize)
    {
      SliceOfSnoc(done, chunk, i, entrySize);
    }
  }

  /** The sort phase has dealt with the first `k` entries of the data, in whole chunks. */
  ghost predicate SortedSoFar(data: seq<Entry>, m: nat, k: nat, done: seq<seq<Entry>>, temp: seq<Entry>) {
    && m > 0 && k <= |data|
    && done + Chunks(data[k..], m) == Chunks(data, m)
    && |Concat(done)| == k
    && temp == Concat(SortChunks(done))
  }

  lemma SortedOneMore(data: seq<Entry>, m: nat, k: nat, c: nat, done: seq<seq<Entry>>, temp: seq<Entry>)
    requires SortedSoFar(data, m, k, done, temp)
    requires k < |data| && c == (if |data| - k < m then |data| - k else m)
    ensures k + c <= |data|
    ensures var chunk := data[k..k + c];
            SortedSoFar(data, m, k + c, done + [chunk], temp + SortChunk(chunk))
  {
    var chunk := data[k..k + c];
    ChunksHead(data[k..], m);
    assert data[k..][..c] == chunk && data[k..][c..] == data[k + c..];
    assert done + ([chunk] + Chunks(data[k + c..], m)) == done + [chunk] + Chunks(data[k + c..], m);
    SortChunksSnoc(done, chunk);
    ConcatSnoc(SortChunks(done), SortChunk(chunk));
    ConcatSnoc(done, chunk);
  }

  lemma ChunksHead<T>(s: seq<T>, m: nat)
    requires m > 0 && s != []
    ensures var c := if |s| < m then |s| else m;
            Chunks(s, m) == [s[..c]] + Chunks(s[c..], m)
  {
    if |s| <= m {
      assert s[..|s|] == s && s[|s|..] == [];
    }
  }

  lemma SortChunksSnoc(chunks: seq<seq<Entry>>, chunk: seq<Entry>)
    ensures SortChunks(chunks + [chunk]) == SortChunks(chunks) + [SortChunk(chunk)]
  {
  }

  lemma ConcatPrefix<T>(ss: seq<seq<T>>, i: nat)
    requires i < |ss|
    ensures |Concat(ss[..i])| + |ss[i]| <= |Concat(ss)|
    ensures Concat(ss)[|Concat(ss[..i])|..|Concat(ss[..i])| + |ss[i]|] == ss[i]
  {
    ConcatAround(ss[..i], ss[i], ss[i + 1..]);
    assert ss == ss[..i] + [ss[i]] + ss[i + 1..];
  }

  /**
   When no chunk repeats a key, slice `i` of the temporary file, cut at the data file's offsets, is
   the sort of chunk `i`.
   */
  lemma SliceIsSortedChunk(chunks: seq<seq<Entry>>, i: nat)
    requires ChunksDistinct(chunks)
    requires i < |chunks|
    ensures var first, file := |Concat(chunks[..i])|, Concat(SortChunks(chunks));
            && first + |chunks[i]| <= |file|
            && file[first..first + |chunks[i]|] == SortEntries(chunks[i])
  {
    SortChunkSize(chunks[i]);
    SortChunkIsSort(chunks[i]);
    SortedPrefixSize(chunks, i);
    ConcatPrefix(SortChunks(chunks), i);
  }

  lemma SortedPrefixSize(chunks: seq<seq<Entry>>, i: nat)
    requires ChunksDistinct(chunks)
    requires i <= |chunks|
    ensures |Concat(SortChunks(chunks)[..i])| == |Concat(chunks[..i])|
  {
    SortedRunsFillFile(chunks[..i]);
    assert SortChunks(chunks)[..i] == SortChunks(chunks[..i]);
  }

  /** Setting the lookup window makes a slice readable, with the sort of its chunk still to deliver. */
  lemma WindowOpensSlice(chunks: seq<seq<Entry>>, i: nat, size: nat, entrySize: nat)
    requires ChunksDistinct(chunks)
    requires i < |chunks| && chunks[i] != []
    requires entrySize > 0 && size > 0
    requires size % entrySize == 0 || |chunks[i]| * entrySize <= size
    ensures var file := Concat(SortChunks(chunks));
            var c := WindowSet(SliceOf(chunks, i, entrySize), size).0;
            && Reading(c, entrySize) && c.end / entrySize <= |file|
            && Remaining(c, entrySize, file) == SortEntries(chunks[i])
  {
    SliceIsSortedChunk(chunks, i);
    var first, count := |Concat(chunks[..i])|, |chunks[i]|;
    var file := Concat(SortChunks(chunks));
    WindowedWalkIsSlice(first, count, size, entrySize, file);
    WalkReadsRemaining(WindowSet(Opened(first * entrySize, count * entrySize), size).0, entrySize, file);
  }

  // ----- the vector of open partitions

  /** The vector's elements are different objects over `temp`, in the given states. */
  ghost predicate InStates(partitions: seq<Partition>, temp: TempFile, states: seq<Cursor>)
    reads partitions
  {
    && |partitions| == |states|
    && (forall i, j :: 0 <= i < j < |partitions| ==> partitions[i] != partitions[j])
    && (forall i :: 0 <= i < |partitions| ==> partitions[i].src == temp && partitions[i].State() == states[i])
  }

  /** Cursors in these states have `rests` still to deliver from `file`. */
  ghost predicate Delivering(states: seq<Cursor>, file: seq<Entry>, entrySize: nat, rests: seq<seq<Entry>>) {
    && |states| == |rests|
    && (forall i :: 0 <= i < |states| ==> Delivers(states[i], file, entrySize, rests[i]))
  }

  ghost predicate Delivers(c: Cursor, file: seq<Entry>, entrySize: nat, rest: seq<Entry>) {
    && Reading(c, entrySize)
    && c.end / entrySize <= |file|
    && Remaining(c, entrySize, file) == rest
  }

  /** Move cursor `h` on by one entry and erase it if that fails. */
  function MovedOn(states: seq<Cursor>, h: nat, entrySize: nat): seq<Cursor>
    requires h < |states|
  {
    var (c, more) := Advanced(states[h], entrySize);
    if more then states[h := c] else states[..h] + states[h + 1..]
  }

  lemma DeliversStep(c: Cursor, file: seq<Entry>, entrySize: nat, rest: seq<Entry>)
    requires Delivers(c, file, entrySize, rest)
    ensures rest != []
    ensures Advanced(c, entrySize).1 <==> |rest| > 1
    ensures |rest| > 1 ==> Delivers(Advanced(c, entrySize).0, file, entrySize, rest[1..])
  {
    AdvanceRemaining(c, entrySize, file);
    AdvanceOne(c, entrySize);
  }

  lemma MovedOnDelivers(states: seq<Cursor>, file: seq<Entry>, entrySize: nat, rests: seq<seq<Entry>>, h: nat)
    requires Delivering(states, file, entrySize, rests)
    requires h < |states|
    ensures rests[h] != []
    ensures Delivering(MovedOn(states, h, entrySize), file, entrySize, Taken(rests, h))
  {
    DeliversStep(states[h], file, entrySize, rests[h]);
    var moved, left := MovedOn(states, h, entrySize), Taken(rests, h);
    if |rests[h]| > 1 {
      forall i | 0 <= i < |moved| ensures Delivers(moved[i], file, entrySize, left[i]) {
        assert i != h ==> moved[i] == states[i] && left[i] == rests[i];
      }
    } else {
      forall i | 0 <= i < |moved| ensures Delivers(moved[i], file, entrySize, left[i]) {
        var j := if i < h then i else i + 1;
        assert moved[i] == states[j] && left[i] == rests[j];
      }
    }
  }

  lemma EraseInStates(partitions: seq<Partition>, temp: TempFile, states: seq<Cursor>, h: nat)
    requires InStates(partitions, temp, states) && h < |states|
    ensures InStates(partitions[..h] + partitions[h + 1..], temp, states[..h] + states[h + 1..])
  {
    var p := partitions[..h] + partitions[h + 1..];
    forall i | 0 <= i < |p| ensures p[i] == partitions[if i < h then i else i + 1] {
    }
  }

  // ----- the lookup window

  /** The window that the merge reads each partition through. */
  function LookupWindow(partitionSize: nat, pageSize: nat): nat {
    if partitionSize < 10 * pageSize then partitionSize else 10 * pageSize
  }

  /** The largest partition fits the window, or the window is a whole number of entries. */
  predicate WindowFits(dataLen: nat, m: nat, partitionSize: nat, pageSize: nat, entrySize: nat)
    requires entrySize > 0
  {
    var w := LookupWindow(partitionSize, pageSize);
    w % entrySize == 0 || (if dataLen < m then dataLen else m) * entrySize <= w
  }

  /** The states of all partitions once their windows are set. */
  function WindowStates(chunks: seq<seq<Entry>>, size: nat, entrySize: nat): (r: seq<Cursor>)
    ensures |r| == |chunks|
  {
    seq(|chunks|, i requires 0 <= i < |chunks| => WindowSet(SliceOf(chunks, i, entrySize), size).0)
  }

  lemma ChunkSizes<T>(s: seq<T>, m: nat, i: nat)
    requires m > 0 && i < |Chunks(s, m)|
    ensures 0 < |Chunks(s, m)[i]| <= m && |Chunks(s, m)[i]| <= |s|
    ensures i == 0 ==> |Chunks(s, m)[i]| == if |s| < m then |s| else m
  {
    ChunkAt(s, m, i);
    assert (i + 1) * m == i * m + m;
  }

  /** After the windows are set, the partitions deliver the sorted chunks. */
  lemma WindowsDeliver(data: seq<Entry>, m: nat, partitionSize: nat, pageSize: nat, entrySize: nat)
    requires m > 0 && entrySize > 0 && pageSize > 0 && partitionSize == m * entrySize
    requires ChunksDistinct(Chunks(data, m))
    requires WindowFits(|data|, m, partitionSize, pageSize, entrySize)
    ensures var chunks := Chunks(data, m);
            var size := LookupWindow(partitionSize, pageSize);
            Delivering(WindowStates(chunks, size, entrySize), Concat(SortChunks(chunks)), entrySize, SortChunks(chunks))
  {
    var chunks := Chunks(data, m);
    var size := LookupWindow(partitionSize, pageSize);
    MulMono(1, m, entrySize);
    var states, runs := WindowStates(chunks, size, entrySize), SortChunks(chunks);
    forall i | 0 <= i < |chunks| ensures Delivers(states[i], Concat(runs), entrySize, runs[i]) {
      ChunkSizes(data, m, i);
      MulMono(|chunks[i]|, if |data| < m then |data| else m, entrySize);
      WindowOpensSlice(chunks, i, size, entrySize);
      SortChunkIsSort(chunks[i]);
    }
  }

  /** The merge stays on entry boundaries in every partition exactly when the window fits. */
  lemma WindowFitsExactly(data: seq<Entry>, m: nat, partitionSize: nat, pageSize: nat, entrySize: nat)
    requires m > 0 && entrySize > 0 && pageSize > 0 && partitionSize == m * entrySize
    requires data != []
    ensures var states := WindowStates(Chunks(data, m), LookupWindow(partitionSize, pageSize), entrySize);
            (forall i :: 0 <= i < |states| ==> StaysAligned(states[i], entrySize))
            <==> WindowFits(|data|, m, partitionSize, pageSize, entrySize)
  {
    var chunks := Chunks(data, m);
    var size := LookupWindow(partitionSize, pageSize);
    MulMono(1, m, entrySize);
    forall i | 0 <= i < |chunks|
      ensures StaysAligned(WindowStates(chunks, size, entrySize)[i], entrySize)
         <==> size % entrySize == 0 || |chunks[i]| * entrySize <= size
    {
      ChunkSizes(data, m, i);
      WindowAlignment(|Concat(chunks[..i])|, |chunks[i]|, size, entrySize);
    }
    forall i | 0 <= i < |chunks| && (if |data| < m then |data| else m) * entrySize <= size
      ensures |chunks[i]| * entrySize <= size
    {
      ChunkSizes(data, m, i);
      MulMono(|chunks[i]|, if |data| < m then |data| else m, entrySize);
    }
    ChunkSizes(data, m, 0);
  }

  /** With a 64-bit key, a payload of 20 bytes and pages of 4096, a window of ten pages cuts an entry in two. */
  lemma WindowCutsEntry(data: seq<Entry>)
    requires |data| == 3000
    ensures var states := WindowStates(Chunks(data, 2000), LookupWindow(56000, 4096), 28);
            exists i :: 0 <= i < |states| && !StaysAligned(states[i], 28)
  {
    WindowFitsExactly(data, 2000, 56000, 4096, 28);
  }

  /** Before the first entry is taken, the sorted chunks are the data. */
  lemma MergeStart(data: seq<Entry>, m: nat)
    requires m > 0
    requires ChunksDistinct(Chunks(data, m))
    ensures MergeInvariant([], SortChunks(Chunks(data, m)), multiset(data))
  {
    var chunks := Chunks(data, m);
    ChunksTile(data, m);
    SortedRunsFillFile(chunks);
    forall i | 0 <= i < |chunks| ensures SortChunks(chunks)[i] != [] && Sorted(SortChunks(chunks)[i]) {
      ChunkSizes(data, m, i);
      SortChunkSize(chunks[i]);
      SortChunkSorted(chunks[i]);
    }
  }
}
