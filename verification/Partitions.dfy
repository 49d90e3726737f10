/**
 A partition is a sorted slice of the temporary file, read through a window that is mapped piece by
 piece. Offsets and lengths are in bytes, as in the source; `entrySize` bytes hold one entry.
 */
module Partitions {
  import opened Sequences
  import opened Entries

  class TempFile {
    var entries: seq<Entry>

    constructor ()
      ensures entries == []
    {
      entries := [];
    }

    method Write(e: Entry)
      modifies this
      ensures entries == old(entries) + [e]
    {
      entries := entries + [e];
    }
  }

  /** The data members of a partition. The window covers `windowLen` bytes of the file from `windowBegin`. */
  datatype Cursor = Cursor(
    offset: nat, end: nat, windowBegin: nat, windowLen: nat, windowSize: nat, ahead: nat)

  function Opened(offset: nat, size: nat): Cursor {
    Cursor(offset, offset + size, 0, 0, 0, 0)
  }

  function WindowSet(c: Cursor, size: nat): (Cursor, bool) {
    if c.offset >= c.end then (c, false)
    else
      var len := if c.end - c.offset < size then c.end - c.offset else size;
      (c.(windowSize := size, windowBegin := c.offset, windowLen := len, ahead := 0,
          offset := c.offset + len), true)
  }

  function Advanced(c: Cursor, step: nat): (Cursor, bool) {
    var moved := c.(ahead := c.ahead + step);
    if moved.ahead >= moved.windowLen then WindowSet(moved, moved.windowSize) else (moved, true)
  }

  function Position(c: Cursor): nat {
    c.windowBegin + c.ahead
  }

  /** The entry that starts at byte `position` of a file. */
  function EntryAt(file: seq<Entry>, position: nat, entrySize: nat): Entry
    requires entrySize > 0
    requires position / entrySize < |file|
  {
    file[position / entrySize]
  }

  /** A window is mapped, the cursor is inside it, and everything lies on entry boundaries. */
  ghost predicate Reading(c: Cursor, entrySize: nat) {
    && entrySize > 0
    && c.windowBegin + c.windowLen == c.offset <= c.end
    && c.ahead < c.windowLen
    && c.windowSize > 0
    && (c.windowSize % entrySize == 0 || c.offset == c.end)
    && c.end % entrySize == 0 && c.windowBegin % entrySize == 0
    && c.windowLen % entrySize == 0 && c.ahead % entrySize == 0
  }

  /** What the cursor has still to read: the entries from its position to the end of its slice. */
  ghost function Remaining(c: Cursor, entrySize: nat, file: seq<Entry>): seq<Entry>
    requires entrySize > 0
  {
    var lo, hi := Position(c) / entrySize, c.end / entrySize;
    if lo <= hi <= |file| then file[lo..hi] else []
  }

  lemma WindowSetReading(c: Cursor, size: nat, entrySize: nat)
    requires entrySize > 0
    requires c.offset % entrySize == 0 && c.end % entrySize == 0
    requires c.offset < c.end
    requires size > 0
    requires size % entrySize == 0 || c.end - c.offset <= size
    ensures WindowSet(c, size).1
    ensures Reading(WindowSet(c, size).0, entrySize)
    ensures Position(WindowSet(c, size).0) == c.offset
  {
    MultiplesSub(c.end, c.offset, entrySize);
    assert 0 % entrySize == 0;
  }

  /**
   One `move_iterator(ENTRY_SIZE)`: the next position is one entry on, across a change of window as
   within one, and the call returns false exactly when that position is the end of the slice.
   */
  lemma AdvanceOne(c: Cursor, entrySize: nat)
    requires Reading(c, entrySize)
    ensures Advanced(c, entrySize).1 <==> Position(c) + entrySize < c.end
    ensures Position(c) + entrySize <= c.end
    ensures Advanced(c, entrySize).1 ==>
              && Reading(Advanced(c, entrySize).0, entrySize)
              && Position(Advanced(c, entrySize).0) == Position(c) + entrySize
    ensures Advanced(c, entrySize).0.end == c.end
  {
    MultiplesGap(c.ahead, c.windowLen, entrySize);
    MultipleOf(1, entrySize);
    MultiplesAdd(c.ahead, entrySize, entrySize);
    var moved := c.(ahead := c.ahead + entrySize);
    if moved.ahead >= moved.windowLen {
      assert moved.ahead == moved.windowLen;
      MultiplesAdd(c.windowBegin, c.windowLen, entrySize);
      if moved.offset < moved.end {
        WindowSetReading(moved, moved.windowSize, entrySize);
      }
    } else {
      assert Position(c) + entrySize < c.offset;
    }
  }

  lemma NextSlot(position: nat, end: nat, entrySize: nat)
    requires entrySize > 0
    requires position % entrySize == 0 && end % entrySize == 0
    requires position + entrySize <= end
    ensures (position + entrySize) / entrySize == position / entrySize + 1 <= end / entrySize
    ensures position + entrySize < end <==> position / entrySize + 1 < end / entrySize
  {
    MultipleOf(1, entrySize);
    MultiplesAdd(position, entrySize, entrySize);
    MultiplesSub(end, position + entrySize, entrySize);
    assert end - (position + entrySize) == (end / entrySize - (position / entrySize + 1)) * entrySize;
  }

  /** The same step, on the entries that remain. */
  lemma AdvanceRemaining(c: Cursor, entrySize: nat, file: seq<Entry>)
    requires Reading(c, entrySize)
    requires c.end / entrySize <= |file|
    ensures Position(c) / entrySize < |file|
    ensures Remaining(c, entrySize, file) != []
    ensures Remaining(c, entrySize, file)[0] == EntryAt(file, Position(c), entrySize)
    ensures Advanced(c, entrySize).1 <==> |Remaining(c, entrySize, file)| > 1
    ensures Advanced(c, entrySize).1 ==>
              Remaining(Advanced(c, entrySize).0, entrySize, file) == Remaining(c, entrySize, file)[1..]
  {
    AdvanceOne(c, entrySize);
    MultiplesAdd(c.windowBegin, c.ahead, entrySize);
    NextSlot(Position(c), c.end, entrySize);
  }

  /** Read the current entry, move on, and repeat while the move succeeds. */
  ghost function Walk(c: Cursor, entrySize: nat, file: seq<Entry>): seq<Entry>
    requires Reading(c, entrySize)
    requires c.end / entrySize <= |file|
    decreases c.end - Position(c)
  {
    AdvanceRemaining(c, entrySize, file);
    AdvanceOne(c, entrySize);
    [EntryAt(file, Position(c), entrySize)] +
    if Advanced(c, entrySize).1 then Walk(Advanced(c, entrySize).0, entrySize, file) else []
  }

  lemma {:induction false} WalkReadsRemaining(c: Cursor, entrySize: nat, file: seq<Entry>)
    requires Reading(c, entrySize)
    requires c.end / entrySize <= |file|
    ensures Walk(c, entrySize, file) == Remaining(c, entrySize, file)
    decreases c.end - Position(c)
  {
    AdvanceRemaining(c, entrySize, file);
    AdvanceOne(c, entrySize);
    if Advanced(c, entrySize).1 {
      WalkReadsRemaining(Advanced(c, entrySize).0, entrySize, file);
    }
  }

  /** The windowed cursor reads each entry of its slice once and in order, whatever the window size. */
  lemma WindowedWalkIsSlice(first: nat, count: nat, size: nat, entrySize: nat, file: seq<Entry>)
    requires entrySize > 0 && size > 0 && count > 0
    requires first + count <= |file|
    requires size % entrySize == 0 || count * entrySize <= size
    ensures count * entrySize > 0
    ensures var c := WindowSet(Opened(first * entrySize, count * entrySize), size).0;
            && Reading(c, entrySize) && c.end / entrySize <= |file|
            && Walk(c, entrySize, file) == file[first..first + count]
  {
    SliceBounds(first, count, entrySize);
    WindowedWalk(Opened(first * entrySize, count * entrySize), first, count, size, entrySize, file);
  }

  lemma SliceBounds(first: nat, count: nat, entrySize: nat)
    requires entrySize > 0 && count > 0
    ensures count * entrySize > 0
    ensures var start, end := first * entrySize, first * entrySize + count * entrySize;
            && start % entrySize == 0 && start / entrySize == first
            && end % entrySize == 0 && end / entrySize == first + count
  {
    MulMono(1, count, entrySize);
    MultipleOf(first, entrySize);
    MultipleOf(count, entrySize);
    MultiplesAdd(first * entrySize, count * entrySize, entrySize);
  }

  /** The same for a slice given by its bounds in bytes. */
  lemma WindowedWalk(o: Cursor, first: nat, count: nat, size: nat, entrySize: nat, file: seq<Entry>)
    requires entrySize > 0 && size > 0 && o.offset < o.end
    requires o.offset % entrySize == 0 && o.offset / entrySize == first
    requires o.end % entrySize == 0 && o.end / entrySize == first + count <= |file|
    requires size % entrySize == 0 || o.end - o.offset <= size
    ensures var c := WindowSet(o, size).0;
            && Reading(c, entrySize) && c.end / entrySize <= |file|
            && Walk(c, entrySize, file) == file[first..first + count]
  {
    WindowSetReading(o, size, entrySize);
    WalkReadsRemaining(WindowSet(o, size).0, entrySize, file);
  }

  /** `n` successful moves of one entry each; the flag turns false for good once a move fails. */
  ghost function Moves(c: Cursor, entrySize: nat, n: nat): (Cursor, bool) {
    if n == 0 then (c, true)
    else
      var before := Moves(c, entrySize, n - 1);
      if before.1 then Advanced(before.0, entrySize) else before
  }

  /** Every position at which the cursor is read is an entry boundary. */
  ghost predicate StaysAligned(c: Cursor, entrySize: nat)
    requires entrySize > 0
  {
    forall n: nat :: Moves(c, entrySize, n).1 ==> Position(Moves(c, entrySize, n).0) % entrySize == 0
  }

  lemma {:induction false} MovesReading(c: Cursor, entrySize: nat, n: nat)
    requires Reading(c, entrySize)
    ensures Moves(c, entrySize, n).1 ==> Reading(Moves(c, entrySize, n).0, entrySize)
  {
    if n > 0 {
      MovesReading(c, entrySize, n - 1);
      if Moves(c, entrySize, n - 1).1 {
        AdvanceOne(Moves(c, entrySize, n - 1).0, entrySize);
      }
    }
  }

  /** Within the first window the iterator advances entry by entry. */
  lemma {:induction false} MovesInFirstWindow(c: Cursor, entrySize: nat, n: nat)
    requires entrySize > 0 && c.ahead == 0
    requires n == 0 || n * entrySize < c.windowLen
    ensures Moves(c, entrySize, n) == (c.(ahead := n * entrySize), true)
  {
    if n > 0 {
      assert n * entrySize == (n - 1) * entrySize + entrySize;
      MovesInFirstWindow(c, entrySize, n - 1);
    }
  }

  /**
   When the slice is aligned, the cursor stays aligned exactly when the window size is a whole
   number of entries or one window covers the slice.
   */
  lemma WindowAlignment(first: nat, count: nat, size: nat, entrySize: nat)
    requires entrySize > 0 && size > 0 && count > 0
    ensures var c := WindowSet(Opened(first * entrySize, count * entrySize), size).0;
            StaysAligned(c, entrySize) <==> size % entrySize == 0 || count * entrySize <= size
  {
    MulMono(1, count, entrySize);
    MultipleOf(first, entrySize);
    MultipleOf(count, entrySize);
    MultiplesAdd(first * entrySize, count * entrySize, entrySize);
    var o := Opened(first * entrySize, count * entrySize);
    var c := WindowSet(o, size).0;
    if size % entrySize == 0 || count * entrySize <= size {
      WindowSetReading(o, size, entrySize);
      forall n: nat | Moves(c, entrySize, n).1
        ensures Position(Moves(c, entrySize, n).0) % entrySize == 0
      {
        MovesReading(c, entrySize, n);
        var m := Moves(c, entrySize, n).0;
        MultiplesAdd(m.windowBegin, m.ahead, entrySize);
      }
    } else {
      var q := size / entrySize;
      assert size == q * entrySize + size % entrySize;
      MovesInFirstWindow(c, entrySize, q);
      var last := Moves(c, entrySize, q + 1);
      assert last.1 && Position(last.0) == first * entrySize + size;
      if Position(last.0) % entrySize == 0 {
        MultiplesSub(Position(last.0), first * entrySize, entrySize);
      }
    }
  }

  class Partition {
    const src: TempFile
    var offset: nat
    const partitionEnd: nat
    var windowBegin: nat
    var windowLen: nat
    var windowSize: nat
    var ahead: nat

    function State(): Cursor
      reads this
    {
      Cursor(offset, partitionEnd, windowBegin, windowLen, windowSize, ahead)
    }

    constructor (src: TempFile, offset: nat, partitionSize: nat)
      ensures this.src == src
      ensures State() == Opened(offset, partitionSize)
    {
      this.src, this.offset, partitionEnd := src, offset, offset + partitionSize;
      windowBegin, windowLen, windowSize, ahead := 0, 0, 0, 0;
    }

    method SetLookupWindow(size: nat) returns (mapped: bool)
      modifies this
      ensures (State(), mapped) == WindowSet(old(State()), size)
    {
      if offset >= partitionEnd {
        return false;
      }
      windowSize := size;
      var currentWindowSize := windowSize;
      if partitionEnd - offset < windowSize {
        currentWindowSize := partitionEnd - offset;
      }
      windowBegin, windowLen := offset, currentWindowSize;
      ahead := 0;
      offset := offset + currentWindowSize;
      return true;
    }

    method MoveIterator(step: nat) returns (more: bool)
      modifies this
      ensures (State(), more) == Advanced(old(State()), step)
    {
      ahead := ahead + step;
      if ahead >= windowLen {
        more := SetLookupWindow(windowSize);
        return;
      }
      return true;
    }

    ghost predicate Valid(entrySize: nat)
      reads this, src
    {
      Reading(State(), entrySize) && partitionEnd / entrySize <= |src.entries|
    }

    ghost function Rest(entrySize: nat): seq<Entry>
      requires entrySize > 0
      reads this, src
    {
      Remaining(State(), entrySize, src.entries)
    }

    function CurrentKeyValue(entrySize: nat): (e: Entry)
      requires Valid(entrySize)
      reads this, src
      ensures Rest(entrySize) != [] && e == Rest(entrySize)[0]
    {
      AdvanceRemaining(State(), entrySize, src.entries);
      EntryAt(src.entries, windowBegin + ahead, entrySize)
    }
  }
}
