/**
 Looking a key up: a scan of the directory picks an image, and a binary search reads it. The search
 is written as the source writes it, including the branch that keeps `mid` inside the interval.
 */
module Lookup {
  import opened Sequences
  import opened Entries

  // ----- the search loop as a machine on entry indices

  datatype Search = Active(lo: nat, hi: nat) | Hit(value: Value) | Miss

  ghost predicate InBounds(image: seq<Entry>, s: Search) {
    s.Active? ==> s.lo <= s.hi <= |image|
  }

  /** One test of the loop's guard, and one iteration if it holds. */
  function Step(image: seq<Entry>, key: Key, s: Search): (r: Search)
    requires InBounds(image, s)
    ensures InBounds(image, r)
  {
    if !s.Active? then s
    else if s.lo == s.hi then Miss
    else
      var mid := s.lo + (s.hi - s.lo) / 2;
      if key < image[mid].key then Active(s.lo, mid)
      else if key > image[mid].key then Active(mid, s.hi)
      else Hit(image[mid].value)
  }

  function After(image: seq<Entry>, key: Key, n: nat): (r: Search)
    ensures InBounds(image, r)
  {
    if n == 0 then Active(0, |image|) else Step(image, key, After(image, key, n - 1))
  }

  ghost predicate Halts(image: seq<Entry>, key: Key) {
    exists n: nat :: !After(image, key, n).Active?
  }

  /** The condition under which the loop stops; a caller can evaluate it without running the search. */
  predicate Stops(image: seq<Entry>, key: Key) {
    image == [] || HasKey(image, key) || key < image[0].key
  }

  ghost predicate KeyWithin(image: seq<Entry>, key: Key, lo: nat, hi: nat)
    requires lo <= hi <= |image|
  {
    exists p :: lo <= p < hi && image[p].key == key
  }

  /** What is known of an interval that the search is still looking at, when it is going to stop. */
  ghost predicate Promising(image: seq<Entry>, key: Key, s: Search) {
    && InBounds(image, s)
    && (s.Active? && HasKey(image, key) ==> KeyWithin(image, key, s.lo, s.hi))
    && (s.Active? && !HasKey(image, key) ==> s.lo == 0)
    && (s.Hit? ==> HasKey(image, key) && Entry(key, s.value) in image)
    && (s.Miss? ==> !HasKey(image, key))
  }

  /** A comparison at `mid` tells on which side of it the key is. */
  lemma Narrow(image: seq<Entry>, key: Key, lo: nat, mid: nat, hi: nat)
    requires Sorted(image)
    requires lo <= mid < hi <= |image|
    requires KeyWithin(image, key, lo, hi)
    ensures key < image[mid].key ==> KeyWithin(image, key, lo, mid)
    ensures key > image[mid].key ==> KeyWithin(image, key, mid + 1, hi)
  {
    var p :| lo <= p < hi && image[p].key == key;
    if p <= mid { SortedKeys(image, p, mid); } else { SortedKeys(image, mid, p); }
  }

  lemma StepPromising(image: seq<Entry>, key: Key, s: Search)
    requires Sorted(image) && Stops(image, key)
    requires s.Active? && Promising(image, key, s)
    ensures Promising(image, key, Step(image, key, s))
    ensures var r := Step(image, key, s); r.Active? ==> r.hi - r.lo < s.hi - s.lo
  {
    if s.lo != s.hi {
      var mid := s.lo + (s.hi - s.lo) / 2;
      if HasKey(image, key) {
        Narrow(image, key, s.lo, mid, s.hi);
      } else {
        SortedKeys(image, 0, mid);
      }
    }
  }

  lemma {:induction false} PromisingHalts(image: seq<Entry>, key: Key, n: nat)
    requires Sorted(image) && Stops(image, key)
    requires Promising(image, key, After(image, key, n))
    ensures Halts(image, key)
    decreases var s := After(image, key, n); if s.Active? then 1 + s.hi - s.lo else 0
  {
    var s := After(image, key, n);
    if s.Active? {
      StepPromising(image, key, s);
      assert After(image, key, n + 1) == Step(image, key, s);
      PromisingHalts(image, key, n + 1);
    }
  }

  /** An absent key above the first entry keeps the interval non-empty for ever. */
  lemma {:induction false} AbsentNeverHalts(image: seq<Entry>, key: Key, n: nat)
    requires Sorted(image) && !Stops(image, key)
    ensures var s := After(image, key, n); s.Active? && s.lo < s.hi && image[s.lo].key < key
  {
    if n == 0 {
      assert image[0].key != key;
    } else {
      AbsentNeverHalts(image, key, n - 1);
    }
  }

  /** The loop of `binary_search` ends exactly when `Stops` says so. */
  lemma HaltsExactly(image: seq<Entry>, key: Key)
    requires Sorted(image)
    ensures Halts(image, key) <==> Stops(image, key)
  {
    if Stops(image, key) {
      PromisingHalts(image, key, 0) by {
        assert HasKey(image, key) ==> KeyWithin(image, key, 0, |image|);
      }
    } else if Halts(image, key) {
      var n: nat :| !After(image, key, n).Active?;
      AbsentNeverHalts(image, key, n);
    }
  }

  // ----- the loops themselves

  /** Some number of iterations of the loop leads to `s`. */
  ghost predicate Reached(image: seq<Entry>, key: Key, s: Search) {
    exists n: nat :: After(image, key, n) == s
  }

  ghost predicate Looking(image: seq<Entry>, key: Key, s: Search) {
    Promising(image, key, s) && Reached(image, key, s)
  }

  lemma LookingStep(image: seq<Entry>, key: Key, s: Search)
    requires Sorted(image) && Stops(image, key)
    requires s.Active? && Looking(image, key, s)
    ensures Looking(image, key, Step(image, key, s))
    ensures var r := Step(image, key, s); r.Active? ==> r.hi - r.lo < s.hi - s.lo
  {
    StepPromising(image, key, s);
    var n: nat :| After(image, key, n) == s;
    assert After(image, key, n + 1) == Step(image, key, s);
  }

  lemma LookingStart(image: seq<Entry>, key: Key)
    ensures Looking(image, key, Active(0, |image|))
  {
    assert After(image, key, 0) == Active(0, |image|);
    assert HasKey(image, key) ==> KeyWithin(image, key, 0, |image|);
  }

  /** The byte at which the middle entry of an interval starts. */
  method MidOffset(begin: nat, end: nat, entrySize: nat, ghost lo: nat, ghost hi: nat) returns (mid: nat)
    requires entrySize > 0
    requires lo <= hi && begin == lo * entrySize && end == hi * entrySize
    ensures mid == (lo + (hi - lo) / 2) * entrySize
  {
    IndexGap(lo, hi, entrySize);
    var midEntryOffset := (end - begin) / entrySize / 2;
    mid := begin + midEntryOffset * entrySize;
  }

  /** The two `memcpy` calls that copy an entry out of a mapping. */
  method CopyEntry(image: seq<Entry>, position: nat, entrySize: nat, ghost i: nat) returns (e: Entry)
    requires entrySize > 0
    requires i < |image| && position == i * entrySize
    ensures e == image[i]
  {
    MultipleOf(i, entrySize);
    e := image[position / entrySize];
  }

  /** `binary_search` on the bytes of one image, for the keys on which it returns. */
  method BinarySearch(image: seq<Entry>, key: Key, entrySize: nat, default: Value)
    returns (value: Value, found: bool)
    requires entrySize > 0
    requires Sorted(image)
    requires Stops(image, key)
    ensures found <==> HasKey(image, key)
    ensures found ==> Entry(key, value) in image
    ensures !found ==> value == default
    ensures Reached(image, key, if found then Hit(value) else Miss)
  {
    var begin, end := 0, |image| * entrySize;
    ghost var lo: nat, hi: nat := 0, |image|;
    LookingStart(image, key);
    while begin != end
      invariant begin == lo * entrySize && end == hi * entrySize
      invariant lo <= hi <= |image| && Looking(image, key, Active(lo, hi))
      decreases hi - lo
    {
      IndexGap(lo, hi, entrySize);
      LookingStep(image, key, Active(lo, hi));
      ghost var m := lo + (hi - lo) / 2;
      var mid := MidOffset(begin, end, entrySize, lo, hi);
      var entry := CopyEntry(image, mid, entrySize, m);
      if key < entry.key {
        end, hi := mid, m;
        continue;
      }
      if key > entry.key {
        begin, lo := mid, m;
        continue;
      }
      return entry.value, true;
    }
    IndexGap(lo, hi, entrySize);
    LookingStep(image, key, Active(lo, hi));
    return default, false;
  }

  lemma IndexGap(lo: nat, hi: nat, entrySize: nat)
    requires entrySize > 0
    requires lo <= hi
    ensures hi * entrySize >= lo * entrySize
    ensures (hi * entrySize - lo * entrySize) / entrySize == hi - lo
    ensures lo < hi ==> lo * entrySize < hi * entrySize
  {
    assert hi * entrySize - lo * entrySize == (hi - lo) * entrySize;
    MultipleOf(hi - lo, entrySize);
    if lo < hi {
      MulMono(1, hi - lo, entrySize);
    }
  }

  ghost predicate Candidate(image: seq<Entry>, key: Key, lo: nat, hi: nat) {
    lo <= hi <= |image| && (HasKey(image, key) ==> KeyWithin(image, key, lo, hi))
  }

  lemma CandidateNarrow(image: seq<Entry>, key: Key, lo: nat, mid: nat, hi: nat)
    requires Sorted(image)
    requires lo <= mid < hi && Candidate(image, key, lo, hi)
    ensures key < image[mid].key ==> Candidate(image, key, lo, mid)
    ensures key > image[mid].key ==> Candidate(image, key, mid + 1, hi)
    ensures key == image[mid].key ==> HasKey(image, key) && Entry(key, image[mid].value) in image
  {
    if HasKey(image, key) {
      Narrow(image, key, lo, mid, hi);
    }
  }

  /** The repaired search, with `begin = mid + ENTRY_SIZE`: it returns on every key. */
  method RepairedBinarySearch(image: seq<Entry>, key: Key, entrySize: nat, default: Value)
    returns (value: Value, found: bool)
    requires entrySize > 0
    requires Sorted(image)
    ensures found <==> HasKey(image, key)
    ensures found ==> Entry(key, value) in image
    ensures !found ==> value == default
  {
    var begin, end := 0, |image| * entrySize;
    ghost var lo: nat, hi: nat := 0, |image|;
    while begin != end
      invariant begin == lo * entrySize && end == hi * entrySize
      invariant Candidate(image, key, lo, hi)
      decreases hi - lo
    {
      IndexGap(lo, hi, entrySize);
      ghost var m := lo + (hi - lo) / 2;
      var mid := MidOffset(begin, end, entrySize, lo, hi);
      var entry := CopyEntry(image, mid, entrySize, m);
      CandidateNarrow(image, key, lo, m, hi);
      if key < entry.key {
        end, hi := mid, m;
      } else if key > entry.key {
        begin, lo := mid + entrySize, m + 1;
      } else {
        return entry.value, true;
      }
    }
    IndexGap(lo, hi, entrySize);
    return default, false;
  }

  // ----- the directory

  /** The first directory key that is not below `key`, or the end. */
  function FindIndex(directory: seq<Key>, key: Key): (i: nat)
    ensures i <= |directory|
    ensures i < |directory| ==> directory[i] >= key
    ensures forall j :: 0 <= j < i ==> directory[j] < key
  {
    if directory == [] || directory[0] >= key then 0 else 1 + FindIndex(directory[1..], key)
  }

  /** The last key of each image. */
  function LastKeys(images: seq<seq<Entry>>): (r: seq<Key>)
    requires forall i :: 0 <= i < |images| ==> images[i] != []
    ensures |r| == |images|
    ensures forall i :: 0 <= i < |r| ==> r[i] == images[i][|images[i]| - 1].key
  {
    seq(|images|, i requires 0 <= i < |images| => images[i][|images[i]| - 1].key)
  }

  /** The images that sorted data `s` is cut into are non-empty and sorted. */
  lemma ImagesSorted(s: seq<Entry>, m: nat)
    requires m > 0 && Sorted(s)
    ensures forall i :: 0 <= i < |Chunks(s, m)| ==> Chunks(s, m)[i] != [] && Sorted(Chunks(s, m)[i])
  {
    forall i | 0 <= i < |Chunks(s, m)| ensures Chunks(s, m)[i] != [] && Sorted(Chunks(s, m)[i]) {
      ChunkAt(s, m, i);
      assert (i + 1) * m == i * m + m;
    }
  }

  function LastIndex(s: seq<Entry>, m: nat, i: nat): int {
    if (i + 1) * m <= |s| then (i + 1) * m - 1 else |s| - 1
  }

  lemma LastOfImage(s: seq<Entry>, m: nat, i: nat)
    requires m > 0 && i < |Chunks(s, m)|
    ensures i * m <= LastIndex(s, m, i) < |s|
    ensures Chunks(s, m)[i] == s[i * m..LastIndex(s, m, i) + 1]
    ensures var image := Chunks(s, m)[i];
            image != [] && image[0] == s[i * m] && image[|image| - 1] == s[LastIndex(s, m, i)]
  {
    ChunkAt(s, m, i);
    assert (i + 1) * m == i * m + m;
  }

  lemma LastIndexOrdered(s: seq<Entry>, m: nat, i: nat, j: nat)
    requires m > 0 && Sorted(s)
    requires i < j < |Chunks(s, m)|
    ensures LastIndex(s, m, i) <= LastIndex(s, m, j)
  {
    LastOfImage(s, m, i);
    LastOfImage(s, m, j);
    MulMono(i + 1, j, m);
  }

  lemma LastKeysOrdered(s: seq<Entry>, m: nat, i: nat, j: nat)
    requires m > 0 && Sorted(s)
    requires i < j < |Chunks(s, m)|
    ensures var a, b := Chunks(s, m)[i], Chunks(s, m)[j];
            a != [] && b != [] && a[|a| - 1].key <= b[|b| - 1].key
  {
    LastIndexOrdered(s, m, i, j);
    LastOfImage(s, m, i);
    LastOfImage(s, m, j);
    SortedKeys(s, LastIndex(s, m, i), LastIndex(s, m, j));
  }

  /** Directory keys never decrease. */
  lemma DirectorySorted(s: seq<Entry>, m: nat)
    requires m > 0 && Sorted(s)
    ensures forall i :: 0 <= i < |Chunks(s, m)| ==> Chunks(s, m)[i] != []
    ensures var d := LastKeys(Chunks(s, m)); forall i, j :: 0 <= i < j < |d| ==> d[i] <= d[j]
  {
    ImagesSorted(s, m);
    var d := LastKeys(Chunks(s, m));
    forall i, j | 0 <= i < j < |d| ensures d[i] <= d[j] {
      LastKeysOrdered(s, m, i, j);
    }
  }

  /** A directory entry is below `key` exactly when its image ends before the first entry that is not. */
  lemma DirectoryEntry(s: seq<Entry>, m: nat, key: Key, i: nat)
    requires m > 0 && Sorted(s)
    requires i < |Chunks(s, m)|
    ensures Chunks(s, m)[i] != []
    ensures var image := Chunks(s, m)[i];
            image[|image| - 1].key < key <==> LastIndex(s, m, i) < CountBelow(s, key)
  {
    CountBelowSorted(s, key);
    LastOfImage(s, m, i);
  }

  lemma DirectoryFinds(s: seq<Entry>, m: nat, key: Key, b: nat)
    requires m > 0 && Sorted(s)
    requires b < |Chunks(s, m)|
    requires b * m <= CountBelow(s, key) <= LastIndex(s, m, b)
    ensures forall i :: 0 <= i < |Chunks(s, m)| ==> Chunks(s, m)[i] != []
    ensures FindIndex(LastKeys(Chunks(s, m)), key) == b
  {
    ImagesSorted(s, m);
    DirectoryEntry(s, m, key, b);
    var i := FindIndex(LastKeys(Chunks(s, m)), key);
    DirectoryEntry(s, m, key, i);
    if i < b {
      MulMono(i + 1, b, m);
    }
  }

  lemma DirectoryExhausted(s: seq<Entry>, m: nat, key: Key)
    requires m > 0 && Sorted(s)
    requires CountBelow(s, key) == |s|
    ensures forall i :: 0 <= i < |Chunks(s, m)| ==> Chunks(s, m)[i] != []
    ensures FindIndex(LastKeys(Chunks(s, m)), key) == |Chunks(s, m)|
  {
    ImagesSorted(s, m);
    var i := FindIndex(LastKeys(Chunks(s, m)), key);
    if i < |Chunks(s, m)| {
      DirectoryEntry(s, m, key, i);
      LastOfImage(s, m, i);
    }
  }

  /**
   `find_index` selects no image exactly when every key is below the one sought; otherwise it selects
   the image that holds the first entry whose key is not below it.
   */
  lemma DirectorySelects(s: seq<Entry>, m: nat, key: Key)
    requires m > 0 && Sorted(s)
    ensures forall i :: 0 <= i < |Chunks(s, m)| ==> Chunks(s, m)[i] != []
    ensures var i := FindIndex(LastKeys(Chunks(s, m)), key);
            var below := CountBelow(s, key);
            && (i == |Chunks(s, m)| <==> below == |s|)
            && (i < |Chunks(s, m)| ==> i == below / m)
  {
    var below := CountBelow(s, key);
    if below == |s| {
      DirectoryExhausted(s, m, key);
    } else {
      ChunksCount(s, m, below);
      BlockOf(below, m);
      LastOfImage(s, m, below / m);
      DirectoryFinds(s, m, key, below / m);
    }
  }

  /** The image that would hold the first entry not below `key` starts at or before that entry. */
  lemma ImageAround(s: seq<Entry>, m: nat, p: nat)
    requires m > 0 && p < |s|
    ensures p / m < |Chunks(s, m)|
    ensures var image, start := Chunks(s, m)[p / m], (p / m) * m;
            && start <= p < start + |image| <= |s|
            && image == s[start..start + |image|]
            && (start == p <==> p % m == 0)
  {
    ChunksCount(s, m, p);
    BlockOf(p, m);
    LastOfImage(s, m, p / m);
  }

  lemma SliceSearch(s: seq<Entry>, image: seq<Entry>, start: nat, key: Key)
    requires Sorted(s)
    requires start <= CountBelow(s, key) < start + |image| <= |s|
    requires image == s[start..start + |image|]
    ensures Sorted(image)
    ensures HasKey(image, key) <==> HasKey(s, key)
    ensures Stops(image, key) <==> HasKey(s, key) || start == CountBelow(s, key)
  {
    var below := CountBelow(s, key);
    CountBelowSorted(s, key);
    assert image[below - start] == s[below] && image[0] == s[start];
    if HasKey(s, key) {
      var p :| 0 <= p < |s| && s[p].key == key;
      SortedKeys(s, below, p);
    }
    if HasKey(image, key) {
      var q :| 0 <= q < |image| && image[q].key == key;
      assert s[start + q].key == key;
    }
  }

  /** What the selected image knows about the key. */
  lemma SelectedImage(s: seq<Entry>, m: nat, key: Key)
    requires m > 0 && Sorted(s)
    requires CountBelow(s, key) < |s|
    ensures CountBelow(s, key) / m < |Chunks(s, m)|
    ensures var image := Chunks(s, m)[CountBelow(s, key) / m];
            && Sorted(image)
            && (HasKey(image, key) <==> HasKey(s, key))
            && (forall e :: e in image ==> e in s)
            && (Stops(image, key) <==> HasKey(s, key) || CountBelow(s, key) % m == 0)
  {
    var below := CountBelow(s, key);
    ImageAround(s, m, below);
    SliceSearch(s, Chunks(s, m)[below / m], (below / m) * m, key);
  }

  /** Looking `key` up in the images of `s` ends. */
  ghost predicate LookupHalts(images: seq<seq<Entry>>, key: Key)
    requires forall i :: 0 <= i < |images| ==> images[i] != []
  {
    var i := FindIndex(LastKeys(images), key);
    i == |images| || Halts(images[i], key)
  }

  /**
   The exact set of keys on which a lookup ends: those that occur, those above every key, and those
   for which the number of smaller entries fills whole images.
   */
  lemma LookupHaltsExactly(s: seq<Entry>, m: nat, key: Key)
    requires m > 0 && Sorted(s)
    ensures forall i :: 0 <= i < |Chunks(s, m)| ==> Chunks(s, m)[i] != []
    ensures LookupHalts(Chunks(s, m), key)
       <==> HasKey(s, key) || CountBelow(s, key) == |s| || CountBelow(s, key) % m == 0
  {
    ImagesSorted(s, m);
    DirectorySelects(s, m, key);
    if CountBelow(s, key) < |s| {
      SelectedImage(s, m, key);
      HaltsExactly(Chunks(s, m)[CountBelow(s, key) / m], key);
    }
  }
}
