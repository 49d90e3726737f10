/**
 The external sort and the lookup. Files are sequences of entries; every offset is in bytes and is
 a whole number of entries.
 */
module DataFiles {
  import opened Sequences
  import opened Entries
  import opened OrderedMap
  import opened Partitions
  import opened SortPhase
  import opened Merging
  import opened CacheFiles
  import opened Lookup

  type Files = map<string, seq<Entry>>

  /** The directory in which image files are created. */
  class Disk {
    var files: Files

    constructor (files: Files)
      ensures this.files == files
    {
      this.files := files;
    }

    /** `open` with `O_CREAT` and without `O_TRUNC`. */
    method Open(name: string)
      modifies this
      ensures files == if name in old(files) then old(files) else old(files)[name := []]
    {
      if name !in files {
        files := files[name := []];
      }
    }

    method Write(name: string, pos: nat, e: Entry)
      requires name in files && pos <= |files[name]|
      modifies this
      ensures files == old(files)[name := WriteAt(old(files)[name], pos, [e])]
    {
      files := files[name := WriteAt(files[name], pos, [e])];
    }
  }

  function FileIn(files: Files, name: string): seq<Entry> {
    if name in files then files[name] else []
  }

  function LastKey(image: seq<Entry>): Key {
    if image == [] then 0 else image[|image| - 1].key
  }

  /** The directory that goes with a list of images. */
  function DirectoryOf(images: seq<seq<Entry>>): (d: seq<Record>)
    ensures |d| == |images|
  {
    seq(|images|, i requires 0 <= i < |images| => Record(LastKey(images[i]), ImageName(i)))
  }

  function KeysOf(directory: seq<Record>): (keys: seq<Key>)
    ensures |keys| == |directory|
  {
    seq(|directory|, i requires 0 <= i < |directory| => directory[i].key)
  }

  lemma KeysOfDirectory(images: seq<seq<Entry>>)
    requires forall i :: 0 <= i < |images| ==> images[i] != []
    ensures KeysOf(DirectoryOf(images)) == LastKeys(images)
  {
  }

  // ----- a lookup in any directory

  /** The name of the image that `find_index` leads to. */
  function Selected(directory: seq<Record>, key: Key): Option<string> {
    var i := FindIndex(KeysOf(directory), key);
    if i < |directory| then Some(directory[i].image) else None
  }

  /** The image selected, if any, holds the key. */
  ghost predicate LookupFinds(directory: seq<Record>, files: Files, key: Key) {
    var image := Selected(directory, key);
    image.Some? && HasKey(FileIn(files, image.value), key)
  }

  /** Nothing is selected, or the image can be opened and the search in it ends. */
  ghost predicate LookupReturns(directory: seq<Record>, files: Files, key: Key) {
    var image := Selected(directory, key);
    image.Some? ==> image.value in files && Halts(files[image.value], key)
  }

  ghost predicate SelectsSorted(directory: seq<Record>, files: Files, key: Key) {
    var image := Selected(directory, key);
    image.Some? ==> Sorted(FileIn(files, image.value))
  }

  /** The image files hold exactly the images. */
  ghost predicate FilesServe(files: Files, images: seq<seq<Entry>>) {
    forall i :: 0 <= i < |images| ==> FileIn(files, ImageName(i)) == images[i]
  }

  /** Each record has the last key of an image and the name of a file that holds that image. */
  ghost predicate Indexes(directory: seq<Record>, files: Files, images: seq<seq<Entry>>) {
    && |directory| == |images|
    && forall i :: 0 <= i < |images| ==>
         && images[i] != []
         && directory[i].key == LastKey(images[i])
         && FileIn(files, directory[i].image) == images[i]
  }

  // ----- what the image files hold

  /** Image file `i` holds image `i` written over whatever file of that name there was before. */
  ghost predicate FileHolds(files: Files, prior: Files, images: seq<seq<Entry>>, i: nat) {
    var name := ImageName(i);
    if i < |images| then name in files && files[name] == Overlay(FileIn(prior, name), images[i])
    else FileIn(files, name) == FileIn(prior, name)
  }

  ghost predicate FilesHold(files: Files, prior: Files, images: seq<seq<Entry>>) {
    forall i: nat :: FileHolds(files, prior, images, i)
  }

  lemma FilesHoldOpen(files: Files, prior: Files, images: seq<seq<Entry>>)
    requires FilesHold(files, prior, images)
    ensures var name := ImageName(|images|);
            FilesHold(if name in files then files else files[name := []], prior, images + [[]])
  {
    var name := ImageName(|images|);
    var after := if name in files then files else files[name := []];
    forall i: nat ensures FileHolds(after, prior, images + [[]], i) {
      ImageNameInjective(i, |images|);
      assert FileHolds(files, prior, images, i);
    }
  }

  lemma FilesHoldWrite(files: Files, prior: Files, images: seq<seq<Entry>>, current: seq<Entry>, e: Entry)
    requires FilesHold(files, prior, images + [current])
    ensures var name := ImageName(|images|);
            && name in files && |current| <= |files[name]|
            && FilesHold(files[name := WriteAt(files[name], |current|, [e])], prior, images + [current + [e]])
  {
    var name := ImageName(|images|);
    assert FileHolds(files, prior, images + [current], |images|);
    OverlayWrite(FileIn(prior, name), current, [e]);
    var written := files[name := WriteAt(files[name], |current|, [e])];
    forall i: nat ensures FileHolds(written, prior, images + [current + [e]], i) {
      ImageNameInjective(i, |images|);
      assert FileHolds(files, prior, images + [current], i);
    }
  }

  /** No image file that was there before is longer than what is written over it. */
  predicate NoLeftovers(prior: Files, images: seq<seq<Entry>>) {
    forall i :: 0 <= i < |images| ==> |FileIn(prior, ImageName(i))| <= |images[i]|
  }

  /** Image files hold exactly the images if and only if nothing of their former contents is left. */
  lemma FilesExact(files: Files, prior: Files, images: seq<seq<Entry>>)
    requires FilesHold(files, prior, images)
    ensures FilesServe(files, images) <==> NoLeftovers(prior, images)
  {
    forall i: nat | i < |images|
      ensures FileIn(files, ImageName(i)) == images[i] <==> |FileIn(prior, ImageName(i))| <= |images[i]|
    {
      assert FileHolds(files, prior, images, i);
      OverlayExact(FileIn(prior, ImageName(i)), images[i]);
    }
  }

  class DataFile {
    const entrySize: nat
    const pageSize: nat
    const default: Value
    const data: seq<Entry>
    const disk: Disk
    const cacheFile: CacheFile
    var partitions: seq<Partition>
    var indexImages: seq<Record>
    var currentIndex: string
    var currentPos: nat

    constructor (entrySize: nat, pageSize: nat, default: Value, data: seq<Entry>, disk: Disk, cache: CacheFile)
      ensures this.entrySize == entrySize && this.pageSize == pageSize && this.default == default
      ensures this.data == data && this.disk == disk && cacheFile == cache
      ensures partitions == [] && indexImages == []
    {
      this.entrySize, this.pageSize, this.default := entrySize, pageSize, default;
      this.data, this.disk, cacheFile := data, disk, cache;
      partitions, indexImages := [], [];
      currentIndex, currentPos := "", 0;
    }

    // ----- sort phase

    /** `mmap` of a piece of the data file; mapping no bytes is an error. */
    method MmapPartition(size: nat, offset: nat, ghost first: nat, ghost count: nat)
      returns (chunk: Option<seq<Entry>>)
      requires entrySize > 0
      requires offset == first * entrySize && size == count * entrySize && first + count <= |data|
      ensures chunk == if size == 0 then None else Some(data[first..first + count])
    {
      MultipleOf(first, entrySize);
      MultipleOf(count, entrySize);
      if size == 0 {
        return None;
      }
      return Some(data[offset / entrySize..offset / entrySize + size / entrySize]);
    }

    method ReadFromPartition(chunk: seq<Entry>) returns (nodes: seq<Entry>)
      requires entrySize > 0
      ensures nodes == SortChunk(chunk)
    {
      nodes := [];
      var readPtr := 0;
      ghost var i: nat := 0;
      while readPtr < |chunk| * entrySize
        invariant i <= |chunk| && readPtr == i * entrySize
        invariant nodes == SortChunk(chunk[..i])
        decreases |chunk| - i
      {
        SizeCompare(i, |chunk|, entrySize);
        var e := CopyEntry(chunk, readPtr, entrySize, i);
        nodes := Emplace(nodes, e);
        SortChunkNext(chunk, i);
        NextOffset(i, entrySize);
        readPtr, i := readPtr + entrySize, i + 1;
      }
      SizeCompare(i, |chunk|, entrySize);
      assert chunk[..i] == chunk;
    }

    method WritePartition(dest: TempFile, nodes: seq<Entry>)
      modifies dest
      ensures dest.entries == old(dest.entries) + nodes
    {
      for i := 0 to |nodes|
        invariant dest.entries == old(dest.entries) + nodes[..i]
      {
        dest.Write(nodes[i]);
      }
    }

    /** The last partition is cut at the end of the file. */
    method ClampSize(size: nat, offset: nat, fileSize: nat, ghost k: nat, ghost m: nat) returns (clamped: nat)
      requires entrySize > 0 && k < |data|
      requires offset == k * entrySize && fileSize == |data| * entrySize && size == m * entrySize
      ensures var c := if |data| - k < m then |data| - k else m;
              && clamped == c * entrySize
              && (clamped > 0 <==> m > 0)
              && offset + clamped == (k + c) * entrySize
              && (k + c < |data| ==> clamped == size)
    {
      SizeCompare(|data| - k, m, entrySize);
      SizeCompare(0, m, entrySize);
      SizeCompare(k, |data|, entrySize);
      assert fileSize - offset == (|data| - k) * entrySize;
      clamped := size;
      if fileSize - offset < clamped {
        clamped := fileSize - offset;
      }
    }

    /** Where the sort phase stands after `k` entries. */
    ghost predicate Sorting(temp: TempFile, m: nat, k: nat, done: seq<seq<Entry>>)
      reads this, partitions, temp
    {
      SortedSoFar(data, m, k, done, temp.entries) && TilesFile(partitions, temp, done, entrySize)
    }

    /** One iteration of the sort phase: map a chunk, sort it, write it, and record the slice. */
    method SortOnePartition(temp: TempFile, offset: nat, size: nat, ghost m: nat, ghost k: nat, ghost count: nat,
                            ghost done: seq<seq<Entry>>)
      returns (ok: bool)
      requires entrySize > 0 && k < |data| && count == (if |data| - k < m then |data| - k else m)
      requires offset == k * entrySize && size == count * entrySize && (size > 0 <==> m > 0)
      requires m > 0 ==> Sorting(temp, m, k, done)
      modifies this`partitions, temp
      ensures ok <==> m > 0
      ensures !ok ==> partitions == old(partitions)
      ensures ok ==> Sorting(temp, m, k + count, done + [data[k..k + count]])
      ensures ok ==> exists p: Partition :: fresh(p) && partitions == old(partitions) + [p]
    {
      var chunk := MmapPartition(size, offset, k, count);
      if chunk.None? {
        return false;
      }
      SortedOneMore(data, m, k, count, done, temp.entries);
      var nodes := ReadFromPartition(chunk.value);
      WritePartition(temp, nodes);
      var partition := new Partition(temp, offset, size);
      TilesSnoc(partitions, partition, temp, done, chunk.value, entrySize);
      partitions := partitions + [partition];
      return true;
    }

    /**
     The sort phase. It fails only when asked for empty partitions; otherwise the temporary file is
     the sorted chunks one after another, and the partitions tile the data file.
     */
    method SortPartitions(temp: TempFile, partitionSize: nat, ghost m: nat) returns (ok: bool)
      requires entrySize > 0 && partitionSize == m * entrySize
      requires partitions == [] && temp.entries == []
      modifies this`partitions, temp
      ensures ok <==> m > 0 || data == []
      ensures ok && m > 0 ==> temp.entries == Concat(SortChunks(Chunks(data, m)))
      ensures ok && m > 0 ==> TilesFile(partitions, temp, Chunks(data, m), entrySize)
      ensures m == 0 ==> partitions == []
      ensures forall p :: p in partitions ==> fresh(p)
    {
      var offset, size := 0, partitionSize;
      ghost var k: nat, done: seq<seq<Entry>> := 0, [];
      assert data[0..] == data;
      while offset < |data| * entrySize
        invariant k <= |data| && offset == k * entrySize
        invariant k < |data| ==> size == partitionSize
        invariant m > 0 ==> Sorting(temp, m, k, done)
        invariant m == 0 ==> k == 0 && partitions == []
        invariant forall p :: p in partitions ==> fresh(p)
        decreases |data| - k
      {
        SizeCompare(k, |data|, entrySize);
        ghost var count := if |data| - k < m then |data| - k else m;
        size := ClampSize(size, offset, |data| * entrySize, k, m);
        var more := SortOnePartition(temp, offset, size, m, k, count, done);
        if !more {
          return false;
        }
        offset := offset + size;
        done := done + [data[k..k + count]];
        k := k + count;
      }
      SizeCompare(k, |data|, entrySize);
      assert data[k..] == [];
      assert m > 0 ==> done + [] == done;
      return true;
    }

    // ----- merge phase

    method CurrentOf(i: nat, ghost temp: TempFile, ghost states: seq<Cursor>, ghost rests: seq<seq<Entry>>)
      returns (e: Entry)
      requires InStates(partitions, temp, states) && Delivering(states, temp.entries, entrySize, rests)
      requires i < |rests|
      ensures rests[i] != [] && e == rests[i][0]
    {
      assert Delivers(states[i], temp.entries, entrySize, rests[i]);
      e := partitions[i].CurrentKeyValue(entrySize);
    }

    /** The first element of the ordered set of (current entry, partition) pairs. */
    method FindPartitionsCurrentMin(ghost temp: TempFile, ghost states: seq<Cursor>, ghost rests: seq<seq<Entry>>)
      returns (e: Entry, h: nat)
      requires InStates(partitions, temp, states) && Delivering(states, temp.entries, entrySize, rests)
      requires rests != []
      ensures IsCurrentMin(rests, h) && e == rests[h][0]
      ensures forall i :: 0 <= i < |rests| ==>
                e.key < rests[i][0].key || (e.key == rests[i][0].key && e.value <= rests[i][0].value)
    {
      h := 0;
      e := CurrentOf(0, temp, states, rests);
      var i := 1;
      while i < |partitions|
        invariant h < i <= |rests| && rests[h] != [] && e == rests[h][0]
        invariant forall j :: 0 <= j < i ==> rests[j] != [] && Leq(e, rests[j][0])
        invariant forall j :: 0 <= j < h ==> rests[j][0] != e
      {
        var current := CurrentOf(i, temp, states, rests);
        if !Leq(e, current) {
          h, e := i, current;
        }
        i := i + 1;
      }
    }

    /** Move partition `holder` on, and erase it if it is exhausted. */
    method MoveOn(holder: nat, ghost pool: set<Partition>, ghost temp: TempFile, ghost states: seq<Cursor>)
      requires InStates(partitions, temp, states) && holder < |states|
      requires forall i :: 0 <= i < |partitions| ==> partitions[i] in pool
      modifies this`partitions, pool
      ensures InStates(partitions, temp, MovedOn(states, holder, entrySize))
      ensures forall i :: 0 <= i < |partitions| ==> partitions[i] in pool
    {
      ghost var c := Advanced(states[holder], entrySize).0;
      var more := partitions[holder].MoveIterator(entrySize);
      assert InStates(partitions, temp, states[holder := c]);
      if !more {
        EraseInStates(partitions, temp, states[holder := c], holder);
        assert states[holder := c][..holder] == states[..holder];
        assert states[holder := c][holder + 1..] == states[holder + 1..];
        partitions := partitions[..holder] + partitions[holder + 1..];
      }
    }

    method GenerateIndex(ghost prior: Files, ghost images: seq<seq<Entry>>)
      requires indexImages == DirectoryOf(images) && FilesHold(disk.files, prior, images)
      modifies this`indexImages, this`currentIndex, this`currentPos, disk
      ensures indexImages == DirectoryOf(images + [[]]) && FilesHold(disk.files, prior, images + [[]])
      ensures currentIndex == ImageName(|images|) && currentPos == 0
    {
      FilesHoldOpen(disk.files, prior, images);
      var indexName := ImageName(|indexImages|);
      indexImages := indexImages + [Record(0, indexName)];
      currentIndex, currentPos := indexName, 0;
      disk.Open(indexName);
    }

    /** Write one entry to the current image and make its key the image's directory key. */
    method WriteEntry(e: Entry, ghost prior: Files, ghost images: seq<seq<Entry>>, ghost current: seq<Entry>)
      requires indexImages == DirectoryOf(images + [current])
      requires FilesHold(disk.files, prior, images + [current])
      requires currentIndex == ImageName(|images|) && currentPos == |current|
      modifies this`indexImages, this`currentPos, disk
      ensures indexImages == DirectoryOf(images + [current + [e]])
      ensures FilesHold(disk.files, prior, images + [current + [e]])
      ensures currentPos == |current| + 1
    {
      FilesHoldWrite(disk.files, prior, images, current, e);
      disk.Write(currentIndex, currentPos, e);
      currentPos := currentPos + 1;
      var back := |indexImages| - 1;
      indexImages := indexImages[back := indexImages[back].(key := e.key)];
    }

    /** Where the merge stands: cursors, entries to come, full images and the image being written. */
    ghost predicate Merges(pool: set<Partition>, temp: TempFile, prior: Files, total: multiset<Entry>, v: MergeView)
      reads this, pool, temp, disk
    {
      && (forall i :: 0 <= i < |partitions| ==> partitions[i] in pool)
      && InStates(partitions, temp, v.states)
      && Delivering(v.states, temp.entries, entrySize, v.rests)
      && MergeInvariant(Concat(v.images) + v.current, v.rests, total)
      && indexImages == DirectoryOf(v.images + [v.current])
      && FilesHold(disk.files, prior, v.images + [v.current])
      && currentIndex == ImageName(|v.images|) && currentPos == |v.current|
    }

    /** One entry is taken from the partitions and written. */
    method MergeOne(ghost pool: set<Partition>, ghost temp: TempFile, ghost prior: Files,
                    ghost total: multiset<Entry>, ghost v: MergeView)
      returns (ghost next: MergeView)
      requires Merges(pool, temp, prior, total, v) && partitions != []
      modifies this`partitions, pool, this`indexImages, this`currentPos, disk
      ensures Merges(pool, temp, prior, total, next)
      ensures next.images == v.images && |next.current| == |v.current| + 1
    {
      var e, h := FindPartitionsCurrentMin(temp, v.states, v.rests);
      next := MergeView(MovedOn(v.states, h, entrySize), Taken(v.rests, h), v.images, v.current + [e]);
      MovedOnDelivers(v.states, temp.entries, entrySize, v.rests, h);
      MergeTake(Concat(v.images) + v.current, v.rests, total, h);
      ConcatThree(Concat(v.images), v.current, [e]);
      MoveOn(h, pool, temp, v.states);
      WriteEntry(e, prior, v.images, v.current);
    }

    /** Fill one image: entries are taken in order until it is full or nothing is left. */
    method FillImage(partitionSize: nat, ghost m: nat, ghost pool: set<Partition>, ghost temp: TempFile,
                     ghost prior: Files, ghost total: multiset<Entry>, ghost v: MergeView)
      returns (ghost next: MergeView)
      requires entrySize > 0 && m > 0 && partitionSize == m * entrySize
      requires Merges(pool, temp, prior, total, v) && partitions != [] && v.current == []
      modifies this`partitions, pool, this`indexImages, this`currentPos, disk
      ensures Merges(pool, temp, prior, total, next) && next.images == v.images
      ensures 0 < |next.current| <= m && (partitions != [] ==> |next.current| == m)
    {
      next := v;
      var leftToWrite := partitionSize;
      SizeCompare(0, m, entrySize);
      while partitions != [] && leftToWrite > 0
        invariant |next.current| <= m && leftToWrite == (m - |next.current|) * entrySize
        invariant next.current == [] ==> partitions != [] && leftToWrite > 0
        invariant Merges(pool, temp, prior, total, next) && next.images == v.images
        decreases m - |next.current|
      {
        SizeCompare(0, m - |next.current|, entrySize);
        TakeOneSize(m - |next.current|, entrySize);
        next := MergeOne(pool, temp, prior, total, next);
        leftToWrite := leftToWrite - entrySize;
      }
      SizeCompare(0, m - |next.current|, entrySize);
    }

    /** Map the first window of every partition. */
    method SetLookupWindows(size: nat, ghost pool: set<Partition>, ghost temp: TempFile, ghost chunks: seq<seq<Entry>>)
      requires TilesFile(partitions, temp, chunks, entrySize)
      requires forall i :: 0 <= i < |partitions| ==> partitions[i] in pool
      modifies pool
      ensures InStates(partitions, temp, WindowStates(chunks, size, entrySize))
    {
      ghost var states := WindowStates(chunks, size, entrySize);
      for k := 0 to |partitions|
        invariant forall i :: 0 <= i < |partitions| ==>
                    partitions[i].State() == if i < k then states[i] else SliceOf(chunks, i, entrySize)
      {
        var mapped := partitions[k].SetLookupWindow(size);
      }
    }

    /** The merge between two images: full images only, unless nothing is left. */
    ghost predicate Between(pool: set<Partition>, temp: TempFile, prior: Files, total: multiset<Entry>,
                            m: nat, v: MergeView)
      reads this, pool, temp, disk
    {
      && (forall i :: 0 <= i < |partitions| ==> partitions[i] in pool)
      && InStates(partitions, temp, v.states)
      && Delivering(v.states, temp.entries, entrySize, v.rests)
      && MergeInvariant(Concat(v.images), v.rests, total)
      && indexImages == DirectoryOf(v.images)
      && FilesHold(disk.files, prior, v.images)
      && FullImages(v.images, m, partitions == [])
    }

    /** A new image is opened and filled. */
    method NextImage(partitionSize: nat, ghost m: nat, ghost pool: set<Partition>, ghost temp: TempFile,
                     ghost prior: Files, ghost total: multiset<Entry>, ghost v: MergeView)
      returns (ghost next: MergeView)
      requires entrySize > 0 && m > 0 && partitionSize == m * entrySize
      requires Between(pool, temp, prior, total, m, v) && partitions != []
      modifies this`partitions, pool, this`indexImages, this`currentIndex, this`currentPos, disk
      ensures Between(pool, temp, prior, total, m, next)
      ensures indexImages != [] && DirectoryOf(v.images) + [indexImages[|indexImages| - 1]] == indexImages
      ensures |Concat(v.images)| < |Concat(next.images)| <= |total|
    {
      GenerateIndex(prior, v.images);
      assert Concat(v.images) + [] == Concat(v.images);
      ghost var filled := FillImage(partitionSize, m, pool, temp, prior, total, v.(current := []));
      next := filled.(images := v.images + [filled.current], current := []);
      ImageFilled(v.images, filled.current, filled.rests, total, m, partitions == []);
      DirectorySnoc(v.images, filled.current);
    }

    /** One round of the outer loop: the next image is written and recorded in the cache file. */
    method MergeImage(partitionSize: nat, ghost m: nat, ghost pool: set<Partition>, ghost temp: TempFile,
                      ghost prior: Files, ghost total: multiset<Entry>, ghost v: MergeView,
                      ghost cached: string, ghost name: string)
      returns (ghost next: MergeView)
      requires entrySize > 0 && m > 0 && partitionSize == m * entrySize
      requires Between(pool, temp, prior, total, m, v) && partitions != []
      requires cacheFile.Records(cached, name, indexImages)
      modifies this`partitions, pool, this`indexImages, this`currentIndex, this`currentPos, disk, cacheFile
      ensures Between(pool, temp, prior, total, m, next)
      ensures cacheFile.Records(cached, name, indexImages)
      ensures |Concat(v.images)| < |Concat(next.images)| <= |total|
    {
      next := NextImage(partitionSize, m, pool, temp, prior, total, v);
      cacheFile.AppendImage(indexImages[|indexImages| - 1], cached, name, DirectoryOf(v.images));
    }

    /** Every partition gets its window, and the merge can begin. */
    method StartMerge(partitionSize: nat, ghost m: nat, ghost pool: set<Partition>, ghost temp: TempFile)
      returns (ghost v: MergeView)
      requires entrySize > 0 && pageSize > 0 && m > 0 && partitionSize == m * entrySize
      requires ChunksDistinct(Chunks(data, m))
      requires WindowFits(|data|, m, partitionSize, pageSize, entrySize)
      requires temp.entries == Concat(SortChunks(Chunks(data, m)))
      requires TilesFile(partitions, temp, Chunks(data, m), entrySize)
      requires forall i :: 0 <= i < |partitions| ==> partitions[i] in pool
      requires indexImages == []
      modifies pool
      ensures Between(pool, temp, disk.files, multiset(data), m, v)
    {
      var lookupWindowSize := if partitionSize < 10 * pageSize then partitionSize else 10 * pageSize;
      ghost var chunks := Chunks(data, m);
      v := MergeView(WindowStates(chunks, lookupWindowSize, entrySize), SortChunks(chunks), [], []);
      WindowsDeliver(data, m, partitionSize, pageSize, entrySize);
      MergeStart(data, m);
      NothingHeld(disk.files);
      SetLookupWindows(lookupWindowSize, pool, temp, chunks);
    }

    /**
     The merge phase: the images are the sorted data cut every `m` entries, and the directory, the
     image files and the cache file record them.
     */
    method MergePartitions(partitionSize: nat, ghost m: nat, ghost pool: set<Partition>, ghost temp: TempFile,
                           ghost cached: string, ghost name: string)
      requires entrySize > 0 && pageSize > 0 && m > 0 && partitionSize == m * entrySize
      requires ChunksDistinct(Chunks(data, m))
      requires WindowFits(|data|, m, partitionSize, pageSize, entrySize)
      requires temp.entries == Concat(SortChunks(Chunks(data, m)))
      requires TilesFile(partitions, temp, Chunks(data, m), entrySize)
      requires forall i :: 0 <= i < |partitions| ==> partitions[i] in pool
      requires indexImages == []
      requires cacheFile.Records(cached, name, [])
      modifies this, pool, disk, cacheFile
      ensures partitions == []
      ensures indexImages == DirectoryOf(Chunks(SortEntries(data), m))
      ensures FilesHold(disk.files, old(disk.files), Chunks(SortEntries(data), m))
      ensures cacheFile.Records(cached, name, indexImages)
    {
      ghost var prior, total := disk.files, multiset(data);
      ghost var v := StartMerge(partitionSize, m, pool, temp);
      while partitions != []
        invariant Between(pool, temp, prior, total, m, v)
        invariant cacheFile.Records(cached, name, indexImages)
        decreases |total| - |Concat(v.images)|
      {
        v := MergeImage(partitionSize, m, pool, temp, prior, total, v, cached, name);
      }
      ImagesDone(v.images, v.rests, data, m);
    }

    // ----- construction

    /** No chunk repeats a key, and the lookup window fits. */
    ghost predicate Sortable(partitionSize: nat)
      requires entrySize > 0
    {
      var rounded := RoundedUp(partitionSize, entrySize);
      var m := rounded / entrySize;
      m > 0 ==> ChunksDistinct(Chunks(data, m)) && WindowFits(|data|, m, rounded, pageSize, entrySize)
    }

    method ExternalSort(partitionSize: nat, ghost m: nat, ghost cached: string, ghost name: string) returns (ok: bool)
      requires entrySize > 0 && pageSize > 0 && partitionSize == m * entrySize
      requires m > 0 ==> ChunksDistinct(Chunks(data, m)) && WindowFits(|data|, m, partitionSize, pageSize, entrySize)
      requires partitions == [] && indexImages == []
      requires cacheFile.Records(cached, name, [])
      modifies this, disk, cacheFile
      ensures ok <==> m > 0 || data == []
      ensures ok && m > 0 ==> indexImages == DirectoryOf(Chunks(SortEntries(data), m))
      ensures ok && m > 0 ==> FilesHold(disk.files, old(disk.files), Chunks(SortEntries(data), m))
      ensures ok ==> partitions == []
      ensures cacheFile.Records(cached, name, indexImages)
      ensures m == 0 ==> indexImages == [] && disk.files == old(disk.files)
    {
      var partitionsSorted := new TempFile();
      ok := SortPartitions(partitionsSorted, partitionSize, m);
      SizeCompare(0, m, entrySize);
      if ok && partitionSize > 0 {
        ghost var pool := set p | p in partitions;
        MergePartitions(partitionSize, m, pool, partitionsSorted, cached, name);
      }
    }

    /** The constructor of the source, with its exceptions as outcomes. */
    method Open(filePath: string, partitionSize: nat) returns (outcome: Outcome)
      requires entrySize > 0 && pageSize > 0
      requires partitionSize + entrySize < 0x1_0000_0000_0000_0000
      requires cacheFile.Valid()
      requires partitions == [] && indexImages == []
      requires cacheFile.Misses(filePath) ==> Sortable(partitionSize)
      modifies this, disk, cacheFile
      ensures outcome == BadCacheFile <==> old(cacheFile.present && '\n' !in cacheFile.text)
      ensures outcome == FromCache <==>
                old(cacheFile.present && '\n' in cacheFile.text && FirstLine(cacheFile.text) == filePath)
      ensures outcome == FromCache ==> indexImages == ReadIndexImages(old(cacheFile.text))
      ensures outcome == MapError ==> partitionSize == 0 && data != []
      ensures outcome == MapError ==> indexImages == [] && cacheFile.Records(old(cacheFile.text), filePath, [])
      ensures outcome == Built ==> partitionSize > 0 || data == []
      ensures outcome == Built && partitionSize == 0 ==> indexImages == [] && disk.files == old(disk.files)
      ensures outcome == Built ==> cacheFile.Records(old(cacheFile.text), filePath, indexImages)
      ensures outcome == Built && partitionSize > 0 ==>
                var m := RoundedUp(partitionSize, entrySize) / entrySize;
                && m > 0
                && indexImages == DirectoryOf(Chunks(SortEntries(data), m))
                && FilesHold(disk.files, old(disk.files), Chunks(SortEntries(data), m))
                && (Serves(m) <==> NoLeftovers(old(disk.files), Chunks(SortEntries(data), m)))
    {
      var rounded := partitionSize;
      if rounded % entrySize != 0 {
        rounded := rounded + (entrySize - rounded % entrySize);
      }
      RoundedUpCorrect(partitionSize, entrySize);
      ghost var m := rounded / entrySize;
      ghost var cached, prior := cacheFile.text, disk.files;
      var relevant := cacheFile.IsRelevant(filePath);
      if relevant.None? {
        return BadCacheFile;
      }
      if relevant.value {
        indexImages := cacheFile.ReadImages();
        return FromCache;
      }
      cacheFile.Create();
      cacheFile.WriteFilename(filePath, cached);
      var ok := ExternalSort(rounded, m, cached, filePath);
      if !ok {
        return MapError;
      }
      if m > 0 {
        FilesExact(disk.files, prior, Chunks(SortEntries(data), m));
      }
      return Built;
    }

    // ----- lookup

    /** The directory and the image files are those of the sorted data, cut every `m` entries. */
    ghost predicate Serves(m: nat)
      reads this, disk
    {
      && m > 0
      && var images := Chunks(SortEntries(data), m);
         indexImages == DirectoryOf(images) && FilesServe(disk.files, images)
    }

    /** The first directory record whose key is not below `key`. */
    method FindImage(key: Key) returns (i: nat)
      ensures i == FindIndex(KeysOf(indexImages), key)
    {
      i := 0;
      while i < |indexImages|
        invariant i <= |indexImages|
        invariant forall j :: 0 <= j < i ==> KeysOf(indexImages)[j] < key
      {
        if indexImages[i].key >= key {
          break;
        }
        i := i + 1;
      }
      assert i < |indexImages| ==> KeysOf(indexImages)[i] >= key;
    }

    /**
     `at`, on any directory, for the keys on which it returns. After a build the answer is that of
     scanning the data file: the key is found exactly when it occurs, with a value stored beside it. Of a
     repeated key it is one of the `m` least values, so with images of one entry it is the least.
     */
    method At(key: Key, ghost m: nat) returns (value: Value, found: bool)
      requires entrySize > 0
      requires SelectsSorted(indexImages, disk.files, key) && LookupReturns(indexImages, disk.files, key)
      ensures found <==> LookupFinds(indexImages, disk.files, key)
      ensures found ==> Entry(key, value) in FileIn(disk.files, Selected(indexImages, key).value)
      ensures !found ==> value == default
      ensures Serves(m) ==> (found <==> HasKey(data, key)) && (found ==> Entry(key, value) in data)
      ensures Serves(m) && found ==> CountLess(data, key, value) < m
      ensures Serves(m) && DistinctKeys(data) ==> Scan(data, key) == if found then Some(value) else None
    {
      value, found := default, false;
      var i := FindImage(key);
      if i < |indexImages| {
        var image := FileIn(disk.files, indexImages[i].image);
        HaltsExactly(image, key);
        value, found := BinarySearch(image, key, entrySize, default);
      }
      if Serves(m) {
        ServedLookup(indexImages, disk.files, data, m, key);
        ScanAgrees(data, key, value, found);
      }
    }

    /** `at` over the repaired search: it answers every key as the scan does. */
    method RepairedAt(key: Key, ghost m: nat) returns (value: Value, found: bool)
      requires entrySize > 0 && Serves(m)
      ensures found <==> HasKey(data, key)
      ensures found ==> Entry(key, value) in data
      ensures !found ==> value == default
      ensures DistinctKeys(data) ==> Scan(data, key) == if found then Some(value) else None
    {
      ghost var images := Chunks(SortEntries(data), m);
      LookupFacts(data, m, key);
      KeysOfDirectory(images);
      var i := FindImage(key);
      if i == |indexImages| {
        ScanAgrees(data, key, default, false);
        return default, false;
      }
      value, found := RepairedBinarySearch(FileIn(disk.files, indexImages[i].image), key, entrySize, default);
      ScanAgrees(data, key, value, found);
    }
  }

  datatype Outcome = Built | FromCache | BadCacheFile | MapError

  /** The rounding of `partition_size` in the constructor. */
  function RoundedUp(size: nat, entrySize: nat): nat
    requires entrySize > 0
  {
    if size % entrySize != 0 then size + (entrySize - size % entrySize) else size
  }

  /** It yields the least whole number of entries that is not below the size asked for. */
  lemma RoundedUpCorrect(size: nat, entrySize: nat)
    requires entrySize > 0
    ensures var r := RoundedUp(size, entrySize);
            && r == (r / entrySize) * entrySize
            && size <= r < size + entrySize
            && (r / entrySize > 0 <==> size > 0)
  {
    var q, rem := size / entrySize, size % entrySize;
    assert size == q * entrySize + rem;
    if rem != 0 {
      assert size + (entrySize - rem) == (q + 1) * entrySize;
      MultipleOf(q + 1, entrySize);
    } else {
      MultipleOf(q, entrySize);
    }
  }

  /** The keys on which a lookup in the built images ends, stated on the data file. */
  predicate Answerable(data: seq<Entry>, m: nat, key: Key)
    requires m > 0
  {
    HasKey(data, key) || CountBelow(data, key) == |data| || CountBelow(data, key) % m == 0
  }

  /** A lookup ends exactly on the answerable keys. */
  lemma AnswerableExactly(data: seq<Entry>, m: nat, key: Key)
    requires m > 0
    ensures var images := Chunks(SortEntries(data), m);
            && (forall i :: 0 <= i < |images| ==> images[i] != [])
            && (LookupHalts(images, key) <==> Answerable(data, m, key))
  {
    SortEntriesCorrect(data);
    CountBelowSort(data, key);
    HasKeyPermutation(SortEntries(data), data, key);
    LookupHaltsExactly(SortEntries(data), m, key);
  }

  /** An absent key on which the search loops: one smaller entry, in images of two. */
  lemma LookupLoops()
    ensures var data: seq<Entry> := [Entry(1, 0), Entry(3, 0)];
            && !HasKey(data, 2)
            && (forall i :: 0 <= i < |Chunks(SortEntries(data), 2)| ==> Chunks(SortEntries(data), 2)[i] != [])
            && !LookupHalts(Chunks(SortEntries(data), 2), 2)
  {
    AnswerableExactly([Entry(1, 0), Entry(3, 0)], 2, 2);
  }

  /** What a lookup in the images of sorted data relies on: the image selected, if any, decides. */
  lemma SortedLookupFacts(s: seq<Entry>, m: nat, key: Key)
    requires m > 0 && Sorted(s)
    ensures var images := Chunks(s, m);
            && (forall i :: 0 <= i < |images| ==> images[i] != [])
            && var i := FindIndex(LastKeys(images), key);
               && (i == |images| <==> CountBelow(s, key) == |s|)
               && (i == |images| ==> !HasKey(s, key))
               && (i < |images| ==>
                     && Sorted(images[i])
                     && (HasKey(images[i], key) <==> HasKey(s, key))
                     && (forall e :: e in images[i] ==> e in s)
                     && (forall e :: e in images[i] && e.key == key ==> CountLess(s, key, e.value) < m)
                     && (Stops(images[i], key) <==> Answerable(s, m, key)))
  {
    DirectorySelects(s, m, key);
    if CountBelow(s, key) < |s| {
      SelectedImage(s, m, key);
      AmongTheLeast(s, m, key);
    } else {
      CountBelowSorted(s, key);
    }
  }

  /** The entries that the selected image has under the key are among the `m` least of them. */
  lemma AmongTheLeast(s: seq<Entry>, m: nat, key: Key)
    requires m > 0 && Sorted(s) && CountBelow(s, key) < |s|
    requires CountBelow(s, key) / m < |Chunks(s, m)|
    ensures forall e :: e in Chunks(s, m)[CountBelow(s, key) / m] && e.key == key ==> CountLess(s, key, e.value) < m
  {
    var below := CountBelow(s, key);
    ImageAround(s, m, below);
    ChunkSizes(s, m, below / m);
    var image, start := Chunks(s, m)[below / m], (below / m) * m;
    forall e | e in image && e.key == key ensures CountLess(s, key, e.value) < m {
      var q :| 0 <= q < |image| && image[q] == e;
      assert s[start + q] == e;
      CountsBefore(s, start + q);
    }
  }

  /** The same, stated on the data file. */
  lemma LookupFacts(data: seq<Entry>, m: nat, key: Key)
    requires m > 0
    ensures var images := Chunks(SortEntries(data), m);
            && (forall i :: 0 <= i < |images| ==> images[i] != [])
            && var i := FindIndex(LastKeys(images), key);
               && (i == |images| ==> !HasKey(data, key))
               && (i < |images| ==>
                     && Sorted(images[i])
                     && (HasKey(images[i], key) <==> HasKey(data, key))
                     && (forall e :: e in images[i] ==> e in data)
                     && (Stops(images[i], key) <==> Answerable(data, m, key)))
  {
    var s := SortEntries(data);
    SortEntriesCorrect(data);
    CountBelowSort(data, key);
    HasKeyPermutation(s, data, key);
    SortedLookupFacts(s, m, key);
    forall e | e in s ensures e in data {
      assert e in multiset(s);
    }
  }

  /** A lookup is what the search in the selected image makes of it. */
  lemma LookupOf(directory: seq<Record>, files: Files, key: Key, name: string, image: seq<Entry>)
    requires Selected(directory, key) == Some(name)
    requires image != [] && FileIn(files, name) == image
    ensures SelectsSorted(directory, files, key) <==> Sorted(image)
    ensures LookupFinds(directory, files, key) <==> HasKey(image, key)
    ensures LookupReturns(directory, files, key) <==> Halts(image, key)
  {
  }

  /** A lookup in a directory of the images of sorted data. */
  lemma IndexedLookup(directory: seq<Record>, files: Files, images: seq<seq<Entry>>, s: seq<Entry>, m: nat, key: Key)
    requires m > 0 && Sorted(s) && images == Chunks(s, m)
    requires Indexes(directory, files, images)
    ensures Selected(directory, key).None? <==> CountBelow(s, key) == |s|
    ensures SelectsSorted(directory, files, key)
    ensures LookupFinds(directory, files, key) <==> HasKey(s, key)
    ensures LookupReturns(directory, files, key) <==> Answerable(s, m, key)
    ensures Selected(directory, key).Some? ==>
              forall e :: e in FileIn(files, Selected(directory, key).value) ==>
                e in s && (e.key == key ==> CountLess(s, key, e.value) < m)
  {
    SortedLookupFacts(s, m, key);
    assert KeysOf(directory) == LastKeys(images);
    var i := FindIndex(LastKeys(images), key);
    if i < |images| {
      HaltsExactly(images[i], key);
      LookupOf(directory, files, key, directory[i].image, images[i]);
    }
  }

  /** After a build a lookup finds exactly the keys of the data, and returns exactly on the answerable ones. */
  lemma ServedLookup(directory: seq<Record>, files: Files, data: seq<Entry>, m: nat, key: Key)
    requires m > 0 && directory == DirectoryOf(Chunks(SortEntries(data), m))
    requires FilesServe(files, Chunks(SortEntries(data), m))
    ensures SelectsSorted(directory, files, key)
    ensures LookupFinds(directory, files, key) <==> HasKey(data, key)
    ensures LookupReturns(directory, files, key) <==> Answerable(data, m, key)
    ensures Selected(directory, key).Some? ==>
              forall e :: e in FileIn(files, Selected(directory, key).value) ==>
                e in data && (e.key == key ==> CountLess(data, key, e.value) < m)
  {
    var s := SortEntries(data);
    SortEntriesCorrect(data);
    CountBelowSort(data, key);
    HasKeyPermutation(s, data, key);
    ImagesSorted(s, m);
    IndexedLookup(directory, files, Chunks(s, m), s, m, key);
    forall e | e in s ensures e in data && CountLess(data, key, e.value) == CountLess(s, key, e.value) {
      assert e in multiset(s);
      CountLessSort(data, key, e.value);
    }
  }

  lemma ScanAgrees(data: seq<Entry>, key: Key, value: Value, found: bool)
    requires found <==> HasKey(data, key)
    requires found ==> Entry(key, value) in data
    ensures DistinctKeys(data) ==> Scan(data, key) == if found then Some(value) else None
  {
    ScanCorrect(data, key);
    if found && DistinctKeys(data) {
      ScanDistinct(data, Entry(key, value));
    }
  }

  /** A file left longer than its image answers for keys that are not in the data. */
  lemma StaleEntryFound()
    ensures var image := [Entry(5, 0)];
            var file := Overlay([Entry(1, 0), Entry(3, 7)], image);
            && !HasKey(image, 3) && FindIndex(LastKeys([image]), 3) == 0
            && After(file, 3, 1) == Hit(7)
  {
    var file := Overlay([Entry(1, 0), Entry(3, 7)], [Entry(5, 0)]);
    assert file == [Entry(5, 0), Entry(3, 7)];
    assert After(file, 3, 1) == Step(file, 3, After(file, 3, 0));
  }

  // ----- opening again from the cache file

  lemma DirectoryPlain(images: seq<seq<Entry>>)
    ensures PlainNames(DirectoryOf(images))
  {
    forall i | 0 <= i < |images| ensures ';' !in DirectoryOf(images)[i].image {
      DecimalNoMark(i);
    }
  }

  /**
   The meant reader restores the directory from the cache file that a build leaves exactly when what
   is left there of an earlier one spells no record.
   */
  lemma ReopenAsMeant(cache: CacheFile, prior: string, name: string, images: seq<seq<Entry>>)
    requires '\n' !in name
    requires cache.Records(prior, name, DirectoryOf(images))
    ensures ReadAsMeant(cache.text) == (name, DirectoryOf(images))
       <==> !HoldsRecord(Leftover(prior, FileText(name, DirectoryOf(images))))
  {
    DirectoryPlain(images);
    CacheRoundTrip(prior, name, DirectoryOf(images));
  }

  /** It does not after one image is built over the cache file of another data file with two. */
  lemma StaleDirectoryRead()
    ensures var images: seq<seq<Entry>> := [[Entry(3, 0)]];
            var prior := FileText("a", DirectoryOf([[Entry(1, 0)], [Entry(2, 0)]]));
            ReadAsMeant(Overlay(prior, FileText("b", DirectoryOf(images))))
            == ("b", DirectoryOf(images) + [Record(2, ImageName(1))])
  {
    var r, r0, r1 := Record(3, ImageName(0)), Record(1, ImageName(0)), Record(2, ImageName(1));
    assert DirectoryOf([[Entry(3, 0)]]) == [r];
    assert DirectoryOf([[Entry(1, 0)], [Entry(2, 0)]]) == [r0, r1];
    DecimalNoMark(0);
    DecimalNoMark(1);
    assert |Decimal(3)| == 1 == |Decimal(1)|;
    StaleRecordRead("b", "a", r, r0, r1);
  }

  /** A data file whose cache file was written is opened from it the next time. */
  lemma WrittenIsRelevant(cache: CacheFile, prior: string, name: string, records: seq<Record>)
    requires '\n' !in name
    requires cache.Records(prior, name, records)
    ensures cache.present && '\n' in cache.text && FirstLine(cache.text) == name
  {
    assert name + "\n" <= FileText(name, records) <= cache.text;
    FirstLineIs(name, cache.text);
  }

  /** The sorted data that is not in the first image. */
  function BeyondFirst(s: seq<Entry>, m: nat): seq<Entry> {
    if |s| <= m then [] else s[m..]
  }

  ghost predicate InLaterImage(images: seq<seq<Entry>>, key: Key) {
    exists i :: 1 <= i < |images| && HasKey(images[i], key)
  }

  lemma {:induction false} HasKeyConcat(images: seq<seq<Entry>>, key: Key)
    ensures HasKey(Concat(images), key) <==> exists i :: 0 <= i < |images| && HasKey(images[i], key)
  {
    if images != [] {
      var front, rest := images[0], Concat(images[1..]);
      HasKeyConcat(images[1..], key);
      HasKeyAppend(front, rest, key);
      if i :| 0 <= i < |images| && HasKey(images[i], key) {
        assert i > 0 ==> HasKey(images[1..][i - 1], key);
      }
      if i :| 0 <= i < |images[1..]| && HasKey(images[1..][i], key) {
        assert HasKey(images[i + 1], key);
      }
    }
  }

  lemma HasKeyAppend(a: seq<Entry>, b: seq<Entry>, key: Key)
    ensures HasKey(a + b, key) <==> HasKey(a, key) || HasKey(b, key)
  {
    if i :| 0 <= i < |a| && a[i].key == key {
      assert (a + b)[i].key == key;
    }
    if i :| 0 <= i < |b| && b[i].key == key {
      assert (a + b)[|a| + i].key == key;
    }
  }

  lemma BeyondFirstImages(s: seq<Entry>, m: nat, key: Key)
    requires m > 0 && Sorted(s) && s != []
    ensures Chunks(s, m) != [] && Chunks(BeyondFirst(s, m), m) == Chunks(s, m)[1..]
    ensures Sorted(BeyondFirst(s, m))
    ensures HasKey(BeyondFirst(s, m), key) <==> InLaterImage(Chunks(s, m), key)
  {
    var images, later := Chunks(s, m), Chunks(BeyondFirst(s, m), m);
    assert later == images[1..];
    ChunksTile(BeyondFirst(s, m), m);
    HasKeyConcat(later, key);
    if i :| 0 <= i < |later| && HasKey(later[i], key) {
      assert HasKey(images[i + 1], key);
    }
    if i :| 1 <= i < |images| && HasKey(images[i], key) {
      assert HasKey(later[i - 1], key);
    }
  }

  lemma {:induction false} FindIndexAppend(a: seq<Key>, b: seq<Key>, key: Key)
    ensures FindIndex(a + b, key)
         == if FindIndex(a, key) < |a| then FindIndex(a, key) else |a| + FindIndex(b, key)
  {
    if a == [] {
      assert a + b == b;
    } else {
      assert (a + b)[1..] == a[1..] + b;
      FindIndexAppend(a[1..], b, key);
    }
  }

  lemma SelectedAppend(a: seq<Record>, b: seq<Record>, key: Key)
    ensures Selected(a + b, key) == if Selected(a, key).Some? then Selected(a, key) else Selected(b, key)
  {
    assert KeysOf(a + b) == KeysOf(a) + KeysOf(b);
    FindIndexAppend(KeysOf(a), KeysOf(b), key);
  }

  /** A lookup in the directory without its first record answers for the data beyond the first image. */
  lemma LaterLookup(s: seq<Entry>, m: nat, files: Files, key: Key)
    requires m > 0 && Sorted(s) && s != []
    requires FilesServe(files, Chunks(s, m))
    ensures var later, directory := BeyondFirst(s, m), DirectoryOf(Chunks(s, m))[1..];
            && (Selected(directory, key).None? <==> CountBelow(later, key) == |later|)
            && SelectsSorted(directory, files, key)
            && (LookupFinds(directory, files, key) <==> HasKey(later, key))
            && (LookupReturns(directory, files, key) <==> Answerable(later, m, key))
  {
    var images := Chunks(s, m);
    BeyondFirstImages(s, m, key);
    ImagesSorted(s, m);
    LaterIndexes(files, images);
    IndexedLookup(DirectoryOf(images)[1..], files, images[1..], BeyondFirst(s, m), m, key);
  }

  lemma LaterIndexes(files: Files, images: seq<seq<Entry>>)
    requires images != [] && FilesServe(files, images)
    requires forall i :: 0 <= i < |images| ==> images[i] != []
    ensures Indexes(DirectoryOf(images)[1..], files, images[1..])
  {
    forall i | 0 <= i < |images[1..]| ensures FileIn(files, ImageName(i + 1)) == images[1..][i] {
      assert images[1..][i] == images[i + 1];
    }
  }

  /**
   The answers of a directory in which readings that lead to `before`, if anywhere, precede the records
   of all images but the first, and readings that lead to `after` follow them.
   */
  ghost predicate Reopens(directory: seq<Record>, before: Option<string>, after: Option<string>,
                          s: seq<Entry>, m: nat, files: Files, key: Key)
    requires m > 0
  {
    var later := BeyondFirst(s, m);
    if before.Some? then Selected(directory, key) == before
    else if CountBelow(later, key) < |later| then
      && SelectsSorted(directory, files, key)
      && (LookupFinds(directory, files, key) <==> HasKey(later, key))
      && (LookupReturns(directory, files, key) <==> Answerable(later, m, key))
    else
      !HasKey(later, key) && Selected(directory, key) == after
  }

  /**
   A lookup through the reader as written, after any build: the readings of the name line come first,
   then the records of all images but the first, then those of an earlier cache file.
   */
  lemma ReopenedLookup(prior: string, name: string, s: seq<Entry>, m: nat, files: Files, key: Key)
    requires m > 0 && Sorted(s) && s != []
    requires FilesServe(files, Chunks(s, m))
    ensures var directory := DirectoryOf(Chunks(s, m));
            var content := FileText(name, directory);
            Reopens(ReadIndexImages(Overlay(prior, content)),
                    Selected(FirstReadings(name, directory[0]), key),
                    Selected(ReadLoop(Leftover(prior, content)), key), s, m, files, key)
  {
    var directory := DirectoryOf(Chunks(s, m));
    DirectoryPlain(Chunks(s, m));
    ReaderExactly(prior, name, directory);
    ReopensBetween(FirstReadings(name, directory[0]), ReadLoop(Leftover(prior, FileText(name, directory))), s, m, files, key);
  }

  lemma ReopensBetween(head: seq<Record>, stale: seq<Record>, s: seq<Entry>, m: nat, files: Files, key: Key)
    requires m > 0 && Sorted(s) && s != []
    requires FilesServe(files, Chunks(s, m))
    ensures Reopens(head + DirectoryOf(Chunks(s, m))[1..] + stale, Selected(head, key), Selected(stale, key), s, m, files, key)
  {
    var later := DirectoryOf(Chunks(s, m))[1..];
    SelectedAppend(head + later, stale, key);
    SelectedAppend(head, later, key);
    LaterLookup(s, m, files, key);
    BeyondFirstImages(s, m, key);
    CountBelowSorted(BeyondFirst(s, m), key);
  }

  /**
   With nothing left of an earlier cache file and a name without ';', exactly: above the number that
   the name begins with, a key is found exactly if an image other than the first holds it. Up to that
   number only the first image is searched, or, with a '_' in the name, a file that is no image.
   */
  lemma ReopenedExactly(prior: string, name: string, s: seq<Entry>, m: nat, files: Files, key: Key)
    requires m > 0 && Sorted(s) && s != []
    requires FilesServe(files, Chunks(s, m))
    requires ';' !in name && |prior| <= |FileText(name, DirectoryOf(Chunks(s, m)))|
    ensures var images := Chunks(s, m);
            var reread := ReadIndexImages(Overlay(prior, FileText(name, DirectoryOf(images))));
            if key > NameKey(name) then
              && SelectsSorted(reread, files, key)
              && (LookupFinds(reread, files, key) <==> InLaterImage(images, key))
              && (LookupReturns(reread, files, key) <==> Answerable(BeyondFirst(s, m), m, key))
            else if '_' !in name then
              && SelectsSorted(reread, files, key)
              && (LookupFinds(reread, files, key) <==> HasKey(images[0], key))
              && (LookupReturns(reread, files, key) <==> Stops(images[0], key))
            else
              Selected(reread, key).Some? && forall i :: Selected(reread, key).value != ImageName(i)
  {
    var directory := DirectoryOf(Chunks(s, m));
    var content := FileText(name, directory);
    DirectoryPlain(Chunks(s, m));
    ReopenedLookup(prior, name, s, m, files, key);
    FirstSelected(name, directory[0], key);
    LeftoverSelected(prior, content, key);
    PlainReopened(ReadIndexImages(Overlay(prior, content)), Selected(FirstReadings(name, directory[0]), key),
                  Selected(ReadLoop(Leftover(prior, content)), key), name, directory[0], s, m, files, key);
  }

  lemma PlainReopened(directory: seq<Record>, before: Option<string>, after: Option<string>,
                      name: string, first: Record, s: seq<Entry>, m: nat, files: Files, key: Key)
    requires m > 0 && Sorted(s) && s != []
    requires FilesServe(files, Chunks(s, m))
    requires first.image == ImageName(0)
    requires before == if NameKey(name) >= key then Some(NameImage(name, first)) else None
    requires key > 0 ==> after == None
    requires Reopens(directory, before, after, s, m, files, key)
    ensures if key > NameKey(name) then
              && SelectsSorted(directory, files, key)
              && (LookupFinds(directory, files, key) <==> InLaterImage(Chunks(s, m), key))
              && (LookupReturns(directory, files, key) <==> Answerable(BeyondFirst(s, m), m, key))
            else if '_' !in name then
              && Chunks(s, m) != []
              && SelectsSorted(directory, files, key)
              && (LookupFinds(directory, files, key) <==> HasKey(Chunks(s, m)[0], key))
              && (LookupReturns(directory, files, key) <==> Stops(Chunks(s, m)[0], key))
            else
              Selected(directory, key).Some? && forall i :: Selected(directory, key).value != ImageName(i)
  {
    if key > NameKey(name) {
      BeyondFirstImages(s, m, key);
    } else if '_' in name {
      NameImageIsNone(name, first);
    } else {
      FindNone(name, '_');
      FirstFound(directory, s, m, files, key);
    }
  }

  /** The answers of a directory that selects the first image. */
  lemma FirstFound(directory: seq<Record>, s: seq<Entry>, m: nat, files: Files, key: Key)
    requires m > 0 && Sorted(s) && s != []
    requires FilesServe(files, Chunks(s, m))
    requires Selected(directory, key) == Some(ImageName(0))
    ensures Chunks(s, m) != [] && SelectsSorted(directory, files, key)
    ensures LookupFinds(directory, files, key) <==> HasKey(Chunks(s, m)[0], key)
    ensures LookupReturns(directory, files, key) <==> Stops(Chunks(s, m)[0], key)
  {
    ImagesSorted(s, m);
    HaltsExactly(Chunks(s, m)[0], key);
    LookupOf(directory, files, key, ImageName(0), Chunks(s, m)[0]);
  }

  lemma FirstSelected(name: string, first: Record, key: Key)
    requires ';' !in name && ';' !in first.image
    ensures Selected(FirstReadings(name, first), key)
         == if NameKey(name) >= key then Some(NameImage(name, first)) else None
  {
    FirstReadingsPlain(name, first);
    SelectedOne(Record(NameKey(name), NameImage(name, first)), key);
  }

  /** Where nothing is left of an earlier cache file, only the empty record follows. */
  lemma LeftoverSelected(prior: string, content: string, key: Key)
    requires |prior| <= |content|
    ensures key > 0 ==> Selected(ReadLoop(Leftover(prior, content)), key) == None
  {
    assert Leftover(prior, content) == "";
    NothingToRead();
    SelectedOne(Record(0, ""), key);
  }

  lemma SelectedOne(r: Record, key: Key)
    ensures Selected([r], key) == if r.key >= key then Some(r.image) else None
  {
    assert KeysOf([r]) == [r.key];
  }

  lemma NameImageIsNone(name: string, first: Record)
    requires '_' in name
    ensures forall i :: NameImage(name, first) != ImageName(i)
  {
    SplitAt(name, '_');
    NotAnImage(NameImage(name, first), |name[Find(name, '_') + 1..]|);
  }

  lemma NotAnImage(name: string, k: nat)
    requires k < |name| && name[k] == '\n'
    ensures forall i :: name != ImageName(i)
  {
    forall i: nat ensures name != ImageName(i) {
      DecimalNoMark(i);
      assert '\n' !in ImageName(i);
    }
  }

  /** The name that the large-file example gives its data file: every key above 0 that only the first image holds is lost. */
  lemma ExampleReopened(s: seq<Entry>, m: nat, files: Files, key: Key)
    requires m > 0 && Sorted(s) && s != []
    requires FilesServe(files, Chunks(s, m))
    requires key > 0
    ensures var images := Chunks(s, m);
            LookupFinds(ReadIndexImages(FileText("data_collection", DirectoryOf(images))), files, key)
            <==> InLaterImage(images, key)
  {
    ExampleName();
    assert Overlay("", FileText("data_collection", DirectoryOf(Chunks(s, m))))
        == FileText("data_collection", DirectoryOf(Chunks(s, m)));
    ReopenedExactly("", "data_collection", s, m, files, key);
  }

  lemma ExampleName()
    ensures ';' !in "data_collection" && NameKey("data_collection") == 0
  {
    assert "data_collection" == "data" + ['_'] + "collection";
    NameKeyOf("data", "collection");
    assert DigitPrefix("data") == 0;
  }

  lemma NameKeyOf(front: string, back: string)
    requires '_' !in front
    ensures NameKey(front + ['_'] + back) == FromChars(front)
  {
    FindIn(front, '_', back);
    assert (front + ['_'] + back)[..|front|] == front;
  }

  /**
   After a failed build, too, the data file is opened from its cache file, in which the name line is
   followed by what an earlier cache file left. Up to the number that the name begins with every key
   leads to one file, which is no image unless the name has no '_' and the leftover has one; above it,
   a key leads where the readings of the leftover lead. The same holds after a build from an empty
   data file.
   */
  lemma ReopenedAfterFailure(prior: string, name: string, key: Key)
    requires ';' !in name
    ensures var left := Leftover(prior, FileText(name, []));
            var reread := ReadIndexImages(Overlay(prior, FileText(name, [])));
            && Selected(reread, key)
               == (if key > NameKey(name) then Selected(LineRest(name, left), key) else Some(LineImage(name, left)))
            && ('_' in name || '_' !in left ==> forall i :: LineImage(name, left) != ImageName(i))
            && (left == "" ==> LineRest(name, left) == [])
  {
    var left := Leftover(prior, FileText(name, []));
    BareNameText(name);
    BareNameRead(name, left);
    SelectedOne(Record(NameKey(name), LineImage(name, left)), key);
    SelectedAppend([Record(NameKey(name), LineImage(name, left))], LineRest(name, left), key);
    if '_' in name {
      NotAnImage(LineImage(name, left), |BehindMark(name)|);
    } else if '_' !in left {
      NotAnImage(LineImage(name, left), |name|);
    }
  }

  lemma NothingHeld(files: Files)
    ensures FilesHold(files, files, [])
  {
    forall i: nat ensures FileHolds(files, files, [], i) {
    }
  }

  /** The images, one after another, hold the data by key, and for one key by value. */
  lemma ImagesInOrder(data: seq<Entry>, m: nat)
    requires m > 0
    ensures var all := Concat(Chunks(SortEntries(data), m));
            && multiset(all) == multiset(data)
            && (forall i, j :: 0 <= i < j < |all| ==> all[i].key <= all[j].key)
            && (forall i, j :: 0 <= i < j < |all| && all[i].key == all[j].key ==> all[i].value <= all[j].value)
  {
    ChunksTile(SortEntries(data), m);
    SortedByKeyThenValue(data);
  }

  lemma ImagesDone(images: seq<seq<Entry>>, rests: seq<seq<Entry>>, data: seq<Entry>, m: nat)
    requires m > 0 && rests == []
    requires MergeInvariant(Concat(images), rests, multiset(data)) && FullImages(images, m, true)
    ensures images == Chunks(SortEntries(data), m)
  {
    MergeDone(Concat(images), data);
    ChunksUnique(images, m);
  }

  /** All images are full, except that the last may be short once nothing is left. */
  ghost predicate FullImages(images: seq<seq<Entry>>, m: nat, finished: bool) {
    && (forall i :: 0 <= i < |images| ==> 0 < |images[i]| <= m)
    && (forall i :: 0 <= i < |images| - (if finished then 1 else 0) ==> |images[i]| == m)
  }

  lemma WrittenBounded(written: seq<Entry>, rests: seq<seq<Entry>>, total: multiset<Entry>)
    requires MergeInvariant(written, rests, total)
    ensures |written| <= |total|
  {
    assert |multiset(written) + multiset(Concat(rests))| == |written| + |Concat(rests)|;
  }

  lemma ImageFilled(images: seq<seq<Entry>>, image: seq<Entry>, rests: seq<seq<Entry>>, total: multiset<Entry>,
                    m: nat, finished: bool)
    requires FullImages(images, m, false)
    requires 0 < |image| <= m && (!finished ==> |image| == m)
    requires MergeInvariant(Concat(images) + image, rests, total)
    ensures FullImages(images + [image], m, finished)
    ensures MergeInvariant(Concat(images + [image]), rests, total)
    ensures |Concat(images)| < |Concat(images + [image])| <= |total|
  {
    ConcatSnoc(images, image);
    WrittenBounded(Concat(images) + image, rests, total);
  }

  lemma DirectorySnoc(images: seq<seq<Entry>>, image: seq<Entry>)
    ensures DirectoryOf(images + [image]) == DirectoryOf(images) + [Record(LastKey(image), ImageName(|images|))]
  {
  }

  datatype MergeView = MergeView(
    states: seq<Cursor>, rests: seq<seq<Entry>>, images: seq<seq<Entry>>, current: seq<Entry>)

  lemma TakeOneSize(n: nat, entrySize: nat)
    requires n > 0
    ensures n * entrySize >= entrySize && n * entrySize - entrySize == (n - 1) * entrySize
  {
    MulMono(1, n, entrySize);
  }

  lemma NextOffset(i: nat, entrySize: nat)
    ensures (i + 1) * entrySize == i * entrySize + entrySize
  {
  }

  lemma SizeCompare(left: nat, m: nat, entrySize: nat)
    requires entrySize > 0
    ensures left * entrySize < m * entrySize <==> left < m
  {
    if left < m {
      MulMono(left + 1, m, entrySize);
    } else {
      MulMono(m, left, entrySize);
    }
  }
}
