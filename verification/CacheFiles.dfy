/**
 The cache file: a line with the data file's name, then one `key_image;` record per image. It is
 written through a descriptor that is opened without truncation.
 */
module CacheFiles {
  import opened Sequences
  import opened Entries

  datatype Record = Record(key: Key, image: string)

  /** What one iteration of the reader's loop yields. */
  datatype Reading = Reading(record: Record, rest: string, more: bool)

  // ----- decimal text

  function Digit(d: nat): char
    requires d < 10
  {
    '0' + d as char
  }

  predicate IsDigit(c: char) {
    '0' <= c <= '9'
  }

  /** `std::to_string` and `operator<<` on an unsigned integer. */
  function Decimal(n: nat): (s: string)
    ensures s != "" && forall i :: 0 <= i < |s| ==> IsDigit(s[i])
    ensures s[0] == '0' <==> n == 0
  {
    if n < 10 then [Digit(n)] else Decimal(n / 10) + [Digit(n % 10)]
  }

  function DigitsValue(s: string): nat {
    if s == "" || !IsDigit(s[|s| - 1]) then 0
    else 10 * DigitsValue(s[..|s| - 1]) + (s[|s| - 1] - '0') as nat
  }

  function DigitPrefix(s: string): (n: nat)
    ensures n <= |s|
    ensures forall i :: 0 <= i < n ==> IsDigit(s[i])
    ensures n < |s| ==> !IsDigit(s[n])
  {
    if s == "" || !IsDigit(s[0]) then 0 else 1 + DigitPrefix(s[1..])
  }

  /** `std::from_chars` into a key that starts at 0: no digits, or too many, leave it at 0. */
  function FromChars(s: string): Key {
    var v := DigitsValue(s[..DigitPrefix(s)]);
    if v < 0x1_0000_0000_0000_0000 then v else 0
  }

  lemma {:induction false} DecimalValue(n: nat)
    ensures DigitsValue(Decimal(n)) == n
  {
    if n >= 10 {
      DecimalValue(n / 10);
      assert Decimal(n)[..|Decimal(n)| - 1] == Decimal(n / 10);
    }
  }

  /** A number is parsed back from its decimal text if it is a key; one that is too large leaves 0. */
  lemma FromCharsDecimal(n: nat)
    ensures FromChars(Decimal(n)) == if n < 0x1_0000_0000_0000_0000 then n else 0
  {
    DecimalValue(n);
    assert DigitPrefix(Decimal(n)) == |Decimal(n)|;
    assert Decimal(n)[..|Decimal(n)|] == Decimal(n);
  }

  function ImageName(i: nat): string {
    "image" + Decimal(i) + ".idx"
  }

  lemma ImageNameInjective(i: nat, j: nat)
    ensures ImageName(i) == ImageName(j) ==> i == j
  {
    if ImageName(i) == ImageName(j) {
      assert |Decimal(i)| == |Decimal(j)|;
      assert Decimal(i) == ImageName(i)[5..5 + |Decimal(i)|];
      assert Decimal(j) == ImageName(j)[5..5 + |Decimal(j)|];
      DecimalValue(i);
      DecimalValue(j);
    }
  }

  // ----- files opened without truncation

  /** What shows of a file's former contents beyond the `content` that was written over it. */
  function Leftover<T>(prior: seq<T>, content: seq<T>): seq<T> {
    if |content| <= |prior| then prior[|content|..] else []
  }

  /** What a file holds once `content` has been written over it from the start. */
  function Overlay<T>(prior: seq<T>, content: seq<T>): seq<T> {
    content + Leftover(prior, content)
  }

  /** `write` at a file position. */
  function WriteAt<T>(file: seq<T>, pos: nat, piece: seq<T>): seq<T>
    requires pos <= |file|
  {
    file[..pos] + piece + if pos + |piece| <= |file| then file[pos + |piece|..] else []
  }

  lemma OverlayNothing<T>(prior: seq<T>)
    ensures Overlay(prior, []) == prior
  {
  }

  lemma OverlayWrite<T>(prior: seq<T>, content: seq<T>, piece: seq<T>)
    ensures WriteAt(Overlay(prior, content), |content|, piece) == Overlay(prior, content + piece)
  {
  }

  /** The old file shows through exactly when it is longer than what was written. */
  lemma OverlayExact<T>(prior: seq<T>, content: seq<T>)
    ensures Overlay(prior, content) == content <==> |prior| <= |content|
  {
    if Overlay(prior, content) == content {
      assert |Overlay(prior, content)| == |content|;
    }
  }

  // ----- the format

  function RecordText(r: Record): string {
    Decimal(r.key) + "_" + r.image + ";"
  }

  function RecordsText(records: seq<Record>): string {
    if records == [] then "" else RecordText(records[0]) + RecordsText(records[1..])
  }

  function FileText(name: string, records: seq<Record>): string {
    name + "\n" + RecordsText(records)
  }

  /** The text of a cache file with one record. */
  lemma FormatExample()
    ensures FileText("data", [Record(42, "image0.idx")]) == "data\n42_image0.idx;"
    ensures ImageName(0) == "image0.idx" && ImageName(12) == "image12.idx"
  {
    assert Decimal(42) == "42" && Decimal(12) == "12" && Decimal(0) == "0";
    OneRecordText(Record(42, "image0.idx"));
  }

  lemma {:induction false} RecordsTextSnoc(records: seq<Record>, r: Record)
    ensures RecordsText(records + [r]) == RecordsText(records) + RecordText(r)
  {
    if records == [] {
      assert [r][1..] == [];
    } else {
      RecordsTextSnoc(records[1..], r);
      assert (records + [r])[1..] == records[1..] + [r];
      ConcatThree(RecordText(records[0]), RecordsText(records[1..]), RecordText(r));
    }
  }

  /** `remove_prefix(pos + 1)`; `npos + 1` is 0. */
  function RemoveThrough(s: string, p: nat): string
    requires p <= |s|
  {
    if p == |s| then s else s[p + 1..]
  }

  /** One iteration of the reader's loop: the record, what is left, and whether ';' was found. */
  function ReadRecord(sv: string): Reading {
    var p := Find(sv, '_');
    var rest := RemoveThrough(sv, p);
    var q := Find(rest, ';');
    Reading(Record(FromChars(sv[..p]), rest[..q]), RemoveThrough(rest, q), q < |rest|)
  }

  /** The loop of `read_index_images`, which tests for the end only after adding a record. */
  function ReadLoop(sv: string): seq<Record>
    decreases |sv|
  {
    var Reading(r, rest, more) := ReadRecord(sv);
    [r] + if more then ReadLoop(rest) else []
  }

  /**
   `read_index_images` as written: the call that should drop the name line gets a copy of the view,
   so the loop starts at the beginning of the file.
   */
  function ReadIndexImages(text: string): seq<Record> {
    ReadLoop(text)
  }

  /** The reader that the format is meant for: it starts after the name line and stops at the end. */
  function ReadRecordsAsMeant(sv: string): seq<Record>
    decreases |sv|
  {
    var Reading(r, rest, more) := ReadRecord(sv);
    if more then [r] + ReadRecordsAsMeant(rest) else []
  }

  function ReadAsMeant(text: string): (string, seq<Record>) {
    var p := Find(text, '\n');
    (text[..p], ReadRecordsAsMeant(RemoveThrough(text, p)))
  }

  lemma DecimalNoMark(n: nat)
    ensures '_' !in Decimal(n) && ';' !in Decimal(n) && '\n' !in Decimal(n)
  {
  }

  /** A view whose first record ends before `tail`, when there is no '_' in `front` and no ';' in `image`. */
  function Marked(front: string, image: string, tail: string): string {
    front + ['_'] + image + [';'] + tail
  }

  lemma MarkedEnd(front: string, image: string, tail: string)
    ensures Marked(front, image, "") + tail == Marked(front, image, tail)
  {
  }

  lemma MarkedLonger(front: string, image: string, rest: string, tail: string)
    ensures Marked(front, image, rest) + tail == Marked(front, image, rest + tail)
  {
  }

  lemma MarkedBehind(line: string, front: string, image: string)
    ensures line + Marked(front, image, "") == Marked(line + front, image, "")
  {
  }

  /** Where the first '_' is in the front of a view, and no ';' follows it there. */
  lemma MarkedEarly(start: string, middle: string, image: string)
    ensures Marked(start + ['_'] + middle, image, "") == Marked(start, middle + ['_'] + image, "")
  {
  }

  /** The same, with a ';' after it. */
  lemma MarkedWithin(start: string, middle: string, rest: string, image: string)
    ensures Marked(start + ['_'] + (middle + [';'] + rest), image, "") == Marked(start, middle, Marked(rest, image, ""))
  {
  }

  lemma ReadRecordAt(front: string, image: string, tail: string)
    requires '_' !in front && ';' !in image
    ensures ReadRecord(Marked(front, image, tail)) == Reading(Record(FromChars(front), image), tail, true)
  {
    var sv := Marked(front, image, tail);
    var rest := image + [';'] + tail;
    assert sv == front + ['_'] + rest;
    FindIn(front, '_', rest);
    assert sv[..|front|] == front && sv[|front| + 1..] == rest;
    FindIn(image, ';', tail);
    assert rest[..|image|] == image && rest[|image| + 1..] == tail;
  }

  lemma RecordMarked(r: Record)
    ensures RecordText(r) == Marked(Decimal(r.key), r.image, "")
  {
  }

  /** One record, followed by anything, is read back. */
  lemma ReadOneRecord(r: Record, tail: string)
    requires ';' !in r.image
    ensures ReadRecord(RecordText(r) + tail) == Reading(r, tail, true)
  {
    DecimalNoMark(r.key);
    FromCharsDecimal(r.key);
    RecordMarked(r);
    MarkedEnd(Decimal(r.key), r.image, tail);
    ReadRecordAt(Decimal(r.key), r.image, tail);
  }

  /** Reading records off `sv` one after another yields `records` and leaves `left`. */
  ghost predicate Spells(sv: string, records: seq<Record>, left: string) {
    if records == [] then sv == left
    else
      var Reading(r, rest, more) := ReadRecord(sv);
      r == records[0] && more && Spells(rest, records[1..], left)
  }

  ghost predicate PlainNames(records: seq<Record>) {
    forall i :: 0 <= i < |records| ==> ';' !in records[i].image
  }

  lemma {:induction false} RecordsSpell(records: seq<Record>, left: string)
    requires PlainNames(records)
    ensures Spells(RecordsText(records) + left, records, left)
  {
    if records == [] {
      assert RecordsText(records) + left == left;
    } else {
      ReadOneRecord(records[0], RecordsText(records[1..]) + left);
      ConcatThree(RecordText(records[0]), RecordsText(records[1..]), left);
      RecordsSpell(records[1..], left);
    }
  }

  /** One record more at the front, for either reader. */
  lemma ReadersAdd(sv: string, r: Record, rest: string)
    requires ReadRecord(sv) == Reading(r, rest, true)
    ensures ReadRecordsAsMeant(sv) == [r] + ReadRecordsAsMeant(rest)
    ensures ReadLoop(sv) == [r] + ReadLoop(rest)
  {
  }

  /** At a view without a whole record the meant reader stops; the reader as written adds one first. */
  lemma ReadersEnd(sv: string)
    requires !ReadRecord(sv).more
    ensures ReadRecordsAsMeant(sv) == []
    ensures ReadLoop(sv) == [ReadRecord(sv).record]
  {
  }

  lemma ReadLoopStep(sv: string)
    ensures ReadLoop(sv) == [ReadRecord(sv).record] + if ReadRecord(sv).more then ReadLoop(ReadRecord(sv).rest) else []
  {
  }

  lemma NothingToRead()
    ensures ReadRecord("") == Reading(Record(0, ""), "", false)
    ensures ReadRecordsAsMeant("") == [] && ReadLoop("") == [Record(0, "")]
  {
    assert ReadRecord("") == Reading(Record(0, ""), "", false);
    ReadersEnd("");
  }

  /** Both readers take the records that a view spells, and go on with what is left. */
  lemma {:induction false} SpellsRead(sv: string, records: seq<Record>, left: string)
    requires Spells(sv, records, left)
    ensures ReadRecordsAsMeant(sv) == records + ReadRecordsAsMeant(left)
    ensures ReadLoop(sv) == records + ReadLoop(left)
  {
    if records == [] {
      EmptyFront(ReadRecordsAsMeant(left));
      EmptyFront(ReadLoop(left));
    } else {
      var rest := ReadRecord(sv).rest;
      SpellsRead(rest, records[1..], left);
      ReadersAdd(sv, records[0], rest);
      HeadAndTail(records, ReadRecordsAsMeant(left));
      HeadAndTail(records, ReadLoop(left));
    }
  }

  /** A ';' after some '_', or any ';' where there is no '_'. */
  predicate HoldsRecord(s: string) {
    exists i :: 0 <= i < |s| && s[i] == ';' && ('_' !in s || '_' in s[..i])
  }

  /** These are the texts from which a record can be read, up to its ';'. */
  lemma HoldsRecordExactly(s: string)
    ensures ReadRecord(s).more <==> HoldsRecord(s)
  {
    var p := Find(s, '_');
    if '_' in s {
      SplitAt(s, '_');
      var rest := s[p + 1..];
      if i :| 0 <= i < |s| && s[i] == ';' && '_' in s[..i] {
        var j :| 0 <= j < i && s[j] == '_';
        FindBy(s, '_', j);
        FindBy(rest, ';', i - (p + 1));
      }
      if Find(rest, ';') < |rest| {
        var i := p + 1 + Find(rest, ';');
        assert s[i] == ';' && s[..i][p] == '_';
      }
    } else {
      FindNone(s, '_');
      if i :| 0 <= i < |s| && s[i] == ';' {
        FindBy(s, ';', i);
      }
    }
  }

  /**
   What the meant reader finds, for all 64-bit keys, in a file written over former contents: what was
   written, and after it the records that the rest of the former contents still spells.
   */
  lemma CacheRoundTrip(prior: string, name: string, records: seq<Record>)
    requires '\n' !in name && PlainNames(records)
    ensures var content := FileText(name, records);
            var left := Leftover(prior, content);
            && ReadAsMeant(Overlay(prior, content)) == (name, records + ReadRecordsAsMeant(left))
            && (ReadAsMeant(Overlay(prior, content)) == (name, records) <==> !HoldsRecord(left))
  {
    var left := Leftover(prior, FileText(name, records));
    NameLineRead(name, RecordsText(records) + left);
    ConcatThree(name + "\n", RecordsText(records), left);
    RecordsSpell(records, left);
    SpellsRead(RecordsText(records) + left, records, left);
    MeantEmpty(left);
    HoldsRecordExactly(left);
    NothingAdded(records, ReadRecordsAsMeant(left));
  }

  lemma NameLineRead(name: string, rest: string)
    requires '\n' !in name
    ensures ReadAsMeant(name + "\n" + rest) == (name, ReadRecordsAsMeant(rest))
  {
    var text := name + "\n" + rest;
    FindIn(name, '\n', rest);
    assert text[..|name|] == name && text[|name| + 1..] == rest;
  }

  lemma MeantEmpty(sv: string)
    ensures ReadRecordsAsMeant(sv) == [] <==> !ReadRecord(sv).more
  {
  }

  lemma OneRecordText(r: Record)
    ensures RecordsText([r]) == RecordText(r)
  {
    assert RecordText(r) + RecordsText([]) == RecordText(r);
  }

  /** A file of one image, written over that of a data file with two, still spells the second image of that one. */
  lemma StaleRecordRead(name: string, other: string, r: Record, r0: Record, r1: Record)
    requires '\n' !in name && ';' !in r.image && ';' !in r0.image && ';' !in r1.image
    requires |name + "\n" + RecordText(r)| == |other + "\n" + RecordText(r0)|
    ensures ReadAsMeant(Overlay(FileText(other, [r0, r1]), FileText(name, [r]))) == (name, [r] + [r1])
  {
    TwoRecordsText(other, r0, r1);
    OneRecordText(r);
    LeftoverIs(FileText(name, [r]), other + "\n" + RecordText(r0), RecordText(r1), FileText(other, [r0, r1]));
    CacheRoundTrip(FileText(other, [r0, r1]), name, [r]);
    RecordAsMeant(Leftover(FileText(other, [r0, r1]), FileText(name, [r])), r1);
  }

  lemma LeftoverIs<T>(content: seq<T>, front: seq<T>, back: seq<T>, prior: seq<T>)
    requires |content| == |front| && prior == front + back
    ensures Leftover(prior, content) == back
  {
  }

  lemma RecordAsMeant(sv: string, r: Record)
    requires ';' !in r.image && sv == RecordText(r)
    ensures ReadRecordsAsMeant(sv) == [r]
  {
    EmptyBack(sv);
    ReadOneRecord(r, "");
    ReadersAdd(sv, r, "");
    NothingToRead();
  }

  lemma TwoRecordsText(name: string, r0: Record, r1: Record)
    ensures FileText(name, [r0, r1]) == name + "\n" + RecordText(r0) + RecordText(r1)
  {
    assert [r0, r1][1..] == [r1];
    OneRecordText(r1);
    ConcatThree(name + "\n", RecordText(r0), RecordText(r1));
  }

  /** Reading a record stops no later than the first ';' after the first '_'. */
  lemma ReadRecordReach(front: string, middle: string, tail: string) returns (left: string)
    ensures var sv := front + ['_'] + middle + [';'] + tail;
            ReadRecord(sv).more && ReadRecord(sv).rest == left + tail && |left + tail| < |sv|
  {
    var first := front + ['_'] + middle + [';'];
    var sv := first + tail;
    FindBy(sv, '_', |front|);
    var p := Find(sv, '_');
    var view := RemoveThrough(sv, p);
    FindBy(view, ';', |first| - 1 - (p + 1));
    var q := Find(view, ';');
    left := first[p + q + 2..];
    assert RemoveThrough(view, q) == sv[p + q + 2..];
    SuffixOf(first, tail, p + q + 2);
  }

  /** The reader as written adds at least one record to those in the file. */
  lemma {:induction false} ReadLoopTooLong(prefix: string, records: seq<Record>, left: string)
    ensures |ReadLoop(prefix + RecordsText(records) + left)| > |records|
    decreases |prefix + RecordsText(records)|
  {
    if records != [] {
      var front, tail := prefix + Decimal(records[0].key), RecordsText(records[1..]) + left;
      assert prefix + RecordsText(records) + left == front + ['_'] + records[0].image + [';'] + tail;
      var shorter := ReadRecordReach(front, records[0].image, tail);
      ConcatThree(shorter, RecordsText(records[1..]), left);
      ReadLoopTooLong(shorter, records[1..], left);
    }
  }

  /** No cache file is read back as it was written. */
  lemma ReaderNeverRoundTrips(prior: string, name: string, records: seq<Record>)
    ensures |ReadIndexImages(Overlay(prior, FileText(name, records)))| > |records|
    ensures ReadIndexImages(Overlay(prior, FileText(name, records))) != records
  {
    ReadLoopTooLong(name + "\n", records, Leftover(prior, FileText(name, records)));
  }

  /** The records that the reader as written takes from the name line and the first record. */
  function FirstReadings(name: string, first: Record): seq<Record> {
    ReadRecordsAsMeant(name + "\n" + RecordText(first))
  }

  /** Both readers on a view that begins with a record. */
  lemma ReadersAt(front: string, image: string, tail: string)
    requires '_' !in front && ';' !in image
    ensures var sv, r := Marked(front, image, tail), Record(FromChars(front), image);
            && ReadRecordsAsMeant(sv) == [r] + ReadRecordsAsMeant(tail)
            && ReadLoop(sv) == [r] + ReadLoop(tail)
  {
    ReadRecordAt(front, image, tail);
    ReadersAdd(Marked(front, image, tail), Record(FromChars(front), image), tail);
  }

  /** The last record of a view is read as one, with whatever follows it left to read. */
  lemma LastReading(sv: string, front: string, image: string, tail: string)
    requires '_' !in front && ';' !in image && sv == Marked(front, image, "")
    ensures ReadRecordsAsMeant(sv) == [Record(FromChars(front), image)]
    ensures ReadLoop(sv + tail) == [Record(FromChars(front), image)] + ReadLoop(tail)
  {
    ReadersAt(front, image, tail);
    ReadersAt(front, image, "");
    NothingToRead();
    MarkedEnd(front, image, tail);
  }

  /** A record that ends inside the front of a view. */
  lemma EarlierReading(front: string, image: string, rest: string, tail: string)
    requires '_' !in front && ';' !in image
    requires ReadLoop(rest + tail) == ReadRecordsAsMeant(rest) + ReadLoop(tail)
    ensures var sv := Marked(front, image, rest);
            && ReadRecordsAsMeant(sv) != []
            && ReadLoop(sv + tail) == ReadRecordsAsMeant(sv) + ReadLoop(tail)
  {
    ReadersAt(front, image, rest);
    ReadersAt(front, image, rest + tail);
    MarkedLonger(front, image, rest, tail);
    ConcatThree([Record(FromChars(front), image)], ReadRecordsAsMeant(rest), ReadLoop(tail));
  }

  /** A view that ends a record is read in the same way whatever follows it. */
  lemma {:induction false} ReadingsBefore(front: string, image: string, tail: string)
    requires ';' !in image
    ensures var sv := Marked(front, image, "");
            && ReadRecordsAsMeant(sv) != []
            && ReadLoop(sv + tail) == ReadRecordsAsMeant(sv) + ReadLoop(tail)
    decreases |front|
  {
    if '_' !in front {
      LastReading(Marked(front, image, ""), front, image, tail);
    } else {
      SplitAt(front, '_');
      var p := Find(front, '_');
      Split(front, p);
      var start, middle := front[..p], front[p + 1..];
      if ';' !in middle {
        MarkedEarly(start, middle, image);
        LastReading(Marked(front, image, ""), start, middle + ['_'] + image, tail);
      } else {
        SplitAt(middle, ';');
        var q := Find(middle, ';');
        Split(middle, q);
        var rest := middle[q + 1..];
        ReadingsBefore(rest, image, tail);
        EarlierReading(start, middle[..q], Marked(rest, image, ""), tail);
        MarkedWithin(start, middle[..q], rest, image);
      }
    }
  }

  /**
   What the reader as written makes of any cache file: since it starts at the name line, the first
   record is lost in what that line and the record spell together; the other records are as written;
   and the loop goes on into what is left of the former contents, or appends an empty record.
   */
  lemma ReaderExactly(prior: string, name: string, records: seq<Record>)
    requires records != [] && PlainNames(records)
    ensures var content := FileText(name, records);
            ReadIndexImages(Overlay(prior, content))
            == FirstReadings(name, records[0]) + records[1..] + ReadLoop(Leftover(prior, content))
    ensures FirstReadings(name, records[0]) != []
    ensures ReadLoop("") == [Record(0, "")]
  {
    var left, first := Leftover(prior, FileText(name, records)), records[0];
    var tail := RecordsText(records[1..]) + left;
    var line := name + "\n";
    FirstReadingsLoop(name, first, tail);
    RecordsSpell(records[1..], left);
    SpellsRead(tail, records[1..], left);
    ConcatThree(line, RecordText(first), RecordsText(records[1..]));
    ConcatThree(line + RecordText(first), RecordsText(records[1..]), left);
    ConcatThree(FirstReadings(name, first), records[1..], ReadLoop(left));
    NothingToRead();
  }

  lemma FirstReadingsLoop(name: string, first: Record, tail: string)
    requires ';' !in first.image
    ensures FirstReadings(name, first) != []
    ensures ReadLoop(name + "\n" + RecordText(first) + tail) == FirstReadings(name, first) + ReadLoop(tail)
  {
    ReadingsBefore(name + "\n" + Decimal(first.key), first.image, tail);
    RecordMarked(first);
    MarkedBehind(name + "\n", Decimal(first.key), first.image);
  }

  /** The key that the reader as written takes for the first image: the number that the name begins with. */
  function NameKey(name: string): Key {
    FromChars(name[..Find(name, '_')])
  }

  lemma {:induction false} DigitsOfLine(line: string, rest: string)
    ensures DigitPrefix(line + "\n" + rest) == DigitPrefix(line)
  {
    if line != "" {
      assert (line + "\n" + rest)[1..] == line[1..] + "\n" + rest;
      DigitsOfLine(line[1..], rest);
    }
  }

  lemma NumberOfLine(line: string, rest: string)
    ensures FromChars(line + "\n" + rest) == FromChars(line)
  {
    DigitsOfLine(line, rest);
    var n := DigitPrefix(line);
    assert (line + "\n" + rest)[..n] == line[..n];
  }

  /** The image name that goes with it: the first image's own, or one that runs on over the line's end. */
  function NameImage(name: string, first: Record): string {
    var p := Find(name, '_');
    if p == |name| then first.image else name[p + 1..] + "\n" + Decimal(first.key) + ['_'] + first.image
  }

  /** With a name without ';' the name line and the first record are read as one record. */
  lemma FirstReadingsPlain(name: string, first: Record)
    requires ';' !in name && ';' !in first.image
    ensures FirstReadings(name, first) == [Record(NameKey(name), NameImage(name, first))]
  {
    if Find(name, '_') == |name| {
      FindNone(name, '_');
      FirstReadingUnmarked(name, first);
    } else {
      FirstReadingMarked(name, first);
    }
  }

  lemma FirstMarked(name: string, first: Record)
    ensures name + "\n" + RecordText(first) == Marked(name + "\n" + Decimal(first.key), first.image, "")
  {
    RecordMarked(first);
    MarkedBehind(name + "\n", Decimal(first.key), first.image);
  }

  lemma NameMarked(name: string, first: Record)
    requires '_' in name
    ensures name + "\n" + RecordText(first) == Marked(name[..Find(name, '_')], NameImage(name, first), "")
  {
    var p := Find(name, '_');
    SplitAt(name, '_');
    FirstMarked(name, first);
    SplitLine(name, p, Decimal(first.key));
    MarkedEarly(name[..p], name[p + 1..] + "\n" + Decimal(first.key), first.image);
  }

  lemma FirstReadingMarked(name: string, first: Record)
    requires '_' in name && ';' !in name && ';' !in first.image
    ensures FirstReadings(name, first) == [Record(NameKey(name), NameImage(name, first))]
  {
    NameMarked(name, first);
    DecimalNoMark(first.key);
    LastReading(name + "\n" + RecordText(first), name[..Find(name, '_')], NameImage(name, first), "");
  }

  lemma FirstReadingUnmarked(name: string, first: Record)
    requires '_' !in name && ';' !in first.image
    ensures FirstReadings(name, first) == [Record(NameKey(name), first.image)]
  {
    FirstMarked(name, first);
    DecimalNoMark(first.key);
    FindNone(name, '_');
    NumberOfLine(name, Decimal(first.key));
    LastReading(name + "\n" + RecordText(first), name + "\n" + Decimal(first.key), first.image, "");
  }

  lemma SplitLine(name: string, p: nat, rest: string)
    requires p < |name| && name[p] == '_'
    ensures name + "\n" + rest == name[..p] + ['_'] + (name[p + 1..] + "\n" + rest)
  {
  }

  // ----- a name line with no records of its own

  /** The image name of a reading whose '_' has been passed. */
  function BeforeMark(rest: string): string {
    rest[..Find(rest, ';')]
  }

  /** The view that is left after it, if its ';' was found. */
  function LeftAfter(rest: string): Option<string> {
    var q := Find(rest, ';');
    if q < |rest| then Some(rest[q + 1..]) else None
  }

  /** The readings that follow it. */
  function AfterMark(rest: string): seq<Record> {
    match LeftAfter(rest)
    case None => []
    case Some(sv) => ReadLoop(sv)
  }

  function BehindMark(s: string): string
    requires '_' in s
  {
    SplitAt(s, '_');
    s[Find(s, '_') + 1..]
  }

  /** The image name that the first reading takes from a name line and what is left behind it. */
  function LineImage(name: string, left: string): string {
    if '_' in name then BehindMark(name) + "\n" + BeforeMark(left)
    else if '_' in left then BeforeMark(BehindMark(left))
    else name + "\n" + BeforeMark(left)
  }

  /** The readings after the first one. */
  function LineRest(name: string, left: string): seq<Record> {
    if '_' !in name && '_' in left then AfterMark(BehindMark(left)) else AfterMark(left)
  }

  /**
   A cache file whose name line is followed only by what an earlier one left, or by nothing: the first
   reading has the number that the name begins with for its key.
   */
  lemma BareNameRead(name: string, left: string)
    requires ';' !in name
    ensures ReadLoop(name + "\n" + left) == [Record(NameKey(name), LineImage(name, left))] + LineRest(name, left)
  {
    if '_' in name {
      MarkInName(name, left);
    } else if '_' in left {
      MarkInLeft(name, left);
    } else {
      NoMark(name, left);
    }
  }

  lemma MarkInName(name: string, left: string)
    requires '_' in name && ';' !in name
    ensures ReadLoop(name + "\n" + left) == [Record(NameKey(name), BehindMark(name) + "\n" + BeforeMark(left))] + AfterMark(left)
  {
    var p := Find(name, '_');
    SplitAt(name, '_');
    SplitLine(name, p, left);
    BehindLine(name[p + 1..], left);
    MarkedReading(name + "\n" + left, name[..p], name[p + 1..] + "\n" + left);
  }

  lemma MarkInLeft(name: string, left: string)
    requires '_' !in name && '_' in left
    ensures ReadLoop(name + "\n" + left) == [Record(NameKey(name), BeforeMark(BehindMark(left)))] + AfterMark(BehindMark(left))
  {
    var p := Find(left, '_');
    SplitAt(left, '_');
    FindNone(name, '_');
    NumberOfLine(name, left[..p]);
    LineAndMark(name, left, p);
    MarkedReading(name + "\n" + left, name + "\n" + left[..p], left[p + 1..]);
  }

  lemma LineAndMark(name: string, left: string, p: nat)
    requires p < |left| && left[p] == '_'
    ensures name + "\n" + left == name + "\n" + left[..p] + ['_'] + left[p + 1..]
  {
  }

  lemma NoMark(name: string, left: string)
    requires '_' !in name && '_' !in left && ';' !in name
    ensures ReadLoop(name + "\n" + left) == [Record(NameKey(name), name + "\n" + BeforeMark(left))] + AfterMark(left)
  {
    FindNone(name, '_');
    NumberOfLine(name, left);
    BehindLine(name, left);
    UnmarkedReading(name + "\n" + left);
  }

  /** A ';' behind a line without one is found there. */
  lemma BehindLine(line: string, left: string)
    requires ';' !in line
    ensures BeforeMark(line + "\n" + left) == line + "\n" + BeforeMark(left)
    ensures AfterMark(line + "\n" + left) == AfterMark(left)
  {
    BeforeMarkBehind(line + "\n", left);
    LeftAfterBehind(line + "\n", left);
  }

  lemma BeforeMarkBehind(front: string, left: string)
    requires ';' !in front
    ensures BeforeMark(front + left) == front + BeforeMark(left)
  {
    FindBehind(front, left, ';');
    CutBehind(front, left, Find(left, ';'));
  }

  lemma LeftAfterBehind(front: string, left: string)
    requires ';' !in front
    ensures LeftAfter(front + left) == LeftAfter(left)
  {
    var q := Find(left, ';');
    FindBehind(front, left, ';');
    if q < |left| {
      CutBehind(front, left, q + 1);
    }
  }

  /** A reading whose '_' comes after `front`. */
  lemma MarkedReading(sv: string, front: string, rest: string)
    requires '_' !in front && sv == front + ['_'] + rest
    ensures ReadLoop(sv) == [Record(FromChars(front), BeforeMark(rest))] + AfterMark(rest)
  {
    FindIn(front, '_', rest);
    assert sv[..|front|] == front && sv[|front| + 1..] == rest;
    OneReading(sv, Record(FromChars(front), BeforeMark(rest)), rest);
  }

  /** A reading without '_'. */
  lemma UnmarkedReading(sv: string)
    requires '_' !in sv
    ensures ReadLoop(sv) == [Record(FromChars(sv), BeforeMark(sv))] + AfterMark(sv)
  {
    FindNone(sv, '_');
    OneReading(sv, Record(FromChars(sv), BeforeMark(sv)), sv);
  }

  lemma OneReading(sv: string, r: Record, rest: string)
    requires ReadRecord(sv) == Reading(r, RemoveThrough(rest, Find(rest, ';')), Find(rest, ';') < |rest|)
    ensures ReadLoop(sv) == [r] + AfterMark(rest)
  {
    match LeftAfter(rest) {
      case None =>
        ReadersEnd(sv);
        EmptyBack([r]);
      case Some(left) =>
        ReadersAdd(sv, r, left);
    }
  }

  lemma BareNameText(name: string)
    ensures FileText(name, []) == name + "\n"
  {
  }

  // ----- the file object

  class CacheFile {
    var present: bool
    var text: string
    var pos: nat

    ghost predicate Valid()
      reads this
    {
      pos <= |text| && (!present ==> text == "")
    }

    /** There is no cache file, or it is that of another data file. */
    predicate Misses(dataFileName: string)
      reads this
    {
      !present || ('\n' in text && FirstLine(text) != dataFileName)
    }

    /** The file holds `name` and `records`, written over its contents `prior`. */
    ghost predicate Records(prior: string, name: string, records: seq<Record>)
      reads this
    {
      && Valid() && present
      && text == Overlay(prior, FileText(name, records)) && pos == |FileText(name, records)|
    }

    /** A cache file as the file system has it before the program runs. */
    constructor (present: bool, text: string)
      requires !present ==> text == ""
      ensures Valid() && this.present == present && this.text == text && pos == 0
    {
      this.present, this.text, pos := present, text, 0;
    }

    /** `open` with `O_WRONLY | O_CREAT`: an existing file keeps its contents. */
    method Create()
      requires Valid()
      modifies this
      ensures Valid() && present && pos == 0 && text == old(text)
    {
      present, pos := true, 0;
    }

    method Write(s: string)
      requires Valid() && present
      modifies this
      ensures Valid() && present
      ensures text == WriteAt(old(text), old(pos), s) && pos == old(pos) + |s|
    {
      text := text[..pos] + s + if pos + |s| <= |text| then text[pos + |s|..] else "";
      pos := pos + |s|;
    }

    method WriteFilename(name: string, ghost prior: string)
      requires Valid() && present && pos == 0 && text == prior
      modifies this
      ensures Records(prior, name, [])
    {
      OverlayNothing(prior);
      OverlayWrite(prior, "", name + "\n");
      BareNameText(name);
      EmptyFront(name + "\n");
      Write(name + "\n");
    }

    method AppendImage(r: Record, ghost prior: string, ghost name: string, ghost records: seq<Record>)
      requires Records(prior, name, records)
      modifies this
      ensures Records(prior, name, records + [r])
    {
      RecordsTextSnoc(records, r);
      ConcatThree(name + "\n", RecordsText(records), RecordText(r));
      OverlayWrite(prior, FileText(name, records), RecordText(r));
      Write(RecordText(r));
    }

    /** The name line; `None` stands for the thrown `CacheFileError`. */
    method ReadDataFileName() returns (name: Option<string>)
      requires Valid()
      ensures name == if '\n' in text then Some(FirstLine(text)) else None
    {
      var p := Find(text, '\n');
      if p == |text| {
        assert text[..p] == text;
        return None;
      }
      return Some(text[..p]);
    }

    method IsRelevant(dataFileName: string) returns (relevant: Option<bool>)
      requires Valid()
      ensures relevant.None? <==> present && '\n' !in text
      ensures relevant == Some(true) <==> present && '\n' in text && FirstLine(text) == dataFileName
    {
      if !present {
        return Some(false);
      }
      var name := ReadDataFileName();
      if name.None? {
        return None;
      }
      return Some(name.value == dataFileName);
    }

    method ReadImages() returns (images: seq<Record>)
      requires Valid()
      ensures images == ReadIndexImages(text)
    {
      images := [];
      var sv, more := text, true;
      while more
        invariant images + (if more then ReadLoop(sv) else []) == ReadLoop(text)
        decreases if more then 1 + |sv| else 0
      {
        ReadLoopStep(sv);
        var Reading(r, rest, found) := ReadRecord(sv);
        ConcatThree(images, [r], if found then ReadLoop(rest) else []);
        images, sv, more := images + [r], rest, found;
      }
    }
  }

  function FirstLine(text: string): string {
    text[..Find(text, '\n')]
  }

  /** A file that was written under a name is relevant for that name and no other. */
  lemma FirstLineIs(name: string, text: string)
    requires '\n' !in name
    ensures '\n' in text && FirstLine(text) == name <==> name + "\n" <= text
  {
    if name + "\n" <= text {
      FindIn(name, '\n', text[|name| + 1..]);
      assert text == name + ['\n'] + text[|name| + 1..];
    }
    if '\n' in text && FirstLine(text) == name {
      var i :| 0 <= i < |text| && text[i] == '\n';
      FindBy(text, '\n', i);
      assert text[|name|] == '\n' && text[..|name| + 1] == name + "\n";
    }
  }
}
