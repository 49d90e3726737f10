/**
 Printing a response and parsing headers. The message layout is that of section 3 of RFC 7230, header
 fields are those of its section 3.2.
 */
module HttpHeaders {
  import opened Sequences

  const CRLF := "\r\n"

  datatype Header = Header(name: string, value: string)

  /** The headers are in the order in which iterating the container yields them. */
  datatype Response = Response(version: string, status: string, headers: seq<Header>, body: string, hasFiles: bool)

  type HeaderMap = map<string, string>

  // ----- printing

  function Line(h: Header): string {
    h.name + ":" + (h.value + CRLF)
  }

  function Lines(headers: seq<Header>): string {
    if headers == [] then "" else Line(headers[0]) + Lines(headers[1..])
  }

  function StartLine(r: Response): string {
    r.version + " " + r.status
  }

  /** What follows the header lines. */
  function Tail(r: Response): string {
    (if r.body != "" then CRLF + r.body + CRLF else "") + (if r.hasFiles then "" else CRLF)
  }

  function ToText(r: Response): string {
    StartLine(r) + CRLF + (Lines(r.headers) + Tail(r))
  }

  lemma {:induction false} LinesSnoc(headers: seq<Header>, h: Header)
    ensures Lines(headers + [h]) == Lines(headers) + Line(h)
  {
    if headers == [] {
      assert [h][1..] == [];
    } else {
      LinesSnoc(headers[1..], h);
      assert (headers + [h])[1..] == headers[1..] + [h];
      ConcatThree(Line(headers[0]), Lines(headers[1..]), Line(h));
    }
  }

  /** `to_string`, which appends to a stream. */
  method ToString(r: Response) returns (oss: string)
    ensures oss == ToText(r)
  {
    oss := r.version + " " + r.status + CRLF;
    for i := 0 to |r.headers|
      invariant oss == StartLine(r) + CRLF + Lines(r.headers[..i])
    {
      LinesSnoc(r.headers[..i], r.headers[i]);
      assert r.headers[..i + 1] == r.headers[..i] + [r.headers[i]];
      ConcatThree(StartLine(r) + CRLF, Lines(r.headers[..i]), Line(r.headers[i]));
      oss := oss + (r.headers[i].name + ":" + (r.headers[i].value + CRLF));
    }
    assert r.headers[..|r.headers|] == r.headers;
    ghost var head := oss;
    if r.body != "" {
      oss := oss + (CRLF + r.body + CRLF);
    }
    if !r.hasFiles {
      oss := oss + CRLF;
    }
    assert oss == head + Tail(r);
    ConcatThree(StartLine(r) + CRLF, Lines(r.headers), Tail(r));
  }

  // ----- parsing

  predicate StartsLine(s: string) {
    |s| >= 2 && s[0] == '\r' && s[1] == '\n'
  }

  /** `find(CRLF)`; the length of the text stands for `npos`. */
  function FindLine(s: string): (p: nat)
    ensures p <= |s|
    ensures p < |s| ==> StartsLine(s[p..])
  {
    if s == "" || StartsLine(s) then 0 else 1 + FindLine(s[1..])
  }

  /** `remove_prefix(pos + CRLF.size())`; `npos + 2` is 1. */
  function RemoveLine(s: string, p: nat): (r: string)
    requires p <= |s|
    requires p < |s| ==> StartsLine(s[p..])
    ensures s != "" ==> |r| < |s|
  {
    if p < |s| then s[p..][2..] else if s == "" then s else s[1..]
  }

  function SkipSpaces(s: string): (r: string)
    ensures |r| <= |s|
    ensures r != "" ==> r[0] != ' '
  {
    if s == "" || s[0] != ' ' then s else SkipSpaces(s[1..])
  }

  function Emplaced(m: HeaderMap, h: Header): HeaderMap {
    if h.name in m then m else m[h.name := h.value]
  }

  function AllEmplaced(m: HeaderMap, headers: seq<Header>): HeaderMap
    decreases |headers|
  {
    if headers == [] then m else AllEmplaced(Emplaced(m, headers[0]), headers[1..])
  }

  /** The guard of the loop in `parse_headers`, with the `break` inside it. */
  predicate HasHeader(sv: string) {
    FindLine(sv) < |sv| && !StartsLine(sv) && Find(sv, ':') < |sv|
  }

  /** One iteration: the header, and the view after it. */
  function ReadHeader(sv: string): (r: (Header, string))
    requires HasHeader(sv)
    ensures |r.1| < |sv|
  {
    var p := Find(sv, ':');
    var rest := SkipSpaces(sv[p + 1..]);
    var q := FindLine(rest);
    (Header(sv[..p], rest[..q]), RemoveLine(rest, q))
  }

  /** What the loop leaves of the view. */
  function Unparsed(sv: string): string
    decreases |sv|
  {
    if !HasHeader(sv) then sv else Unparsed(ReadHeader(sv).1)
  }

  function ParseFrom(sv: string, m: HeaderMap): HeaderMap
    decreases |sv|
  {
    if !HasHeader(sv) then m else ParseFrom(ReadHeader(sv).1, Emplaced(m, ReadHeader(sv).0))
  }

  /** `parse_version` and then `parse_headers`, on a whole text. */
  function ParseText(text: string): HeaderMap {
    ParseFrom(RemoveLine(text, FindLine(text)), map[])
  }

  class HttpRequest {
    var view: string
    var version: string
    var headers: HeaderMap

    /** The part of the constructor that takes off the first line and reads the headers. */
    constructor (text: string)
      ensures version == text[..FindLine(text)] && headers == ParseText(text)
      ensures view == Unparsed(RemoveLine(text, FindLine(text)))
    {
      view, version, headers := text, "", map[];
      new;
      ParseVersion();
      ParseHeaders();
    }

    method ParseVersion()
      modifies this
      ensures version == old(view)[..FindLine(old(view))]
      ensures view == RemoveLine(old(view), FindLine(old(view)))
      ensures headers == old(headers)
    {
      var pos := FindLine(view);
      version := view[..pos];
      view := RemoveLine(view, pos);
    }

    method ParseHeaders()
      modifies this
      ensures headers == ParseFrom(old(view), old(headers)) && view == Unparsed(old(view))
      ensures version == old(version)
    {
      while FindLine(view) < |view| && !StartsLine(view)
        invariant ParseFrom(view, headers) == ParseFrom(old(view), old(headers))
        invariant Unparsed(view) == Unparsed(old(view))
        invariant version == old(version)
        decreases |view|
      {
        var namePos := Find(view, ':');
        if namePos == |view| {
          break;
        }
        ghost var sv := view;
        assert HasHeader(sv);
        var name := view[..namePos];
        view := SkipSpaces(view[namePos + 1..]);
        var valuePos := FindLine(view);
        var value := view[..valuePos];
        view := RemoveLine(view, valuePos);
        assert (Header(name, value), view) == ReadHeader(sv);
        headers := Emplaced(headers, Header(name, value));
      }
    }
  }

  // ----- the round trip

  predicate GoodName(name: string) {
    ':' !in name && !StartsLine(name)
  }

  predicate GoodValue(value: string) {
    FindLine(value) == |value| && !(value != "" && value[0] == ' ')
  }

  ghost predicate DistinctNames(headers: seq<Header>) {
    forall i, j :: 0 <= i < j < |headers| ==> headers[i].name != headers[j].name
  }

  lemma {:induction false} FindLineIn(a: string, b: string)
    ensures FindLine(a + (CRLF + b)) <= |a|
    ensures FindLine(a) == |a| ==> FindLine(a + (CRLF + b)) == |a|
    ensures FindLine(a) < |a| ==> FindLine(a + (CRLF + b)) == FindLine(a)
  {
    var s := a + (CRLF + b);
    if a == "" {
      assert s == CRLF + b;
    } else {
      assert s[1..] == a[1..] + (CRLF + b);
      FindLineIn(a[1..], b);
      assert StartsLine(s) <==> StartsLine(a);
    }
  }

  lemma LineEnds(a: string, b: string)
    requires FindLine(a) == |a|
    ensures FindLine(a + (CRLF + b)) == |a|
    ensures RemoveLine(a + (CRLF + b), |a|) == b
  {
    FindLineIn(a, b);
    assert (a + (CRLF + b))[|a|..] == CRLF + b;
  }

  lemma FindColon(name: string, rest: string)
    requires ':' !in name
    ensures Find(name + ":" + rest, ':') == |name|
    ensures (name + ":" + rest)[..|name|] == name && (name + ":" + rest)[|name| + 1..] == rest
  {
    FindIn(name, ':', rest);
  }

  /** A header line with a usable name is read as that name, with whatever its value reads as. */
  lemma ReadLine(h: Header, rest: string)
    requires GoodName(h.name)
    ensures var sv := Line(h) + rest;
            var text := SkipSpaces(h.value + (CRLF + rest));
            && HasHeader(sv)
            && ReadHeader(sv) == (Header(h.name, text[..FindLine(text)]), RemoveLine(text, FindLine(text)))
  {
    var after := h.value + (CRLF + rest);
    var sv := Line(h) + rest;
    assert sv == h.name + ":" + after by {
      ConcatThree(h.name + ":", h.value + CRLF, rest);
      ConcatThree(h.value, CRLF, rest);
    }
    FindColon(h.name, after);
    assert !StartsLine(sv);
    assert sv == h.name + ":" + h.value + (CRLF + rest) by {
      ConcatThree(h.name + ":", h.value, CRLF + rest);
    }
    FindLineIn(h.name + ":" + h.value, rest);
  }

  lemma ReadGoodLine(h: Header, rest: string)
    requires GoodName(h.name) && GoodValue(h.value)
    ensures HasHeader(Line(h) + rest)
    ensures ReadHeader(Line(h) + rest) == (h, rest)
  {
    ReadLine(h, rest);
    LineEnds(h.value, rest);
    var text := h.value + (CRLF + rest);
    assert SkipSpaces(text) == text;
    assert text[..|h.value|] == h.value;
  }

  ghost predicate AllGood(headers: seq<Header>) {
    forall i :: 0 <= i < |headers| ==> GoodName(headers[i].name) && GoodValue(headers[i].value)
  }

  lemma {:induction false} ParseGoodLines(headers: seq<Header>, tail: string, m: HeaderMap)
    requires AllGood(headers)
    ensures ParseFrom(Lines(headers) + tail, m) == ParseFrom(tail, AllEmplaced(m, headers))
    ensures Unparsed(Lines(headers) + tail) == Unparsed(tail)
  {
    if headers == [] {
      assert Lines(headers) + tail == tail;
    } else {
      var rest := Lines(headers[1..]) + tail;
      ConcatThree(Line(headers[0]), Lines(headers[1..]), tail);
      ReadGoodLine(headers[0], rest);
      ParseGoodLines(headers[1..], tail, Emplaced(m, headers[0]));
    }
  }

  lemma TailStops(r: Response, m: HeaderMap)
    ensures ParseFrom(Tail(r), m) == m && Unparsed(Tail(r)) == Tail(r)
  {
    assert Tail(r) == "" || StartsLine(Tail(r));
  }

  /** Emplacing keeps what is there and adds the rest. */
  lemma {:induction false} AllEmplacedKeeps(m: HeaderMap, headers: seq<Header>)
    ensures forall k :: k in m ==> k in AllEmplaced(m, headers) && AllEmplaced(m, headers)[k] == m[k]
    ensures forall k :: k in AllEmplaced(m, headers) <==>
              k in m || exists i :: 0 <= i < |headers| && headers[i].name == k
    decreases |headers|
  {
    if headers != [] {
      AllEmplacedKeeps(Emplaced(m, headers[0]), headers[1..]);
      forall k ensures k in AllEmplaced(m, headers) <==>
                 k in m || exists i :: 0 <= i < |headers| && headers[i].name == k {
        if k != headers[0].name && exists i :: 0 <= i < |headers| && headers[i].name == k {
          var i :| 0 <= i < |headers| && headers[i].name == k;
          assert headers[1..][i - 1].name == k;
        }
      }
    }
  }

  /** With distinct names the container holds each header as it is. */
  lemma {:induction false} HeaderMapHolds(m: HeaderMap, headers: seq<Header>, i: nat)
    requires DistinctNames(headers) && i < |headers|
    requires headers[i].name !in m
    ensures headers[i].name in AllEmplaced(m, headers)
    ensures AllEmplaced(m, headers)[headers[i].name] == headers[i].value
    decreases |headers|
  {
    if i == 0 {
      AllEmplacedKeeps(Emplaced(m, headers[0]), headers[1..]);
    } else {
      HeaderMapHolds(Emplaced(m, headers[0]), headers[1..], i - 1);
    }
  }

  lemma LineStart(s: string)
    requires StartsLine(s)
    ensures s == CRLF + s[2..]
  {
  }

  /** Dropping a line drops it with its line break; of a text without one, only the first character goes. */
  lemma LineRemoved(s: string, p: nat)
    requires p == FindLine(s)
    ensures p < |s| ==> s == s[..p] + (CRLF + RemoveLine(s, p))
    ensures p == |s| > 0 ==> s == [s[0]] + RemoveLine(s, p)
  {
    if p < |s| {
      LineStart(s[p..]);
      Halves(s, p);
    }
  }

  /** Nothing is read at a blank line, from a text without a ':', or from one that has no line break left. */
  lemma ParserStops(sv: string, m: HeaderMap)
    requires FindLine(sv) == |sv| || StartsLine(sv) || ':' !in sv
    ensures ParseFrom(sv, m) == m && Unparsed(sv) == sv
  {
    if ':' !in sv {
      FindNone(sv, ':');
    }
  }

  /** No key that the parser adds contains ':' or starts with a line break, and none it has is changed. */
  lemma {:induction false} ParsedKeys(sv: string, m: HeaderMap)
    ensures forall k :: k in ParseFrom(sv, m) ==> k in m || GoodName(k)
    ensures forall k :: k in m ==> k in ParseFrom(sv, m) && ParseFrom(sv, m)[k] == m[k]
    decreases |sv|
  {
    if HasHeader(sv) {
      var (h, rest) := ReadHeader(sv);
      assert GoodName(h.name);
      ParsedKeys(rest, Emplaced(m, h));
    }
  }

  /** A value that starts with a space or contains a line break is read as something else. */
  lemma BadValueDiffers(value: string, rest: string)
    requires !GoodValue(value)
    ensures var text := SkipSpaces(value + (CRLF + rest));
            text[..FindLine(text)] != value
  {
    var text := SkipSpaces(value + (CRLF + rest));
    if value == "" || value[0] != ' ' {
      FindLineIn(value, rest);
    } else {
      var read := text[..FindLine(text)];
      assert read != "" ==> read[0] == text[0];
    }
  }

  lemma {:induction false} SplitLines(headers: seq<Header>, i: nat, tail: string)
    requires i < |headers|
    ensures Lines(headers) + tail
         == Lines(headers[..i]) + (Line(headers[i]) + (Lines(headers[i + 1..]) + tail))
  {
    ConcatThree(Line(headers[0]), Lines(headers[1..]), tail);
    if i > 0 {
      SplitLines(headers[1..], i - 1, tail);
      assert headers[..i][1..] == headers[1..][..i - 1];
      assert headers[1..][i..] == headers[i + 1..];
      ConcatThree(Line(headers[0]), Lines(headers[1..][..i - 1]),
                  Line(headers[i]) + (Lines(headers[i + 1..]) + tail));
    }
  }

  lemma BadValueLost(headers: seq<Header>, i: nat, tail: string)
    requires DistinctNames(headers) && i < |headers|
    requires AllGood(headers[..i]) && GoodName(headers[i].name) && !GoodValue(headers[i].value)
    ensures var m := ParseFrom(Lines(headers) + tail, map[]);
            headers[i].name in m && m[headers[i].name] != headers[i].value
  {
    var h, rest := headers[i], Lines(headers[i + 1..]) + tail;
    SplitLines(headers, i, tail);
    ParseGoodLines(headers[..i], Line(h) + rest, map[]);
    AllEmplacedKeeps(map[], headers[..i]);
    BadLineLost(h, rest, AllEmplaced(map[], headers[..i]));
  }

  lemma BadLineLost(h: Header, rest: string, before: HeaderMap)
    requires GoodName(h.name) && !GoodValue(h.value) && h.name !in before
    ensures var m := ParseFrom(Line(h) + rest, before); h.name in m && m[h.name] != h.value
  {
    ReadLine(h, rest);
    BadValueDiffers(h.value, rest);
    var (read, after) := ReadHeader(Line(h) + rest);
    ParsedKeys(after, Emplaced(before, read));
  }

  lemma {:induction false} FirstBadValue(headers: seq<Header>) returns (i: nat)
    requires forall j :: 0 <= j < |headers| ==> GoodName(headers[j].name)
    requires !AllGood(headers)
    ensures i < |headers| && AllGood(headers[..i]) && !GoodValue(headers[i].value)
  {
    if !GoodValue(headers[0].value) {
      i := 0;
    } else {
      assert forall j :: 1 <= j < |headers| ==> headers[j] == headers[1..][j - 1];
      var k := FirstBadValue(headers[1..]);
      i := k + 1;
      assert headers[..i] == [headers[0]] + headers[1..][..k];
    }
  }

  lemma HeadersRoundTrip(headers: seq<Header>, r: Response)
    requires DistinctNames(headers)
    ensures ParseFrom(Lines(headers) + Tail(r), map[]) == AllEmplaced(map[], headers) <==> AllGood(headers)
  {
    var parsed := ParseFrom(Lines(headers) + Tail(r), map[]);
    if AllGood(headers) {
      ParseGoodLines(headers, Tail(r), map[]);
      TailStops(r, AllEmplaced(map[], headers));
    } else if forall j :: 0 <= j < |headers| ==> GoodName(headers[j].name) {
      var i := FirstBadValue(headers);
      BadValueLost(headers, i, Tail(r));
      HeaderMapHolds(map[], headers, i);
    } else {
      var j :| 0 <= j < |headers| && !GoodName(headers[j].name);
      ParsedKeys(Lines(headers) + Tail(r), map[]);
      HeaderMapHolds(map[], headers, j);
    }
  }

  /**
   Parsing what was printed, past the start line, gives back the header map exactly when every name is
   free of ':' and does not start with a line break, and every value is free of line breaks and does
   not start with a space; whatever the order of the headers, the body and the files.
   */
  lemma ResponseRoundTrip(r: Response)
    requires DistinctNames(r.headers)
    requires FindLine(StartLine(r)) == |StartLine(r)|
    ensures ParseText(ToText(r)) == AllEmplaced(map[], r.headers) <==> AllGood(r.headers)
  {
    var rest := Lines(r.headers) + Tail(r);
    ConcatThree(StartLine(r), CRLF, rest);
    LineEnds(StartLine(r), rest);
    HeadersRoundTrip(r.headers, r);
  }

  /**
   A printed response is a version, a space and a status on the first line; and with well-formed headers
   the parser stops at the blank line, behind which the body is found again.
   */
  lemma ResponseLayout(r: Response)
    requires FindLine(r.version + " " + r.status) == |r.version + " " + r.status|
    ensures var text := ToText(r);
            var rest := RemoveLine(text, FindLine(text));
            && text[..FindLine(text)] == r.version + " " + r.status
            && (AllGood(r.headers) && r.body != "" ==> CRLF + r.body + CRLF <= Unparsed(rest))
            && (AllGood(r.headers) && r.body == "" ==> Unparsed(rest) == if r.hasFiles then "" else CRLF)
            && (AllGood(r.headers) && r.body != "" && !r.hasFiles ==> Unparsed(rest) == CRLF + r.body + CRLF + CRLF)
  {
    var line, rest := StartLine(r), Lines(r.headers) + Tail(r);
    ConcatThree(line, CRLF, rest);
    LineEnds(line, rest);
    assert (line + (CRLF + rest))[..|line|] == line;
    if AllGood(r.headers) {
      ParseGoodLines(r.headers, Tail(r), map[]);
      TailStops(r, map[]);
    }
  }
}
