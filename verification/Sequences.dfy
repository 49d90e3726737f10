/** Facts about sequences, multiples and decimal text that the component models share. */
module Sequences {

  datatype Option<+T> = None | Some(value: T)

  function Concat<T>(ss: seq<seq<T>>): seq<T> {
    if ss == [] then [] else ss[0] + Concat(ss[1..])
  }

  lemma {:induction false} ConcatAppend<T>(ss: seq<seq<T>>, tt: seq<seq<T>>)
    ensures Concat(ss + tt) == Concat(ss) + Concat(tt)
  {
    if ss == [] {
      assert ss + tt == tt;
    } else {
      assert (ss + tt)[1..] == ss[1..] + tt;
      ConcatAppend(ss[1..], tt);
    }
  }

  lemma ConcatSnoc<T>(ss: seq<seq<T>>, t: seq<T>)
    ensures Concat(ss + [t]) == Concat(ss) + t
  {
    ConcatAppend(ss, [t]);
    assert Concat([t]) == t + Concat<T>([]);
  }

  lemma ConcatAround<T>(a: seq<seq<T>>, x: seq<T>, b: seq<seq<T>>)
    ensures Concat(a + [x] + b) == Concat(a) + x + Concat(b)
  {
    ConcatAppend(a + [x], b);
    ConcatSnoc(a, x);
  }

  /** The consecutive pieces of `s`, each of length `m` except a shorter last one. */
  function Chunks<T>(s: seq<T>, m: nat): seq<seq<T>>
    requires m > 0
    decreases |s|
  {
    if s == [] then [] else if |s| <= m then [s] else [s[..m]] + Chunks(s[m..], m)
  }

  lemma {:induction false} ChunksTile<T>(s: seq<T>, m: nat)
    requires m > 0
    ensures Concat(Chunks(s, m)) == s
    decreases |s|
  {
    if s == [] {
    } else if |s| <= m {
      assert Concat([s]) == s + Concat<T>([]);
    } else {
      ChunksTile(s[m..], m);
      assert Chunks(s, m)[1..] == Chunks(s[m..], m);
    }
  }

  /** Which slice of `s` chunk `i` is, and how many chunks there are. */
  lemma {:induction false} ChunkAt<T>(s: seq<T>, m: nat, i: nat)
    requires m > 0
    requires i < |Chunks(s, m)|
    ensures 0 <= i * m < |s|
    ensures Chunks(s, m)[i] == s[i * m..if (i + 1) * m <= |s| then (i + 1) * m else |s|]
    ensures i + 1 < |Chunks(s, m)| ==> (i + 1) * m < |s|
    ensures i + 1 == |Chunks(s, m)| ==> |s| <= (i + 1) * m
    decreases |s|
  {
    if |s| > m && i > 0 {
      ChunkAt(s[m..], m, i - 1);
      assert (i - 1) * m + m == i * m;
    }
  }

  /**
   The number of chunks is the quotient rounded up; all but the last are full and the last holds at
   least one element.
   */
  lemma {:induction false} ChunksExact<T>(s: seq<T>, m: nat)
    requires m > 0
    ensures |Chunks(s, m)| == (|s| + m - 1) / m
    ensures forall i :: 0 <= i < |Chunks(s, m)| - 1 ==> |Chunks(s, m)[i]| == m
    ensures s != [] ==> 1 <= |Chunks(s, m)[|Chunks(s, m)| - 1]| <= m
    decreases |s|
  {
    if s == [] {
      DivModUnique(m - 1, m, 0, m - 1);
    } else if |s| <= m {
      DivModUnique(|s| + m - 1, m, 1, |s| - 1);
    } else {
      ChunksExact(s[m..], m);
      DivStep(|s| + m - 1, m);
    }
  }

  lemma {:induction false} ChunksCount<T>(s: seq<T>, m: nat, p: nat)
    requires m > 0
    requires p < |s|
    ensures p / m < |Chunks(s, m)|
    decreases |s|
  {
    if p >= m {
      ChunksCount(s[m..], m, p - m);
      DivStep(p, m);
    } else {
      assert p / m == 0;
    }
  }

  /** A list of pieces that are all full except possibly the last is the chunking of its concatenation. */
  lemma {:induction false} ChunksUnique<T>(ss: seq<seq<T>>, m: nat)
    requires m > 0
    requires forall i :: 0 <= i < |ss| ==> 0 < |ss[i]| <= m
    requires forall i :: 0 <= i < |ss| - 1 ==> |ss[i]| == m
    ensures Chunks(Concat(ss), m) == ss
  {
    if |ss| == 1 {
      assert Concat(ss) == ss[0] + Concat<T>([]) == ss[0];
    } else if |ss| > 1 {
      ChunksUnique(ss[1..], m);
      var rest := Concat(ss[1..]);
      assert rest == ss[1] + Concat(ss[1..][1..]);
      assert (ss[0] + rest)[m..] == rest;
      assert (ss[0] + rest)[..m] == ss[0];
      assert ss == [ss[0]] + ss[1..];
    }
  }

  lemma DivStep(p: nat, m: nat)
    requires m > 0
    requires p >= m
    ensures p / m == (p - m) / m + 1
  {
    var q := (p - m) / m;
    assert p == (q + 1) * m + (p - m) % m by {
      assert p - m == q * m + (p - m) % m;
      assert (q + 1) * m == q * m + m;
    }
    DivModUnique(p, m, q + 1, (p - m) % m);
  }

  lemma DivModUnique(p: nat, m: nat, q: nat, r: nat)
    requires m > 0
    requires r < m
    requires p == q * m + r
    ensures p / m == q && p % m == r
  {
    var q', r' := p / m, p % m;
    assert q' * m + r' == q * m + r;
    assert (q' - q) * m == r - r';
    if q' > q {
      MulMono(1, q' - q, m);
    } else if q' < q {
      MulMono(q' - q, -1, m);
    }
  }

  /** Index `p` lies in block `p / m`, and at the block's start exactly when `m` divides it. */
  lemma BlockOf(p: nat, m: nat)
    requires m > 0
    ensures (p / m) * m <= p < (p / m) * m + m == (p / m + 1) * m
    ensures p == (p / m) * m <==> p % m == 0
  {
    assert p == (p / m) * m + p % m;
  }

  lemma MulMono(a: int, b: int, m: nat)
    requires a <= b
    ensures a * m <= b * m
  {
    assert (b - a) * m >= 0;
  }

  /** Two multiples of `m` that differ are at least `m` apart. */
  lemma MultiplesGap(a: nat, b: nat, m: nat)
    requires m > 0
    requires a % m == 0 && b % m == 0 && a < b
    ensures a + m <= b
  {
    var x, y := a / m, b / m;
    assert a == x * m && b == y * m;
    if y <= x {
      MulMono(y, x, m);
    } else {
      MulMono(x + 1, y, m);
      assert (x + 1) * m == x * m + m;
    }
  }

  lemma MultiplesAdd(a: nat, b: nat, m: nat)
    requires m > 0
    requires a % m == 0 && b % m == 0
    ensures (a + b) % m == 0
    ensures (a + b) / m == a / m + b / m
  {
    var x, y := a / m, b / m;
    assert a == x * m && b == y * m;
    assert a + b == (x + y) * m;
    DivModUnique(a + b, m, x + y, 0);
  }

  lemma MultiplesSub(a: nat, b: nat, m: nat)
    requires m > 0
    requires a % m == 0 && b % m == 0 && b <= a
    ensures (a - b) % m == 0
    ensures (a - b) / m == a / m - b / m
  {
    var x, y := a / m, b / m;
    assert a == x * m && b == y * m;
    assert a - b == (x - y) * m;
    if x < y {
      MulMono(x - y, -1, m);
    } else {
      DivModUnique(a - b, m, x - y, 0);
    }
  }

  lemma MultipleOf(q: nat, m: nat)
    requires m > 0
    ensures (q * m) % m == 0 && (q * m) / m == q
  {
    DivModUnique(q * m, m, q, 0);
  }

  // ----- joining sequences

  lemma EmptyFront<T>(b: seq<T>)
    ensures [] + b == b
  {
  }

  lemma EmptyBack<T>(a: seq<T>)
    ensures a + [] == a
  {
  }

  lemma HeadAndTail<T>(a: seq<T>, b: seq<T>)
    requires a != []
    ensures [a[0]] + (a[1..] + b) == a + b
  {
  }

  lemma NothingAdded<T>(a: seq<T>, b: seq<T>)
    ensures a + b == a <==> b == []
  {
    if a + b == a {
      assert |a + b| == |a|;
    }
  }

  lemma Split<T>(s: seq<T>, p: nat)
    requires p < |s|
    ensures s[..p] + ([s[p]] + s[p + 1..]) == s
    ensures s[..p] + [s[p]] + s[p + 1..] == s
  {
  }

  lemma ConcatThree<T>(a: seq<T>, b: seq<T>, c: seq<T>)
    ensures a + (b + c) == a + b + c
  {
  }

  lemma SuffixOf<T>(a: seq<T>, b: seq<T>, k: nat)
    requires k <= |a|
    ensures (a + b)[k..] == a[k..] + b
  {
  }

  lemma Halves<T>(s: seq<T>, p: nat)
    requires p <= |s|
    ensures s == s[..p] + s[p..]
  {
  }

  lemma CutBehind<T>(a: seq<T>, b: seq<T>, k: nat)
    requires k <= |b|
    ensures (a + b)[..|a| + k] == a + b[..k]
    ensures (a + b)[|a| + k..] == b[k..]
  {
  }

  // ----- text

  /** `string_view::find` of a character; the length of the text stands for `npos`. */
  function Find(s: string, c: char): (p: nat)
    ensures p <= |s|
    ensures c !in s[..p]
    ensures p < |s| ==> s[p] == c
  {
    if s == "" || s[0] == c then 0 else 1 + Find(s[1..], c)
  }

  lemma {:induction false} FindIn(a: string, c: char, b: string)
    requires c !in a
    ensures Find(a + [c] + b, c) == |a|
  {
    if a != "" {
      FindIn(a[1..], c, b);
      assert (a + [c] + b)[1..] == a[1..] + [c] + b;
    }
  }

  lemma {:induction false} FindBehind(a: string, b: string, c: char)
    requires c !in a
    ensures Find(a + b, c) == |a| + Find(b, c)
  {
    if a == "" {
      assert a + b == b;
    } else {
      FindBehind(a[1..], b, c);
      assert (a + b)[1..] == a[1..] + b;
    }
  }

  lemma {:induction false} FindBy(s: string, c: char, i: nat)
    requires i < |s| && s[i] == c
    ensures Find(s, c) <= i
  {
    if s[0] != c {
      FindBy(s[1..], c, i - 1);
    }
  }

  lemma FindNone(s: string, c: char)
    requires c !in s
    ensures Find(s, c) == |s| && s[..|s|] == s
  {
  }

  lemma SplitAt(s: string, c: char)
    requires c in s
    ensures Find(s, c) < |s| && s[Find(s, c)] == c
  {
    var i :| 0 <= i < |s| && s[i] == c;
    FindBy(s, c, i);
  }
}
