/** The arithmetic of the k-way merge, on the entries that each partition has still to deliver. */
module Merging {
  import opened Sequences
  import opened Entries

  /** What the merge keeps: everything written is in order and not above anything that is left. */
  ghost predicate MergeInvariant(written: seq<Entry>, rests: seq<seq<Entry>>, total: multiset<Entry>) {
    && Sorted(written)
    && (forall i :: 0 <= i < |rests| ==> rests[i] != [] && Sorted(rests[i]))
    && (forall x, i :: x in written && 0 <= i < |rests| ==> Leq(x, rests[i][0]))
    && multiset(written) + multiset(Concat(rests)) == total
  }

  /** Partition `h` holds the least of all current (entry, position) pairs. */
  ghost predicate IsCurrentMin(rests: seq<seq<Entry>>, h: nat) {
    && h < |rests|
    && (forall i :: 0 <= i < |rests| ==> rests[i] != [])
    && (forall i :: 0 <= i < |rests| ==> Leq(rests[h][0], rests[i][0]))
    && (forall i :: 0 <= i < h ==> rests[i][0] != rests[h][0])
  }

  /** Partition `h` delivers one entry; an exhausted partition is erased. */
  function Taken(rests: seq<seq<Entry>>, h: nat): seq<seq<Entry>>
    requires h < |rests| && rests[h] != []
  {
    if |rests[h]| > 1 then rests[h := rests[h][1..]] else rests[..h] + rests[h + 1..]
  }

  lemma ConcatContents(a: seq<seq<Entry>>, x: seq<Entry>, b: seq<seq<Entry>>)
    ensures multiset(Concat(a + [x] + b)) == multiset(Concat(a)) + multiset(x) + multiset(Concat(b))
  {
    ConcatAround(a, x, b);
  }

  lemma ContentsHead(x: seq<Entry>)
    requires x != []
    ensures multiset(x) == multiset{x[0]} + multiset(x[1..])
  {
    assert x == [x[0]] + x[1..];
  }

  lemma ContentsWithout(a: seq<seq<Entry>>, b: seq<seq<Entry>>)
    ensures multiset(Concat(a + b)) == multiset(Concat(a)) + multiset(Concat(b))
  {
    ConcatAppend(a, b);
  }

  lemma DeliverConserves(a: seq<seq<Entry>>, x: seq<Entry>, b: seq<seq<Entry>>)
    requires x != []
    ensures multiset(Concat(a + [x] + b))
         == multiset(Concat(if |x| > 1 then a + [x[1..]] + b else a + b)) + multiset{x[0]}
  {
    ContentsHead(x);
    ConcatContents(a, x, b);
    ConcatContents(a, x[1..], b);
    ContentsWithout(a, b);
  }

  lemma TakenShape(rests: seq<seq<Entry>>, h: nat)
    requires h < |rests| && rests[h] != []
    ensures rests == rests[..h] + [rests[h]] + rests[h + 1..]
    ensures Taken(rests, h)
         == if |rests[h]| > 1 then rests[..h] + [rests[h][1..]] + rests[h + 1..] else rests[..h] + rests[h + 1..]
  {
  }

  lemma TakenConserves(rests: seq<seq<Entry>>, h: nat)
    requires h < |rests| && rests[h] != []
    ensures multiset(Concat(rests)) == multiset(Concat(Taken(rests, h))) + multiset{rests[h][0]}
  {
    TakenShape(rests, h);
    DeliverConserves(rests[..h], rests[h], rests[h + 1..]);
  }

  lemma SortedSnoc(s: seq<Entry>, e: Entry)
    requires Sorted(s)
    requires forall x :: x in s ==> Leq(x, e)
    ensures Sorted(s + [e])
  {
  }

  /** What is left after taking from `h` is still in order and not below the entry taken. */
  lemma TakenHeads(rests: seq<seq<Entry>>, h: nat)
    requires forall i :: 0 <= i < |rests| ==> rests[i] != [] && Sorted(rests[i])
    requires IsCurrentMin(rests, h)
    ensures var left := Taken(rests, h);
            forall i :: 0 <= i < |left| ==> left[i] != [] && Sorted(left[i]) && Leq(rests[h][0], left[i][0])
  {
    var left := Taken(rests, h);
    forall i | 0 <= i < |left| ensures left[i] != [] && Sorted(left[i]) && Leq(rests[h][0], left[i][0]) {
      if |rests[h]| > 1 && i == h {
        assert left[i] == rests[h][1..];
      } else {
        assert left[i] == if |rests[h]| > 1 || i < h then rests[i] else rests[i + 1];
      }
    }
  }

  lemma MergeTake(written: seq<Entry>, rests: seq<seq<Entry>>, total: multiset<Entry>, h: nat)
    requires MergeInvariant(written, rests, total)
    requires IsCurrentMin(rests, h)
    ensures MergeInvariant(written + [rests[h][0]], Taken(rests, h), total)
  {
    var e := rests[h][0];
    var left := Taken(rests, h);
    TakenConserves(rests, h);
    TakenHeads(rests, h);
    SortedSnoc(written, e);
    forall x, i | x in written + [e] && 0 <= i < |left| ensures Leq(x, left[i][0]) {
      assert Leq(x, e) && Leq(e, left[i][0]);
    }
    assert multiset(written + [e]) == multiset(written) + multiset{e};
  }

  /** With nothing left, what was written is the sort of everything. */
  lemma MergeDone(written: seq<Entry>, all: seq<Entry>)
    requires MergeInvariant(written, [], multiset(all))
    ensures written == SortEntries(all)
  {
    assert Concat<Entry>([]) == [];
    SortEntriesCorrect(all);
    SortedUnique(written, SortEntries(all));
  }
}
