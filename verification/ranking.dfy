/**
 The ranking order of tarkka_query.js: records are ordered by value in the
 mode's direction, and records of equal value by ascending hour. The
 order is total on records, so there is exactly one ranked arrangement
 of any working set; `Rank` computes it by insertion.
 */
module Ranking {
  import opened Common

  /** `a` comes strictly before `b` in the ranking for direction `o`. */
  predicate Precedes(o: Order, a: HourValue, b: HourValue) {
    Beats(o, a.value, b.value) || (a.value == b.value && a.hour < b.hour)
  }

  /** No later record comes strictly before an earlier one. */
  predicate Ranked(o: Order, xs: seq<HourValue>) {
    forall i, j :: 0 <= i < j < |xs| ==> !Precedes(o, xs[j], xs[i])
  }

  /** Precedes is a strict total order on records. */
  lemma PrecedesTotal(o: Order, a: HourValue, b: HourValue)
    ensures !Precedes(o, a, a)
    ensures Precedes(o, a, b) ==> !Precedes(o, b, a)
    ensures a != b ==> Precedes(o, a, b) || Precedes(o, b, a)
  {
  }

  /** No record of `xs` comes strictly before `h`. */
  predicate NoneBefore(o: Order, xs: seq<HourValue>, h: HourValue) {
    forall y :: y in xs ==> !Precedes(o, y, h)
  }

  lemma ConsRanked(o: Order, h: HourValue, t: seq<HourValue>)
    requires Ranked(o, t) && NoneBefore(o, t, h)
    ensures Ranked(o, [h] + t)
  {
  }

  /** The head of a ranked sequence is not preceded by anything after it. */
  lemma HeadFirst(o: Order, xs: seq<HourValue>)
    requires Ranked(o, xs) && xs != []
    ensures NoneBefore(o, xs[1..], xs[0])
    ensures NoneBefore(o, xs, xs[0])
  {
  }

  lemma RankedTail(o: Order, xs: seq<HourValue>)
    requires Ranked(o, xs) && xs != []
    ensures Ranked(o, xs[1..])
  {
  }

  /** Inserts `x` before the first record that `x` precedes (or that equals it). */
  function Insert(o: Order, x: HourValue, xs: seq<HourValue>): (r: seq<HourValue>)
    requires Ranked(o, xs)
    ensures multiset(r) == multiset(xs) + multiset{x}
    ensures Ranked(o, r)
  {
    if xs == [] then [x]
    else if Precedes(o, xs[0], x) then
      RankedTail(o, xs);
      var rest := Insert(o, x, xs[1..]);
      InsertKeepsHeadFirst(o, x, xs, rest);
      ConsRanked(o, xs[0], rest);
      assert xs == [xs[0]] + xs[1..];
      [xs[0]] + rest
    else
      InsertBeforeHead(o, x, xs);
      ConsRanked(o, x, xs);
      [x] + xs
  }

  lemma InsertKeepsHeadFirst(o: Order, x: HourValue, xs: seq<HourValue>, rest: seq<HourValue>)
    requires Ranked(o, xs) && xs != [] && Precedes(o, xs[0], x)
    requires multiset(rest) == multiset(xs[1..]) + multiset{x}
    ensures NoneBefore(o, rest, xs[0])
  {
    HeadFirst(o, xs);
    PrecedesTotal(o, xs[0], x);
    forall y | y in rest
      ensures !Precedes(o, y, xs[0])
    {
      assert y in multiset(rest);
      if y != x {
        assert y in multiset(xs[1..]);
        assert y in xs[1..];
      }
    }
  }

  lemma InsertBeforeHead(o: Order, x: HourValue, xs: seq<HourValue>)
    requires Ranked(o, xs) && xs != [] && !Precedes(o, xs[0], x)
    ensures NoneBefore(o, xs, x)
  {
  }

  /** Insertion sort: the ranked permutation of `xs`. */
  function Rank(o: Order, xs: seq<HourValue>): (r: seq<HourValue>)
    ensures multiset(r) == multiset(xs)
    ensures Ranked(o, r)
  {
    if xs == [] then []
    else
      assert xs == [xs[0]] + xs[1..];
      Insert(o, xs[0], Rank(o, xs[1..]))
  }

  /** Two ranked arrangements of the same records start with the same record. */
  lemma SameHead(o: Order, ys: seq<HourValue>, zs: seq<HourValue>)
    requires Ranked(o, ys) && Ranked(o, zs) && ys != [] && zs != []
    requires multiset(ys) == multiset(zs)
    ensures ys[0] == zs[0]
  {
    HeadFirst(o, ys);
    HeadFirst(o, zs);
    assert zs[0] in multiset(ys);
    assert ys[0] in multiset(zs);
    PrecedesTotal(o, ys[0], zs[0]);
  }

  /**
   Any two ranked arrangements of the same records are identical, so
   `Rank` is the one outcome every correct sort with this comparator has.
   */
  lemma {:induction false} RankedUnique(o: Order, ys: seq<HourValue>, zs: seq<HourValue>)
    requires Ranked(o, ys) && Ranked(o, zs)
    requires multiset(ys) == multiset(zs)
    ensures ys == zs
    decreases |ys|
  {
    assert |zs| == |multiset(zs)| == |multiset(ys)| == |ys|;
    if ys != [] {
      SameHead(o, ys, zs);
      assert ys == [ys[0]] + ys[1..];
      assert zs == [zs[0]] + zs[1..];
      assert multiset(ys[1..]) == multiset(ys) - multiset{ys[0]};
      assert multiset(zs[1..]) == multiset(zs) - multiset{zs[0]};
      RankedTail(o, ys);
      RankedTail(o, zs);
      RankedUnique(o, ys[1..], zs[1..]);
    }
  }

  /** Rank is the unique ranked permutation. */
  lemma RankIsTheRanking(o: Order, xs: seq<HourValue>, ys: seq<HourValue>)
    requires Ranked(o, ys) && multiset(ys) == multiset(xs)
    ensures ys == Rank(o, xs)
  {
    RankedUnique(o, ys, Rank(o, xs));
  }
}
