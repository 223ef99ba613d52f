/** The ranker: drop non-positive scores, sort by score descending then start
    ascending, keep the first ten. */
module Ranking {
  import opened Entities

  const MaxRecommendations: nat := 10

  /** `a` may precede `b`: higher score first, earlier start among equals. */
  predicate RanksBefore(a: Candidate, b: Candidate)
  {
    a.score > b.score || (a.score == b.score && a.slot.start <= b.slot.start)
  }

  predicate Ranked(cs: seq<Candidate>)
  {
    forall i, j :: 0 <= i < j < |cs| ==> RanksBefore(cs[i], cs[j])
  }

  /** Places `c` in front of the first entry it ranks before; an earlier
      element goes ahead of equal ones, as in a stable sort. */
  function Insert(c: Candidate, cs: seq<Candidate>): (r: seq<Candidate>)
    requires Ranked(cs)
    ensures Ranked(r)
    ensures multiset(r) == multiset(cs) + multiset{c}
    ensures |r| == |cs| + 1
  {
    if |cs| == 0 || RanksBefore(c, cs[0]) then [c] + cs
    else
      var tail := Insert(c, cs[1..]);
      assert cs == [cs[0]] + cs[1..];
      assert forall k :: 0 <= k < |tail| ==> RanksBefore(cs[0], tail[k]) by {
        forall k | 0 <= k < |tail|
          ensures RanksBefore(cs[0], tail[k])
        {
          assert tail[k] in multiset(tail);
          assert tail[k] == c || tail[k] in multiset(cs[1..]);
        }
      }
      [cs[0]] + tail
  }

  /** The candidates in rank order: a ranked permutation of the input. */
  function Sort(cs: seq<Candidate>): (r: seq<Candidate>)
    ensures Ranked(r)
    ensures multiset(r) == multiset(cs)
    ensures |r| == |cs|
  {
    if |cs| == 0 then []
    else
      assert cs == [cs[0]] + cs[1..];
      Insert(cs[0], Sort(cs[1..]))
  }

  /** The candidates with a positive score, in order. */
  function KeepPositive(cs: seq<Candidate>): (r: seq<Candidate>)
    ensures forall i :: 0 <= i < |r| ==> r[i].score > 0 && r[i] in cs
  {
    if |cs| == 0 then []
    else if cs[0].score > 0 then [cs[0]] + KeepPositive(cs[1..])
    else KeepPositive(cs[1..])
  }

  /** Dropping non-positive scores keeps every occurrence of the others. */
  lemma {:induction false} KeepPositiveCounts(cs: seq<Candidate>, c: Candidate)
    ensures multiset(KeepPositive(cs))[c] == if c.score > 0 then multiset(cs)[c] else 0
  {
    if |cs| > 0 {
      assert cs == [cs[0]] + cs[1..];
      KeepPositiveCounts(cs[1..], c);
    }
  }

  /** The recommendation list: the best positive-score candidates, at most ten,
      in rank order. */
  function Rank(cs: seq<Candidate>): (top: seq<Candidate>)
    ensures |top| <= MaxRecommendations
    ensures Ranked(top)
    ensures forall i :: 0 <= i < |top| ==> top[i].score > 0
    ensures multiset(top) <= multiset(KeepPositive(cs))
    ensures forall i :: 0 <= i < |top| ==> top[i] in cs
    ensures |top| == if |KeepPositive(cs)| < MaxRecommendations then |KeepPositive(cs)| else MaxRecommendations
  {
    var sorted := Sort(KeepPositive(cs));
    var n := if |sorted| < MaxRecommendations then |sorted| else MaxRecommendations;
    PrefixOfRanked(sorted, n);
    SortedPositivesFrom(cs);
    var top := sorted[..n];
    assert forall i :: 0 <= i < n ==> top[i] == sorted[i];
    top
  }

  /** Every entry of the sorted positive candidates is a positive input candidate. */
  lemma SortedPositivesFrom(cs: seq<Candidate>)
    ensures forall i :: 0 <= i < |Sort(KeepPositive(cs))| ==>
              Sort(KeepPositive(cs))[i].score > 0 && Sort(KeepPositive(cs))[i] in cs
  {
    var positive := KeepPositive(cs);
    var sorted := Sort(positive);
    forall i | 0 <= i < |sorted| ensures sorted[i].score > 0 && sorted[i] in cs {
      assert sorted[i] in multiset(positive);
      var k :| 0 <= k < |positive| && positive[k] == sorted[i];
    }
  }

  /** A prefix of a ranked list is ranked and part of it. */
  lemma PrefixOfRanked(cs: seq<Candidate>, n: nat)
    requires Ranked(cs) && n <= |cs|
    ensures Ranked(cs[..n])
    ensures multiset(cs[..n]) <= multiset(cs)
  {
    assert cs == cs[..n] + cs[n..];
    assert multiset(cs) == multiset(cs[..n]) + multiset(cs[n..]);
  }

  /** Nothing better was cut: every positive-score candidate left out of the
      list ranks no better than every candidate in it. */
  lemma {:induction false} RankKeepsBest(cs: seq<Candidate>, c: Candidate)
    requires c.score > 0
    requires multiset(Rank(cs))[c] < multiset(cs)[c]
    ensures forall i :: 0 <= i < |Rank(cs)| ==> RanksBefore(Rank(cs)[i], c)
  {
    var sorted := Sort(KeepPositive(cs));
    var top := Rank(cs);
    var n := |top|;
    assert sorted == top + sorted[n..];
    assert multiset(sorted) == multiset(top) + multiset(sorted[n..]);
    KeepPositiveCounts(cs, c);
    assert c in multiset(sorted[n..]);
    var k :| 0 <= k < |sorted[n..]| && sorted[n..][k] == c;
    assert sorted[n + k] == c;
  }

  /** The rank order leaves no freedom: two ranked arrangements of the same
      candidates, all of one duration, are identical. So the result does not
      depend on which sorting algorithm the runtime uses. */
  lemma {:induction false} RankedArrangementUnique(a: seq<Candidate>, b: seq<Candidate>, duration: int)
    requires Ranked(a) && Ranked(b) && multiset(a) == multiset(b)
    requires forall c :: c in a ==> c.slot.end == c.slot.start + duration
    ensures a == b
    decreases |a|
  {
    if |a| == 0 {
      assert |b| == |multiset(b)| == 0;
    } else {
      assert |b| == |multiset(b)| == |a|;
      assert b[0] in multiset(a);
      var m :| 0 <= m < |a| && a[m] == b[0];
      assert a[0] in multiset(b);
      var k :| 0 <= k < |b| && b[k] == a[0];
      assert RanksBefore(a[0], b[0]);
      assert RanksBefore(b[0], a[0]);
      assert a[0] == b[0];
      SameHeadSameTail(a, b);
      RankedArrangementUnique(a[1..], b[1..], duration);
    }
  }

  lemma SameHeadSameTail(a: seq<Candidate>, b: seq<Candidate>)
    requires |a| > 0 && |b| > 0 && a[0] == b[0] && multiset(a) == multiset(b)
    ensures multiset(a[1..]) == multiset(b[1..])
  {
    assert a == [a[0]] + a[1..];
    assert b == [b[0]] + b[1..];
    assert multiset(a) == multiset{a[0]} + multiset(a[1..]);
    assert multiset(b) == multiset{a[0]} + multiset(b[1..]);
    assert multiset(a[1..]) == multiset(a) - multiset{a[0]};
    assert multiset(b[1..]) == multiset(b) - multiset{a[0]};
  }

  /** When at most ten candidates score positive and all have one duration,
      the list is simply their rank order: any ranked arrangement of them is
      the result. */
  lemma RankOfFew(cs: seq<Candidate>, expected: seq<Candidate>, duration: int)
    requires Ranked(expected) && multiset(expected) == multiset(KeepPositive(cs))
    requires |expected| <= MaxRecommendations
    requires forall c :: c in expected ==> c.slot.end == c.slot.start + duration
    ensures Rank(cs) == expected
  {
    var sorted := Sort(KeepPositive(cs));
    assert |sorted| == |multiset(sorted)| == |multiset(expected)| == |expected|;
    RankedArrangementUnique(expected, sorted, duration);
    assert sorted[..|sorted|] == sorted;
  }
}
