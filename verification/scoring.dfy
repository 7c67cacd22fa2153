/** Per-query normalisation of candidate distances into similarity scores:
    the closest candidate scores 10, the farthest 0, linearly in between. */
module Scoring {
  import opened Sweep

  /** A candidate together with its normalised score. */
  datatype Scored = Scored(candidate: Candidate, score: real)

  /** Smallest candidate distance. */
  function MinDistance(cs: seq<Candidate>): (m: real)
    requires |cs| > 0
    ensures forall i :: 0 <= i < |cs| ==> m <= cs[i].distance
    ensures exists i :: 0 <= i < |cs| && cs[i].distance == m
  {
    if |cs| == 1 then cs[0].distance
    else
      var rest := MinDistance(cs[1..]);
      if cs[0].distance <= rest then cs[0].distance else rest
  }

  /** Largest candidate distance. */
  function MaxDistance(cs: seq<Candidate>): (m: real)
    requires |cs| > 0
    ensures forall i :: 0 <= i < |cs| ==> cs[i].distance <= m
    ensures exists i :: 0 <= i < |cs| && cs[i].distance == m
  {
    if |cs| == 1 then cs[0].distance
    else
      var rest := MaxDistance(cs[1..]);
      if cs[0].distance >= rest then cs[0].distance else rest
  }

  /** Score of a distance `d` given the smallest and largest distance of the
      query's candidates. */
  function NormalizedScore(d: real, lo: real, hi: real): (s: real)
    ensures hi == lo ==> s == 10.0
    ensures lo < hi && lo <= d <= hi ==> 0.0 <= s <= 10.0
    ensures lo < hi && d == lo ==> s == 10.0
    ensures lo < hi && d == hi ==> s == 0.0
  {
    if hi == lo then 10.0
    else
      ScaledFractionBounds(hi - d, hi - lo);
      10.0 * (hi - d) / (hi - lo)
  }

  /** `10 * x / w` lies in [0, 10] when `0 <= x <= w`, and hits both ends. */
  lemma ScaledFractionBounds(x: real, w: real)
    ensures w > 0.0 && 0.0 <= x <= w ==> 0.0 <= 10.0 * x / w <= 10.0
    ensures w > 0.0 && x == 0.0 ==> 10.0 * x / w == 0.0
    ensures w > 0.0 && x == w ==> 10.0 * x / w == 10.0
  {
    if w > 0.0 && 0.0 <= x <= w {
      var q := x / w;
      assert q * w == x;
      assert 10.0 * x / w == 10.0 * q;
      if q > 1.0 {
        assert (q - 1.0) * w > 0.0;
      }
    }
  }

  /** A larger distance never gets a larger score, and a strictly larger
      distance gets a strictly smaller score unless all distances are equal. */
  lemma ScoreAntitone(d1: real, d2: real, lo: real, hi: real)
    requires lo <= hi && d1 <= d2
    ensures NormalizedScore(d1, lo, hi) >= NormalizedScore(d2, lo, hi)
    ensures lo < hi && d1 < d2 ==> NormalizedScore(d1, lo, hi) > NormalizedScore(d2, lo, hi)
  {
    if lo < hi {
      var w := hi - lo;
      assert 10.0 * (hi - d1) / w - 10.0 * (hi - d2) / w == 10.0 * (d2 - d1) / w;
    }
  }

  /** The scores of all candidates of one query, in candidate order. */
  function Score(cs: seq<Candidate>): (r: seq<Scored>)
    requires |cs| > 0
    ensures |r| == |cs|
    ensures forall i :: 0 <= i < |r| ==> r[i].candidate == cs[i] && 0.0 <= r[i].score <= 10.0
  {
    var lo := MinDistance(cs);
    var hi := MaxDistance(cs);
    seq(|cs|, i requires 0 <= i < |cs| => Scored(cs[i], NormalizedScore(cs[i].distance, lo, hi)))
  }

  /** The closest candidates score 10; the farthest score 0 unless all
      candidates are equally far, in which case every candidate scores 10. */
  lemma ScoreExtremes(cs: seq<Candidate>)
    requires |cs| > 0
    ensures forall i :: 0 <= i < |cs| && cs[i].distance == MinDistance(cs) ==> Score(cs)[i].score == 10.0
    ensures MinDistance(cs) < MaxDistance(cs) ==>
              forall i :: 0 <= i < |cs| && cs[i].distance == MaxDistance(cs) ==> Score(cs)[i].score == 0.0
    ensures MinDistance(cs) == MaxDistance(cs) ==> forall i :: 0 <= i < |cs| ==> Score(cs)[i].score == 10.0
  {
  }

  /** A closer candidate never scores lower, and a strictly closer one
      scores strictly higher (which needs distinct distances). */
  lemma ScoreMonotone(cs: seq<Candidate>)
    requires |cs| > 0
    ensures forall i, j :: 0 <= i < |cs| && 0 <= j < |cs| && cs[i].distance <= cs[j].distance ==>
              Score(cs)[i].score >= Score(cs)[j].score
    ensures forall i, j :: 0 <= i < |cs| && 0 <= j < |cs| && cs[i].distance < cs[j].distance ==>
              MinDistance(cs) < MaxDistance(cs) && Score(cs)[i].score > Score(cs)[j].score
  {
    var lo := MinDistance(cs);
    var hi := MaxDistance(cs);
    var r := Score(cs);
    forall i, j | 0 <= i < |cs| && 0 <= j < |cs| && cs[i].distance <= cs[j].distance
      ensures r[i].score >= r[j].score
      ensures cs[i].distance < cs[j].distance ==> lo < hi && r[i].score > r[j].score
    {
      ScoreAntitone(cs[i].distance, cs[j].distance, lo, hi);
    }
  }

  /** Every scored entry pairs a candidate of the query with a score in [0, 10]. */
  lemma ScoredMembers(cs: seq<Candidate>)
    requires |cs| > 0
    ensures forall x :: x in Score(cs) ==> x.candidate in cs && 0.0 <= x.score <= 10.0
  {
    var r := Score(cs);
    forall x | x in r
      ensures x.candidate in cs && 0.0 <= x.score <= 10.0
    {
      var k :| 0 <= k < |r| && r[k] == x;
      assert cs[k] == x.candidate;
    }
  }

  /** All scores are 10 exactly when all candidates are at the same distance. */
  lemma AllTenIffEqualDistances(cs: seq<Candidate>)
    requires |cs| > 0
    ensures (forall i :: 0 <= i < |cs| ==> Score(cs)[i].score == 10.0) <==>
            (forall i :: 0 <= i < |cs| ==> cs[i].distance == cs[0].distance)
  {
    ScoreExtremes(cs);
  }
}
