/** Ranking of scored candidates: a stable sort by descending score, Python
    prefix slicing to the requested number of results, and 1-based ranks
    with the score rounded to two decimals. */
module Ranking {
  import opened Ints
  import opened Sweep
  import opened Scoring

  /** One entry of the endpoint's response. */
  datatype CelebrityResult = CelebrityResult(rank: int, name: string, similarity: real, imageUrl: string)

  /** The endpoint's successful response. */
  datatype AnalysisResponse = AnalysisResponse(results: seq<CelebrityResult>)

  // ---------------------------------------------------------------------
  // Rounding to two decimals

  /** `round(x, 2)` idealised on exact reals: the nearest multiple of 0.01,
      ties going to the even multiple. */
  function Round2(x: real): (r: real)
    ensures -0.005 <= r - x <= 0.005
    ensures (r * 100.0).Floor as real == r * 100.0
  {
    var y := x * 100.0;
    var f := y.Floor;
    var frac := y - f as real;
    var n := if frac > 0.5 then f + 1
             else if frac < 0.5 then f
             else if Even(f) then f
             else f + 1;
    n as real / 100.0
  }

  /** Parity, counted down to zero; `EvenIsModTwo` ties it to `% 2`. */
  function Even(n: int): bool
    decreases if n < 0 then -n else n
  {
    if n == 0 then true
    else if n > 0 then !Even(n - 1)
    else !Even(n + 1)
  }

  lemma {:induction false} EvenIsModTwo(n: int)
    ensures Even(n) <==> n % 2 == 0
    decreases if n < 0 then -n else n
  {
    if n > 0 {
      EvenIsModTwo(n - 1);
    } else if n < 0 {
      EvenIsModTwo(n + 1);
    }
  }

  /** A value exactly halfway between two hundredths goes to the even one. */
  lemma Round2HalfwayGoesEven(k: int)
    ensures Round2((k as real + 0.5) / 100.0) == (if k % 2 == 0 then k else k + 1) as real / 100.0
  {
    var x := (k as real + 0.5) / 100.0;
    assert x * 100.0 == k as real + 0.5;
    assert (x * 100.0).Floor == k;
    EvenIsModTwo(k);
  }

  /** Rounding never reverses the order of two values. */
  lemma Round2Monotone(x: real, y: real)
    requires x <= y
    ensures Round2(x) <= Round2(y)
  {
    var fx := (x * 100.0).Floor;
    var fy := (y * 100.0).Floor;
    assert fx <= fy;
  }

  /** A value that is already a whole number of hundredths is unchanged. */
  lemma Round2Exact(x: real)
    requires (x * 100.0).Floor as real == x * 100.0
    ensures Round2(x) == x
  {
  }

  /** Rounding keeps a score inside [0, 10]. */
  lemma Round2KeepsScoreRange(x: real)
    requires 0.0 <= x <= 10.0
    ensures 0.0 <= Round2(x) <= 10.0
  {
    Round2Exact(0.0);
    Round2Exact(10.0);
    Round2Monotone(0.0, x);
    Round2Monotone(x, 10.0);
  }

  // ---------------------------------------------------------------------
  // Stable sort by descending score

  predicate SortedByScore(s: seq<Scored>) {
    forall i, j :: 0 <= i < j < |s| ==> s[i].score >= s[j].score
  }

  /** The elements of `s` whose score is `v`, in their order in `s`. */
  function WithScore(s: seq<Scored>, v: real): seq<Scored> {
    if |s| == 0 then []
    else (if s[0].score == v then [s[0]] else []) + WithScore(s[1..], v)
  }

  /** `r` keeps every group of equal scores of `s` in the order of `s`. */
  ghost predicate StableFor(s: seq<Scored>, r: seq<Scored>) {
    forall v :: WithScore(r, v) == WithScore(s, v)
  }

  lemma {:induction false} WithScoreMembers(s: seq<Scored>, v: real, x: Scored)
    requires x in WithScore(s, v)
    ensures x in s && x.score == v
  {
    if !(s[0].score == v && x == s[0]) {
      WithScoreMembers(s[1..], v, x);
    }
  }

  lemma {:induction false} WithScoreOfMember(s: seq<Scored>, x: Scored)
    requires x in s
    ensures x in WithScore(s, x.score)
  {
    if x != s[0] {
      WithScoreOfMember(s[1..], x);
    }
  }

  /** Inserts `x` into a descending sequence in front of every element whose
      score does not exceed its own. */
  function InsertByScore(x: Scored, s: seq<Scored>): (r: seq<Scored>)
    requires SortedByScore(s)
    ensures |r| == |s| + 1
    ensures SortedByScore(r)
    ensures multiset(r) == multiset(s) + multiset{x}
    ensures r[0] == x || (|s| > 0 && r[0] == s[0])
    decreases |s|
  {
    if |s| == 0 || s[0].score <= x.score then
      [x] + s
    else
      var rest := InsertByScore(x, s[1..]);
      assert s == [s[0]] + s[1..];
      assert s[0].score >= rest[0].score;
      [s[0]] + rest
  }

  /** Inserting `x` puts it first among the elements of equal score and
      leaves every other group of equal scores unchanged. */
  lemma {:induction false} InsertKeepsGroups(x: Scored, s: seq<Scored>, v: real)
    requires SortedByScore(s)
    ensures WithScore(InsertByScore(x, s), v) == (if x.score == v then [x] else []) + WithScore(s, v)
    decreases |s|
  {
    if |s| == 0 || s[0].score <= x.score {
      assert InsertByScore(x, s) == [x] + s;
      WithScoreCons(x, s, v);
    } else {
      InsertKeepsGroups(x, s[1..], v);
      InsertBehindHead(x, s);
      assert s == [s[0]] + s[1..];
      GroupsBehindHead(s[0], InsertByScore(x, s[1..]), s[1..], x, v);
    }
  }

  /** Inserting an element below the head keeps the head in front. */
  lemma InsertBehindHead(x: Scored, s: seq<Scored>)
    requires SortedByScore(s) && |s| > 0 && s[0].score > x.score
    ensures InsertByScore(x, s) == [s[0]] + InsertByScore(x, s[1..])
  {
  }

  /** A head scoring above `x` sits in front of whatever groups follow it. */
  lemma GroupsBehindHead(h: Scored, rest: seq<Scored>, t: seq<Scored>, x: Scored, v: real)
    requires h.score > x.score
    requires WithScore(rest, v) == (if x.score == v then [x] else []) + WithScore(t, v)
    ensures WithScore([h] + rest, v) == (if x.score == v then [x] else []) + WithScore([h] + t, v)
  {
    WithScoreCons(h, rest, v);
    WithScoreCons(h, t, v);
    if x.score == v {
      assert WithScore([h] + t, v) == WithScore(t, v);
    }
  }

  /** Selecting by score distributes over putting one element in front. */
  lemma WithScoreCons(y: Scored, t: seq<Scored>, v: real)
    ensures WithScore([y] + t, v) == (if y.score == v then [y] else []) + WithScore(t, v)
  {
    assert ([y] + t)[1..] == t;
  }

  /** `sorted(..., key=score, reverse=True)`: descending by score, equal
      scores in their original order. */
  function SortByScoreDesc(s: seq<Scored>): (r: seq<Scored>)
    ensures |r| == |s|
    ensures SortedByScore(r)
    ensures multiset(r) == multiset(s)
    ensures StableFor(s, r)
  {
    if |s| == 0 then []
    else
      var rest := SortByScoreDesc(s[1..]);
      assert s == [s[0]] + s[1..];
      forall v
        ensures WithScore(InsertByScore(s[0], rest), v) == WithScore(s, v)
      {
        InsertKeepsGroups(s[0], rest, v);
      }
      InsertByScore(s[0], rest)
  }

  /** The first element of a descending sequence carries its largest score. */
  lemma HeadIsLargest(s: seq<Scored>, x: Scored)
    requires SortedByScore(s) && x in s
    ensures x.score <= s[0].score
  {
  }

  /** A descending sequence is determined by its groups of equal scores, so
      `SortByScoreDesc` is the only stable descending arrangement. */
  lemma {:induction false} SortedStableUnique(a: seq<Scored>, b: seq<Scored>)
    requires SortedByScore(a) && SortedByScore(b)
    requires forall v :: WithScore(a, v) == WithScore(b, v)
    ensures a == b
    decreases |a|
  {
    if |a| == 0 {
    } else if |b| == 0 {
      WithScoreOfMember(a, a[0]);
      assert false;
    } else {
      WithScoreOfMember(a, a[0]);
      WithScoreMembers(b, a[0].score, a[0]);
      HeadIsLargest(b, a[0]);
      WithScoreOfMember(b, b[0]);
      WithScoreMembers(a, b[0].score, b[0]);
      HeadIsLargest(a, b[0]);
      var v := a[0].score;
      assert b[0].score == v;
      assert WithScore(a, v) == [a[0]] + WithScore(a[1..], v);
      assert WithScore(b, v) == [b[0]] + WithScore(b[1..], v);
      assert a[0] == WithScore(a, v)[0] == WithScore(b, v)[0] == b[0];
      forall w
        ensures WithScore(a[1..], w) == WithScore(b[1..], w)
      {
        var head := if v == w then [a[0]] else [];
        assert WithScore(a, w) == head + WithScore(a[1..], w);
        assert WithScore(b, w) == head + WithScore(b[1..], w);
        assert WithScore(a[1..], w) == WithScore(a, w)[|head|..];
        assert WithScore(b[1..], w) == WithScore(b, w)[|head|..];
      }
      SortedStableUnique(a[1..], b[1..]);
      assert a == [a[0]] + a[1..] && b == [b[0]] + b[1..];
    }
  }

  /** Any arrangement of the scored candidates that is descending and keeps
      equal scores in encounter order is the one the ranking uses. */
  lemma StableSortCharacterised(s: seq<Scored>, r: seq<Scored>)
    requires SortedByScore(r) && StableFor(s, r)
    ensures r == SortByScoreDesc(s)
  {
    SortedStableUnique(r, SortByScoreDesc(s));
  }

  // ---------------------------------------------------------------------
  // Truncation and rank assignment

  /** Python's `s[:n]`: a negative `n` drops `-n` elements from the end. */
  function SlicePrefix<T>(s: seq<T>, n: int): (r: seq<T>)
    ensures n >= 0 ==> |r| == Min(n, |s|)
    ensures n < 0 ==> |r| == Max(0, |s| + n)
    ensures r == s[..|r|]
  {
    if n >= 0 then (if n <= |s| then s[..n] else s)
    else if |s| + n >= 0 then s[..|s| + n]
    else []
  }

  /** The `enumerate` loop: position `i` becomes rank `i + 1`. */
  function Enumerate(top: seq<Scored>): (r: seq<CelebrityResult>)
    ensures |r| == |top|
    ensures forall i :: 0 <= i < |r| ==>
              r[i] == CelebrityResult(i + 1, top[i].candidate.name, Round2(top[i].score), top[i].candidate.imageUrl)
  {
    seq(|top|, i requires 0 <= i < |top| =>
      CelebrityResult(i + 1, top[i].candidate.name, Round2(top[i].score), top[i].candidate.imageUrl))
  }

  /** Rounded scores of a descending sequence are descending too. */
  lemma SimilarityDescending(top: seq<Scored>)
    requires SortedByScore(top)
    ensures var r := Enumerate(top);
            forall i, j :: 0 <= i < j < |r| ==> r[i].similarity >= r[j].similarity
  {
    forall i, j | 0 <= i < j < |top|
      ensures Round2(top[i].score) >= Round2(top[j].score)
    {
      Round2Monotone(top[j].score, top[i].score);
    }
  }

  /** A prefix of the sorted candidates is sorted, every entry of it comes
      from the candidates, and none of them outranks its first entry. */
  lemma PrefixOfSorted(scored: seq<Scored>, numResults: int)
    ensures var top := SlicePrefix(SortByScoreDesc(scored), numResults);
            && SortedByScore(top)
            && (forall i :: 0 <= i < |top| ==> top[i] in scored)
            && (|top| > 0 ==> forall x :: x in scored ==> x.score <= top[0].score)
  {
    var ranked := SortByScoreDesc(scored);
    var top := SlicePrefix(ranked, numResults);
    PrefixOfPermutation(scored, ranked, top);
  }

  /** The same for any descending permutation `ranked` of `scored`. */
  lemma PrefixOfPermutation(scored: seq<Scored>, ranked: seq<Scored>, top: seq<Scored>)
    requires SortedByScore(ranked) && multiset(ranked) == multiset(scored)
    requires |top| <= |ranked| && top == ranked[..|top|]
    ensures SortedByScore(top)
    ensures forall i :: 0 <= i < |top| ==> top[i] in scored
    ensures |top| > 0 ==> forall x :: x in scored ==> x.score <= top[0].score
  {
    forall i | 0 <= i < |top|
      ensures top[i] in scored
    {
      assert top[i] == ranked[i];
      assert ranked[i] in multiset(scored);
    }
    forall x | x in scored && |top| > 0
      ensures x.score <= top[0].score
    {
      assert x in multiset(ranked);
      HeadIsLargest(ranked, x);
    }
  }

  /** The entry shows the name, image and rounded score of some candidate. */
  ghost predicate TracesTo(e: CelebrityResult, scored: seq<Scored>) {
    exists x :: x in scored && e.name == x.candidate.name && e.imageUrl == x.candidate.imageUrl
                            && e.similarity == Round2(x.score)
  }

  /** Every entry carries the name, image and rounded score of a candidate. */
  lemma EntriesFromScored(top: seq<Scored>, scored: seq<Scored>)
    requires forall i :: 0 <= i < |top| ==> top[i] in scored
    ensures forall i :: 0 <= i < |top| ==> TracesTo(Enumerate(top)[i], scored)
  {
    forall i | 0 <= i < |top|
      ensures TracesTo(Enumerate(top)[i], scored)
    {
      var x := top[i];
      var e := Enumerate(top)[i];
      assert x in scored && e.name == x.candidate.name && e.imageUrl == x.candidate.imageUrl
                         && e.similarity == Round2(x.score);
    }
  }

  /** The first entry has the highest rounded score of all candidates. */
  lemma FirstEntryIsBest(top: seq<Scored>, scored: seq<Scored>)
    requires |top| > 0 ==> forall x :: x in scored ==> x.score <= top[0].score
    ensures |top| > 0 ==> forall x :: x in scored ==> Round2(x.score) <= Enumerate(top)[0].similarity
  {
    forall x | x in scored && |top| > 0
      ensures Round2(x.score) <= Round2(top[0].score)
    {
      Round2Monotone(x.score, top[0].score);
    }
  }

  /** Rounded scores of candidates in [0, 10] stay in [0, 10]. */
  lemma SimilarityInRange(top: seq<Scored>)
    requires forall i :: 0 <= i < |top| ==> 0.0 <= top[i].score <= 10.0
    ensures forall i :: 0 <= i < |top| ==> 0.0 <= Enumerate(top)[i].similarity <= 10.0
  {
    forall i | 0 <= i < |top|
      ensures 0.0 <= Round2(top[i].score) <= 10.0
    {
      Round2KeepsScoreRange(top[i].score);
    }
  }

  /** The ranked response entries for the scored candidates of one query. */
  function Rank(scored: seq<Scored>, numResults: int): (r: seq<CelebrityResult>)
    ensures numResults >= 0 ==> |r| == Min(numResults, |scored|)
    ensures numResults < 0 ==> |r| == Max(0, |scored| + numResults)
    ensures forall i :: 0 <= i < |r| ==> r[i].rank == i + 1
    ensures forall i, j :: 0 <= i < j < |r| ==> r[i].similarity >= r[j].similarity
    ensures forall i :: 0 <= i < |r| ==> TracesTo(r[i], scored)
    ensures |r| > 0 ==> forall x :: x in scored ==> Round2(x.score) <= r[0].similarity
  {
    var top := SlicePrefix(SortByScoreDesc(scored), numResults);
    PrefixOfSorted(scored, numResults);
    SimilarityDescending(top);
    EntriesFromScored(top, scored);
    FirstEntryIsBest(top, scored);
    Enumerate(top)
  }

  /** Scores in [0, 10] give similarities in [0, 10]. */
  lemma RankInRange(scored: seq<Scored>, numResults: int)
    requires forall x :: x in scored ==> 0.0 <= x.score <= 10.0
    ensures forall i :: 0 <= i < |Rank(scored, numResults)| ==> 0.0 <= Rank(scored, numResults)[i].similarity <= 10.0
  {
    var top := SlicePrefix(SortByScoreDesc(scored), numResults);
    PrefixOfSorted(scored, numResults);
    SimilarityInRange(top);
    assert Rank(scored, numResults) == Enumerate(top);
  }

  // ---------------------------------------------------------------------
  // The entries are the stable top of the candidates

  /** `top` is the best `k` of `scored` in ranking order: drawn from `scored`
      without repetition, descending by score, every group of equal scores a
      leading part of that group in encounter order, and nothing left out
      scoring above anything kept. */
  ghost predicate IsStableTop(top: seq<Scored>, scored: seq<Scored>, k: int) {
    && |top| == k
    && multiset(top) <= multiset(scored)
    && SortedByScore(top)
    && (forall v :: WithScore(top, v) <= WithScore(scored, v))
    && (forall x, i :: x in multiset(scored) - multiset(top) && 0 <= i < |top| ==> x.score <= top[i].score)
  }

  /** Selecting by score distributes over concatenation. */
  lemma {:induction false} WithScoreAppend(a: seq<Scored>, b: seq<Scored>, v: real)
    ensures WithScore(a + b, v) == WithScore(a, v) + WithScore(b, v)
    decreases |a|
  {
    if |a| == 0 {
      assert a + b == b;
    } else {
      WithScoreAppend(a[1..], b, v);
      assert a + b == [a[0]] + (a[1..] + b);
      WithScoreCons(a[0], a[1..] + b, v);
      assert a == [a[0]] + a[1..];
      WithScoreCons(a[0], a[1..], v);
    }
  }

  /** Every prefix of a stable descending arrangement of `scored` is a stable
      top of `scored`. */
  lemma PrefixIsStableTop(scored: seq<Scored>, ranked: seq<Scored>, k: int)
    requires SortedByScore(ranked) && multiset(ranked) == multiset(scored) && StableFor(scored, ranked)
    requires 0 <= k <= |ranked|
    ensures IsStableTop(ranked[..k], scored, k)
  {
    PrefixLeavesSuffix(scored, ranked, k);
    PrefixKeepsGroupOrder(scored, ranked, k);
    PrefixDominatesSuffix(scored, ranked, k);
  }

  /** What a prefix leaves out of the multiset is exactly the suffix. */
  lemma PrefixLeavesSuffix(scored: seq<Scored>, ranked: seq<Scored>, k: int)
    requires multiset(ranked) == multiset(scored) && 0 <= k <= |ranked|
    ensures multiset(ranked[..k]) <= multiset(scored)
    ensures multiset(scored) - multiset(ranked[..k]) == multiset(ranked[k..])
  {
    assert ranked == ranked[..k] + ranked[k..];
    assert multiset(ranked) == multiset(ranked[..k]) + multiset(ranked[k..]);
  }

  /** Each group of equal scores of a prefix leads the group in `scored`. */
  lemma PrefixKeepsGroupOrder(scored: seq<Scored>, ranked: seq<Scored>, k: int)
    requires StableFor(scored, ranked) && 0 <= k <= |ranked|
    ensures forall v :: WithScore(ranked[..k], v) <= WithScore(scored, v)
  {
    forall v
      ensures WithScore(ranked[..k], v) <= WithScore(scored, v)
    {
      assert ranked == ranked[..k] + ranked[k..];
      WithScoreAppend(ranked[..k], ranked[k..], v);
    }
  }

  /** Nothing after the prefix of a descending sequence scores above
      anything in it. */
  lemma PrefixDominatesSuffix(scored: seq<Scored>, ranked: seq<Scored>, k: int)
    requires SortedByScore(ranked) && multiset(ranked) == multiset(scored) && 0 <= k <= |ranked|
    ensures forall x, i :: x in multiset(scored) - multiset(ranked[..k]) && 0 <= i < k ==> x.score <= ranked[..k][i].score
  {
    PrefixLeavesSuffix(scored, ranked, k);
    var rest := ranked[k..];
    forall x, i | x in multiset(scored) - multiset(ranked[..k]) && 0 <= i < k
      ensures x.score <= ranked[..k][i].score
    {
      assert x in rest;
      var j :| 0 <= j < |rest| && rest[j] == x;
      assert ranked[k + j] == x;
    }
  }

  /** The entries are the enumeration of the stable top of the candidates:
      as many as the slice keeps, each one shown at most as often as it was
      scored, in descending order with ties in encounter order, and none
      left out that scores above one shown. */
  lemma RankIsStableTop(scored: seq<Scored>, numResults: int)
    ensures exists top :: IsStableTop(top, scored, |Rank(scored, numResults)|) && Rank(scored, numResults) == Enumerate(top)
  {
    var ranked := SortByScoreDesc(scored);
    var top := SlicePrefix(ranked, numResults);
    PrefixIsStableTop(scored, ranked, |top|);
    assert Rank(scored, numResults) == Enumerate(top);
  }
}
