/**
 Fuzzy matching of short lists: a greedy left-to-right match with a relevance score, and a
 filter that keeps the matching items, best first. Texts and queries are taken already
 lowered.

 Main results: a score exists exactly when the query is a subsequence of the text
 (`MatchesSubsequences`), through the leftmost possible hits (`GreedyIsLeftmost`); more
 points always outrank the position penalty (`MorePointsOutrank`), and the filter returns
 exactly the matching items, stably sorted by descending score (`FuzzyFilter`).
 */
module Fuzzy {
  import opened Subsequences
  import opened Text
  import opened Wrappers

  /** Where the characters of `q` are found, each behind the one before. */
  function Hits(t: string, q: string, from: nat): Option<seq<nat>>
    requires from <= |t|
    decreases |q|
  {
    if q == "" then Some([])
    else
      var at := Find(t, q[0], from);
      if at == |t| then None
      else
        var rest := Hits(t, q[1..], at + 1);
        if rest.None? then None else Some([at] + rest.value)
  }

  /** Three points for a hit right behind the one before, or at the start of the text, one for any other. */
  function Points(hits: seq<nat>, next: nat): nat
    decreases |hits|
  {
    if hits == [] then 0 else (if hits[0] == next then 3 else 1) + Points(hits[1..], hits[0] + 1)
  }

  function Penalty(t: string, first: int): real {
    first as real / (|t| + 1) as real
  }

  function First(hits: seq<nat>): int {
    if hits == [] then -1 else hits[0]
  }

  function Score(t: string, q: string): Option<real> {
    var hits := Hits(t, q, 0);
    if hits.None? then None else Some(Points(hits.value, 0) as real - Penalty(t, First(hits.value)))
  }

  method FuzzyScore(t: string, q: string) returns (r: Option<real>)
    ensures r == Score(t, q)
  {
    var score: int, first: int, prev: int := 0, -1, -1;
    for i := 0 to |q|
      invariant -1 <= prev < |t| && score >= 0
      invariant i == 0 ==> score == 0 && first == -1 && prev == -1
      invariant i > 0 ==> first >= 0
      invariant Continues(t, q, score, first, Hits(t, q[i..], prev + 1), prev + 1)
    {
      assert q[i..][0] == q[i] && q[i..][1..] == q[i + 1..];
      var at := Find(t, q[i], prev + 1);
      if at == |t| {
        return None;
      }
      score := score + if at == prev + 1 then 3 else 1;
      if first == -1 {
        first := at;
      }
      prev := at;
    }
    assert q[|q|..] == "";
    r := Some(score as real - Penalty(t, first));
  }

  /** What is left to match completes what has been matched. */
  ghost predicate Continues(t: string, q: string, score: int, first: int, rest: Option<seq<nat>>, next: nat) {
    var hits := Hits(t, q, 0);
    && (rest.None? <==> hits.None?)
    && (rest.Some? ==>
          && Points(hits.value, 0) == score + Points(rest.value, next)
          && First(hits.value) == if first >= 0 then first else First(rest.value))
  }

  // ----- which texts match

  lemma {:induction false} HitsEmbed(t: string, q: string, from: nat)
    requires from <= |t| && Hits(t, q, from).Some?
    ensures var hits := Hits(t, q, from).value;
            Embeds(hits, q, t) && forall i :: 0 <= i < |hits| ==> from <= hits[i]
    decreases |q|
  {
    if q != "" {
      HitsEmbed(t, q[1..], Find(t, q[0], from) + 1);
    }
  }

  /** However the query lies in the text, the greedy hits exist and none of them is further right. */
  lemma {:induction false} GreedyIsLeftmost(t: string, q: string, from: nat, p: seq<nat>)
    requires from <= |t| && Embeds(p, q, t) && forall i :: 0 <= i < |p| ==> from <= p[i]
    ensures var hits := Hits(t, q, from);
            hits.Some? && |hits.value| == |p| && forall i :: 0 <= i < |p| ==> hits.value[i] <= p[i]
    decreases |q|
  {
    if q != "" {
      var at := Find(t, q[0], from);
      assert at <= p[0] && p[0] < |t|;
      assert Embeds(p[1..], q[1..], t);
      GreedyIsLeftmost(t, q[1..], at + 1, p[1..]);
    }
  }

  /** A score exists exactly when the query is a subsequence of the text. */
  lemma {:induction false} MatchesSubsequences(t: string, q: string)
    ensures Score(t, q).Some? <==> IsSubsequence(q, t)
  {
    if Score(t, q).Some? {
      HitsEmbed(t, q, 0);
    }
    if IsSubsequence(q, t) {
      var p: seq<nat> :| Embeds(p, q, t);
      GreedyIsLeftmost(t, q, 0, p);
    }
  }

  // ----- how matches rank

  function HitPoints(t: string, q: string): nat
    requires Score(t, q).Some?
  {
    Points(Hits(t, q, 0).value, 0)
  }

  function FirstHit(t: string, q: string): int
    requires Score(t, q).Some?
  {
    First(Hits(t, q, 0).value)
  }

  lemma {:induction false} PenaltyBelowOne(t: string, q: string)
    requires q != "" && Score(t, q).Some?
    ensures 0 <= FirstHit(t, q) < |t|
    ensures 0.0 <= Penalty(t, FirstHit(t, q)) < 1.0
  {
    HitsEmbed(t, q, 0);
    var first := FirstHit(t, q);
    FractionBelowOne(first as real, (|t| + 1) as real);
  }

  lemma {:induction false} FractionBelowOne(a: real, b: real)
    requires 0.0 <= a < b
    ensures 0.0 <= a / b < 1.0
  {
    assert a / b * b == a;
  }

  lemma FractionOrder(a: int, b: int, c: int, d: int)
    requires b > 0 && d > 0
    ensures a as real / b as real < c as real / d as real <==> a * d < c * b
  {
    var x, y, k := a as real / b as real, c as real / d as real, b as real * d as real;
    assert x * b as real == a as real && y * d as real == c as real;
    assert a as real * d as real == x * k && c as real * b as real == y * k;
    SameSign(y - x, k);
    assert (a * d) as real == a as real * d as real && (c * b) as real == c as real * b as real;
  }

  lemma SameSign(x: real, k: real)
    requires k > 0.0
    ensures x * k > 0.0 <==> x > 0.0
  {
  }

  /** Whatever the texts and their lengths, more points outrank any position; among equal points the hit that is earlier relative to its text's length does. */
  lemma {:induction false} MorePointsOutrank(t: string, u: string, q: string)
    requires q != "" && Score(t, q).Some? && Score(u, q).Some?
    ensures HitPoints(t, q) > HitPoints(u, q) ==> Score(t, q).value > Score(u, q).value
    ensures HitPoints(t, q) == HitPoints(u, q) ==>
              (Score(t, q).value > Score(u, q).value <==> FirstHit(t, q) * (|u| + 1) < FirstHit(u, q) * (|t| + 1))
  {
    PenaltyBelowOne(t, q);
    PenaltyBelowOne(u, q);
    FractionOrder(FirstHit(t, q), |t| + 1, FirstHit(u, q), |u| + 1);
  }

  /** In texts of one length, and in any text matching at its start, the earlier hit wins. */
  lemma {:induction false} EarlierHitWins(t: string, u: string, q: string)
    requires q != "" && Score(t, q).Some? && Score(u, q).Some? && HitPoints(t, q) == HitPoints(u, q)
    requires FirstHit(t, q) < FirstHit(u, q) && (|t| == |u| || FirstHit(t, q) == 0)
    ensures Score(t, q).value > Score(u, q).value
  {
    hide Hits, Points;
    MorePointsOutrank(t, u, q);
    PenaltyBelowOne(u, q);
    var a, c, d := FirstHit(t, q), FirstHit(u, q), |u| + 1;
    if a > 0 {
      assert (c - a) * d > 0;
    }
  }

  /** In texts of different lengths it may lose. */
  lemma {:induction false} EarlierHitCanLose()
    ensures var t, u := "-x", "--x---";
            && Score(t, "x").Some? && Score(u, "x").Some? && HitPoints(t, "x") == HitPoints(u, "x")
            && FirstHit(t, "x") < FirstHit(u, "x") && Score(t, "x").value < Score(u, "x").value
  {
    FindUnique("-x", 'x', 0, 1);
    FindUnique("--x---", 'x', 0, 2);
  }

  /** The hits that are not right behind the one before; the first counts unless it is at `next`. */
  function Breaks(hits: seq<nat>, next: nat): nat
    decreases |hits|
  {
    if hits == [] then 0 else (if hits[0] == next then 0 else 1) + Breaks(hits[1..], hits[0] + 1)
  }

  /** Three points a hit, less two for every break. */
  lemma {:induction false} PointsCountBreaks(hits: seq<nat>, next: nat)
    ensures Points(hits, next) + 2 * Breaks(hits, next) == 3 * |hits|
    decreases |hits|
  {
    if hits != [] {
      PointsCountBreaks(hits[1..], hits[0] + 1);
    }
  }

  /** The hits are one contiguous run. */
  predicate OneRun(hits: seq<nat>) {
    forall i :: 1 <= i < |hits| ==> hits[i] == hits[i - 1] + 1
  }

  lemma {:induction false} RunsHaveNoFurtherBreak(hits: seq<nat>, next: nat)
    requires hits != []
    ensures OneRun(hits) <==> Breaks(hits, next) == if hits[0] == next then 0 else 1
    decreases |hits|
  {
    if |hits| > 1 {
      RunsHaveNoFurtherBreak(hits[1..], hits[0] + 1);
      if OneRun(hits) {
        forall i | 1 <= i < |hits[1..]|
          ensures hits[1..][i] == hits[1..][i - 1] + 1
        {
          assert hits[i + 1] == hits[i] + 1;
        }
      } else if hits[1] == hits[0] + 1 {
        var i :| 1 <= i < |hits| && hits[i] != hits[i - 1] + 1;
        assert hits[1..][i - 1] != hits[1..][i - 2] + 1;
      }
    }
  }

  function MatchHits(t: string, q: string): seq<nat>
    requires Score(t, q).Some?
  {
    Hits(t, q, 0).value
  }

  /**
   Against a scattered match, a contiguous one wins exactly when it starts its text or the
   other has two breaks or more. Otherwise the scattered one, which then starts its text and
   breaks once, is strictly ahead.
   */
  lemma RunAgainstScattered(t: string, u: string, q: string)
    requires q != "" && Score(t, q).Some? && Score(u, q).Some?
    requires OneRun(MatchHits(t, q)) && !OneRun(MatchHits(u, q))
    ensures Score(t, q).value > Score(u, q).value <==> FirstHit(t, q) == 0 || Breaks(MatchHits(u, q), 0) >= 2
    ensures Score(t, q).value != Score(u, q).value
    ensures Breaks(MatchHits(u, q), 0) < 2 ==> FirstHit(u, q) == 0
  {
    var run, scattered := MatchHits(t, q), MatchHits(u, q);
    HitsEmbed(t, q, 0);
    HitsEmbed(u, q, 0);
    PointsCountBreaks(run, 0);
    PointsCountBreaks(scattered, 0);
    RunsHaveNoFurtherBreak(run, 0);
    RunsHaveNoFurtherBreak(scattered, 0);
    AtLeastOneBreakMore(scattered);
    MorePointsOutrank(t, u, q);
    MorePointsOutrank(u, t, q);
    if scattered[0] == 0 && run[0] > 0 {
      assert FirstHit(u, q) * (|t| + 1) == 0 < FirstHit(t, q) * (|u| + 1);
    }
  }

  predicate OccursAt(q: string, t: string, i: nat) {
    i + |q| <= |t| && t[i..i + |q|] == q
  }

  lemma {:induction false} HitsOfOccurrence(t: string, q: string, i: nat)
    requires OccursAt(q, t, i)
    ensures Hits(t, q, i).Some? && |Hits(t, q, i).value| == |q|
    ensures forall k :: 0 <= k < |q| ==> Hits(t, q, i).value[k] == i + k
    decreases |q|
  {
    if q != "" {
      assert t[i] == t[i..i + |q|][0];
      FindUnique(t, q[0], i, i);
      assert t[i + 1..i + |q|] == t[i..i + |q|][1..];
      HitsOfOccurrence(t, q[1..], i + 1);
    }
  }

  /** The match is one run exactly when the query occurs where its first character does first, not just somewhere. */
  lemma RunExactly(t: string, q: string)
    requires q != ""
    ensures Score(t, q).Some? && OneRun(MatchHits(t, q)) <==> OccursAt(q, t, Find(t, q[0], 0))
  {
    hide OccursAt, OneRun, Hits;
    var at := Find(t, q[0], 0);
    SameFirst(t, q, at);
    if OccursAt(q, t, at) {
      OccurrenceIsRun(t, q, at);
    }
    if Score(t, q).Some? && OneRun(MatchHits(t, q)) {
      HitsEmbed(t, q, 0);
      RunOccurs(MatchHits(t, q), q, t);
    }
  }

  lemma SameFirst(t: string, q: string, at: nat)
    requires q != "" && at == Find(t, q[0], 0)
    ensures Hits(t, q, at) == Hits(t, q, 0)
    ensures Hits(t, q, 0).Some? ==> Hits(t, q, 0).value != [] && Hits(t, q, 0).value[0] == at
  {
    FindUnique(t, q[0], at, at);
  }

  lemma OccurrenceIsRun(t: string, q: string, i: nat)
    requires OccursAt(q, t, i)
    ensures Hits(t, q, i).Some? && OneRun(Hits(t, q, i).value)
  {
    hide Hits;
    HitsOfOccurrence(t, q, i);
  }

  lemma RunOccurs(hits: seq<nat>, q: string, t: string)
    requires Embeds(hits, q, t) && OneRun(hits) && hits != []
    ensures OccursAt(q, t, hits[0])
  {
    RunIsConsecutive(hits, |hits| - 1);
    var i := hits[0];
    assert hits[|q| - 1] == i + |q| - 1 && hits[|q| - 1] < |t|;
    forall k | 0 <= k < |q|
      ensures t[i..i + |q|][k] == q[k]
    {
      assert hits[k] == i + k && t[hits[k]] == q[k];
    }
  }

  lemma {:induction false} RunIsConsecutive(hits: seq<nat>, n: nat)
    requires OneRun(hits) && n < |hits|
    ensures forall k :: 0 <= k <= n ==> hits[k] == hits[0] + k
  {
    if n > 0 {
      RunIsConsecutive(hits, n - 1);
      assert hits[n] == hits[n - 1] + 1;
    }
  }

  /** Such a text contains the query and still matches in pieces. */
  lemma {:induction false} LaterOccurrenceIsScattered()
    ensures OccursAt("ab", "axab", 2) && Score("axab", "ab").Some? && !OneRun(MatchHits("axab", "ab"))
  {
    TwoHits("axab", "ab", 0, 3);
  }

  lemma {:induction false} BreaksAtLeastFirst(hits: seq<nat>, next: nat)
    requires hits != []
    ensures Breaks(hits, next) >= if hits[0] == next then 0 else 1
  {
  }

  lemma AtLeastOneBreakMore(hits: seq<nat>)
    requires hits != [] && !OneRun(hits)
    ensures Breaks(hits, 0) >= if hits[0] == 0 then 1 else 2
  {
    RunsHaveNoFurtherBreak(hits, 0);
    BreaksAtLeastFirst(hits, 0);
  }

  lemma {:induction false} TwoHits(t: string, q: string, i: nat, j: nat)
    requires |q| == 2 && i < j < |t| && t[i] == q[0] && t[j] == q[1]
    requires (forall k :: 0 <= k < i ==> t[k] != q[0]) && (forall k :: i < k < j ==> t[k] != q[1])
    ensures Hits(t, q, 0) == Some([i, j])
    ensures Points(Hits(t, q, 0).value, 0) == (if i == 0 then 3 else 1) + (if j == i + 1 then 3 else 1)
  {
    FindUnique(t, q[0], 0, i);
    FindUnique(t, q[1], i + 1, j);
    assert q[1..] == [q[1]] && q[1..][1..] == "";
    assert Hits(t, "", j + 1) == Some([]);
    var last: seq<nat> := [j];
    assert last + [] == last && q[1..] != "" && q[1..][0] == q[1];
    assert Hits(t, q[1..], i + 1) == Some([j]);
    var both: seq<nat> := [i, j];
    assert [i] + last == both && both[1..] == last && last[1..] == [];
    assert Points(last, i + 1) == if j == i + 1 then 3 else 1;
  }

  /** A hit at the start earns what a continued run does, so scattered characters may outrank a solid run further right. */
  lemma {:induction false} ScatteredCanOutrankRun()
    ensures var scattered, run := "a-b", "xxab";
            && IsSubsequence("ab", run[2..]) && run[2..] == "ab"
            && Score(scattered, "ab").Some? && Score(run, "ab").Some?
            && Score(scattered, "ab").value > Score(run, "ab").value
  {
    SubsequenceOfItself("ab");
    TwoHits("a-b", "ab", 0, 2);
    TwoHits("xxab", "ab", 2, 3);
  }

  // ----- filtering a list

  datatype Scored<T> = Scored(item: T, score: real)

  /** The order of a stable descending sort: better score first, equal scores as they were listed. */
  predicate Ahead<T>(scored: seq<Scored<T>>, i: nat, j: nat)
    requires i < |scored| && j < |scored|
  {
    scored[i].score > scored[j].score || (scored[i].score == scored[j].score && i < j)
  }

  /** `order` lists each of the first `n` positions once, each ahead of all that follow. */
  ghost predicate Ranking<T>(scored: seq<Scored<T>>, n: nat, order: seq<nat>)
    requires n <= |scored|
  {
    && (forall k :: 0 <= k < |order| ==> order[k] < n)
    && (forall i: nat :: i < n ==> i in order)
    && (forall j, k :: 0 <= j < k < |order| ==> Ahead(scored, order[j], order[k]))
  }

  ghost predicate Arranges<T(!new)>(sorted: seq<Scored<T>>, scored: seq<Scored<T>>, order: seq<nat>) {
    |sorted| == |order| && forall k :: 0 <= k < |order| ==> order[k] < |scored| && sorted[k] == scored[order[k]]
  }

  /** The same elements, each once, in the order of a stable descending sort. */
  ghost predicate IsStableSort<T(!new)>(sorted: seq<Scored<T>>, scored: seq<Scored<T>>) {
    exists order: seq<nat> :: Ranking(scored, |scored|, order) && Arranges(sorted, scored, order)
  }

  function Inserted<T>(s: seq<T>, p: nat, x: T): seq<T>
    requires p <= |s|
  {
    s[..p] + [x] + s[p..]
  }

  /** The library's stable sort, as an insertion sort. */
  method SortByScore<T(!new)>(scored: seq<Scored<T>>) returns (sorted: seq<Scored<T>>)
    ensures IsStableSort(sorted, scored)
  {
    sorted := [];
    ghost var order: seq<nat> := [];
    for n := 0 to |scored|
      invariant Ranking(scored, n, order) && Arranges(sorted, scored, order)
    {
      var p := |sorted|;
      while p > 0 && sorted[p - 1].score < scored[n].score
        invariant 0 <= p <= |sorted|
        invariant forall k :: p <= k < |sorted| ==> sorted[k].score < scored[n].score
      {
        p := p - 1;
      }
      assert forall k :: p <= k < |order| ==> scored[order[k]] == sorted[k];
      InsertKeepsRanking(scored, n, order, p);
      sorted := Inserted(sorted, p, scored[n]);
      order := Inserted(order, p, n);
    }
  }

  lemma {:induction false} InsertedHolds(order: seq<nat>, p: nat, n: nat, i: nat)
    requires p <= |order| && (i == n || i in order)
    ensures i in Inserted(order, p, n)
  {
  }

  lemma {:induction false} InsertKeepsRanking<T(!new)>(scored: seq<Scored<T>>, n: nat, order: seq<nat>, p: nat)
    requires n < |scored| && Ranking(scored, n, order) && p <= |order|
    requires forall k :: p <= k < |order| ==> scored[order[k]].score < scored[n].score
    requires p > 0 ==> scored[order[p - 1]].score >= scored[n].score
    ensures Ranking(scored, n + 1, Inserted(order, p, n))
  {
    forall i: nat | i < n + 1
      ensures i in Inserted(order, p, n)
    {
      InsertedHolds(order, p, n, i);
    }
    assert forall k :: 0 <= k < p ==> scored[order[k]].score >= scored[n].score by {
      assert forall k :: 0 <= k < p - 1 ==> Ahead(scored, order[k], order[p - 1]);
    }
  }

  /** `from` lists, in order, the positions of the items that match. */
  ghost predicate Matching<T(!new)>(items: seq<T>, n: nat, q: string, text: T -> string, scored: seq<Scored<T>>, from: seq<nat>)
    requires n <= |items|
  {
    && |from| == |scored|
    && (forall k :: 0 <= k < |from| ==> from[k] < n && Score(text(items[from[k]]), q) == Some(scored[k].score) && scored[k].item == items[from[k]])
    && (forall j, k :: 0 <= j < k < |from| ==> from[j] < from[k])
    && (forall i: nat :: i < n && Score(text(items[i]), q).Some? ==> i in from)
  }

  lemma NothingMatched<T(!new)>(items: seq<T>, q: string, text: T -> string)
    ensures Matching(items, 0, q, text, [], [])
  {
  }

  lemma MatchingPairs<T(!new)>(items: seq<T>, n: nat, q: string, text: T -> string, scored: seq<Scored<T>>, from: seq<nat>)
    requires n <= |items| && Matching(items, n, q, text, scored, from)
    ensures |from| == |scored|
  {
  }

  lemma ItemJoins<T(!new)>(items: seq<T>, n: nat, q: string, text: T -> string, scored: seq<Scored<T>>, from: seq<nat>)
    requires n < |items| && Matching(items, n, q, text, scored, from)
    ensures var score := Score(text(items[n]), q);
            if score.Some? then Matching(items, n + 1, q, text, scored + [Scored(items[n], score.value)], from + [n])
            else Matching(items, n + 1, q, text, scored, from)
  {
    hide Score;
    assert (from + [n])[|from|] == n;
    assert forall i: nat :: i in from ==> i in from + [n];
  }

  /** Best match first: a better score, or the same one and earlier in the list. */
  predicate MatchesBefore<T>(items: seq<T>, q: string, text: T -> string, i: nat, j: nat) {
    && i < |items| && j < |items|
    && var a, b := Score(text(items[i]), q), Score(text(items[j]), q);
       a.Some? && b.Some? && (a.value > b.value || (a.value == b.value && i < j))
  }

  /** What the filter promises of its result, `order` being the positions its items come from. */
  ghost predicate BestFirst<T(!new)>(items: seq<T>, q: string, text: T -> string, r: seq<T>, order: seq<nat>) {
    && |order| == |r|
    && (forall k :: 0 <= k < |r| ==> order[k] < |items| && r[k] == items[order[k]])
    && (forall i: nat :: i < |items| ==> (i in order <==> Score(text(items[i]), q).Some?))
    && (forall j, k :: 0 <= j < k < |order| ==> MatchesBefore(items, q, text, order[j], order[k]))
  }

  /** Exactly the matching items, stably sorted by descending score. */
  ghost predicate IsBestFirst<T(!new)>(items: seq<T>, q: string, text: T -> string, r: seq<T>) {
    exists order: seq<nat> :: BestFirst(items, q, text, r, order)
  }

  /** An empty or blank query leaves the list untouched; any other keeps exactly the matching items, stably sorted by descending score. */
  method FuzzyFilter<T(!new)>(items: seq<T>, query: string, text: T -> string) returns (r: seq<T>)
    ensures Trimmed(query) == "" ==> r == items
    ensures Trimmed(query) != "" ==> IsBestFirst(items, Trimmed(query), text, r)
  {
    hide Matching, Score;
    var q := Trimmed(query);
    if q == "" {
      return items;
    }
    NothingMatched(items, q, text);
    var scored: seq<Scored<T>> := [];
    ghost var from: seq<nat> := [];
    for n := 0 to |items|
      invariant Matching(items, n, q, text, scored, from)
    {
      var score := FuzzyScore(text(items[n]), q);
      ItemJoins(items, n, q, text, scored, from);
      if score.Some? {
        scored, from := scored + [Scored(items[n], score.value)], from + [n];
      }
    }
    var sorted := SortByScore(scored);
    ghost var ranks: seq<nat> :| Ranking(scored, |scored|, ranks) && Arranges(sorted, scored, ranks);
    r := seq(|sorted|, i requires 0 <= i < |sorted| => sorted[i].item);
    MatchingPairs(items, |items|, q, text, scored, from);
    ghost var order: seq<nat> := seq(|ranks|, i requires 0 <= i < |ranks| => from[ranks[i]]);
    RankedMatches(items, q, text, scored, from, ranks, order, sorted, r);
  }

  lemma {:induction false} RankedMatches<T(!new)>(items: seq<T>, q: string, text: T -> string, scored: seq<Scored<T>>, from: seq<nat>, ranks: seq<nat>, order: seq<nat>, sorted: seq<Scored<T>>, r: seq<T>)
    requires Matching(items, |items|, q, text, scored, from) && Ranking(scored, |scored|, ranks) && Arranges(sorted, scored, ranks)
    requires |order| == |ranks| && forall k :: 0 <= k < |order| ==> order[k] == from[ranks[k]]
    requires |r| == |sorted| && forall k :: 0 <= k < |r| ==> r[k] == sorted[k].item
    ensures BestFirst(items, q, text, r, order)
  {
    forall i: nat | i < |items| && Score(text(items[i]), q).Some?
      ensures i in order
    {
      var k :| 0 <= k < |from| && from[k] == i;
      assert k in ranks;
      var l :| 0 <= l < |ranks| && ranks[l] == k;
      assert order[l] == i;
    }
    forall j, k | 0 <= j < k < |order|
      ensures MatchesBefore(items, q, text, order[j], order[k])
    {
      assert Ahead(scored, ranks[j], ranks[k]);
    }
  }

  ghost predicate SortedBy(before: (nat, nat) -> bool, s: seq<nat>) {
    forall j, k :: 0 <= j < k < |s| ==> before(s[j], s[k])
  }

  /** Two lists of the same numbers in the same strict order agree, place by place. */
  lemma {:induction false} SortedListsAgree(before: (nat, nat) -> bool, a: seq<nat>, b: seq<nat>, n: nat)
    requires forall i, j :: before(i, j) ==> !before(j, i)
    requires SortedBy(before, a) && SortedBy(before, b) && (forall i :: i in a <==> i in b)
    requires n <= |a|
    ensures n <= |b| && forall k :: 0 <= k < n ==> a[k] == b[k]
    decreases n
  {
    if n > 0 {
      SortedListsAgree(before, a, b, n - 1);
      assert a[n - 1] in b;
      var k :| 0 <= k < |b| && b[k] == a[n - 1];
      assert k >= n - 1;
      assert b[n - 1] in a;
      var l :| 0 <= l < |a| && a[l] == b[n - 1];
      assert l >= n - 1;
      assert k == n - 1;
    }
  }

  lemma {:induction false} SameOrder<T(!new)>(items: seq<T>, q: string, text: T -> string, r: seq<T>, order: seq<nat>, r': seq<T>, order': seq<nat>)
    requires BestFirst(items, q, text, r, order) && BestFirst(items, q, text, r', order')
    ensures r == r'
  {
    var before := (i: nat, j: nat) => MatchesBefore(items, q, text, i, j);
    assert SortedBy(before, order) && SortedBy(before, order');
    assert forall i :: i in order <==> i in order';
    SortedListsAgree(before, order, order', |order|);
    SortedListsAgree(before, order', order, |order'|);
  }

  /** There is one such result: the promise leaves the filter no choice. */
  lemma {:induction false} BestFirstIsUnique<T(!new)>(items: seq<T>, q: string, text: T -> string, r: seq<T>, r': seq<T>)
    requires IsBestFirst(items, q, text, r) && IsBestFirst(items, q, text, r')
    ensures r == r'
  {
    var order: seq<nat> :| BestFirst(items, q, text, r, order);
    var order': seq<nat> :| BestFirst(items, q, text, r', order');
    SameOrder(items, q, text, r, order, r', order');
  }
}
