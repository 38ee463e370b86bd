/**
 What the cron preview's answer means in a zone whose offset changes, the changes being far
 enough apart.

 An answer fires, or names a wall clock a change skips (`AnswerFires`); no answer leaves only
 instants of a repeated hour (`NoneMeansShownBefore`), and so does every day before the
 answer's (`EarlierDaysShownBefore`). For one expression, or past the first day, an answer
 that fires is the earliest firing exactly when the inversion takes the earliest firing for
 the wall clock it shows (`ExactUnlessRepeated`).
 */
module CronZones {
  import opened Wrappers
  import opened Zones
  import opened Cron
  import opened CronAnswers

  /** The answer is an instant at which an expression fires, unless a change skips the wall clock it names; then it shows it off by exactly the shift. */
  lemma AnswerFires(best: int, crons: seq<CronSets>, z: Zone, bound: nat, from: int, start: nat) returns (k: nat, wall: int)
    requires Regular(z, bound) && AllBounded(crons) && Answers(Some(best), crons, z, from, start)
    ensures k < |crons| && best * 60000 > from
    ensures (forall i :: 0 <= i < |z.changes| ==> !Skips(z, i, wall)) ==> Fires(crons[k], z, best) && FiresInHorizon(best, crons, z, from, start)
    ensures forall i :: 0 <= i < |z.changes| && Skips(z, i, wall) ==>
              var shift := z.changes[i].offset - OffsetBefore(z, i);
              WallClock(z, best) == if wall >= z.changes[i].at then wall + shift else wall - shift
    ensures exists day, h, m :: InHorizon(start, day) && Hit(crons[k], z, from, day, h, m) && Wall(day, h, m) == wall && Inverted(z, wall) == best
  {
    hide DayMatches;
    var day := EarliestHitDay(best, crons, z, from, start);
    var k': nat, h, m :| k' < |crons| && Hit(crons[k'], z, from, day, h, m) && Inverted(z, Wall(day, h, m)) == best;
    k, wall := k', Wall(day, h, m);
    ShownUnlessSkipped(z, bound, wall);
    if t :| WallClock(z, t) == wall {
      TwoPassesFind(z, bound, t);
      ShowingAHitFires(crons[k], z, from, day, h, m, best);
    }
    forall i | 0 <= i < |z.changes| && Skips(z, i, wall)
      ensures var shift := z.changes[i].offset - OffsetBefore(z, i);
              WallClock(z, best) == if wall >= z.changes[i].at then wall + shift else wall - shift
    {
      SkippedMissesByShift(z, bound, i, wall);
    }
  }

  /** Without an answer, an expression fires after `from` only where its wall clock was already shown, by `from`: in an hour that is repeated. */
  lemma NoneMeansShownBefore(crons: seq<CronSets>, z: Zone, bound: nat, from: int, start: nat, t: int)
    requires Regular(z, bound) && Answers(None, crons, z, from, start) && FiresInHorizon(t, crons, z, from, start)
    ensures var first := Inverted(z, WallClock(z, t));
            WallClock(z, first) == WallClock(z, t) && first * 60000 <= from && first < t
  {
    TwoPassesFind(z, bound, t);
    var k :| 0 <= k < |crons| && Fires(crons[k], z, t);
    var day, h, m := FiringIsAHit(crons[k], z, from, t);
    var first := Inverted(z, WallClock(z, t));
    NoHitInHorizon(crons, z, from, start, first);
    assert Hit(crons[k], z, from, day, h, m) ==> HitAt(first, crons, z, from, day);
    assert InHorizon(start, day);
  }

  /** A firing the inversion takes is a hit of its own day. */
  lemma TakenIsAHit(t: int, crons: seq<CronSets>, z: Zone, from: int, start: nat) returns (k: nat, day: nat, h: nat, m: nat)
    requires FiresInHorizon(t, crons, z, from, start) && Taken(z, t)
    ensures k < |crons| && Hit(crons[k], z, from, day, h, m) && Wall(day, h, m) == WallClock(z, t)
    ensures InHorizon(start, day) && day == ZonedParts(z, t).day && HitAt(t, crons, z, from, day)
  {
    hide DayMatches;
    k :| 0 <= k < |crons| && Fires(crons[k], z, t);
    day, h, m := FiringIsAHit(crons[k], z, from, t);
  }

  /** On a day before the answer's, an expression fires after `from` only where its wall clock is inverted to `from` or before. */
  lemma EarlierDaysShownBefore(best: int, crons: seq<CronSets>, z: Zone, bound: nat, from: int, start: nat, t: int) returns (day: nat)
    requires Regular(z, bound) && Answers(Some(best), crons, z, from, start) && FiresInHorizon(t, crons, z, from, start)
    ensures InHorizon(start, day) && HitAt(best, crons, z, from, day)
    ensures ZonedParts(z, t).day < day ==>
              var first := Inverted(z, WallClock(z, t));
              WallClock(z, first) == WallClock(z, t) && first * 60000 <= from && first < t
  {
    hide DayMatches;
    day := EarliestHitDay(best, crons, z, from, start);
    TwoPassesFind(z, bound, t);
    var k :| 0 <= k < |crons| && Fires(crons[k], z, t);
    var tday, h, m := FiringIsAHit(crons[k], z, from, t);
    assert Hit(crons[k], z, from, tday, h, m) ==> AnyHitOnDay(crons, z, from, tday) by {
      if Hit(crons[k], z, from, tday, h, m) {
        HitsByHand(crons[k], z, from, tday, h, m);
      }
    }
  }

  // ----- firings before the answer

  /** A firing strictly between `from` and the answer. */
  ghost predicate Missed(t: int, best: int, crons: seq<CronSets>, z: Zone, from: int, start: nat) {
    FiresInHorizon(t, crons, z, from, start) && t < best
  }

  /** The hit an answer comes from. */
  datatype Source = Source(k: nat, day: nat, h: nat, m: nat)

  ghost predicate From(src: Source, best: int, crons: seq<CronSets>, z: Zone, from: int, start: nat) {
    && InHorizon(start, src.day) && src.k < |crons| && AnswersOnDay(best, crons, z, from, start, src.day)
    && Looked(src.day == start, crons, z, from, src.day, src.k, src.h, src.m) && Inverted(z, Wall(src.day, src.h, src.m)) == best
  }

  lemma AnswerHasSource(best: int, crons: seq<CronSets>, z: Zone, from: int, start: nat) returns (src: Source)
    requires Answers(Some(best), crons, z, from, start)
    ensures From(src, best, crons, z, from, start)
  {
    hide DayMatches, Inverted, Wall;
    var day :| InHorizon(start, day) && AnswersOnDay(best, crons, z, from, start, day);
    var k: nat, h, m :| k < |crons| && Looked(day == start, crons, z, from, day, k, h, m) && Inverted(z, Wall(day, h, m)) == best;
    src := Source(k, day, h, m);
  }

  lemma NoHitBefore(src: Source, best: int, crons: seq<CronSets>, z: Zone, from: int, start: nat, k: nat, day: nat, h: nat, m: nat)
    requires From(src, best, crons, z, from, start) && k < |crons| && Hit(crons[k], z, from, day, h, m) && start <= day
    ensures src.day <= day
  {
    hide DayMatches, Inverted, Wall;
    HitsByHand(crons[k], z, from, day, h, m);
    assert AnyHitOnDay(crons, z, from, day);
  }

  lemma WallsAscend(c: CronSets, day: nat, h: nat, m: nat, day': nat, h': nat, m': nat)
    requires Bounded(c) && h in c.hour && m in c.minute
    ensures day < day' || (day == day' && h < h') ==> Wall(day, h, m) < Wall(day', h', m')
  {
  }

  /** A firing the inversion takes comes before an answer that fires only on the first day, as a hit the search passed over. */
  lemma TakenAndMissed(src: Source, best: int, crons: seq<CronSets>, z: Zone, bound: nat, from: int, start: nat,
                       t: int, k: nat, day: nat, h: nat, m: nat)
    requires Regular(z, bound) && AllBounded(crons) && From(src, best, crons, z, from, start)
    requires WallClock(z, best) == Wall(src.day, src.h, src.m)
    requires Missed(t, best, crons, z, from, start) && Taken(z, t)
    requires k < |crons| && Hit(crons[k], z, from, day, h, m) && Wall(day, h, m) == WallClock(z, t) && InHorizon(start, day)
    ensures src.day == start == day && !Looked(true, crons, z, from, start, k, h, m) && Wall(day, h, m) <= Wall(src.day, src.h, src.m)
  {
    hide DayMatches;
    NoHitBefore(src, best, crons, z, from, start, k, day, h, m);
    WallsAscend(crons[src.k], src.day, src.h, src.m, day, h, m);
    if WallClock(z, best) < WallClock(z, t) {
      TakenAscend(z, bound, best, t);
    }
    LookedAtIsNoEarlier(src, best, crons, z, from, start, k, h, m);
  }

  lemma LookedAtIsNoEarlier(src: Source, best: int, crons: seq<CronSets>, z: Zone, from: int, start: nat, k: nat, h: nat, m: nat)
    requires From(src, best, crons, z, from, start) && k < |crons| && Hit(crons[k], z, from, src.day, h, m)
    ensures Looked(src.day == start, crons, z, from, src.day, k, h, m) ==> best <= Inverted(z, Wall(src.day, h, m))
    ensures src.day > start ==> Looked(src.day == start, crons, z, from, src.day, k, h, m)
  {
    hide DayMatches, Inverted, Wall;
  }

  /** With one expression, or past the first day, an answer that fires precedes every firing the inversion takes. */
  lemma PrecedesTaken(src: Source, best: int, crons: seq<CronSets>, z: Zone, bound: nat, from: int, start: nat, t: int)
    requires Regular(z, bound) && AllBounded(crons) && From(src, best, crons, z, from, start)
    requires WallClock(z, best) == Wall(src.day, src.h, src.m) && (|crons| == 1 || src.day > start)
    requires FiresInHorizon(t, crons, z, from, start) && Taken(z, t)
    ensures best <= t
  {
    var k, day, h, m := TakenIsAHit(t, crons, z, from, start);
    if t < best {
      TakenAndMissed(src, best, crons, z, bound, from, start, t, k, day, h, m);
      OnlyEarlierHours(crons, z, from, start, src.h, src.m, h, m);
      LaterHourIsLater(src, h, m);
    }
  }

  lemma LaterHourIsLater(src: Source, h: nat, m: nat)
    ensures src.h < h && src.m < 60 ==> Wall(src.day, src.h, src.m) < Wall(src.day, h, m)
  {
  }

  /** One expression: a hit that is not looked at is in a later hour than one that is. */
  lemma OnlyEarlierHours(crons: seq<CronSets>, z: Zone, from: int, start: nat, h: nat, m: nat, h': nat, m': nat)
    requires |crons| == 1 && Looked(true, crons, z, from, start, 0, h, m)
    requires Hit(crons[0], z, from, start, h', m') && !Looked(true, crons, z, from, start, 0, h', m')
    ensures h < h'
  {
    hide DayMatches, Inverted, Wall;
    var earlier :| earlier in crons[0].hour && earlier < h' && HitInHour(crons[0], z, from, start, earlier);
    assert !(earlier < h);
  }

  // ----- exactly when the answer is the earliest firing

  ghost predicate EarliestFiring(t: int, crons: seq<CronSets>, z: Zone, from: int, start: nat) {
    FiresInHorizon(t, crons, z, from, start) && forall u :: FiresInHorizon(u, crons, z, from, start) ==> t <= u
  }

  lemma SomeFiringIsEarliest(t: int, crons: seq<CronSets>, z: Zone, from: int, start: nat) returns (first: int)
    requires FiresInHorizon(t, crons, z, from, start)
    ensures EarliestFiring(first, crons, z, from, start)
    decreases t - from / 60000
  {
    if u :| FiresInHorizon(u, crons, z, from, start) && u < t {
      first := SomeFiringIsEarliest(u, crons, z, from, start);
    } else {
      first := t;
    }
  }

  /** The wall clock an answer names is shown: no change skips it. */
  predicate NamesShown(src: Source, z: Zone) {
    forall i :: 0 <= i < |z.changes| ==> !Skips(z, i, Wall(src.day, src.h, src.m))
  }

  lemma ShownAnswerFires(src: Source, best: int, crons: seq<CronSets>, z: Zone, bound: nat, from: int, start: nat)
    requires Regular(z, bound) && AllBounded(crons) && From(src, best, crons, z, from, start)
    ensures NamesShown(src, z) <==> WallClock(z, best) == Wall(src.day, src.h, src.m)
    ensures NamesShown(src, z) ==> FiresInHorizon(best, crons, z, from, start) && Taken(z, best)
  {
    hide DayMatches;
    var wall := Wall(src.day, src.h, src.m);
    ShownUnlessSkipped(z, bound, wall);
    if NamesShown(src, z) {
      var t :| WallClock(z, t) == wall;
      TwoPassesFind(z, bound, t);
      ShowingAHitFires(crons[src.k], z, from, src.day, src.h, src.m, best);
    }
  }

  /**
   For one expression, or past the first day: an answer whose wall clock no change skips is
   the earliest firing exactly when the earliest firing is the instant the inversion takes
   for the wall clock it shows, which `Zones.NotTakenExactly` says it is unless a change
   repeats that wall clock.
   */
  lemma ExactUnlessRepeated(src: Source, best: int, crons: seq<CronSets>, z: Zone, bound: nat, from: int, start: nat)
    requires Regular(z, bound) && AllBounded(crons) && From(src, best, crons, z, from, start)
    requires NamesShown(src, z) && (|crons| == 1 || src.day > start)
    ensures EarliestFiring(best, crons, z, from, start) <==> forall t :: EarliestFiring(t, crons, z, from, start) ==> Taken(z, t)
    ensures forall t :: Missed(t, best, crons, z, from, start) ==> !Taken(z, t)
  {
    hide FiresInHorizon, Taken, Answers, From;
    ShownAnswerFires(src, best, crons, z, bound, from, start);
    forall t | FiresInHorizon(t, crons, z, from, start) && Taken(z, t)
      ensures best <= t
    {
      PrecedesTaken(src, best, crons, z, bound, from, start, t);
    }
    var first := SomeFiringIsEarliest(best, crons, z, from, start);
    assert FiresInHorizon(first, crons, z, from, start);
  }

  /** The instant is the showing of a repeated wall clock that the inversion does not take. */
  ghost predicate OtherShowing(z: Zone, t: int) {
    exists i :: 0 <= i < |z.changes| && Repeats(z, i, WallClock(z, t)) && t == NotTaken(z, i, WallClock(z, t))
  }

  /** The answer misses a firing exactly when the earliest firing is the other showing of a wall clock that a change repeats; and it misses no firing but such. */
  lemma MissedExactly(src: Source, best: int, crons: seq<CronSets>, z: Zone, bound: nat, from: int, start: nat)
    requires Regular(z, bound) && AllBounded(crons) && From(src, best, crons, z, from, start)
    requires NamesShown(src, z) && (|crons| == 1 || src.day > start)
    ensures (exists t :: Missed(t, best, crons, z, from, start)) <==> exists t :: EarliestFiring(t, crons, z, from, start) && OtherShowing(z, t)
    ensures forall t :: Missed(t, best, crons, z, from, start) ==> OtherShowing(z, t)
  {
    hide FiresInHorizon, Taken, Answers, From, OtherShowing;
    ExactUnlessRepeated(src, best, crons, z, bound, from, start);
    ShownAnswerFires(src, best, crons, z, bound, from, start);
    forall t
      ensures OtherShowing(z, t) <==> !Taken(z, t)
    {
      TakenUnlessOther(z, bound, t);
    }
    var first := SomeFiringIsEarliest(best, crons, z, from, start);
    assert first == best || Missed(first, best, crons, z, from, start);
  }

  lemma TakenUnlessOther(z: Zone, bound: nat, t: int)
    requires Regular(z, bound)
    ensures OtherShowing(z, t) <==> !Taken(z, t)
  {
    NotTakenExactly(z, bound, t);
  }
}
