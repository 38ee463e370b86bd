/**
 What the cron preview's answer means: whether, when and on which day an expression fires,
 an instant firing when the local clock then shows what an expression names.

 Under a fixed offset: no answer means nothing fires in nine days (`NoneInHorizon`); an
 answer fires, on the earliest day on which anything does (`EarliestDay`); and it is the
 earliest of all exactly when the first day's search does not pass over that day's earliest
 hit (`ExactUnlessOverlooked`), as for a list of one expression. `CronZones` is about zones
 with changes, `CronTexts` about expression texts.
 */
module CronAnswers {
  import opened Wrappers
  import opened Listing
  import opened Calendar
  import opened Zones
  import opened Cron

  // ----- what the answer means

  /** `t` is the instant of a hit of the day. */
  ghost predicate HitAt(t: int, crons: seq<CronSets>, z: Zone, from: int, day: nat) {
    exists k: nat, h, m :: k < |crons| && Hit(crons[k], z, from, day, h, m) && Inverted(z, Wall(day, h, m)) == t
  }

  /** `t` is the instant the search computes for a hit within the horizon. */
  ghost predicate HitInHorizon(t: int, crons: seq<CronSets>, z: Zone, from: int, start: nat) {
    exists day :: InHorizon(start, day) && HitAt(t, crons, z, from, day)
  }

  lemma HitAtIsHit(t: int, crons: seq<CronSets>, z: Zone, from: int, day: nat)
    requires HitAt(t, crons, z, from, day)
    ensures AnyHitOnDay(crons, z, from, day) && t * 60000 > from
  {
    var k: nat, h, m :| k < |crons| && Hit(crons[k], z, from, day, h, m) && Inverted(z, Wall(day, h, m)) == t;
    HitsByHand(crons[k], z, from, day, h, m);
  }

  lemma LeastLookedIsHit(best: int, first: bool, crons: seq<CronSets>, z: Zone, from: int, day: nat)
    requires LeastLooked(Some(best), |crons|, first, crons, z, from, day)
    ensures HitAt(best, crons, z, from, day)
  {
    var k: nat, h, m :| k < |crons| && Looked(first, crons, z, from, day, k, h, m) && Inverted(z, Wall(day, h, m)) == best;
    assert Hit(crons[k], z, from, day, h, m);
  }

  /** Past the first day every hit is looked at. */
  lemma LaterDayIsExact(best: int, crons: seq<CronSets>, z: Zone, from: int, day: nat, t: int)
    requires LeastLooked(Some(best), |crons|, false, crons, z, from, day) && HitAt(t, crons, z, from, day)
    ensures best <= t
  {
    var k: nat, h, m :| k < |crons| && Hit(crons[k], z, from, day, h, m) && Inverted(z, Wall(day, h, m)) == t;
    assert Looked(false, crons, z, from, day, k, h, m);
  }

  lemma NoHitInHorizon(crons: seq<CronSets>, z: Zone, from: int, start: nat, t: int)
    requires Answers(None, crons, z, from, start)
    ensures !HitInHorizon(t, crons, z, from, start)
  {
  }

  lemma EarliestHitDay(best: int, crons: seq<CronSets>, z: Zone, from: int, start: nat) returns (day: nat)
    requires Answers(Some(best), crons, z, from, start)
    ensures InHorizon(start, day) && HitAt(best, crons, z, from, day) && best * 60000 > from
    ensures LeastLooked(Some(best), |crons|, day == start, crons, z, from, day)
    ensures forall earlier: nat :: start <= earlier < day ==> !AnyHitOnDay(crons, z, from, earlier)
    ensures forall t :: day > start && HitAt(t, crons, z, from, day) ==> best <= t
  {
    hide DayMatches, Inverted, Wall;
    day :| InHorizon(start, day) && AnswersOnDay(best, crons, z, from, start, day);
    LeastLookedIsHit(best, day == start, crons, z, from, day);
    HitAtIsHit(best, crons, z, from, day);
    forall t | day > start && HitAt(t, crons, z, from, day)
      ensures best <= t
    {
      LaterDayIsExact(best, crons, z, from, day, t);
    }
  }

  lemma FixedOffsetShowsWall(z: Zone, wall: int)
    requires z.changes == []
    ensures Inverted(z, wall) == wall - z.base && WallClock(z, Inverted(z, wall)) == wall
  {
  }

  predicate NotFirstHour(c: CronSets, h: nat) {
    exists lower :: lower in c.hour && lower < h
  }

  /** A first-day hit the search passes over: of an expression after one that hits, and outside its first hour. */
  predicate Overlooked(crons: seq<CronSets>, z: Zone, from: int, start: nat, k: nat, h: nat, m: nat) {
    && k < |crons| && Hit(crons[k], z, from, start, h, m)
    && EarlierExpressionHits(crons, z, from, start, k) && NotFirstHour(crons[k], h)
  }

  /** No hit of the first day is earlier than this one. */
  ghost predicate EarliestHit(crons: seq<CronSets>, z: Zone, from: int, start: nat, h: nat, m: nat) {
    && (exists k: nat :: k < |crons| && Hit(crons[k], z, from, start, h, m))
    && forall k: nat, h', m' :: k < |crons| && Hit(crons[k], z, from, start, h', m') ==> Inverted(z, Wall(start, h, m)) <= Inverted(z, Wall(start, h', m'))
  }

  /**
   The earliest first-day hit is passed over for every expression that has it: each comes
   after one that hits that day, and hits there outside its own first hour.
   */
  ghost predicate OverlooksEarliest(crons: seq<CronSets>, z: Zone, from: int, start: nat) {
    exists h, m :: EarliestHit(crons, z, from, start, h, m) && AllOverlook(crons, z, from, start, h, m)
  }

  ghost predicate AllOverlook(crons: seq<CronSets>, z: Zone, from: int, start: nat, h: nat, m: nat) {
    forall k: nat :: k < |crons| && Hit(crons[k], z, from, start, h, m) ==> Overlooked(crons, z, from, start, k, h, m)
  }

  ghost predicate HitPassedOver(best: int, crons: seq<CronSets>, z: Zone, from: int, start: nat) {
    exists k, h, m :: Overlooked(crons, z, from, start, k, h, m) && Inverted(z, Wall(start, h, m)) < best
  }

  ghost predicate AllBounded(crons: seq<CronSets>) {
    forall k :: 0 <= k < |crons| ==> Bounded(crons[k])
  }

  lemma HitMeansFirstDay(best: int, crons: seq<CronSets>, z: Zone, from: int, start: nat, k: nat, h: nat, m: nat)
    requires Answers(Some(best), crons, z, from, start) && k < |crons| && Hit(crons[k], z, from, start, h, m)
    ensures LeastLooked(Some(best), |crons|, true, crons, z, from, start)
  {
    hide DayMatches, Inverted, Wall;
    HitsByHand(crons[k], z, from, start, h, m);
    assert AnyHitOnDay(crons, z, from, start);
  }

  function OfMinute(h: nat, m: nat): nat {
    h * 60 + m
  }

  lemma MinuteOrder(z: Zone, c: CronSets, d: CronSets, day: nat, h: nat, m: nat, h': nat, m': nat)
    requires z.changes == [] && Bounded(c) && Bounded(d) && h in c.hour && m in c.minute && h' in d.hour && m' in d.minute
    ensures Inverted(z, Wall(day, h, m)) <= Inverted(z, Wall(day, h', m')) <==> OfMinute(h, m) <= OfMinute(h', m')
    ensures OfMinute(h, m) < 1440 && OfMinute(h, m) / 60 == h && OfMinute(h, m) % 60 == m
    ensures OfMinute(h, m) == OfMinute(h', m') <==> h == h' && m == m'
  {
    FixedOffsetShowsWall(z, Wall(day, h, m));
    FixedOffsetShowsWall(z, Wall(day, h', m'));
  }

  ghost predicate HitAtMinute(crons: seq<CronSets>, z: Zone, from: int, start: nat, n: nat) {
    exists k: nat :: k < |crons| && Hit(crons[k], z, from, start, n / 60, n % 60)
  }

  lemma SomeHitIsEarliest(crons: seq<CronSets>, z: Zone, from: int, start: nat, k: nat, h: nat, m: nat) returns (h0: nat, m0: nat)
    requires z.changes == [] && AllBounded(crons) && k < |crons| && Hit(crons[k], z, from, start, h, m)
    ensures EarliestHit(crons, z, from, start, h0, m0)
  {
    hide DayMatches;
    var minutes := set n | 0 <= n < 1440 && HitAtMinute(crons, z, from, start, n);
    MinuteOrder(z, crons[k], crons[k], start, h, m, h, m);
    assert HitAtMinute(crons, z, from, start, OfMinute(h, m)) && OfMinute(h, m) in minutes;
    var n := Lowest(minutes);
    h0, m0 := n / 60, n % 60;
    assert n in minutes;
    var k0: nat :| k0 < |crons| && Hit(crons[k0], z, from, start, h0, m0);
    forall k': nat, h', m' | k' < |crons| && Hit(crons[k'], z, from, start, h', m')
      ensures Inverted(z, Wall(start, h0, m0)) <= Inverted(z, Wall(start, h', m'))
    {
      MinuteOrder(z, crons[k0], crons[k'], start, h0, m0, h', m');
      MinuteOrder(z, crons[k'], crons[k'], start, h', m', h', m');
      assert HitAtMinute(crons, z, from, start, OfMinute(h', m')) && OfMinute(h', m') in minutes;
    }
  }

  /** Of the earliest hits, one that is not passed over is looked at. */
  lemma EarliestIsLookedAt(crons: seq<CronSets>, z: Zone, from: int, start: nat, k: nat, h: nat, m: nat)
    requires z.changes == [] && AllBounded(crons) && k < |crons| && Hit(crons[k], z, from, start, h, m)
    requires EarliestHit(crons, z, from, start, h, m) && !Overlooked(crons, z, from, start, k, h, m)
    ensures Looked(true, crons, z, from, start, k, h, m)
  {
    forall earlier, m' | earlier in crons[k].hour && earlier < h && m' in crons[k].minute
      ensures !Hit(crons[k], z, from, start, earlier, m')
    {
      LaterDayIsLater(z, crons[k], crons[k], start, earlier, m', start, h, m);
    }
  }

  lemma PassedOverIsEarliest(best: int, crons: seq<CronSets>, z: Zone, from: int, start: nat)
    requires z.changes == [] && AllBounded(crons) && Answers(Some(best), crons, z, from, start)
    requires HitPassedOver(best, crons, z, from, start)
    ensures OverlooksEarliest(crons, z, from, start)
  {
    hide DayMatches, Inverted, Wall;
    var k, h, m :| Overlooked(crons, z, from, start, k, h, m) && Inverted(z, Wall(start, h, m)) < best;
    HitMeansFirstDay(best, crons, z, from, start, k, h, m);
    var h0, m0 := SomeHitIsEarliest(crons, z, from, start, k, h, m);
    forall k0: nat | k0 < |crons| && Hit(crons[k0], z, from, start, h0, m0)
      ensures Overlooked(crons, z, from, start, k0, h0, m0)
    {
      if !Overlooked(crons, z, from, start, k0, h0, m0) {
        EarliestIsLookedAt(crons, z, from, start, k0, h0, m0);
      }
    }
    assert AllOverlook(crons, z, from, start, h0, m0);
  }

  lemma EarliestIsPassedOver(best: int, crons: seq<CronSets>, z: Zone, from: int, start: nat)
    requires z.changes == [] && AllBounded(crons) && Answers(Some(best), crons, z, from, start)
    requires OverlooksEarliest(crons, z, from, start)
    ensures HitPassedOver(best, crons, z, from, start)
  {
    hide DayMatches, Inverted, Wall;
    var h, m :| EarliestHit(crons, z, from, start, h, m) && AllOverlook(crons, z, from, start, h, m);
    var k: nat :| k < |crons| && Hit(crons[k], z, from, start, h, m);
    assert Overlooked(crons, z, from, start, k, h, m);
    HitMeansFirstDay(best, crons, z, from, start, k, h, m);
    var j: nat, h', m' :| j < |crons| && Looked(true, crons, z, from, start, j, h', m') && Inverted(z, Wall(start, h', m')) == best;
    MinuteOrder(z, crons[k], crons[j], start, h, m, h', m');
    MinuteOrder(z, crons[j], crons[k], start, h', m', h, m);
    if OfMinute(h, m) == OfMinute(h', m') {
      LookedIsNotOverlooked(crons, z, from, start, j, h, m);
    }
  }

  lemma LookedIsNotOverlooked(crons: seq<CronSets>, z: Zone, from: int, start: nat, k: nat, h: nat, m: nat)
    requires k < |crons| && Looked(true, crons, z, from, start, k, h, m)
    ensures !Overlooked(crons, z, from, start, k, h, m)
  {
  }

  lemma LaterDayIsLater(z: Zone, c: CronSets, d: CronSets, day: nat, h: nat, m: nat, day': nat, h': nat, m': nat)
    requires z.changes == [] && Bounded(c) && Bounded(d) && h in c.hour && m in c.minute && h' in d.hour && m' in d.minute
    ensures day < day' || (day == day' && h < h') ==> Inverted(z, Wall(day, h, m)) < Inverted(z, Wall(day', h', m'))
  {
  }

  /** A hit of the answer's first day that was not looked at either follows the answer, or is one the search overlooks. */
  lemma UnlookedHit(best: int, crons: seq<CronSets>, z: Zone, from: int, start: nat, k: nat, h: nat, m: nat)
    requires z.changes == [] && AllBounded(crons)
    requires LeastLooked(Some(best), |crons|, true, crons, z, from, start) && !HitPassedOver(best, crons, z, from, start)
    requires k < |crons| && Hit(crons[k], z, from, start, h, m)
    ensures best <= Inverted(z, Wall(start, h, m))
  {
    hide DayMatches;
    HitsByHand(crons[k], z, from, start, h, m);
    if EarlierExpressionHits(crons, z, from, start, k) {
      if NotFirstHour(crons[k], h) {
        assert Overlooked(crons, z, from, start, k, h, m);
      } else {
        assert Looked(true, crons, z, from, start, k, h, m);
      }
    } else {
      var h', m' := FirstHourWithHit(crons[k], z, from, start);
      assert Looked(true, crons, z, from, start, k, h', m');
      if h' == h {
        assert Looked(true, crons, z, from, start, k, h, m);
      } else {
        LaterDayIsLater(z, crons[k], crons[k], start, h', m', start, h, m);
      }
    }
  }

  lemma FirstDayIsExact(best: int, crons: seq<CronSets>, z: Zone, from: int, start: nat, t: int)
    requires z.changes == [] && AllBounded(crons)
    requires LeastLooked(Some(best), |crons|, true, crons, z, from, start) && !HitPassedOver(best, crons, z, from, start)
    requires HitAt(t, crons, z, from, start)
    ensures best <= t
  {
    var k: nat, h, m :| k < |crons| && Hit(crons[k], z, from, start, h, m) && Inverted(z, Wall(start, h, m)) == t;
    UnlookedHit(best, crons, z, from, start, k, h, m);
  }

  lemma LaterHitIsLater(crons: seq<CronSets>, z: Zone, from: int, t: int, day: nat, t': int, day': nat)
    requires z.changes == [] && AllBounded(crons)
    requires HitAt(t, crons, z, from, day) && HitAt(t', crons, z, from, day') && day < day'
    ensures t < t'
  {
    hide DayMatches;
    var k: nat, h, m :| k < |crons| && Hit(crons[k], z, from, day, h, m) && Inverted(z, Wall(day, h, m)) == t;
    var k': nat, h', m' :| k' < |crons| && Hit(crons[k'], z, from, day', h', m') && Inverted(z, Wall(day', h', m')) == t';
    LaterDayIsLater(z, crons[k], crons[k'], day, h, m, day', h', m');
  }

  lemma OverlookedIsHit(best: int, crons: seq<CronSets>, z: Zone, from: int, start: nat) returns (t: int)
    requires HitPassedOver(best, crons, z, from, start)
    ensures t < best && HitInHorizon(t, crons, z, from, start)
  {
    var k, h, m :| Overlooked(crons, z, from, start, k, h, m) && Inverted(z, Wall(start, h, m)) < best;
    t := Inverted(z, Wall(start, h, m));
    assert InHorizon(start, start) && HitAt(t, crons, z, from, start);
  }

  lemma NothingEarlierOn(best: int, crons: seq<CronSets>, z: Zone, from: int, start: nat, day: nat, t: int, day': nat)
    requires z.changes == [] && AllBounded(crons)
    requires AnswersOnDay(best, crons, z, from, start, day) && HitAt(best, crons, z, from, day) && start <= day
    requires !HitPassedOver(best, crons, z, from, start) && start <= day' && HitAt(t, crons, z, from, day')
    ensures best <= t
  {
    hide DayMatches, Inverted, Wall;
    if day' > day {
      LaterHitIsLater(crons, z, from, best, day, t, day');
    } else if day' < day {
      HitAtIsHit(t, crons, z, from, day');
    } else if day == start {
      FirstDayIsExact(best, crons, z, from, start, t);
    } else {
      LaterDayIsExact(best, crons, z, from, day, t);
    }
  }

  lemma NothingEarlier(best: int, crons: seq<CronSets>, z: Zone, from: int, start: nat, t: int)
    requires z.changes == [] && Answers(Some(best), crons, z, from, start) && AllBounded(crons)
    requires !HitPassedOver(best, crons, z, from, start) && HitInHorizon(t, crons, z, from, start)
    ensures best <= t
  {
    hide DayMatches, Inverted, Wall;
    var day :| InHorizon(start, day) && AnswersOnDay(best, crons, z, from, start, day);
    var day' :| InHorizon(start, day') && HitAt(t, crons, z, from, day');
    LeastLookedIsHit(best, day == start, crons, z, from, day);
    NothingEarlierOn(best, crons, z, from, start, day, t, day');
  }

  // ----- local time

  /** The expression names what the local clock shows at `t`. */
  predicate Fires(c: CronSets, z: Zone, t: int) {
    var p := ZonedParts(z, t);
    p.day >= 0 && DayMatches(c, p.day) && p.hour in c.hour && p.minute in c.minute
  }

  /** Some expression fires at `t`, after `from` and on one of the nine days from `start`. */
  ghost predicate FiresInHorizon(t: int, crons: seq<CronSets>, z: Zone, from: int, start: nat) {
    && t * 60000 > from
    && start <= ZonedParts(z, t).day <= start + SCAN_DAYS
    && exists k :: 0 <= k < |crons| && Fires(crons[k], z, t)
  }

  lemma PartsOfWall(day: nat, h: nat, m: nat)
    requires h < 24 && m < 60
    ensures PartsOf(Wall(day, h, m)) == Parts(day, h, m)
  {
    var p := PartsOf(Wall(day, h, m));
    assert p.day * 1440 + p.hour * 60 + p.minute == day * 1440 + h * 60 + m;
  }

  /** An instant showing the wall clock of a hit is one at which the expression fires. */
  lemma ShowingAHitFires(c: CronSets, z: Zone, from: int, day: nat, h: nat, m: nat, t: int)
    requires Bounded(c) && Hit(c, z, from, day, h, m) && WallClock(z, t) == Wall(day, h, m)
    ensures Fires(c, z, t) && ZonedParts(z, t).day == day
  {
    PartsOfWall(day, h, m);
  }

  /** And where the expression fires, the inversion of the wall clock shown is a hit, unless it is not after `from`. */
  lemma FiringIsAHit(c: CronSets, z: Zone, from: int, t: int) returns (day: nat, h: nat, m: nat)
    requires Fires(c, z, t)
    ensures day == ZonedParts(z, t).day && Wall(day, h, m) == WallClock(z, t)
    ensures Inverted(z, WallClock(z, t)) * 60000 > from ==> Hit(c, z, from, day, h, m)
  {
    var p := ZonedParts(z, t);
    day, h, m := p.day, p.hour, p.minute;
  }

  /** Under a fixed offset the two notions agree: the hits' instants are the firings. */
  lemma HitsAreFirings(t: int, crons: seq<CronSets>, z: Zone, from: int, start: nat)
    requires z.changes == [] && AllBounded(crons)
    ensures HitInHorizon(t, crons, z, from, start) <==> FiresInHorizon(t, crons, z, from, start)
  {
    hide DayMatches;
    if HitInHorizon(t, crons, z, from, start) {
      var day :| InHorizon(start, day) && HitAt(t, crons, z, from, day);
      var k: nat, h, m :| k < |crons| && Hit(crons[k], z, from, day, h, m) && Inverted(z, Wall(day, h, m)) == t;
      FixedOffsetShowsWall(z, Wall(day, h, m));
      ShowingAHitFires(crons[k], z, from, day, h, m, t);
    }
    if FiresInHorizon(t, crons, z, from, start) {
      var k :| 0 <= k < |crons| && Fires(crons[k], z, t);
      FixedOffsetShowsWall(z, WallClock(z, t));
      var day, h, m := FiringIsAHit(crons[k], z, from, t);
      assert InHorizon(start, day) && HitAt(t, crons, z, from, day);
    }
  }

  // ----- a fixed offset

  /** Without an answer nothing fires in the horizon. */
  lemma NoneInHorizon(crons: seq<CronSets>, z: Zone, from: int, start: nat, t: int)
    requires z.changes == [] && AllBounded(crons) && Answers(None, crons, z, from, start)
    ensures !FiresInHorizon(t, crons, z, from, start)
  {
    HitsAreFirings(t, crons, z, from, start);
    NoHitInHorizon(crons, z, from, start, t);
  }

  lemma HitDayOfFiring(t: int, crons: seq<CronSets>, z: Zone, from: int, start: nat)
    requires z.changes == [] && AllBounded(crons) && FiresInHorizon(t, crons, z, from, start)
    ensures HitAt(t, crons, z, from, ZonedParts(z, t).day) && AnyHitOnDay(crons, z, from, ZonedParts(z, t).day)
  {
    hide DayMatches;
    var k :| 0 <= k < |crons| && Fires(crons[k], z, t);
    FixedOffsetShowsWall(z, WallClock(z, t));
    var day, h, m := FiringIsAHit(crons[k], z, from, t);
    HitAtIsHit(t, crons, z, from, day);
  }

  lemma FiresNoEarlier(best: int, crons: seq<CronSets>, z: Zone, from: int, start: nat, day: nat, t: int)
    requires z.changes == [] && AllBounded(crons) && FiresInHorizon(t, crons, z, from, start)
    requires start <= day && HitAt(best, crons, z, from, day)
    requires forall earlier: nat :: start <= earlier < day ==> !AnyHitOnDay(crons, z, from, earlier)
    requires forall u :: day > start && HitAt(u, crons, z, from, day) ==> best <= u
    ensures day <= ZonedParts(z, t).day && (day > start ==> best <= t)
  {
    hide DayMatches, Inverted, Wall;
    HitDayOfFiring(t, crons, z, from, start);
    if day < ZonedParts(z, t).day {
      LaterHitIsLater(crons, z, from, best, day, t, ZonedParts(z, t).day);
    }
  }

  lemma DayOfHit(t: int, crons: seq<CronSets>, z: Zone, from: int, start: nat, day: nat)
    requires z.changes == [] && AllBounded(crons) && HitAt(t, crons, z, from, day) && InHorizon(start, day)
    ensures ZonedParts(z, t).day == day && FiresInHorizon(t, crons, z, from, start)
  {
    hide DayMatches;
    HitsAreFirings(t, crons, z, from, start);
    var k: nat, h, m :| k < |crons| && Hit(crons[k], z, from, day, h, m) && Inverted(z, Wall(day, h, m)) == t;
    FixedOffsetShowsWall(z, Wall(day, h, m));
    ShowingAHitFires(crons[k], z, from, day, h, m, t);
  }

  /** An answer fires, on the earliest day on which anything does, and as early on that day as anything unless it is the first day. */
  lemma EarliestDay(best: int, crons: seq<CronSets>, z: Zone, from: int, start: nat)
    requires z.changes == [] && AllBounded(crons) && Answers(Some(best), crons, z, from, start)
    ensures FiresInHorizon(best, crons, z, from, start)
    ensures forall t :: FiresInHorizon(t, crons, z, from, start) ==> ZonedParts(z, best).day <= ZonedParts(z, t).day
    ensures ZonedParts(z, best).day > start ==> forall t :: FiresInHorizon(t, crons, z, from, start) ==> best <= t
  {
    hide Answers, HitAt, FiresInHorizon, ZonedParts, LeastLooked, AnyHitOnDay;
    var day := EarliestHitDay(best, crons, z, from, start);
    DayOfHit(best, crons, z, from, start, day);
    forall t | FiresInHorizon(t, crons, z, from, start)
      ensures day <= ZonedParts(z, t).day && (day > start ==> best <= t)
    {
      FiresNoEarlier(best, crons, z, from, start, day, t);
    }
  }

  /** The answer is the earliest firing of all exactly when the first day's search does not pass over that day's earliest hit. */
  lemma ExactUnlessOverlooked(best: int, crons: seq<CronSets>, z: Zone, from: int, start: nat)
    requires z.changes == [] && AllBounded(crons) && Answers(Some(best), crons, z, from, start)
    ensures (forall t :: FiresInHorizon(t, crons, z, from, start) ==> best <= t) <==> !OverlooksEarliest(crons, z, from, start)
  {
    if OverlooksEarliest(crons, z, from, start) {
      EarliestIsPassedOver(best, crons, z, from, start);
      var t := OverlookedIsHit(best, crons, z, from, start);
      HitsAreFirings(t, crons, z, from, start);
    } else {
      forall t | FiresInHorizon(t, crons, z, from, start)
        ensures best <= t
      {
        HitsAreFirings(t, crons, z, from, start);
        if HitPassedOver(best, crons, z, from, start) {
          PassedOverIsEarliest(best, crons, z, from, start);
        }
        NothingEarlier(best, crons, z, from, start, t);
      }
    }
  }

  /** For one expression, the answer is the earliest firing. */
  lemma OneExpressionIsExact(best: int, c: CronSets, z: Zone, from: int, start: nat)
    requires z.changes == [] && Bounded(c) && Answers(Some(best), [c], z, from, start)
    ensures forall t :: FiresInHorizon(t, [c], z, from, start) ==> best <= t
  {
    ExactUnlessOverlooked(best, [c], z, from, start);
  }
}
