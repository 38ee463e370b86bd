/**
 The cron preview: parsing an expression into sets, and the bounded search for the next
 activation of a list of expressions.

 `Answers` says what the search returns: nothing, or the least of the hits it looked at on
 the earliest day that has a hit. On the first day it stops looking through an expression's
 hours as soon as anything was found, for any expression (`Looked`). What that means in
 instants and wall clocks is the subject of `CronAnswers`.
 */
module Cron {
  import opened Wrappers
  import opened Text
  import opened Listing
  import opened Calendar
  import opened CronFields
  import opened Zones

  datatype CronSets = CronSets(
    minute: set<nat>, hour: set<nat>, dom: set<nat>, month: set<nat>, dow: set<nat>,
    domRestricted: bool, dowRestricted: bool)

  // ----- parsing an expression

  function WordEnd(s: string): (n: nat)
    ensures n <= |s| && (s != "" && !IsSpace(s[0]) ==> n > 0)
  {
    if s == "" || IsSpace(s[0]) then 0 else 1 + WordEnd(s[1..])
  }

  /** The text between runs of white space. */
  function Words(s: string): seq<string>
    decreases |s|
  {
    if s == "" then []
    else if IsSpace(s[0]) then Words(s[1..])
    else [s[..WordEnd(s)]] + Words(s[WordEnd(s)..])
  }

  predicate ValidExpression(expr: string) {
    var parts := Words(expr);
    && |parts| == 5
    && WellFormed(parts[0], MINUTE) && WellFormed(parts[1], HOUR) && WellFormed(parts[2], DAY_OF_MONTH)
    && WellFormed(parts[3], MONTH) && WellFormed(parts[4], DAY_OF_WEEK)
  }

  ghost predicate FieldIs(s: set<nat>, part: string, f: Field) {
    s != {} && forall n :: n in s <==> Denotes(part, f, n)
  }

  /** The sets a valid expression stands for, and which of its day fields are restricted. */
  ghost predicate Parsed(c: CronSets, expr: string) {
    && ValidExpression(expr)
    && var parts := Words(expr);
       && FieldIs(c.minute, parts[0], MINUTE) && FieldIs(c.hour, parts[1], HOUR) && FieldIs(c.dom, parts[2], DAY_OF_MONTH)
       && FieldIs(c.month, parts[3], MONTH) && FieldIs(c.dow, parts[4], DAY_OF_WEEK)
       && (c.domRestricted <==> parts[2] != "*") && (c.dowRestricted <==> parts[4] != "*")
  }

  method ParseCron(expr: string) returns (r: Option<CronSets>)
    ensures r.Some? <==> ValidExpression(expr)
    ensures r.Some? ==> Parsed(r.value, expr)
  {
    var parts := Words(expr);
    if |parts| != 5 {
      return None;
    }
    var minute := ParseField(parts[0], MINUTE);
    var hour := ParseField(parts[1], HOUR);
    var dom := ParseField(parts[2], DAY_OF_MONTH);
    var month := ParseField(parts[3], MONTH);
    var dow := ParseField(parts[4], DAY_OF_WEEK);
    if minute.None? || hour.None? || dom.None? || month.None? || dow.None? {
      return None;
    }
    r := Some(CronSets(minute.value, hour.value, dom.value, month.value, dow.value, parts[2] != "*", parts[4] != "*"));
  }

  // ----- which wall clocks an expression names

  /** When both day fields are restricted, either may match; otherwise both must. */
  predicate DayMatches(c: CronSets, day: nat) {
    var date := Civil(day);
    var domOk, dowOk := date.day in c.dom, Weekday(day) in c.dow;
    && date.month in c.month
    && (if c.domRestricted && c.dowRestricted then domOk || dowOk else domOk && dowOk)
  }

  function Wall(day: nat, h: nat, m: nat): int {
    day * 1440 + h * 60 + m
  }

  /** The expression names this hour and minute of the day, and the instant found for it is after `from` (milliseconds). */
  predicate Hit(c: CronSets, z: Zone, from: int, day: nat, h: nat, m: nat) {
    DayMatches(c, day) && h in c.hour && m in c.minute && Inverted(z, Wall(day, h, m)) * 60000 > from
  }

  predicate HitInHour(c: CronSets, z: Zone, from: int, day: nat, h: nat) {
    exists m :: m in c.minute && Hit(c, z, from, day, h, m)
  }

  predicate HitOnDay(c: CronSets, z: Zone, from: int, day: nat) {
    exists h :: h in c.hour && HitInHour(c, z, from, day, h)
  }

  predicate AnyHitOnDay(crons: seq<CronSets>, z: Zone, from: int, day: nat) {
    exists k :: 0 <= k < |crons| && HitOnDay(crons[k], z, from, day)
  }

  // ----- the search

  /** The smaller of what was found before and a new instant. */
  function Better(best: Option<int>, at: int): Option<int> {
    if best.None? || at < best.value then Some(at) else best
  }

  /** `after` is the least of `before` and the instants the hour's hits stand for. */
  ghost predicate TakesHour(before: Option<int>, after: Option<int>, c: CronSets, z: Zone, from: int, day: nat, h: nat, ms: set<nat>) {
    && (before.Some? ==> after.Some? && after.value <= before.value)
    && (forall m :: m in ms && Hit(c, z, from, day, h, m) ==> after.Some? && after.value <= Inverted(z, Wall(day, h, m)))
    && (after != before ==> after.Some? && exists m :: m in ms && Hit(c, z, from, day, h, m) && Inverted(z, Wall(day, h, m)) == after.value)
  }

  lemma MinuteJoins(before: Option<int>, mid: Option<int>, after: Option<int>, c: CronSets, z: Zone, from: int, day: nat, h: nat, ms: set<nat>, m: nat)
    requires TakesHour(before, mid, c, z, from, day, h, ms)
    requires DayMatches(c, day) && h in c.hour && m in c.minute
    requires after == if Inverted(z, Wall(day, h, m)) * 60000 > from then Better(mid, Inverted(z, Wall(day, h, m))) else mid
    ensures TakesHour(before, after, c, z, from, day, h, ms + {m})
  {
    hide DayMatches, Wall;
    if after != mid {
      assert m in ms + {m} && Hit(c, z, from, day, h, m);
    } else if mid != before {
      var m' :| m' in ms && Hit(c, z, from, day, h, m') && Inverted(z, Wall(day, h, m')) == mid.value;
      assert m' in ms + {m};
    }
  }

  method TryMinute(best: Option<int>, z: Zone, from: int, day: nat, h: nat, m: nat) returns (found: Option<int>)
    ensures found == if Inverted(z, Wall(day, h, m)) * 60000 > from then Better(best, Inverted(z, Wall(day, h, m))) else best
  {
    var at := UtcFromZoned(Parts(day, h, m), z);
    found := best;
    if at * 60000 > from && (best.None? || at < best.value) {
      found := Some(at);
    }
  }

  method ScanHour(best: Option<int>, c: CronSets, z: Zone, from: int, day: nat, h: nat) returns (found: Option<int>)
    requires DayMatches(c, day) && h in c.hour
    ensures TakesHour(best, found, c, z, from, day, h, c.minute)
  {
    hide DayMatches, Inverted, Wall;
    found := best;
    var minutes := Ascending(c.minute);
    ghost var done: set<nat> := {};
    for i := 0 to |minutes|
      invariant done == Members(minutes[..i])
      invariant TakesHour(best, found, c, z, from, day, h, done)
    {
      assert minutes[i] in minutes;
      assert minutes[..i + 1] == minutes[..i] + [minutes[i]];
      ghost var mid := found;
      found := TryMinute(found, z, from, day, h, minutes[i]);
      MinuteJoins(best, mid, found, c, z, from, day, h, done, minutes[i]);
      done := done + {minutes[i]};
    }
    assert minutes[..|minutes|] == minutes && done == c.minute;
  }

  /**
   The hours whose hits are looked at: all of them on a later day; on the first day, the
   first one only when something was already found, otherwise all up to the first with a hit.
   */
  predicate HourLooked(first: bool, foundBefore: bool, c: CronSets, z: Zone, from: int, day: nat, h: nat) {
    && h in c.hour
    && (first ==>
          forall earlier :: earlier in c.hour && earlier < h ==> !foundBefore && !HitInHour(c, z, from, day, earlier))
  }

  /** `after` is the least of `before` and the instants of the expression's looked-at hits of the day. */
  ghost predicate TakesDay(before: Option<int>, after: Option<int>, first: bool, c: CronSets, z: Zone, from: int, day: nat) {
    && (before.Some? ==> after.Some? && after.value <= before.value)
    && (forall h, m :: HourLooked(first, before.Some?, c, z, from, day, h) && Hit(c, z, from, day, h, m) ==>
          after.Some? && after.value <= Inverted(z, Wall(day, h, m)))
    && (after != before ==> after.Some? && exists h, m ::
          HourLooked(first, before.Some?, c, z, from, day, h) && Hit(c, z, from, day, h, m) && Inverted(z, Wall(day, h, m)) == after.value)
  }

  /** The hours `hs[..i]` are done: the last of them is where the first day's search may stop. */
  ghost predicate HoursDone(before: Option<int>, after: Option<int>, c: CronSets, z: Zone, from: int, day: nat, done: set<nat>) {
    && (before.Some? ==> after.Some? && after.value <= before.value)
    && (forall h, m :: h in done && Hit(c, z, from, day, h, m) ==> after.Some? && after.value <= Inverted(z, Wall(day, h, m)))
    && (after != before ==> after.Some? && exists h, m ::
          h in done && Hit(c, z, from, day, h, m) && Inverted(z, Wall(day, h, m)) == after.value)
  }

  lemma HourJoins(before: Option<int>, mid: Option<int>, after: Option<int>, c: CronSets, z: Zone, from: int, day: nat, done: set<nat>, h: nat)
    requires HoursDone(before, mid, c, z, from, day, done) && TakesHour(mid, after, c, z, from, day, h, c.minute)
    ensures HoursDone(before, after, c, z, from, day, done + {h}) && (before.Some? ==> after.Some?)
  {
  }

  lemma NothingScanned(best: Option<int>, first: bool, c: CronSets, z: Zone, from: int, day: nat)
    ensures HoursDone(best, best, c, z, from, day, {})
    ensures !DayMatches(c, day) ==> TakesDay(best, best, first, c, z, from, day)
  {
  }

  method ScanExpression(best: Option<int>, first: bool, c: CronSets, z: Zone, from: int, day: nat) returns (found: Option<int>)
    ensures TakesDay(best, found, first, c, z, from, day)
  {
    hide Inverted, Wall, HoursDone, TakesDay, TakesHour;
    NothingScanned(best, first, c, z, from, day);
    found := best;
    if !DayMatches(c, day) {
      return;
    }
    var hours := Ascending(c.hour);
    AscendingIsSorted(c.hour);
    ghost var done: set<nat> := {};
    for i := 0 to |hours|
      invariant done == Members(hours[..i])
      invariant HoursDone(best, found, c, z, from, day, done)
      invariant (first && i > 0 ==> found.None?) && (best.Some? ==> found.Some?) && (i == 0 ==> found == best)
    {
      assert hours[i] in hours;
      assert hours[..i + 1] == hours[..i] + [hours[i]];
      ghost var mid := found;
      found := ScanHour(found, c, z, from, day, hours[i]);
      HourJoins(best, mid, found, c, z, from, day, done, hours[i]);
      done := done + {hours[i]};
      if found.Some? && first {
        StopsHere(best, mid, found, c, z, from, day, hours, i);
        return;
      }
    }
    assert hours[..|hours|] == hours && done == c.hour;
    AllHoursDone(best, found, first, c, z, from, day);
  }

  /** Stopping at an hour on the first day: nothing before it hit, so it is the only hour looked at that has hits. */
  lemma StopsHere(before: Option<int>, mid: Option<int>, after: Option<int>, c: CronSets, z: Zone, from: int, day: nat, hours: seq<nat>, i: nat)
    requires hours == Ascending(c.hour) && i < |hours| && after.Some?
    requires forall a, b :: 0 <= a < b < |hours| ==> hours[a] < hours[b]
    requires HoursDone(before, mid, c, z, from, day, Members(hours[..i]))
    requires TakesHour(mid, after, c, z, from, day, hours[i], c.minute)
    requires i > 0 ==> mid.None?
    requires i == 0 ==> mid == before
    ensures TakesDay(before, after, true, c, z, from, day)
  {
    hide DayMatches, Inverted, Wall;
    forall h | h in c.hour && h < hours[i]
      ensures before.None? && !HitInHour(c, z, from, day, h)
    {
      var k :| 0 <= k < |hours| && hours[k] == h;
      assert k < i && hours[..i][k] == h;
      assert h in Members(hours[..i]);
    }
    assert hours[i] in hours;
    assert HourLooked(true, before.Some?, c, z, from, day, hours[i]);
    forall h, m | HourLooked(true, before.Some?, c, z, from, day, h) && Hit(c, z, from, day, h, m)
      ensures after.value <= Inverted(z, Wall(day, h, m))
    {
      HitsByHand(c, z, from, day, h, m);
    }
  }

  lemma AllHoursDone(before: Option<int>, after: Option<int>, first: bool, c: CronSets, z: Zone, from: int, day: nat)
    requires HoursDone(before, after, c, z, from, day, c.hour)
    requires first ==> after == before && (after.None? || c.hour == {})
    ensures TakesDay(before, after, first, c, z, from, day)
  {
  }

  // ----- a whole day

  predicate EarlierExpressionHits(crons: seq<CronSets>, z: Zone, from: int, day: nat, k: nat)
    requires k <= |crons|
  {
    exists j :: 0 <= j < k && HitOnDay(crons[j], z, from, day)
  }

  /** Hits the search looks at, `first` telling whether this is the first day. */
  predicate Looked(first: bool, crons: seq<CronSets>, z: Zone, from: int, day: nat, k: nat, h: nat, m: nat)
    requires k < |crons|
  {
    Hit(crons[k], z, from, day, h, m) && HourLooked(first, EarlierExpressionHits(crons, z, from, day, k), crons[k], z, from, day, h)
  }

  /** `found` is the least instant of the looked-at hits of the first `n` expressions, and is there when any of them hits at all. */
  ghost predicate LeastLooked(found: Option<int>, n: nat, first: bool, crons: seq<CronSets>, z: Zone, from: int, day: nat)
    requires n <= |crons|
  {
    && (found.Some? <==> EarlierExpressionHits(crons, z, from, day, n))
    && (found.Some? ==> exists k, h, m :: 0 <= k < n && Looked(first, crons, z, from, day, k, h, m) && Inverted(z, Wall(day, h, m)) == found.value)
    && (forall k, h, m :: 0 <= k < n && Looked(first, crons, z, from, day, k, h, m) ==>
          found.Some? && found.value <= Inverted(z, Wall(day, h, m)))
  }

  /** An expression that hits has a first hour with a hit. */
  lemma FirstHourWithHit(c: CronSets, z: Zone, from: int, day: nat) returns (h: nat, m: nat)
    requires HitOnDay(c, z, from, day)
    ensures Hit(c, z, from, day, h, m)
    ensures forall earlier :: earlier in c.hour && earlier < h ==> !HitInHour(c, z, from, day, earlier)
    ensures forall first :: HourLooked(first, false, c, z, from, day, h)
  {
    hide DayMatches, Inverted, Wall;
    var hours := set g | g in c.hour && HitInHour(c, z, from, day, g);
    var some :| some in c.hour && HitInHour(c, z, from, day, some);
    assert some in hours;
    h := Lowest(hours);
    assert h in c.hour && HitInHour(c, z, from, day, h);
    m :| m in c.minute && Hit(c, z, from, day, h, m);
    forall earlier | earlier in c.hour && earlier < h
      ensures !HitInHour(c, z, from, day, earlier)
    {
      assert earlier !in hours;
    }
  }

  lemma HitsByHand(c: CronSets, z: Zone, from: int, day: nat, h: nat, m: nat)
    requires Hit(c, z, from, day, h, m)
    ensures HitInHour(c, z, from, day, h) && HitOnDay(c, z, from, day)
  {
  }

  lemma ExpressionJoins(crons: seq<CronSets>, k: nat, before: Option<int>, after: Option<int>, first: bool, z: Zone, from: int, day: nat)
    requires k < |crons| && LeastLooked(before, k, first, crons, z, from, day)
    requires TakesDay(before, after, first, crons[k], z, from, day)
    ensures LeastLooked(after, k + 1, first, crons, z, from, day)
  {
    hide DayMatches, Inverted, Wall;
    if HitOnDay(crons[k], z, from, day) && before.None? {
      var h, m := FirstHourWithHit(crons[k], z, from, day);
    }
    if after != before {
      var h, m :| HourLooked(first, before.Some?, crons[k], z, from, day, h) && Hit(crons[k], z, from, day, h, m) && Inverted(z, Wall(day, h, m)) == after.value;
      assert Looked(first, crons, z, from, day, k, h, m);
      HitsByHand(crons[k], z, from, day, h, m);
    } else if before.Some? {
      var j, h, m :| 0 <= j < k && Looked(first, crons, z, from, day, j, h, m) && Inverted(z, Wall(day, h, m)) == before.value;
      assert j < k + 1;
    }
  }

  method ScanDay(crons: seq<CronSets>, first: bool, z: Zone, from: int, day: nat) returns (best: Option<int>)
    ensures LeastLooked(best, |crons|, first, crons, z, from, day)
  {
    best := None;
    for k := 0 to |crons|
      invariant LeastLooked(best, k, first, crons, z, from, day)
    {
      ghost var before := best;
      best := ScanExpression(best, first, crons[k], z, from, day);
      ExpressionJoins(crons, k, before, best, first, z, from, day);
    }
  }

  // ----- the horizon

  const SCAN_DAYS: nat := 8

  /** The calendar day `from` falls on in the zone. */
  function StartDay(z: Zone, from: int): int {
    ZonedParts(z, from / 60000).day
  }

  predicate InHorizon(start: nat, day: nat) {
    start <= day <= start + SCAN_DAYS
  }

  /** The answer of the search: nothing in nine days, or the least looked-at hit of the earliest day that has one. */
  ghost predicate Answers(best: Option<int>, crons: seq<CronSets>, z: Zone, from: int, start: nat) {
    || (best.None? && forall day :: InHorizon(start, day) ==> !AnyHitOnDay(crons, z, from, day))
    || (best.Some? && exists day :: InHorizon(start, day) && AnswersOnDay(best.value, crons, z, from, start, day))
  }

  ghost predicate AnswersOnDay(best: int, crons: seq<CronSets>, z: Zone, from: int, start: nat, day: nat) {
    && LeastLooked(Some(best), |crons|, day == start, crons, z, from, day)
    && forall earlier: nat :: start <= earlier < day ==> !AnyHitOnDay(crons, z, from, earlier)
  }

  method Search(crons: seq<CronSets>, z: Zone, from: int) returns (best: Option<int>)
    requires StartDay(z, from) >= 0
    ensures Answers(best, crons, z, from, StartDay(z, from))
  {
    hide DayMatches, Inverted, Wall;
    var start: nat := ZonedParts(z, from / 60000).day;
    for dayOffset: nat := 0 to SCAN_DAYS + 1
      invariant forall day: nat :: start <= day < start + dayOffset ==> !AnyHitOnDay(crons, z, from, day)
    {
      var day := start + dayOffset;
      best := ScanDay(crons, dayOffset == 0, z, from, day);
      if best.Some? {
        assert InHorizon(start, day) && AnswersOnDay(best.value, crons, z, from, start, day);
        return;
      }
    }
    best := None;
  }

  predicate AllValid(exprs: seq<string>) {
    forall i :: 0 <= i < |exprs| ==> ValidExpression(exprs[i])
  }

  ghost predicate AllParsed(crons: seq<CronSets>, exprs: seq<string>) {
    |crons| == |exprs| && forall i :: 0 <= i < |exprs| ==> Parsed(crons[i], exprs[i])
  }

  /** The search's answer for what the texts parse to. */
  ghost predicate AnswersTexts(best: Option<int>, exprs: seq<string>, z: Zone, from: int) {
    StartDay(z, from) >= 0 && exists crons :: AllParsed(crons, exprs) && Answers(best, crons, z, from, StartDay(z, from))
  }

  /** The preview: no answer for an empty list or an invalid expression, otherwise the search's. */
  method NextOccurrence(exprs: seq<string>, z: Zone, from: int) returns (best: Option<int>)
    requires StartDay(z, from) >= 0
    ensures exprs == [] || !AllValid(exprs) ==> best.None?
    ensures exprs != [] && AllValid(exprs) ==> AnswersTexts(best, exprs, z, from)
  {
    hide Parsed, ValidExpression, Answers, Inverted, DayMatches;
    var crons: seq<CronSets> := [];
    best := None;
    for i := 0 to |exprs|
      invariant |crons| == i && forall k :: 0 <= k < i ==> Parsed(crons[k], exprs[k]) && ValidExpression(exprs[k])
    {
      var c := ParseCron(exprs[i]);
      if c.None? {
        return;
      }
      crons := crons + [c.value];
    }
    if |crons| == 0 {
      return;
    }
    best := Search(crons, z, from);
    assert AllParsed(crons, exprs);
  }

  predicate Bounded(c: CronSets) {
    (forall h :: h in c.hour ==> h < 24) && (forall m :: m in c.minute ==> m < 60) && c.hour != {}
  }

  lemma ParsedIsBounded(c: CronSets, expr: string)
    requires Parsed(c, expr)
    ensures Bounded(c)
  {
    forall h | h in c.hour
      ensures h < 24
    {
      DenotesWithinBounds(Words(expr)[1], HOUR, h);
    }
    forall m | m in c.minute
      ensures m < 60
    {
      DenotesWithinBounds(Words(expr)[0], MINUTE, m);
    }
  }

  /** A text has one parse. */
  lemma ParsedIsUnique(c: CronSets, d: CronSets, expr: string)
    requires Parsed(c, expr) && Parsed(d, expr)
    ensures c == d
  {
    SameField(c.minute, d.minute, Words(expr)[0], MINUTE);
    SameField(c.hour, d.hour, Words(expr)[1], HOUR);
    SameField(c.dom, d.dom, Words(expr)[2], DAY_OF_MONTH);
    SameField(c.month, d.month, Words(expr)[3], MONTH);
    SameField(c.dow, d.dow, Words(expr)[4], DAY_OF_WEEK);
  }

  lemma SameField(s: set<nat>, u: set<nat>, part: string, f: Field)
    requires FieldIs(s, part, f) && FieldIs(u, part, f)
    ensures s == u
  {
    assert forall n :: n in s <==> n in u;
  }
}
