/**
 The cron preview from expression texts: what `NextOccurrence` promises of the texts it is
 given (`PreviewUnderFixedOffset`), and runs on texts in which its answer is not the
 earliest firing: two expressions, an hour repeated on either side of Greenwich, and half an
 hour skipped.
 */
module CronTexts {
  import opened Wrappers
  import opened Text
  import opened Listing
  import opened Calendar
  import opened CronFields
  import opened Zones
  import opened Cron
  import opened CronAnswers
  import opened CronZones

  // ----- texts and what they name

  /** The expression's text names what the local clock shows at `t`. */
  ghost predicate TextFires(expr: string, z: Zone, t: int) {
    && ValidExpression(expr)
    && var parts, p := Words(expr), ZonedParts(z, t);
       && p.day >= 0 && Denotes(parts[0], MINUTE, p.minute) && Denotes(parts[1], HOUR, p.hour)
       && var date := Civil(p.day);
          var domOk, dowOk := Denotes(parts[2], DAY_OF_MONTH, date.day), Denotes(parts[4], DAY_OF_WEEK, Weekday(p.day));
          && Denotes(parts[3], MONTH, date.month)
          && (if parts[2] != "*" && parts[4] != "*" then domOk || dowOk else domOk && dowOk)
  }

  lemma ParsedFires(c: CronSets, expr: string, z: Zone, t: int)
    requires Parsed(c, expr)
    ensures Fires(c, z, t) <==> TextFires(expr, z, t)
  {
    hide ValidExpression, Words, Denotes, Civil;
  }

  /** One of the texts fires at `t`, after `from` and on one of the nine days from its own. */
  ghost predicate TextsFire(t: int, exprs: seq<string>, z: Zone, from: int) {
    && t * 60000 > from
    && StartDay(z, from) <= ZonedParts(z, t).day <= StartDay(z, from) + 8
    && exists i :: 0 <= i < |exprs| && TextFires(exprs[i], z, t)
  }

  lemma AllParsedFire(t: int, crons: seq<CronSets>, exprs: seq<string>, z: Zone, from: int)
    requires AllParsed(crons, exprs) && StartDay(z, from) >= 0
    ensures TextsFire(t, exprs, z, from) <==> FiresInHorizon(t, crons, z, from, StartDay(z, from))
    ensures AllBounded(crons)
  {
    hide Parsed, Fires, TextFires, StartDay, ZonedParts;
    forall i | 0 <= i < |exprs|
      ensures Fires(crons[i], z, t) <==> TextFires(exprs[i], z, t)
      ensures Bounded(crons[i])
    {
      ParsedFires(crons[i], exprs[i], z, t);
      ParsedIsBounded(crons[i], exprs[i]);
    }
  }

  /** The texts fire where their parses do. */
  lemma FiringTexts(crons: seq<CronSets>, exprs: seq<string>, z: Zone, from: int)
    requires AllParsed(crons, exprs) && StartDay(z, from) >= 0
    ensures AllBounded(crons)
    ensures forall t :: TextsFire(t, exprs, z, from) <==> FiresInHorizon(t, crons, z, from, StartDay(z, from))
  {
    hide TextsFire, FiresInHorizon, StartDay, AllParsed;
    AllParsedFire(0, crons, exprs, z, from);
    forall t
      ensures TextsFire(t, exprs, z, from) <==> FiresInHorizon(t, crons, z, from, StartDay(z, from))
    {
      AllParsedFire(t, crons, exprs, z, from);
    }
  }

  lemma NoTextFires(crons: seq<CronSets>, exprs: seq<string>, z: Zone, from: int)
    requires z.changes == [] && StartDay(z, from) >= 0 && AllParsed(crons, exprs) && Answers(None, crons, z, from, StartDay(z, from))
    ensures forall t :: !TextsFire(t, exprs, z, from)
  {
    hide TextsFire, FiresInHorizon, Answers, StartDay, AllParsed;
    FiringTexts(crons, exprs, z, from);
    forall t
      ensures !TextsFire(t, exprs, z, from)
    {
      NoneInHorizon(crons, z, from, StartDay(z, from), t);
    }
  }

  /** `best` fires on the earliest day on which a text does, and no text fires before it when that is a later day or there is one text. */
  ghost predicate EarliestText(best: int, exprs: seq<string>, z: Zone, from: int) {
    && TextsFire(best, exprs, z, from)
    && forall t :: TextsFire(t, exprs, z, from) ==>
         && ZonedParts(z, best).day <= ZonedParts(z, t).day
         && (ZonedParts(z, best).day > StartDay(z, from) || |exprs| == 1 ==> best <= t)
  }

  lemma SomeTextFires(best: int, crons: seq<CronSets>, exprs: seq<string>, z: Zone, from: int)
    requires z.changes == [] && StartDay(z, from) >= 0 && AllParsed(crons, exprs) && Answers(Some(best), crons, z, from, StartDay(z, from))
    ensures EarliestText(best, exprs, z, from)
  {
    hide TextsFire, FiresInHorizon, Answers, StartDay, ZonedParts, Parsed;
    FiringTexts(crons, exprs, z, from);
    EarliestDay(best, crons, z, from, StartDay(z, from));
    if |exprs| == 1 {
      assert crons == [crons[0]] && Bounded(crons[0]);
      OneExpressionIsExact(best, crons[0], z, from, StartDay(z, from));
    }
  }

  /**
   Under a fixed offset: no answer exactly when none of the texts fires in the nine days; an
   answer fires, on the earliest day on which any does, and is the earliest firing when that
   is a later day or there is one text.
   */
  lemma PreviewUnderFixedOffset(best: Option<int>, exprs: seq<string>, z: Zone, from: int)
    requires z.changes == [] && AnswersTexts(best, exprs, z, from)
    ensures best.None? <==> forall t :: !TextsFire(t, exprs, z, from)
    ensures best.Some? ==> EarliestText(best.value, exprs, z, from)
  {
    hide TextsFire, Answers, StartDay, ZonedParts, Parsed;
    var crons :| AllParsed(crons, exprs) && Answers(best, crons, z, from, StartDay(z, from));
    if best.None? {
      NoTextFires(crons, exprs, z, from);
    } else {
      SomeTextFires(best.value, crons, exprs, z, from);
    }
  }

  ghost predicate FirstOfTexts(t: int, exprs: seq<string>, z: Zone, from: int) {
    TextsFire(t, exprs, z, from) && forall u :: TextsFire(u, exprs, z, from) ==> t <= u
  }

  lemma FirstIsEarliest(t: int, crons: seq<CronSets>, exprs: seq<string>, z: Zone, from: int)
    requires AllParsed(crons, exprs) && StartDay(z, from) >= 0
    ensures FirstOfTexts(t, exprs, z, from) <==> EarliestFiring(t, crons, z, from, StartDay(z, from))
  {
    hide TextsFire, FiresInHorizon, StartDay, AllParsed;
    FiringTexts(crons, exprs, z, from);
  }

  /**
   One text, in a zone whose changes are far enough apart: unless a change skips the wall
   clock the answer stands for, the answer fires, and it is the first firing exactly when the
   first firing is not the other showing of a repeated wall clock.
   */
  lemma PreviewOfOneText(best: int, expr: string, z: Zone, bound: nat, from: int) returns (wall: int)
    requires Regular(z, bound) && AnswersTexts(Some(best), [expr], z, from)
    ensures best == Inverted(z, wall)
    ensures (forall i :: 0 <= i < |z.changes| ==> !Skips(z, i, wall)) ==>
              && TextsFire(best, [expr], z, from)
              && (FirstOfTexts(best, [expr], z, from) <==> forall t :: FirstOfTexts(t, [expr], z, from) ==> !OtherShowing(z, t))
  {
    hide TextsFire, FiresInHorizon, StartDay, Answers, From, OtherShowing, FirstOfTexts, EarliestFiring, Parsed, Taken;
    var start: nat := StartDay(z, from);
    var crons :| AllParsed(crons, [expr]) && Answers(Some(best), crons, z, from, start);
    var src := SourceOf(best, crons, z, from, start);
    wall := Wall(src.day, src.h, src.m);
    FiringTexts(crons, [expr], z, from);
    if NamesShown(src, z) {
      ShownAnswerFires(src, best, crons, z, bound, from, start);
      ExactUnlessRepeated(src, best, crons, z, bound, from, start);
      forall t
        ensures FirstOfTexts(t, [expr], z, from) <==> EarliestFiring(t, crons, z, from, start)
        ensures OtherShowing(z, t) <==> !Taken(z, t)
      {
        FirstIsEarliest(t, crons, [expr], z, from);
        TakenUnlessOther(z, bound, t);
      }
    }
  }

  lemma SourceOf(best: int, crons: seq<CronSets>, z: Zone, from: int, start: nat) returns (src: Source)
    requires Answers(Some(best), crons, z, from, start)
    ensures From(src, best, crons, z, from, start) && Inverted(z, Wall(src.day, src.h, src.m)) == best
  {
    src := AnswerHasSource(best, crons, z, from, start);
  }

  /** The texts have one parse, so the search's answer for any parse is its answer for the texts. */
  lemma AnswersOf(best: Option<int>, crons: seq<CronSets>, exprs: seq<string>, z: Zone, from: int)
    requires AllParsed(crons, exprs) && AnswersTexts(best, exprs, z, from)
    ensures StartDay(z, from) >= 0 && Answers(best, crons, z, from, StartDay(z, from))
  {
    hide Parsed, Answers, StartDay;
    var others :| AllParsed(others, exprs) && Answers(best, others, z, from, StartDay(z, from));
    forall i | 0 <= i < |exprs|
      ensures others[i] == crons[i]
    {
      ParsedIsUnique(others[i], crons[i], exprs[i]);
    }
    assert others == crons;
  }

  // ----- texts that name times of every day

  predicate NoSpace(s: string) {
    forall i :: 0 <= i < |s| ==> !IsSpace(s[i])
  }

  lemma {:induction false} WordEnds(w: string, rest: string)
    requires NoSpace(w) && (rest != "" ==> IsSpace(rest[0]))
    ensures WordEnd(w + rest) == |w|
  {
    if w == "" {
      assert w + rest == rest;
    } else {
      assert (w + rest)[1..] == w[1..] + rest && (w + rest)[0] == w[0];
      assert forall i :: 0 <= i < |w[1..]| ==> w[1..][i] == w[i + 1];
      WordEnds(w[1..], rest);
    }
  }

  lemma FirstWord(w: string, rest: string)
    requires w != "" && NoSpace(w)
    ensures Words(w + (" " + rest)) == [w] + Words(rest)
  {
    var s := w + (" " + rest);
    WordEnds(w, " " + rest);
    assert s[0] == w[0] && s[..|w|] == w && s[|w|..] == " " + rest;
    assert (" " + rest)[1..] == rest;
  }

  lemma LastWord(w: string)
    requires w != "" && NoSpace(w)
    ensures Words(w) == [w]
  {
    WordEnds(w, "");
    assert w + "" == w && w[..|w|] == w && w[|w|..] == "";
  }

  /** `m h * * *`, the minutes and hours written out. */
  function DailyText(ms: seq<nat>, hs: seq<nat>): string
    requires ms != [] && hs != []
  {
    Spelled(ms) + (" " + (Spelled(hs) + (" " + ("*" + (" " + ("*" + (" " + "*")))))))
  }

  /** All numbers of a field. */
  function Between(lo: nat, hi: nat): (r: set<nat>)
    ensures forall n :: n in r <==> lo <= n <= hi
    decreases hi + 1 - lo
  {
    if lo > hi then {} else {lo} + Between(lo + 1, hi)
  }

  function Daily(ms: seq<nat>, hs: seq<nat>): CronSets {
    CronSets(Members(ms), Members(hs), Between(1, 31), Between(1, 12), Between(0, 6), false, false)
  }

  lemma {:induction false} SpelledIsAWord(ns: seq<nat>)
    requires ns != []
    ensures Spelled(ns) != "" && NoSpace(Spelled(ns))
    decreases |ns|
  {
    assert Decimals(ns)[0] == Decimal(ns[0]);
    if |ns| > 1 {
      SpelledIsAWord(ns[1..]);
      assert Decimals(ns)[1..] == Decimals(ns[1..]);
      assert Spelled(ns) == Decimal(ns[0]) + [','] + Spelled(ns[1..]);
    }
  }

  lemma DailyWords(ms: seq<nat>, hs: seq<nat>)
    requires ms != [] && hs != []
    ensures Words(DailyText(ms, hs)) == [Spelled(ms), Spelled(hs), "*", "*", "*"]
  {
    hide Words, Spelled, NoSpace;
    SpelledIsAWord(ms);
    SpelledIsAWord(hs);
    assert NoSpace("*") by {
      StarIsAWord();
    }
    LastWord("*");
    FirstWord("*", "*");
    FirstWord("*", "*" + (" " + "*"));
    FirstWord(Spelled(hs), "*" + (" " + ("*" + (" " + "*"))));
    FirstWord(Spelled(ms), Spelled(hs) + (" " + ("*" + (" " + ("*" + (" " + "*"))))));
  }

  lemma StarIsAWord()
    ensures NoSpace("*")
  {
  }

  /** A star is one part, the whole field. */
  lemma StarPart(f: Field)
    ensures Part("*", f) == Some(Range(f.min, f.max, 1)) && Split("*", ',') == ["*"]
    ensures WellFormed("*", f)
  {
    FindUnique("*", '/', 0, 1);
    SplitWhole("*", ',');
    assert "*"[..1] == "*";
  }

  lemma WholeRange(f: Field, n: nat)
    requires f.min <= f.max
    ensures RangeDenotes(Range(f.min, f.max, 1), f, n) <==> exists v: nat :: f.min <= v <= f.max && Normal(v, f) == n
  {
    var r := Range(f.min, f.max, 1);
    if v: nat :| f.min <= v <= f.max && Normal(v, f) == n {
      assert At(r, v - f.min) == v;
    }
  }

  /** A star names every number of the field. */
  lemma StarDenotes(f: Field, n: nat)
    requires f.min <= f.max
    ensures Denotes("*", f, n) <==> exists v: nat :: f.min <= v <= f.max && Normal(v, f) == n
  {
    hide Part, Split, RangeDenotes, Normal;
    StarPart(f);
    WholeRange(f, n);
    assert AnyDenotes(["*"], f, n) <==> PartDenotes("*", f, n) by {
      assert "*" in ["*"];
    }
  }

  /** A star's set: all numbers of the field, 7 being a second name of 0. */
  lemma StarIs(f: Field, max: nat)
    requires f.min <= max && (if f.max == 7 then f.min == 0 && max == 6 else max == f.max)
    ensures FieldIs(Between(f.min, max), "*", f) && WellFormed("*", f)
  {
    hide Denotes, WellFormed, Between;
    StarPart(f);
    assert f.min in Between(f.min, max);
    forall n: nat
      ensures Denotes("*", f, n) <==> n in Between(f.min, max)
    {
      StarDenotes(f, n);
      assert n <= max ==> Normal(n, f) == n;
    }
  }

  predicate WithinField(ns: seq<nat>, f: Field) {
    forall i :: 0 <= i < |ns| ==> f.min <= ns[i] <= f.max
  }

  lemma ListField(ns: seq<nat>, f: Field)
    requires ns != [] && WithinField(ns, f) && f.names == map[] && f.max != 7
    ensures FieldIs(Members(ns), Spelled(ns), f) && WellFormed(Spelled(ns), f)
  {
    hide Denotes, WellFormed, Spelled;
    EverySetCanBeSpelled(ns, f);
    assert ns[0] in Members(ns);
  }

  /** The text parses to its minutes and hours on every day. */
  lemma DailyParses(ms: seq<nat>, hs: seq<nat>)
    requires ms != [] && hs != [] && WithinField(ms, MINUTE) && WithinField(hs, HOUR)
    ensures Parsed(Daily(ms, hs), DailyText(ms, hs))
  {
    hide Words, FieldIs, WellFormed, DailyText, Spelled;
    DailyWords(ms, hs);
    ListField(ms, MINUTE);
    ListField(hs, HOUR);
    StarIs(DAY_OF_MONTH, 31);
    StarIs(MONTH, 12);
    StarIs(DAY_OF_WEEK, 6);
  }

  lemma DailyMatches(ms: seq<nat>, hs: seq<nat>, day: nat)
    ensures DayMatches(Daily(ms, hs), day)
  {
    hide Civil, Between, Members;
    var d := Civil(day);
    assert ValidDate(d) && 1 <= d.day <= 31 && 1 <= d.month <= 12 && Weekday(day) <= 6;
  }

  // ----- runs

  /** A time of the day the text names, when the instant found for it is after `from`, is a hit of any day. */
  lemma DailyHit(ms: seq<nat>, hs: seq<nat>, z: Zone, from: int, day: nat, h: nat, m: nat)
    ensures Hit(Daily(ms, hs), z, from, day, h, m) <==> h in hs && m in ms && Inverted(z, Wall(day, h, m)) * 60000 > from
  {
    hide DayMatches, Inverted;
    DailyMatches(ms, hs, day);
  }

  lemma DailyHours(ms: seq<nat>, hs: seq<nat>)
    ensures forall h :: h in hs <==> h in Daily(ms, hs).hour
  {
  }

  /** The text fires at an instant showing one of its times. */
  lemma DailyFires(ms: seq<nat>, hs: seq<nat>, z: Zone, from: int, t: int, day: nat, h: nat, m: nat, exprs: seq<string>)
    requires ms != [] && hs != [] && WithinField(ms, MINUTE) && WithinField(hs, HOUR) && m in ms && h in hs
    requires DailyText(ms, hs) in exprs && WallClock(z, t) == Wall(day, h, m)
    requires t * 60000 > from && StartDay(z, from) <= day <= StartDay(z, from) + SCAN_DAYS
    ensures TextsFire(t, exprs, z, from)
  {
    hide DayMatches, TextFires, DailyText, StartDay, Parsed;
    PartsOfWall(day, h, m);
    DailyMatches(ms, hs, day);
    DailyParses(ms, hs);
    ParsedFires(Daily(ms, hs), DailyText(ms, hs), z, t);
  }

  lemma OneDaily(best: Option<int>, m: nat, h: nat, z: Zone, from: int)
    requires m < 60 && h < 24 && AnswersTexts(best, [DailyText([m], [h])], z, from)
    ensures StartDay(z, from) >= 0 && Answers(best, [Daily([m], [h])], z, from, StartDay(z, from))
  {
    hide DailyText, Answers, StartDay, Parsed;
    DailyParses([m], [h]);
    AnswersOf(best, [Daily([m], [h])], [DailyText([m], [h])], z, from);
  }

  /** One time of the day: the answer is what is found for it on the first day on which that is after `from`. */
  lemma OneTimeADay(best: Option<int>, m: nat, h: nat, z: Zone, from: int, start: nat, day: nat)
    requires Answers(best, [Daily([m], [h])], z, from, start) && InHorizon(start, day)
    requires Inverted(z, Wall(day, h, m)) * 60000 > from
    requires forall earlier: nat :: start <= earlier < day ==> Inverted(z, Wall(earlier, h, m)) * 60000 <= from
    ensures best == Some(Inverted(z, Wall(day, h, m)))
  {
    hide DayMatches, Inverted, Wall, Daily;
    var c := Daily([m], [h]);
    DailyHit([m], [h], z, from, day, h, m);
    HitsByHand(c, z, from, day, h, m);
    assert HitOnDay([c][0], z, from, day) && AnyHitOnDay([c], z, from, day);
    var found: nat :| InHorizon(start, found) && AnswersOnDay(best.value, [c], z, from, start, found);
    assert found <= day;
    var k: nat, h', m' :| k < 1 && Looked(found == start, [c], z, from, found, k, h', m') && Inverted(z, Wall(found, h', m')) == best.value;
    DailyHit([m], [h], z, from, found, h', m');
  }

  lemma Stars()
    ensures " " + ("*" + (" " + ("*" + (" " + "*")))) == " * * *"
  {
  }

  lemma SpelledOne(n: nat)
    ensures Spelled([n]) == Decimal(n)
  {
    hide Decimal;
    assert Decimals([n]) == [Decimal(n)];
  }

  lemma SpelledPair(a: nat, b: nat)
    ensures Spelled([a, b]) == Decimal(a) + "," + Decimal(b)
  {
    hide Decimal;
    assert Decimals([a, b]) == [Decimal(a), Decimal(b)];
    assert [Decimal(a), Decimal(b)][1..] == [Decimal(b)];
    assert Join([Decimal(b)], ',') == Decimal(b);
  }

  /** A text of five words, from its first two. */
  lemma TextOf(ms: seq<nat>, hs: seq<nat>, m: string, h: string)
    requires ms != [] && hs != [] && Spelled(ms) == m && Spelled(hs) == h
    ensures DailyText(ms, hs) == m + " " + h + " * * *"
  {
    hide Spelled;
    Stars();
    assert DailyText(ms, hs) == m + (" " + (h + " * * *"));
    assert m + (" " + (h + " * * *")) == m + " " + h + " * * *";
  }

  lemma HalfPast()
    ensures DailyText([30], [1]) == "30 1 * * *" && DailyText([30], [2]) == "30 2 * * *"
  {
    hide DailyText, Spelled;
    assert Decimal(1) == "1" && Decimal(2) == "2" && Decimal(30) == "30";
    SpelledOne(30);
    SpelledOne(1);
    SpelledOne(2);
    TextOf([30], [1], "30", "1");
    TextOf([30], [2], "30", "2");
    assert "30" + " " + "1" + " * * *" == "30 1 * * *" && "30" + " " + "2" + " * * *" == "30 2 * * *";
  }

  /** The zone with one change, and what the inversion finds in it. */
  function OneChangeZone(base: int, at: int, offset: int): Zone {
    Zone(base, [Change(at, offset)])
  }

  lemma OffsetOne(base: int, at: int, offset: int, t: int)
    ensures Offset(OneChangeZone(base, at, offset), t) == if t >= at then offset else base
  {
    assert OneChangeZone(base, at, offset).(changes := [Change(at, offset)][..0]) == Zone(base, []);
  }

  lemma InvertedOne(base: int, at: int, offset: int, wall: int)
    ensures Inverted(OneChangeZone(base, at, offset), wall) ==
            wall - (if wall - (if wall >= at then offset else base) >= at then offset else base)
    ensures WallClock(OneChangeZone(base, at, offset), wall) == wall + (if wall >= at then offset else base)
  {
    OffsetOne(base, at, offset, wall);
    OffsetOne(base, at, offset, wall - (if wall >= at then offset else base));
  }

  lemma StartsOn(base: int, at: int, offset: int, t: int, day: nat, h: nat, m: nat)
    requires h < 24 && m < 60 && t + (if t >= at then offset else base) == Wall(day, h, m)
    ensures StartDay(OneChangeZone(base, at, offset), t * 60000) == day
  {
    InvertedOne(base, at, offset, t);
    PartsOfWall(day, h, m);
    assert t * 60000 / 60000 == t;
  }

  /** 01:30 daily, west of Greenwich, seen from the moment an hour is repeated: the preview says tomorrow, and the text fires half an hour on. */
  lemma RepeatedHourWest(best: Option<int>, d: nat)
    requires AnswersTexts(best, ["30 1 * * *"], OneChangeZone(-240, d * 1440 + 360, -300), (d * 1440 + 360) * 60000)
    ensures best == Some((d + 1) * 1440 + 390)
    ensures TextsFire(d * 1440 + 390, ["30 1 * * *"], OneChangeZone(-240, d * 1440 + 360, -300), (d * 1440 + 360) * 60000)
  {
    hide DailyText, TextsFire, Answers, AnswersTexts, Inverted, WallClock, OneChangeZone, StartDay, Daily, ZonedParts;
    var at := d * 1440 + 360;
    var z, from := OneChangeZone(-240, at, -300), at * 60000;
    HalfPast();
    OneDaily(best, 30, 1, z, from);
    StartsOn(-240, at, -300, at, d, 1, 0);
    InvertedOne(-240, at, -300, Wall(d, 1, 30));
    InvertedOne(-240, at, -300, Wall(d + 1, 1, 30));
    OneTimeADay(best, 30, 1, z, from, d, d + 1);
    InvertedOne(-240, at, -300, at + 30);
    DailyFires([30], [1], z, from, at + 30, d, 1, 30, ["30 1 * * *"]);
  }

  /** 02:30 daily, east of Greenwich, seen before an hour is repeated: the preview says the second 02:30, and the text fires at the first. */
  lemma RepeatedHourEast(best: Option<int>, d: nat)
    requires AnswersTexts(best, ["30 2 * * *"], OneChangeZone(120, d * 1440 + 60, 60), (d * 1440 - 60) * 60000)
    ensures best == Some(d * 1440 + 90)
    ensures TextsFire(d * 1440 + 30, ["30 2 * * *"], OneChangeZone(120, d * 1440 + 60, 60), (d * 1440 - 60) * 60000)
  {
    hide DailyText, TextsFire, Answers, AnswersTexts, Inverted, WallClock, OneChangeZone, StartDay, Daily, ZonedParts;
    var at := d * 1440 + 60;
    var z, from := OneChangeZone(120, at, 60), (at - 120) * 60000;
    HalfPast();
    OneDaily(best, 30, 2, z, from);
    StartsOn(120, at, 60, at - 120, d, 1, 0);
    InvertedOne(120, at, 60, Wall(d, 2, 30));
    OneTimeADay(best, 30, 2, z, from, d, d);
    InvertedOne(120, at, 60, at - 30);
    DailyFires([30], [2], z, from, at - 30, d, 2, 30, ["30 2 * * *"]);
  }

  // ----- two texts, and a text with two hours

  lemma OverlookedTexts()
    ensures DailyText([0], [23]) == "0 23 * * *" && DailyText([0], [1, 12]) == "0 1,12 * * *"
  {
    hide DailyText, Spelled;
    assert Decimal(0) == "0" && Decimal(1) == "1" && Decimal(12) == "12" && Decimal(23) == "23";
    SpelledOne(0);
    SpelledOne(23);
    SpelledPair(1, 12);
    assert "1" + "," + "12" == "1,12";
    TextOf([0], [23], "0", "23");
    TextOf([0], [1, 12], "0", "1,12");
    assert "0" + " " + "23" + " * * *" == "0 23 * * *" && "0" + " " + "1,12" + " * * *" == "0 1,12 * * *";
  }

  lemma SkippedText()
    ensures DailyText([0, 45], [2, 3]) == "0,45 2,3 * * *"
  {
    hide DailyText, Spelled;
    assert Decimal(0) == "0" && Decimal(45) == "45" && Decimal(2) == "2" && Decimal(3) == "3";
    SpelledPair(0, 45);
    SpelledPair(2, 3);
    assert "0" + "," + "45" == "0,45" && "2" + "," + "3" == "2,3";
    TextOf([0, 45], [2, 3], "0,45", "2,3");
    assert "0,45" + " " + "2,3" + " * * *" == "0,45 2,3 * * *";
  }

  /** Hits on the first day: the answer is the one found there that every looked-at hit names. */
  lemma OnlyLooked(best: Option<int>, crons: seq<CronSets>, z: Zone, from: int, start: nat, k: nat, h: nat, m: nat, at: int)
    requires Answers(best, crons, z, from, start) && k < |crons| && Hit(crons[k], z, from, start, h, m)
    requires forall j, h', m' :: 0 <= j < |crons| && Looked(true, crons, z, from, start, j, h', m') ==> Inverted(z, Wall(start, h', m')) == at
    ensures best == Some(at)
  {
    hide DayMatches, Inverted, Wall;
    HitsByHand(crons[k], z, from, start, h, m);
    assert AnyHitOnDay(crons, z, from, start) && InHorizon(start, start);
    var day: nat :| InHorizon(start, day) && AnswersOnDay(best.value, crons, z, from, start, day);
    assert day == start;
  }

  /** Two texts, at 23:00 and at 01:00 and 12:00, seen from 10:00: the preview says 23:00, and the second text fires at 12:00. */
  lemma SecondExpressionOverlooked(best: Option<int>, day: nat)
    requires AnswersTexts(best, ["0 23 * * *", "0 1,12 * * *"], Zone(0, []), Wall(day, 10, 0) * 60000)
    ensures best == Some(Wall(day, 23, 0))
    ensures TextsFire(Wall(day, 12, 0), ["0 23 * * *", "0 1,12 * * *"], Zone(0, []), Wall(day, 10, 0) * 60000)
  {
    hide DailyText, TextsFire, Answers, AnswersTexts, StartDay, Daily, DayMatches, Parsed;
    var texts, crons := ["0 23 * * *", "0 1,12 * * *"], [Daily([0], [23]), Daily([0], [1, 12])];
    var z, from := Zone(0, []), Wall(day, 10, 0) * 60000;
    OverlookedTexts();
    DailyParses([0], [23]);
    DailyParses([0], [1, 12]);
    AnswersOf(best, crons, texts, z, from);
    UtcStart(day, 10, 0);
    DailyFires([0], [1, 12], z, from, Wall(day, 12, 0), day, 12, 0, texts);
    DailyHit([0], [23], z, from, day, 23, 0);
    OnlyLateIsLooked(day);
    OnlyLooked(best, crons, z, from, day, 0, 23, 0, Wall(day, 23, 0));
  }

  lemma UtcStart(day: nat, h: nat, m: nat)
    requires h < 24 && m < 60
    ensures StartDay(Zone(0, []), Wall(day, h, m) * 60000) == day
  {
    PartsOfWall(day, h, m);
    assert Wall(day, h, m) * 60000 / 60000 == Wall(day, h, m);
  }

  lemma OnlyLateIsLooked(day: nat)
    ensures var crons, z, from := [Daily([0], [23]), Daily([0], [1, 12])], Zone(0, []), Wall(day, 10, 0) * 60000;
            forall j, h, m :: 0 <= j < 2 && Looked(true, crons, z, from, day, j, h, m) ==> Inverted(z, Wall(day, h, m)) == Wall(day, 23, 0)
  {
    hide DayMatches, Daily;
    var crons, z, from := [Daily([0], [23]), Daily([0], [1, 12])], Zone(0, []), Wall(day, 10, 0) * 60000;
    DailyHit([0], [23], z, from, day, 23, 0);
    HitsByHand(crons[0], z, from, day, 23, 0);
    assert EarlierExpressionHits(crons, z, from, day, 1);
    assert 1 in crons[1].hour by {
      DailyHours([0], [1, 12]);
    }
    forall j, h, m | 0 <= j < 2 && Looked(true, crons, z, from, day, j, h, m)
      ensures Inverted(z, Wall(day, h, m)) == Wall(day, 23, 0)
    {
      DailyHit([0], [23], z, from, day, h, m);
      DailyHit([0], [1, 12], z, from, day, h, m);
    }
  }

  /** A text at the hour and three quarters past, of 02 and 03, seen from 02:10, with half an hour skipped from 02:30: the preview says 03:15, at which it does not fire, and it fires at 03:00. */
  lemma SkippedHourMisplaces(best: Option<int>, day: nat)
    requires AnswersTexts(best, ["0,45 2,3 * * *"], OneChangeZone(0, day * 1440 + 150, 30), (day * 1440 + 130) * 60000)
    ensures best == Some(day * 1440 + 165) && WallClock(OneChangeZone(0, day * 1440 + 150, 30), day * 1440 + 165) == Wall(day, 3, 15)
    ensures TextsFire(day * 1440 + 150, ["0,45 2,3 * * *"], OneChangeZone(0, day * 1440 + 150, 30), (day * 1440 + 130) * 60000)
  {
    hide DailyText, TextsFire, Answers, AnswersTexts, StartDay, Daily, DayMatches, Parsed, Inverted, WallClock, OneChangeZone;
    var at := day * 1440 + 150;
    var text, c := "0,45 2,3 * * *", Daily([0, 45], [2, 3]);
    var z, from := OneChangeZone(0, at, 30), (at - 20) * 60000;
    SkippedText();
    DailyParses([0, 45], [2, 3]);
    AnswersOf(best, [c], [text], z, from);
    StartsOn(0, at, 30, at - 20, day, 2, 10);
    InvertedOne(0, at, 30, at);
    InvertedOne(0, at, 30, at + 15);
    DailyFires([0, 45], [2, 3], z, from, at, day, 3, 0, [text]);
    DailyHit([0, 45], [2, 3], z, from, day, 2, 45);
    OnlySkippedIsLooked(day);
    OnlyLooked(best, [c], z, from, day, 0, 2, 45, at + 15);
  }

  lemma OnlySkippedIsLooked(day: nat)
    ensures var c, z, from := Daily([0, 45], [2, 3]), OneChangeZone(0, day * 1440 + 150, 30), (day * 1440 + 130) * 60000;
            forall j, h, m :: 0 <= j < 1 && Looked(true, [c], z, from, day, j, h, m) ==> Inverted(z, Wall(day, h, m)) == day * 1440 + 165
  {
    hide DayMatches, Daily, Inverted, OneChangeZone;
    var c, z, from := Daily([0, 45], [2, 3]), OneChangeZone(0, day * 1440 + 150, 30), (day * 1440 + 130) * 60000;
    InvertedOne(0, day * 1440 + 150, 30, Wall(day, 2, 45));
    InvertedOne(0, day * 1440 + 150, 30, Wall(day, 2, 0));
    DailyHit([0, 45], [2, 3], z, from, day, 2, 45);
    HitsByHand(c, z, from, day, 2, 45);
    forall j, h, m | 0 <= j < 1 && Looked(true, [c], z, from, day, j, h, m)
      ensures Inverted(z, Wall(day, h, m)) == day * 1440 + 165
    {
      DailyHit([0, 45], [2, 3], z, from, day, h, m);
    }
  }
}
