/**
 Expressions with a day of the week or of the month: which wall clocks they name, counted
 from a named Sunday (`WeeklyFires`), by the day of the month (`MonthlyFires`), and by
 either when both are given (`EitherDayFires`).
 */
module CronDays {
  import opened Wrappers
  import opened Text
  import opened Listing
  import opened Calendar
  import opened CronFields
  import opened Zones
  import opened Cron
  import opened CronAnswers
  import opened CronTexts

  /** `m h dom * dow`. */
  function DayText(m: nat, h: nat, dom: string, dow: string): string {
    Spelled([m]) + (" " + (Spelled([h]) + (" " + (dom + (" " + ("*" + (" " + dow)))))))
  }

  predicate Word(w: string) {
    w != "" && NoSpace(w)
  }

  lemma DayWords(m: nat, h: nat, dom: string, dow: string)
    requires Word(dom) && Word(dow)
    ensures Words(DayText(m, h, dom, dow)) == [Spelled([m]), Spelled([h]), dom, "*", dow]
  {
    hide Words, Spelled, NoSpace;
    SpelledIsAWord([m]);
    SpelledIsAWord([h]);
    StarIsAWord();
    LastWord(dow);
    FirstWord("*", dow);
    FirstWord(dom, "*" + (" " + dow));
    FirstWord(Spelled([h]), dom + (" " + ("*" + (" " + dow))));
    FirstWord(Spelled([m]), Spelled([h]) + (" " + (dom + (" " + ("*" + (" " + dow))))));
  }

  function OnDays(m: nat, h: nat, dom: string, days: set<nat>, dow: string, weekdays: set<nat>): CronSets {
    CronSets({m}, {h}, days, Between(1, 12), weekdays, dom != "*", dow != "*")
  }

  /** The word stands for the set, in the field. */
  ghost predicate Spells(word: string, s: set<nat>, f: Field) {
    Word(word) && FieldIs(s, word, f) && WellFormed(word, f)
  }

  lemma MembersOfOne(n: nat)
    ensures Members([n]) == {n}
  {
    assert n in [n];
  }

  lemma DayTextParses(m: nat, h: nat, dom: string, days: set<nat>, dow: string, weekdays: set<nat>)
    requires m < 60 && h < 24 && Spells(dom, days, DAY_OF_MONTH) && Spells(dow, weekdays, DAY_OF_WEEK)
    ensures Parsed(OnDays(m, h, dom, days, dow, weekdays), DayText(m, h, dom, dow))
  {
    hide Words, FieldIs, WellFormed, DayText, Spelled, NoSpace, Members;
    DayWords(m, h, dom, dow);
    ListField([m], MINUTE);
    ListField([h], HOUR);
    MembersOfOne(m);
    MembersOfOne(h);
    StarIs(MONTH, 12);
  }

  lemma StarSpells(f: Field, max: nat)
    requires f.min <= max && (if f.max == 7 then f.min == 0 && max == 6 else max == f.max)
    ensures Spells("*", Between(f.min, max), f)
  {
    hide FieldIs, WellFormed;
    StarIs(f, max);
  }

  lemma NumberSpells(n: nat, f: Field)
    requires NamesAreWords(f) && f.min <= n <= f.max && Normal(n, f) == n
    ensures Spells(Spelled([n]), {n}, f) && Spelled([n]) != "*"
  {
    hide Denotes, WellFormed, Spelled;
    SpelledIsAWord([n]);
    EverySetCanBeSpelled([n], f);
    SpelledOne(n);
    assert IsDigit(Decimal(n)[0]);
  }

  /** The text fires when the local clock shows its time on a matching day. */
  lemma DayTextFires(m: nat, h: nat, dom: string, days: set<nat>, dow: string, weekdays: set<nat>, z: Zone, t: int)
    requires m < 60 && h < 24 && Spells(dom, days, DAY_OF_MONTH) && Spells(dow, weekdays, DAY_OF_WEEK)
    ensures var p := ZonedParts(z, t);
            TextFires(DayText(m, h, dom, dow), z, t) <==>
            && p.day >= 0 && p.hour == h && p.minute == m
            && (if dom != "*" && dow != "*" then Civil(p.day).day in days || Weekday(p.day) in weekdays
                else Civil(p.day).day in days && Weekday(p.day) in weekdays)
  {
    hide Parsed, TextFires, DayText, Civil, Between;
    var c := OnDays(m, h, dom, days, dow, weekdays);
    DayTextParses(m, h, dom, days, dow, weekdays);
    ParsedFires(c, DayText(m, h, dom, dow), z, t);
    var p := ZonedParts(z, t);
    if p.day >= 0 {
      assert ValidDate(Civil(p.day));
    }
  }

  // ----- a day of the week

  /** Weekdays counted from a Sunday. */
  lemma WeekdayFrom(day: nat, d: nat, sunday: Date)
    requires d < 7 && sunday == Date(2000, 1, 2)
    ensures DayNumber(sunday) == 730486
    ensures Weekday(day) == d <==> (day - (DayNumber(sunday) + d)) % 7 == 0
  {
    hide YearStart;
    WeekdaysFollow(day, Date(2000, 1, 1), Date(1970, 1, 1));
    assert DayNumber(sunday) == DayNumber(Date(2000, 1, 1)) + 1;
  }

  lemma WeeksApart(day: int, hour: nat, minute: nat, first: int, h: nat, m: nat)
    requires hour < 24 && minute < 60 && h < 24 && m < 60
    ensures (day * 1440 + hour * 60 + minute - (first * 1440 + h * 60 + m)) % 10080 == 0 <==>
            hour == h && minute == m && (day - first) % 7 == 0
  {
    var off, days := hour * 60 + minute - (h * 60 + m), day - first;
    assert off == 0 <==> hour == h && minute == m;
    WholeWeeks(days, off);
  }

  lemma WholeWeeks(days: int, off: int)
    requires -1440 < off < 1440
    ensures (days * 1440 + off) % 10080 == 0 <==> off == 0 && days % 7 == 0
  {
    var x := days * 1440 + off;
    if x % 10080 == 0 {
      NoDayLeft(x / 10080, days, off);
      Sevens(x / 10080);
    }
    if off == 0 && days % 7 == 0 {
      Weeks(days / 7);
      assert x == 10080 * (days / 7);
    }
  }

  lemma NoDayLeft(q: int, days: int, off: int)
    requires -1440 < off < 1440 && days * 1440 + off == 10080 * q
    ensures off == 0 && days == 7 * q
  {
  }

  lemma Sevens(q: int)
    ensures 7 * q % 7 == 0
  {
  }

  lemma Weeks(q: int)
    ensures 10080 * q % 10080 == 0
  {
  }

  lemma PartsAddUp(z: Zone, t: int)
    ensures var p := ZonedParts(z, t);
            && WallClock(z, t) == p.day * 1440 + p.hour * 60 + p.minute && p.hour < 24 && p.minute < 60
            && (WallClock(z, t) >= 0 <==> p.day >= 0)
  {
  }

  /** `m h * * d` fires a whole number of weeks from that time on the `d`-th day after Sunday, 2 January 2000. */
  lemma WeeklyFires(m: nat, h: nat, d: nat, z: Zone, t: int, sunday: Date)
    requires m < 60 && h < 24 && d < 7 && sunday == Date(2000, 1, 2)
    ensures TextFires(DayText(m, h, "*", Spelled([d])), z, t) <==>
            WallClock(z, t) >= 0 && (WallClock(z, t) - ((DayNumber(sunday) + d) * 1440 + h * 60 + m)) % 10080 == 0
  {
    hide TextFires, Spells, Civil, Spelled, DayNumber, DayText, Weekday, ZonedParts, WallClock, Between;
    var p := ZonedParts(z, t);
    PartsAddUp(z, t);
    StarSpells(DAY_OF_MONTH, 31);
    NumberSpells(d, DAY_OF_WEEK);
    DayTextFires(m, h, "*", Between(1, 31), Spelled([d]), {d}, z, t);
    WeeksApart(p.day, p.hour, p.minute, DayNumber(sunday) + d, h, m);
    if p.day >= 0 {
      WeekdayFrom(p.day, d, sunday);
      assert ValidDate(Civil(p.day));
    }
  }

  // ----- a day of the month, or either

  /** `m h dom * *` fires at that time of the dates with that day. */
  lemma MonthlyFires(m: nat, h: nat, dom: nat, z: Zone, t: int)
    requires m < 60 && h < 24 && 1 <= dom <= 31
    ensures TextFires(DayText(m, h, Spelled([dom]), "*"), z, t) <==>
            exists date :: ValidDate(date) && date.day == dom && WallClock(z, t) == DayNumber(date) * 1440 + h * 60 + m
  {
    hide TextFires, Spells, Civil, Spelled, DayNumber, DayText, Weekday;
    var p := ZonedParts(z, t);
    StarSpells(DAY_OF_WEEK, 6);
    NumberSpells(dom, DAY_OF_MONTH);
    DayTextFires(m, h, Spelled([dom]), {dom}, "*", Between(0, 6), z, t);
    if p.day >= 0 {
      WeekdaysFollow(p.day, Date(2000, 1, 1), Date(1970, 1, 1));
      assert ValidDate(Civil(p.day)) && DayNumber(Civil(p.day)) == p.day;
    }
    forall date | ValidDate(date) && date.day == dom && WallClock(z, t) == DayNumber(date) * 1440 + h * 60 + m
      ensures p.day == DayNumber(date) && p.hour == h && p.minute == m && Civil(p.day).day == dom
    {
      PartsOfWall(DayNumber(date), h, m);
      CivilOfDayNumber(date);
    }
  }

  /** With both day fields given, the text fires when it would with either alone. */
  lemma EitherDayFires(m: nat, h: nat, dom: nat, d: nat, z: Zone, t: int)
    requires m < 60 && h < 24 && 1 <= dom <= 31 && d < 7
    ensures TextFires(DayText(m, h, Spelled([dom]), Spelled([d])), z, t) <==>
            TextFires(DayText(m, h, Spelled([dom]), "*"), z, t) || TextFires(DayText(m, h, "*", Spelled([d])), z, t)
  {
    hide TextFires, Spells, Civil, Spelled, DayText, Weekday, ZonedParts, Between, DayNumber;
    var p := ZonedParts(z, t);
    StarSpells(DAY_OF_WEEK, 6);
    StarSpells(DAY_OF_MONTH, 31);
    NumberSpells(dom, DAY_OF_MONTH);
    NumberSpells(d, DAY_OF_WEEK);
    DayTextFires(m, h, Spelled([dom]), {dom}, Spelled([d]), {d}, z, t);
    DayTextFires(m, h, Spelled([dom]), {dom}, "*", Between(0, 6), z, t);
    DayTextFires(m, h, "*", Between(1, 31), Spelled([d]), {d}, z, t);
    if p.day >= 0 {
      WeekdaysFollow(p.day, Date(2000, 1, 1), Date(1970, 1, 1));
      assert ValidDate(Civil(p.day));
    }
  }

  // ----- the preview of a weekly text

  /** The first minute after `f` that is a whole number of weeks from `a`. */
  function WeekAfter(f: int, a: int): (t: int)
    ensures f < t <= f + 10080 && (t - a) % 10080 == 0
  {
    f + 1 + (a - f - 1) % 10080
  }

  lemma WeekLater(f: int, t: int, start: int)
    requires f < t <= f + 10080 && start == f / 1440
    ensures start <= t / 1440 <= start + 7
  {
  }

  /** That minute is one of the nine days' firings. */
  lemma WeekAfterFires(m: nat, h: nat, d: nat, z: Zone, from: int, sunday: Date) returns (t: int)
    requires m < 60 && h < 24 && d < 7 && sunday == Date(2000, 1, 2)
    requires z.changes == [] && StartDay(z, from) >= 0
    ensures t == WeekAfter(from / 60000, (DayNumber(sunday) + d) * 1440 + h * 60 + m - z.base)
    ensures TextsFire(t, [DayText(m, h, "*", Spelled([d]))], z, from)
  {
    hide TextFires, DayText, Spelled, DayNumber, WeekAfter, WallClock, ZonedParts, StartDay;
    var f := from / 60000;
    t := WeekAfter(f, (DayNumber(sunday) + d) * 1440 + h * 60 + m - z.base);
    FixedOffsetShows(z, f);
    FixedOffsetShows(z, t);
    WeekLater(f + z.base, t + z.base, (f + z.base) / 1440);
    StartIsDayOf(z, from);
    MinuteAfter(from, t);
    WeeklyFires(m, h, d, z, t, sunday);
    OneTextIn(t, DayText(m, h, "*", Spelled([d])), z, from);
  }

  lemma FixedOffsetShows(z: Zone, t: int)
    requires z.changes == []
    ensures WallClock(z, t) == t + z.base && ZonedParts(z, t).day == (t + z.base) / 1440
  {
  }

  lemma StartIsDayOf(z: Zone, from: int)
    ensures StartDay(z, from) == ZonedParts(z, from / 60000).day
  {
  }

  lemma MinuteAfter(from: int, t: int)
    ensures t > from / 60000 <==> t * 60000 > from
  {
  }

  lemma OneTextIn(t: int, expr: string, z: Zone, from: int)
    requires TextFires(expr, z, t) && t * 60000 > from && StartDay(z, from) <= ZonedParts(z, t).day <= StartDay(z, from) + 8
    ensures TextsFire(t, [expr], z, from)
  {
    assert [expr][0] == expr;
  }

  /** Under a fixed offset the preview of `m h * * d` is that time on the next `d`-th day after a Sunday: there is one within the week after `from`. */
  lemma WeeklyPreview(best: Option<int>, m: nat, h: nat, d: nat, z: Zone, from: int, sunday: Date)
    requires m < 60 && h < 24 && d < 7 && sunday == Date(2000, 1, 2)
    requires z.changes == [] && AnswersTexts(best, [DayText(m, h, "*", Spelled([d]))], z, from)
    ensures best.Some? && from < best.value * 60000 && best.value <= from / 60000 + 10080
    ensures (best.value + z.base - ((DayNumber(sunday) + d) * 1440 + h * 60 + m)) % 10080 == 0
  {
    hide TextsFire, TextFires, AnswersTexts, DayText, Spelled, DayNumber, StartDay, WeekAfter;
    var texts := [DayText(m, h, "*", Spelled([d]))];
    StartsAfterZero(best, texts, z, from);
    var t := WeekAfterFires(m, h, d, z, from, sunday);
    PreviewUnderFixedOffset(best, texts, z, from);
    OneTextFires(best.value, texts[0], z, from);
    WeeklyFires(m, h, d, z, best.value, sunday);
    assert best.value <= t;
  }

  lemma StartsAfterZero(best: Option<int>, exprs: seq<string>, z: Zone, from: int)
    requires AnswersTexts(best, exprs, z, from)
    ensures StartDay(z, from) >= 0
  {
  }

  lemma OneTextFires(t: int, expr: string, z: Zone, from: int)
    requires TextsFire(t, [expr], z, from)
    ensures TextFires(expr, z, t) && t * 60000 > from
  {
  }

  /** `0 9 * * 1`: the preview is nine o'clock of the next Monday; 3 January 2000 was one. */
  lemma MondaysAtNine(best: Option<int>, z: Zone, from: int, monday: Date)
    requires z.changes == [] && AnswersTexts(best, ["0 9 * * 1"], z, from) && monday == Date(2000, 1, 3)
    ensures best.Some? && from < best.value * 60000 && best.value <= from / 60000 + 7 * 1440
    ensures (best.value + z.base - (DayNumber(monday) * 1440 + 9 * 60)) % (7 * 1440) == 0
  {
    hide AnswersTexts, DayText, YearStart;
    assert Spelled([0]) == "0" && Spelled([9]) == "9" && Spelled([1]) == "1" by {
      SpelledOne(0);
      SpelledOne(9);
      SpelledOne(1);
    }
    MondayText();
    var sunday := Date(2000, 1, 2);
    assert DayNumber(monday) == DayNumber(sunday) + 1;
    WeeklyPreview(best, 0, 9, 1, z, from, sunday);
  }

  lemma MondayText()
    requires Spelled([0]) == "0" && Spelled([9]) == "9" && Spelled([1]) == "1"
    ensures DayText(0, 9, "*", Spelled([1])) == "0 9 * * 1"
  {
    hide Spelled;
    assert "0" + (" " + ("9" + (" " + ("*" + (" " + ("*" + (" " + "1"))))))) == "0 9 * * 1";
  }
}
