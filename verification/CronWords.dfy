/**
 The words of a field besides lists of numbers: stepped ranges and names.
 */
module CronWords {
  import opened Wrappers
  import opened Text
  import opened CronFields

  /** The word is one part, and that part is the range. */
  predicate IsRange(word: string, f: Field, r: Range) {
    ',' !in word && Part(word, f) == Some(r)
  }

  lemma RangeWordDenotes(word: string, f: Field, r: Range, n: nat)
    requires IsRange(word, f, r)
    ensures WellFormed(word, f) && (Denotes(word, f, n) <==> RangeDenotes(r, f, n))
  {
    hide Part, RangeDenotes;
    SplitWhole(word, ',');
    assert word in [word];
  }

  /** 7 in the day-of-week field is 0. */
  function Folded(v: nat, f: Field): nat {
    if f.max == 7 && v == 7 then 0 else v
  }

  lemma StepsFrom(r: Range, f: Field, n: nat)
    ensures RangeDenotes(r, f, n) <==> exists k: nat :: r.lo + k * r.step <= r.hi && Folded(r.lo + k * r.step, f) == n
  {
    if RangeDenotes(r, f, n) {
      var k: nat :| At(r, k) <= r.hi && Normal(At(r, k), f) == n;
      assert r.lo + k * r.step <= r.hi;
    }
    if k: nat :| r.lo + k * r.step <= r.hi && Folded(r.lo + k * r.step, f) == n {
      assert At(r, k) <= r.hi;
    }
  }

  lemma DigitsOnly(n: nat)
    ensures var s := Decimal(n); s != "" && '/' !in s && '-' !in s && ',' !in s && '*' !in s && s[..|s|] == s
  {
    var s := Decimal(n);
    assert forall i :: 0 <= i < |s| ==> IsDigit(s[i]);
  }

  /** A range word with a step: what is before the slash, and the step behind it. */
  lemma WithStep(range: string, step: nat, f: Field)
    requires '/' !in range && ',' !in range && step >= 1
    ensures var word := range + ("/" + Decimal(step));
            && ',' !in word && Find(word, '/', 0) == |range| && word[..|range|] == range
            && Number(word[|range| + 1..]) == Some(step)
  {
    var word := range + ("/" + Decimal(step));
    DigitsOnly(step);
    DecimalReadsBack(step);
    assert forall i :: 0 <= i < |range| ==> word[i] == range[i] && range[i] in range;
    FindUnique(word, '/', 0, |range|);
    assert word[..|range|] == range && word[|range| + 1..] == Decimal(step);
  }

  /** A star with a step names every `step`-th number of the field, from its first. */
  lemma EveryStep(step: nat, f: Field, n: nat)
    requires step >= 1
    ensures var word := "*" + ("/" + Decimal(step));
            && WellFormed(word, f)
            && (Denotes(word, f, n) <==> exists k: nat :: f.min + k * step <= f.max && Folded(f.min + k * step, f) == n)
  {
    hide Denotes, WellFormed, RangeDenotes, Find, Split, Number, Decimal;
    var word := "*" + ("/" + Decimal(step));
    WithStep("*", step, f);
    assert IsRange(word, f, Range(f.min, f.max, step));
    RangeWordDenotes(word, f, Range(f.min, f.max, step), n);
    StepsFrom(Range(f.min, f.max, step), f, n);
  }

  lemma BoundIsNumber(n: nat, f: Field)
    requires NamesAreWords(f)
    ensures Bound(Decimal(n), f) == Some(n)
  {
    var s := Decimal(n);
    DecimalReadsBack(n);
    assert IsDigit(s[0]) && Lowered(s)[0] == s[0];
  }

  lemma TwoBounds(lo: string, hi: string)
    requires '-' !in lo && '-' !in hi
    ensures Split(lo + ("-" + hi), '-') == [lo, hi]
  {
    assert [lo, hi][1..] == [hi];
    assert Join([lo, hi], '-') == lo + ['-'] + Join([hi], '-') == lo + ("-" + hi);
    SplitJoins([lo, hi], '-');
  }

  /** A range with a step names every `step`-th of its numbers, from its low end. */
  lemma SteppedRange(lo: nat, hi: nat, step: nat, f: Field, n: nat)
    requires NamesAreWords(f) && f.min <= lo <= hi <= f.max && step >= 1
    ensures var word := Decimal(lo) + ("-" + Decimal(hi)) + ("/" + Decimal(step));
            && WellFormed(word, f)
            && (Denotes(word, f, n) <==> exists k: nat :: lo + k * step <= hi && Folded(lo + k * step, f) == n)
  {
    hide Denotes, WellFormed, RangeDenotes, Find, Split, Number, Decimal, Bound;
    var range := Decimal(lo) + ("-" + Decimal(hi));
    DigitsOnly(lo);
    DigitsOnly(hi);
    WithStep(range, step, f);
    TwoBounds(Decimal(lo), Decimal(hi));
    BoundIsNumber(lo, f);
    BoundIsNumber(hi, f);
    assert IsRange(range + ("/" + Decimal(step)), f, Range(lo, hi, step));
    RangeWordDenotes(range + ("/" + Decimal(step)), f, Range(lo, hi, step), n);
    StepsFrom(Range(lo, hi, step), f, n);
  }

  /** 7 is another Sunday. */
  lemma SevenIsSunday(n: nat)
    ensures Denotes("7", DAY_OF_WEEK, n) <==> n == 0
  {
    hide Denotes, Part, RangeDenotes, Decimal;
    SevenIsDecimal();
    SinglePart(7, DAY_OF_WEEK);
    DigitsOnly(7);
    var r := Range(7, 7, 1);
    RangeWordDenotes("7", DAY_OF_WEEK, r, n);
    StepsFrom(r, DAY_OF_WEEK, n);
    assert r.lo + 0 * r.step == 7;
  }

  lemma SevenIsDecimal()
    ensures Decimal(7) == "7"
  {
  }

  // ----- names

  const WEEKDAYS := ["Sun", "Mon", "Tue", "Wed", "Thu", "Fri", "Sat"]
  const MONTHS := ["Jan", "Feb", "Mar", "Apr", "May", "Jun", "Jul", "Aug", "Sep", "Oct", "Nov", "Dec"]

  function Low(c: char): char {
    if 'A' <= c <= 'Z' then c + ('a' - 'A') else c
  }

  lemma LoweredThree(s: string)
    requires |s| == 3
    ensures Lowered(s) == [Low(s[0]), Low(s[1]), Low(s[2])]
  {
    assert s[1..][1..][1..] == "" && Lowered(s[1..][1..]) == [Low(s[2])] + "";
    assert Lowered(s[1..]) == [Low(s[1])] + Lowered(s[1..][1..]);
  }

  predicate Plain(s: string) {
    |s| == 3 && forall i :: 0 <= i < 3 ==> 'A' <= s[i] <= 'Z' || 'a' <= s[i] <= 'z'
  }

  lemma NameDenotes(s: string, f: Field, v: nat, n: nat)
    requires Plain(s) && Lowered(s) in f.names && f.names[Lowered(s)] == v && f.min <= v <= f.max && Normal(v, f) == v
    ensures WellFormed(s, f) && (Denotes(s, f, n) <==> n == v)
  {
    hide Denotes, WellFormed, Lowered;
    FindUnique(s, '/', 0, |s|);
    assert s[..|s|] == s && ',' !in s && '-' !in s && s != "*";
    SplitWhole(s, '-');
    assert IsRange(s, f, Range(v, v, 1));
    RangeWordDenotes(s, f, Range(v, v, 1), n);
    assert At(Range(v, v, 1), 0) == v;
  }

  /** The names of the days, Sunday first, stand for 0 to 6, in capitals or not. */
  lemma WeekdayNames(i: nat, n: nat)
    requires i < |WEEKDAYS|
    ensures Denotes(WEEKDAYS[i], DAY_OF_WEEK, n) <==> n == i
  {
    hide Denotes, Lowered;
    var s := WEEKDAYS[i];
    LoweredThree(s);
    var low := ["sun", "mon", "tue", "wed", "thu", "fri", "sat"];
    assert Lowered(s) == low[i];
    assert low[i] in DAY_OF_WEEK.names && DAY_OF_WEEK.names[low[i]] == i;
    NameDenotes(s, DAY_OF_WEEK, i, n);
  }

  /** The names of the months stand for 1 to 12. */
  lemma MonthNames(i: nat, n: nat)
    requires i < |MONTHS|
    ensures Denotes(MONTHS[i], MONTH, n) <==> n == i + 1
  {
    hide Denotes, Lowered;
    var s := MONTHS[i];
    LoweredThree(s);
    var low := ["jan", "feb", "mar", "apr", "may", "jun", "jul", "aug", "sep", "oct", "nov", "dec"];
    assert Lowered(s) == low[i];
    assert low[i] in MONTH.names && MONTH.names[low[i]] == i + 1;
    NameDenotes(s, MONTH, i + 1, n);
  }

  /** A star with step 15 names the quarters of an hour. */
  lemma QuarterHours(n: nat)
    ensures Denotes("*/15", MINUTE, n) <==> n in {0, 15, 30, 45}
  {
    hide Denotes;
    assert "*" + ("/" + Decimal(15)) == "*/15";
    EveryStep(15, MINUTE, n);
    if n in {0, 15, 30, 45} {
      var k: nat := n / 15;
      assert MINUTE.min + k * 15 == n;
    }
  }
}
