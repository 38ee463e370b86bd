/**
 Timestamps as RFC 3339 text (section 5.6): what `timeArg` writes into a column and
 `scanTime` reads back, and how SQL's string comparison orders such columns. Trailing
 zeros of the fraction are dropped, so the text order is not the time order: it is wrong
 exactly when two instants share a second and one fraction continues the other
 (`TextOrder`). The greatest text still falls in the second of the latest instant.
 */
module Timestamps {
  import opened Wrappers
  import opened Calendar
  import opened Text


  function Seconds(t: Instant): nat { t / 1_000_000_000 }

  function Nanos(t: Instant): nat { t % 1_000_000_000 }

  function DayOf(s: nat): nat { s / 86400 }

  function ClockOf(s: nat): (c: nat)
    ensures c < 86400
  {
    s % 86400
  }

  /** The instants a four-digit year can show. */
  predicate InRange(t: Instant) {
    Civil(DayOf(Seconds(t))).year < 10000
  }

  // ----- digits

  function Pow10(w: nat): nat {
    if w == 0 then 1 else 10 * Pow10(w - 1)
  }

  /** `n` in `w` digits, leading zeros kept. */
  function Padded(n: nat, w: nat): (s: string)
    ensures |s| == w && AllDigits(s)
  {
    if w == 0 then "" else Padded(n / 10, w - 1) + [Digit(n % 10)]
  }

  predicate AllZeros(s: string) {
    forall i :: 0 <= i < |s| ==> s[i] == '0'
  }

  /** The string without its trailing zeros. */
  function Shortest(s: string): (r: string)
    ensures |r| <= |s|
  {
    if AllZeros(s) then "" else [s[0]] + Shortest(s[1..])
  }

  function Zeros(k: nat): (s: string)
    ensures |s| == k && AllZeros(s)
  {
    seq(k, _ => '0')
  }

  // ----- encoding

  function Clock(s: nat): (r: string)
    ensures |r| == 8
  {
    Padded(s / 3600, 2) + ":" + Padded(s / 60 % 60, 2) + ":" + Padded(s % 60, 2)
  }

  function DateText(d: Date): (r: string)
    ensures |r| == 10
  {
    Padded(d.year, 4) + "-" + Padded(d.month, 2) + "-" + Padded(d.day, 2)
  }

  /** Whole seconds: always nineteen characters. */
  function SecondsText(s: nat): (r: string)
    ensures |r| == 19
  {
    DateText(Civil(DayOf(s))) + "T" + Clock(ClockOf(s))
  }

  /** The fraction digits: nine, less the trailing zeros. */
  function FractionText(nanos: nat): string {
    Shortest(Padded(nanos, 9))
  }

  /** The fraction, if there is one, and the UTC designator. */
  function Tail(nanos: nat): string {
    (if nanos == 0 then "" else "." + FractionText(nanos)) + "Z"
  }

  function Encode(t: Instant): string {
    SecondsText(Seconds(t)) + Tail(Nanos(t))
  }

  /** Five past one in the afternoon of the leap day of 2024, nine seconds on: with half a second, and without. */
  lemma TextOfAnInstant(leapDay: Date, s: nat, t: Instant)
    requires leapDay == Date(2024, 2, 29) && s == DayNumber(leapDay) * 86400 + 13 * 3600 + 5 * 60 + 9
    ensures t == s * 1_000_000_000 + 500_000_000 ==> Encode(t) == "2024-02-29T13:05:09.5Z"
    ensures t == s * 1_000_000_000 ==> Encode(t) == "2024-02-29T13:05:09Z"
  {
    hide DayNumber, Civil, DateText, Clock, Tail;
    CivilOfDayNumber(leapDay);
    var clock := 13 * 3600 + 5 * 60 + 9;
    SecondOfDay(DayNumber(leapDay), clock);
    LeapDayText(leapDay);
    ClockText(clock);
    HalfSecond();
    assert "2024-02-29" + "T" + "13:05:09" == "2024-02-29T13:05:09";
    if t == s * 1_000_000_000 + 500_000_000 {
      assert Seconds(t) == s && Nanos(t) == 500_000_000;
      assert "2024-02-29T13:05:09" + ".5Z" == "2024-02-29T13:05:09.5Z";
    }
    if t == s * 1_000_000_000 {
      assert Seconds(t) == s && Nanos(t) == 0;
      assert "2024-02-29T13:05:09" + "Z" == "2024-02-29T13:05:09Z";
    }
  }

  lemma SecondOfDay(day: nat, clock: nat)
    requires clock < 86400
    ensures DayOf(day * 86400 + clock) == day && ClockOf(day * 86400 + clock) == clock
  {
  }

  lemma LeapDayText(leapDay: Date)
    requires leapDay == Date(2024, 2, 29)
    ensures DateText(leapDay) == "2024-02-29"
  {
    assert Padded(2024, 4) == "2024" && Padded(2, 2) == "02" && Padded(29, 2) == "29";
  }

  lemma ClockText(clock: nat)
    requires clock == 13 * 3600 + 5 * 60 + 9
    ensures Clock(clock) == "13:05:09"
  {
    assert clock / 3600 == 13 && clock / 60 % 60 == 5 && clock % 60 == 9;
    assert Padded(13, 2) == "13" && Padded(5, 2) == "05" && Padded(9, 2) == "09";
  }

  lemma HalfSecond()
    ensures Tail(500_000_000) == ".5Z" && Tail(0) == "Z"
  {
    hide Padded;
    FiveAndZeros();
    assert AllZeros("500000000"[1..]) && Shortest("500000000"[1..]) == "";
  }

  lemma FiveAndZeros()
    ensures Padded(500_000_000, 9) == "500000000"
  {
  }

  // ----- decoding

  function TailValue(s: string): Option<nat> {
    if s == "Z" then Some(0)
    else if !(3 <= |s| <= 11) || s[0] != '.' || s[|s| - 1] != 'Z' then None
    else Number(s[1..|s| - 1] + Zeros(11 - |s|))
  }

  function DateValue(s: string): Option<nat>
    requires |s| == 10
  {
    var y, mo, d := Number(s[..4]), Number(s[5..7]), Number(s[8..]);
    if s[4] != '-' || s[7] != '-' || y.None? || mo.None? || d.None? then None
    else if !ValidDate(Date(y.value, mo.value, d.value)) then None
    else Some(DayNumber(Date(y.value, mo.value, d.value)))
  }

  function ClockValue(s: string): Option<nat>
    requires |s| == 8
  {
    var h, mi, sec := Number(s[..2]), Number(s[3..5]), Number(s[6..]);
    if s[2] != ':' || s[5] != ':' || h.None? || mi.None? || sec.None? then None
    else if h.value >= 24 || mi.value >= 60 || sec.value >= 60 then None
    else Some(h.value * 3600 + mi.value * 60 + sec.value)
  }

  function SecondsValue(s: string): Option<nat>
    requires |s| == 19
  {
    var day, clock := DateValue(s[..10]), ClockValue(s[11..]);
    if s[10] == 'T' && day.Some? && clock.Some? then Some(day.value * 86400 + clock.value) else None
  }

  function Decode(s: string): Option<Instant> {
    if |s| < 20 then None
    else
      var sec, nanos := SecondsValue(s[..19]), TailValue(s[19..]);
      if sec.Some? && nanos.Some? then Some(sec.value * 1_000_000_000 + nanos.value) else None
  }

  // ----- round trip

  lemma {:induction false} PaddedReadsBack(n: nat, w: nat)
    requires n < Pow10(w)
    ensures Number(Padded(n, w)) == Some(n)
  {
    if w > 0 {
      PaddedReadsBack(n / 10, w - 1);
      var s := Padded(n, w);
      assert s[..w - 1] == Padded(n / 10, w - 1);
    }
  }

  lemma {:induction false} ShortestPrefix(s: string)
    ensures Shortest(s) + Zeros(|s| - |Shortest(s)|) == s
    ensures Shortest(s) == "" <==> AllZeros(s)
  {
    if !AllZeros(s) {
      ShortestPrefix(s[1..]);
      assert s == [s[0]] + s[1..];
    }
  }

  lemma TailReadsBack(nanos: nat)
    requires nanos < 1_000_000_000
    ensures TailValue(Tail(nanos)) == Some(nanos)
  {
    NineDigits(nanos);
    if nanos > 0 {
      var f, s := FractionText(nanos), Tail(nanos);
      ShortestPrefix(Padded(nanos, 9));
      assert f != "" by {
        if f == "" {
          assert Padded(nanos, 9) == Padded(0, 9) by {
            ZeroIsZeros(9);
          }
          NineDigits(0);
        }
      }
      assert |s| == |f| + 2 && s[0] == '.' && s[|s| - 1] == 'Z' && s[1..|s| - 1] == f;
    }
  }

  lemma {:induction false} ZeroIsZeros(w: nat)
    ensures Padded(0, w) == Zeros(w)
  {
    if w > 0 {
      ZeroIsZeros(w - 1);
    }
  }

  lemma NineDigits(n: nat)
    requires n < 1_000_000_000
    ensures Number(Padded(n, 9)) == Some(n)
  {
    assert Pow10(3) == 1000 && Pow10(6) == 1000 * Pow10(3) && Pow10(9) == 1000 * Pow10(6);
    PaddedReadsBack(n, 9);
  }

  lemma DateReadsBack(d: Date)
    requires ValidDate(d) && d.year < 10000
    ensures DateValue(DateText(d)) == Some(DayNumber(d))
  {
    hide Number;
    var y, mo, dd, s := Padded(d.year, 4), Padded(d.month, 2), Padded(d.day, 2), DateText(d);
    assert Pow10(2) == 100 && Pow10(4) == 100 * Pow10(2);
    PaddedReadsBack(d.year, 4);
    PaddedReadsBack(d.month, 2);
    PaddedReadsBack(d.day, 2);
    assert s[..4] == y && s[5..7] == mo && s[8..] == dd;
  }

  lemma ClockParts(c: nat)
    requires c < 86400
    ensures c / 3600 < 24 && c == c / 3600 * 3600 + c / 60 % 60 * 60 + c % 60
  {
  }

  lemma ClockValueIs(r: string, h: nat, m: nat, s: nat)
    requires |r| == 8 && r[2] == ':' && r[5] == ':' && h < 24 && m < 60 && s < 60
    requires Number(r[..2]) == Some(h) && Number(r[3..5]) == Some(m) && Number(r[6..]) == Some(s)
    ensures ClockValue(r) == Some(h * 3600 + m * 60 + s)
  {
    hide Number;
  }

  lemma PartsReadBack(hh: string, mm: string, ss: string, h: nat, m: nat, s: nat)
    requires |hh| == 2 && |mm| == 2 && |ss| == 2 && h < 24 && m < 60 && s < 60
    requires Number(hh) == Some(h) && Number(mm) == Some(m) && Number(ss) == Some(s)
    ensures ClockValue(hh + ":" + mm + ":" + ss) == Some(h * 3600 + m * 60 + s)
  {
    hide Number, ClockValue;
    var r := hh + ":" + mm + ":" + ss;
    assert r[2] == ':' && r[5] == ':';
    assert r[..2] == hh && r[3..5] == mm && r[6..] == ss;
    ClockValueIs(r, h, m, s);
  }

  lemma ClockReadsBack(c: nat)
    requires c < 86400
    ensures ClockValue(Clock(c)) == Some(c)
  {
    hide ClockValue, Padded, Number;
    var h, m, s := c / 3600, c / 60 % 60, c % 60;
    ClockParts(c);
    TwoDigits(h);
    TwoDigits(m);
    TwoDigits(s);
    PartsReadBack(Padded(h, 2), Padded(m, 2), Padded(s, 2), h, m, s);
  }

  lemma TwoDigits(n: nat)
    requires n < 100
    ensures Number(Padded(n, 2)) == Some(n)
  {
    assert Pow10(2) == 100;
    PaddedReadsBack(n, 2);
  }

  lemma DayAndClockReadBack(date: string, clock: string, d: nat, c: nat)
    requires |date| == 10 && |clock| == 8 && DateValue(date) == Some(d) && ClockValue(clock) == Some(c)
    ensures SecondsValue(date + "T" + clock) == Some(d * 86400 + c)
  {
    hide DateValue, ClockValue;
    var r := date + "T" + clock;
    assert r[..10] == date && r[11..] == clock;
  }

  lemma SecondsReadBack(s: nat)
    requires Civil(DayOf(s)).year < 10000
    ensures SecondsValue(SecondsText(s)) == Some(s)
  {
    hide DateText, Clock, DateValue, ClockValue, SecondsValue;
    var d, c := DayOf(s), ClockOf(s);
    DateReadsBack(Civil(d));
    ClockReadsBack(c);
    DayAndClockReadBack(DateText(Civil(d)), Clock(c), d, c);
  }

  lemma SecondsAndTailReadBack(sec: string, tail: string, s: nat, n: nat)
    requires |sec| == 19 && SecondsValue(sec) == Some(s) && TailValue(tail) == Some(n)
    ensures Decode(sec + tail) == Some(s * 1_000_000_000 + n)
  {
    hide SecondsValue;
    assert (sec + tail)[..19] == sec && (sec + tail)[19..] == tail;
  }

  /** What is written is read back, to the nanosecond. */
  lemma EncodeReadsBack(t: Instant)
    requires InRange(t)
    ensures Decode(Encode(t)) == Some(t)
  {
    hide Decode, SecondsText, Tail, SecondsValue, TailValue;
    SecondsReadBack(Seconds(t));
    TailReadsBack(Nanos(t));
    SecondsAndTailReadBack(SecondsText(Seconds(t)), Tail(Nanos(t)), Seconds(t), Nanos(t));
  }

  // ----- text order

  /** The order of SQL text columns, character by character. */
  predicate TextLess(a: string, b: string) {
    b != "" && (a == "" || a[0] < b[0] || (a[0] == b[0] && TextLess(a[1..], b[1..])))
  }

  lemma {:induction false} TextLessOfConcat(a: string, b: string, x: string, y: string)
    requires |a| == |b|
    ensures a == b ==> (TextLess(a + x, b + y) <==> TextLess(x, y))
    ensures a != b ==> (TextLess(a + x, b + y) <==> TextLess(a, b))
  {
    if a == "" {
      assert a + x == x && b + y == y;
    } else {
      assert (a + x)[1..] == a[1..] + x && (b + y)[1..] == b[1..] + y;
      assert a == [a[0]] + a[1..] && b == [b[0]] + b[1..];
      TextLessOfConcat(a[1..], b[1..], x, y);
    }
  }

  lemma {:induction false} TextLessIsTotal(a: string, b: string)
    ensures a != b ==> (TextLess(a, b) <==> !TextLess(b, a))
    ensures a == b ==> !TextLess(a, b)
  {
    if a != "" && b != "" {
      assert a == [a[0]] + a[1..] && b == [b[0]] + b[1..];
      TextLessIsTotal(a[1..], b[1..]);
    }
  }

  /** Numbers of the same width compare as their digits do. */
  lemma {:induction false} PaddedOrder(n: nat, m: nat, w: nat)
    requires n < Pow10(w) && m < Pow10(w)
    ensures n < m <==> TextLess(Padded(n, w), Padded(m, w))
    ensures n == m <==> Padded(n, w) == Padded(m, w)
  {
    PaddedReadsBack(n, w);
    PaddedReadsBack(m, w);
    if w > 0 {
      PaddedOrder(n / 10, m / 10, w - 1);
      TextLessOfConcat(Padded(n / 10, w - 1), Padded(m / 10, w - 1), [Digit(n % 10)], [Digit(m % 10)]);
    }
  }

  predicate ProperPrefix(a: string, b: string) {
    |a| < |b| && a == b[..|a|]
  }

  lemma {:induction false} ZerosFirst(a: string, b: string)
    requires |a| == |b| && AllDigits(b) && AllZeros(a)
    ensures a != b <==> TextLess(a, b)
    ensures a == b <==> AllZeros(b)
  {
    if a != "" {
      assert a == [a[0]] + a[1..] && b == [b[0]] + b[1..];
      ZerosFirst(a[1..], b[1..]);
    }
  }

  /** Trimming zeros and closing with 'Z', which sorts after every digit, reverses the order exactly when one trimmed string continues the other. */
  lemma {:induction false} ShortestOrder(a: string, b: string)
    requires |a| == |b| && AllDigits(a) && AllDigits(b) && a != b
    ensures TextLess(Shortest(a) + "Z", Shortest(b) + "Z") <==>
            || (TextLess(a, b) && !ProperPrefix(Shortest(a), Shortest(b)))
            || (TextLess(b, a) && ProperPrefix(Shortest(b), Shortest(a)))
  {
    assert a == [a[0]] + a[1..] && b == [b[0]] + b[1..];
    TextLessIsTotal(a, b);
    if AllZeros(a) {
      ZerosFirst(a, b);
      assert (Shortest(b) + "Z")[0] == b[0];
    } else if AllZeros(b) {
      ZerosFirst(b, a);
      assert (Shortest(a) + "Z")[0] == a[0];
    } else {
      var ta, tb := Shortest(a[1..]), Shortest(b[1..]);
      assert (Shortest(a) + "Z")[1..] == ta + "Z" && (Shortest(b) + "Z")[1..] == tb + "Z";
      assert (Shortest(a) + "Z")[0] == a[0] && (Shortest(b) + "Z")[0] == b[0];
      PrefixOfCons(a[0], b[0], ta, tb);
      PrefixOfCons(b[0], a[0], tb, ta);
      if a[0] == b[0] {
        ShortestOrder(a[1..], b[1..]);
      }
    }
  }

  lemma PrefixOfCons(c: char, d: char, a: string, b: string)
    ensures ProperPrefix([c] + a, [d] + b) <==> c == d && ProperPrefix(a, b)
  {
    if |a| < |b| {
      assert ([d] + b)[..|a| + 1] == [d] + b[..|a|];
      assert ([c] + a)[0] == c && ([c] + a)[1..] == a && ([d] + b[..|a|])[0] == d && ([d] + b[..|a|])[1..] == b[..|a|];
    }
  }

  lemma TailOrder(a: nat, b: nat)
    requires a < 1_000_000_000 && b < 1_000_000_000 && a != b
    ensures TextLess(Tail(a), Tail(b)) <==>
            || (a < b && !ProperPrefix(FractionText(a), FractionText(b)))
            || (b < a && ProperPrefix(FractionText(b), FractionText(a)))
  {
    assert Pow10(3) == 1000 && Pow10(6) == 1000 * Pow10(3) && Pow10(9) == 1000 * Pow10(6);
    PaddedOrder(a, b, 9);
    PaddedOrder(b, a, 9);
    ShortestOrder(Padded(a, 9), Padded(b, 9));
    ZeroFraction(a);
    ZeroFraction(b);
    if a != 0 && b != 0 {
      assert Tail(a)[1..] == FractionText(a) + "Z" && Tail(b)[1..] == FractionText(b) + "Z";
    } else if a == 0 {
      assert FractionText(a) == FractionText(b)[..0];
    } else {
      assert FractionText(b) == FractionText(a)[..0];
    }
  }

  lemma ZeroFraction(n: nat)
    requires n < 1_000_000_000
    ensures FractionText(n) == "" <==> n == 0
  {
    ShortestPrefix(Padded(n, 9));
    ZeroIsZeros(9);
    NineDigits(n);
    NineDigits(0);
    if FractionText(n) == "" {
      assert Padded(n, 9) == Zeros(9);
    }
  }

  /** One more field of fixed width after a separator. */
  lemma FieldAppended(x: string, b: string, x': string, b': string, sep: string)
    requires |x| == |x'|
    ensures TextLess(x + sep + b, x' + sep + b') <==> TextLess(x, x') || (x == x' && TextLess(b, b'))
    ensures x + sep + b == x' + sep + b' <==> x == x' && b == b'
  {
    TextLessOfConcat(x + sep, x' + sep, b, b');
    TextLessOfConcat(x, x', sep, sep);
    TextLessIsTotal(sep, sep);
    TextLessIsTotal(x, x');
    assert (x + sep + b)[..|x|] == x && (x' + sep + b')[..|x|] == x' && (x + sep)[..|x|] == x && (x' + sep)[..|x|] == x';
    assert (x + sep + b)[|x + sep|..] == b && (x' + sep + b')[|x + sep|..] == b';
  }

  /** Three fields of fixed width between separators compare field by field. */
  lemma FieldOrder(a: string, b: string, c: string, a': string, b': string, c': string, sep: string)
    requires |a| == |a'| && |b| == |b'| && |c| == |c'|
    ensures TextLess(a + sep + b + sep + c, a' + sep + b' + sep + c') <==>
            TextLess(a, a') || (a == a' && (TextLess(b, b') || (b == b' && TextLess(c, c'))))
  {
    FieldAppended(a, b, a', b', sep);
    FieldAppended(a + sep + b, c, a' + sep + b', c', sep);
  }

  lemma DateOrder(d: Date, e: Date)
    requires ValidDate(d) && ValidDate(e) && d.year < 10000 && e.year < 10000
    ensures TextLess(DateText(d), DateText(e)) <==> Earlier(d, e)
  {
    assert Pow10(2) == 100 && Pow10(4) == 100 * Pow10(2);
    PaddedOrder(d.year, e.year, 4);
    PaddedOrder(d.month, e.month, 2);
    PaddedOrder(d.day, e.day, 2);
    FieldOrder(Padded(d.year, 4), Padded(d.month, 2), Padded(d.day, 2), Padded(e.year, 4), Padded(e.month, 2), Padded(e.day, 2), "-");
  }

  lemma ClockOrder(c: nat, e: nat)
    requires c < 86400 && e < 86400
    ensures TextLess(Clock(c), Clock(e)) <==> c < e
  {
    assert Pow10(2) == 100;
    ClockParts(c);
    ClockParts(e);
    PaddedOrder(c / 3600, e / 3600, 2);
    PaddedOrder(c / 60 % 60, e / 60 % 60, 2);
    PaddedOrder(c % 60, e % 60, 2);
    FieldOrder(Padded(c / 3600, 2), Padded(c / 60 % 60, 2), Padded(c % 60, 2), Padded(e / 3600, 2), Padded(e / 60 % 60, 2), Padded(e % 60, 2), ":");
  }

  /** Across seconds, text order is time order. */
  lemma SecondsOrder(s: nat, e: nat)
    requires Civil(DayOf(s)).year < 10000 && Civil(DayOf(e)).year < 10000 && s < e
    ensures TextLess(SecondsText(s), SecondsText(e))
  {
    var d, f := Civil(DayOf(s)), Civil(DayOf(e));
    DatesAscend(d, f);
    DateOrder(d, f);
    ClockOrder(ClockOf(s), ClockOf(e));
    FieldAppended(DateText(d), Clock(ClockOf(s)), DateText(f), Clock(ClockOf(e)), "T");
  }

  /** Two instants of one second, the earlier one's fraction being where the later one's starts. */
  predicate Clash(earlier: Instant, later: Instant) {
    Seconds(earlier) == Seconds(later) && ProperPrefix(FractionText(Nanos(earlier)), FractionText(Nanos(later)))
  }

  /** The text order of two timestamps is their time order, except that it is reversed exactly when they clash. */
  lemma TextOrder(t: Instant, u: Instant)
    requires InRange(t) && InRange(u) && t != u
    ensures TextLess(Encode(t), Encode(u)) <==> (t < u && !Clash(t, u)) || (u < t && Clash(u, t))
  {
    var st, su := SecondsText(Seconds(t)), SecondsText(Seconds(u));
    TextLessOfConcat(st, su, Tail(Nanos(t)), Tail(Nanos(u)));
    TextLessIsTotal(st, su);
    if Seconds(t) < Seconds(u) {
      SecondsOrder(Seconds(t), Seconds(u));
    } else if Seconds(u) < Seconds(t) {
      SecondsOrder(Seconds(u), Seconds(t));
    } else {
      TailOrder(Nanos(t), Nanos(u));
    }
  }

  /** The commonest clash: a whole second sorts after every later instant of that second. */
  lemma WholeSecondSortsLast(t: Instant, u: Instant)
    requires InRange(t) && Nanos(t) == 0 && t < u && Seconds(t) == Seconds(u)
    ensures TextLess(Encode(u), Encode(t))
  {
    ZeroFraction(Nanos(t));
    ZeroFraction(Nanos(u));
    assert FractionText(Nanos(t)) == FractionText(Nanos(u))[..0];
    TextOrder(u, t);
  }

  // ----- MAX over a text column

  function Encoded(ts: seq<Instant>): (r: seq<string>)
    ensures |r| == |ts|
  {
    if ts == [] then [] else [Encode(ts[0])] + Encoded(ts[1..])
  }

  /** SQL's MAX: the greatest text of a non-empty group. */
  function LatestText(texts: seq<string>): string
    requires texts != []
  {
    if |texts| == 1 then texts[0]
    else
      var rest := LatestText(texts[1..]);
      if TextLess(rest, texts[0]) then texts[0] else rest
  }

  function Latest(ts: seq<Instant>): (m: Instant)
    requires ts != []
    ensures m in ts && forall t :: t in ts ==> t <= m
  {
    if |ts| == 1 then ts[0]
    else
      var rest := Latest(ts[1..]);
      assert forall t :: t in ts ==> t == ts[0] || t in ts[1..];
      if rest < ts[0] then ts[0] else rest
  }

  lemma {:induction false} LatestTextIsOneOfThem(ts: seq<Instant>) returns (m: Instant)
    requires ts != [] && forall t :: t in ts ==> InRange(t)
    ensures m in ts && LatestText(Encoded(ts)) == Encode(m)
    ensures forall t :: t in ts && t != m ==> !TextLess(Encode(m), Encode(t))
  {
    if |ts| == 1 {
      m := ts[0];
    } else {
      assert Encoded(ts)[1..] == Encoded(ts[1..]);
      m := LatestTextIsOneOfThem(ts[1..]);
      if TextLess(Encode(m), Encode(ts[0])) {
        var below := m;
        m := ts[0];
        forall t | t in ts && t != m
          ensures !TextLess(Encode(m), Encode(t))
        {
          assert t in ts[1..];
          TextLessIsTotal(Encode(m), Encode(t));
          if t != below {
            TextLessIsTransitive(Encode(below), Encode(m), Encode(t));
          } else {
            TextLessIsTotal(Encode(below), Encode(m));
          }
        }
      } else {
        assert forall t :: t in ts ==> t == ts[0] || t in ts[1..];
      }
    }
  }

  lemma {:induction false} TextLessIsTransitive(a: string, b: string, c: string)
    ensures TextLess(a, b) && TextLess(b, c) ==> TextLess(a, c)
  {
    if a != "" && b != "" && c != "" {
      TextLessIsTransitive(a[1..], b[1..], c[1..]);
    }
  }

  /** The greatest text is one of the instants, never later than the latest and in its second; it is the latest exactly when nothing clashes with that. */
  lemma MaxWithinASecond(ts: seq<Instant>)
    requires ts != [] && forall t :: t in ts ==> InRange(t)
    ensures var max := Decode(LatestText(Encoded(ts)));
            && max.Some? && max.value in ts
            && max.value <= Latest(ts) < max.value + 1_000_000_000
            && Seconds(max.value) == Seconds(Latest(ts))
            && (max.value == Latest(ts) <==> forall t :: t in ts ==> !Clash(t, Latest(ts)))
  {
    var latest := Latest(ts);
    var m := LatestTextIsOneOfThem(ts);
    EncodeReadsBack(m);
    if m != latest {
      TextOrder(m, latest);
    }
    forall t | t in ts && m == latest
      ensures !Clash(t, latest)
    {
      if t != m {
        TextOrder(m, t);
      }
    }
  }
}
