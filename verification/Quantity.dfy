/**
 Printing and reading the sizes of a workspace: millicores and bytes.

 Main results: every whole number of millicores survives printing and reading back
 (`CpuReadsBack`); a number of bytes comes back as the nearest multiple of 1024, so it
 survives exactly when divisible by 1024 and is otherwise off by at most 512
 (`MemoryReadsBack`). A result of None is JavaScript's NaN.
 */
module Quantity {
  import opened Text
  import opened Wrappers

  const KI: nat := 1024
  const MI: nat := 1048576
  const GI: nat := 1073741824
  const TI: nat := 1099511627776

  function MemoryUnit(unit: string): Option<nat> {
    if unit == "" then Some(1)
    else if unit == "Ki" then Some(KI)
    else if unit == "Mi" then Some(MI)
    else if unit == "Gi" then Some(GI)
    else if unit == "Ti" then Some(TI)
    else if unit == "K" then Some(1000)
    else if unit == "M" then Some(1000000)
    else if unit == "G" then Some(1000000000)
    else if unit == "T" then Some(1000000000000)
    else None
  }

  /** `Math.round`: halves go up. */
  function Round(x: real): (n: int)
    ensures n as real - 0.5 <= x < n as real + 0.5
  {
    (x + 0.5).Floor
  }

  function TenToThe(k: nat): (n: nat)
    ensures n > 0
  {
    if k == 0 then 1 else 10 * TenToThe(k - 1)
  }

  /** `Number` of a text of digits with at most one point; the empty text is 0. */
  function NumberOf(s: string): Option<real> {
    var t := Trimmed(s);
    var point := Find(t, '.', 0);
    var fraction := if point < |t| then t[point + 1..] else "";
    var whole, part := Number(t[..point]), Number(fraction);
    if t == "." || whole.None? || part.None? then None
    else Some(whole.value as real + part.value as real / TenToThe(|fraction|) as real)
  }

  function ParseCpu(q: string): Option<int> {
    var s := Trimmed(q);
    if s != "" && s[|s| - 1] == 'm' then
      var milli := NumberOf(s[..|s| - 1]);
      if milli.Some? then Some(Round(milli.value)) else None
    else
      var cores := NumberOf(s);
      if cores.Some? then Some(Round(cores.value * 1000.0)) else None
  }

  function FormatCpu(milli: nat): string {
    if milli % 1000 == 0 then Decimal(milli / 1000) else Decimal(milli) + "m"
  }

  predicate InNumeral(c: char) {
    IsDigit(c) || c == '.'
  }

  predicate IsLetter(c: char) {
    'A' <= c <= 'Z' || 'a' <= c <= 'z'
  }

  /** The end of the leading digits and points. */
  function NumeralEnd(s: string, from: nat): (n: nat)
    requires from <= |s|
    ensures from <= n <= |s| && (n < |s| ==> !InNumeral(s[n])) && forall i :: from <= i < n ==> InNumeral(s[i])
    decreases |s| - from
  {
    if from < |s| && InNumeral(s[from]) then NumeralEnd(s, from + 1) else from
  }

  function Product(number: real, size: nat): real {
    number * size as real
  }

  function Scaled(number: Option<real>, unit: Option<nat>): Option<int> {
    if number.Some? && unit.Some? then Some(Round(Product(number.value, unit.value))) else None
  }

  function ParseMemory(q: string): Option<int> {
    var s := Trimmed(q);
    var n := NumeralEnd(s, 0);
    if n == 0 || exists i :: n <= i < |s| && !IsLetter(s[i]) then None
    else Scaled(NumberOf(s[..n]), MemoryUnit(s[n..]))
  }

  function FormatMemory(bytes: nat): string {
    if bytes % GI == 0 then Decimal(bytes / GI) + "Gi"
    else if bytes % MI == 0 then Decimal(bytes / MI) + "Mi"
    else Decimal(Round(bytes as real / KI as real)) + "Ki"
  }

  // ----- numbers read back

  lemma DecimalHasNoPoint(n: nat)
    ensures var s := Decimal(n); Trimmed(s) == s && NumberOf(s) == Some(n as real)
  {
    var s := Decimal(n);
    DecimalReadsBack(n);
    TrimKeeps(s);
    FindUnique(s, '.', 0, |s|);
    assert s[..|s|] == s;
    assert TenToThe(0) == 1;
  }

  lemma RoundOfWhole(n: int, x: real)
    requires x == n as real
    ensures Round(x) == n
  {
  }

  /** Every whole number of millicores survives printing and reading back. */
  lemma CpuReadsBack(milli: nat)
    ensures ParseCpu(FormatCpu(milli)) == Some(milli)
  {
    var s := FormatCpu(milli);
    TrimKeeps(s);
    if milli % 1000 == 0 {
      DecimalHasNoPoint(milli / 1000);
      RoundOfWhole(milli, (milli / 1000) as real * 1000.0);
    } else {
      DecimalHasNoPoint(milli);
      assert s[..|s| - 1] == Decimal(milli);
      RoundOfWhole(milli, milli as real);
    }
  }

  lemma {:induction false} NumeralEndIs(s: string, n: nat)
    requires n <= |s| && (forall i :: 0 <= i < n ==> InNumeral(s[i])) && (n < |s| ==> !InNumeral(s[n]))
    ensures NumeralEnd(s, 0) == n
  {
  }

  lemma {:induction false} ReadsAs(s: string, digits: string, unit: string)
    requires s == digits + unit && digits != "" && AllDigits(digits)
    requires forall i :: 0 <= i < |unit| ==> IsLetter(unit[i])
    ensures ParseMemory(s) == Scaled(NumberOf(digits), MemoryUnit(unit))
  {
    hide Trimmed, NumeralEnd, NumberOf, MemoryUnit, Scaled;
    assert s[0] == digits[0] && s[|s| - 1] == if unit == "" then digits[|digits| - 1] else unit[|unit| - 1];
    TrimKeeps(s);
    NumeralEndIs(s, |digits|);
    assert s[..|digits|] == digits && s[|digits|..] == unit;
  }

  // ----- the arithmetic

  lemma ScaledWhole(count: nat, size: nat, bytes: nat)
    requires Product(count as real, size) == bytes as real
    ensures Scaled(Some(count as real), Some(size)) == Some(bytes)
  {
    hide Product;
    RoundOfWhole(bytes, Product(count as real, size));
  }

  lemma WholeGibibytes(bytes: nat)
    requires bytes % GI == 0
    ensures Product((bytes / GI) as real, GI) == bytes as real && bytes % 1024 == 0
  {
    var count := bytes / GI;
    assert bytes == 1073741824 * count == 1024 * (1048576 * count);
  }

  lemma WholeMebibytes(bytes: nat)
    requires bytes % MI == 0
    ensures Product((bytes / MI) as real, MI) == bytes as real && bytes % 1024 == 0
  {
    var count := bytes / MI;
    assert bytes == 1048576 * count == 1024 * (1024 * count);
  }

  lemma NearestMultiple(bytes: nat) returns (count: nat, v: nat)
    ensures count == Round(bytes as real / KI as real) && Product(count as real, KI) == v as real
    ensures v % 1024 == 0 && -512 <= bytes - v < 512
  {
    var n := Round(bytes as real / KI as real);
    assert bytes as real == bytes as real / 1024.0 * 1024.0;
    count, v := n, n * 1024;
  }

  lemma MultipleIsNearest(bytes: nat, v: nat)
    requires v % 1024 == 0 && -512 <= bytes - v < 512
    ensures v == bytes <==> bytes % 1024 == 0
  {
  }

  // ----- and the text

  lemma {:induction false} SuffixedReadsBack(count: nat, unit: string, size: nat, bytes: nat)
    requires (forall i :: 0 <= i < |unit| ==> IsLetter(unit[i])) && MemoryUnit(unit) == Some(size)
    requires Product(count as real, size) == bytes as real
    ensures ParseMemory(Decimal(count) + unit) == Some(bytes)
  {
    hide ParseMemory, Decimal, MemoryUnit, NumberOf, Scaled, Product;
    DecimalHasNoPoint(count);
    ReadsAs(Decimal(count) + unit, Decimal(count), unit);
    ScaledWhole(count, size, bytes);
  }

  lemma UnitsOfFormat()
    ensures MemoryUnit("Ki") == Some(KI) && MemoryUnit("Mi") == Some(MI) && MemoryUnit("Gi") == Some(GI)
  {
  }

  /** A whole count with a unit is that many of it: powers of 1024, powers of 1000, and bytes without one. */
  lemma {:induction false} WholeCountsRead(count: nat)
    ensures ParseMemory(Decimal(count)) == Some(count)
    ensures ParseMemory(Decimal(count) + "Ki") == Some(count * 1024)
    ensures ParseMemory(Decimal(count) + "Mi") == Some(count * 1048576)
    ensures ParseMemory(Decimal(count) + "Gi") == Some(count * 1073741824)
    ensures ParseMemory(Decimal(count) + "Ti") == Some(count * 1099511627776)
    ensures ParseMemory(Decimal(count) + "K") == Some(count * 1000)
    ensures ParseMemory(Decimal(count) + "M") == Some(count * 1000000)
    ensures ParseMemory(Decimal(count) + "G") == Some(count * 1000000000)
    ensures ParseMemory(Decimal(count) + "T") == Some(count * 1000000000000)
  {
    hide ParseMemory, Decimal, MemoryUnit, NumberOf, Scaled, Product;
    AllUnits();
    assert Decimal(count) + "" == Decimal(count);
    UnitReads(count, "", 1);
    UnitReads(count, "Ki", 1024);
    UnitReads(count, "Mi", 1048576);
    UnitReads(count, "Gi", 1073741824);
    UnitReads(count, "Ti", 1099511627776);
    UnitReads(count, "K", 1000);
    UnitReads(count, "M", 1000000);
    UnitReads(count, "G", 1000000000);
    UnitReads(count, "T", 1000000000000);
  }

  lemma UnitReads(count: nat, unit: string, size: nat)
    requires (forall i :: 0 <= i < |unit| ==> IsLetter(unit[i])) && MemoryUnit(unit) == Some(size)
    ensures ParseMemory(Decimal(count) + unit) == Some(count * size)
  {
    hide ParseMemory, Decimal, MemoryUnit, NumberOf, Scaled;
    DecimalHasNoPoint(count);
    ReadsAs(Decimal(count) + unit, Decimal(count), unit);
    ScaledWhole(count, size, count * size);
  }

  lemma AllUnits()
    ensures MemoryUnit("") == Some(1) && MemoryUnit("Ki") == Some(1024) && MemoryUnit("Mi") == Some(1048576)
    ensures MemoryUnit("Gi") == Some(1073741824) && MemoryUnit("Ti") == Some(1099511627776) && MemoryUnit("K") == Some(1000)
    ensures MemoryUnit("M") == Some(1000000) && MemoryUnit("G") == Some(1000000000) && MemoryUnit("T") == Some(1000000000000)
  {
  }

  lemma WholeUnits(count: nat)
    ensures count * 1073741824 % 1073741824 == 0 && count * 1073741824 / 1073741824 == count
    ensures count * 1048576 % 1048576 == 0 && count * 1048576 / 1048576 == count
    ensures count * 1000 % 1000 == 0 && count * 1000 / 1000 == count
  {
  }

  /** A count of one unit that makes whole ones of the next is a multiple of 1024. */
  lemma NextUnit(count: nat)
    ensures count * 1048576 % 1073741824 == 0 ==> count % 1024 == 0
    ensures count * 1024 % 1048576 == 0 ==> count % 1024 == 0
    ensures count * 1024 % 1073741824 == 0 ==> count % 1024 == 0
  {
    if count * 1048576 % 1073741824 == 0 {
      assert count == 1024 * (count * 1048576 / 1073741824);
    }
    if count * 1024 % 1048576 == 0 {
      assert count == 1024 * (count * 1024 / 1048576);
    }
    if count * 1024 % 1073741824 == 0 {
      assert count == 1024 * (1024 * (count * 1024 / 1073741824));
    }
  }

  lemma KibiRound(count: nat)
    ensures Round((count * 1024) as real / KI as real) == count
  {
    assert (count * 1024) as real == count as real * 1024.0;
  }

  /** A memory text is a numeral and then one of the units or none; any other text is not a number. */
  lemma MemoryTextExactly(q: string)
    ensures ParseMemory(q).Some? <==>
            exists n: nat ::
              && 0 < n <= |Trimmed(q)|
              && (forall i :: 0 <= i < n ==> '0' <= Trimmed(q)[i] <= '9' || Trimmed(q)[i] == '.')
              && Trimmed(q)[n..] in {"", "Ki", "Mi", "Gi", "Ti", "K", "M", "G", "T"} && NumberOf(Trimmed(q)[..n]).Some?
  {
    hide NumberOf;
    var s := Trimmed(q);
    if n: nat :|
      && 0 < n <= |s|
      && (forall i :: 0 <= i < n ==> '0' <= s[i] <= '9' || s[i] == '.')
      && s[n..] in {"", "Ki", "Mi", "Gi", "Ti", "K", "M", "G", "T"} && NumberOf(s[..n]).Some?
    {
      UnitsAreLetters(s[n..]);
      assert n < |s| ==> s[n] == s[n..][0];
      NumeralEndIs(s, n);
      forall i | n <= i < |s|
        ensures IsLetter(s[i])
      {
        assert s[i] == s[n..][i - n];
      }
    }
    if ParseMemory(q).Some? {
      var n := NumeralEnd(s, 0);
      UnitIsListed(s[n..]);
    }
  }

  lemma UnitsAreLetters(unit: string)
    requires unit in {"", "Ki", "Mi", "Gi", "Ti", "K", "M", "G", "T"}
    ensures MemoryUnit(unit).Some? && forall i :: 0 <= i < |unit| ==> IsLetter(unit[i])
  {
  }

  lemma UnitIsListed(unit: string)
    requires MemoryUnit(unit).Some?
    ensures unit in {"", "Ki", "Mi", "Gi", "Ti", "K", "M", "G", "T"}
  {
  }

  /** Printed in the largest of Gi and Mi that divides it, otherwise in Ki; millicores as whole cores when they are. */
  lemma PrintedUnits(count: nat)
    ensures FormatMemory(count * 1073741824) == Decimal(count) + "Gi"
    ensures count % 1024 != 0 ==> FormatMemory(count * 1048576) == Decimal(count) + "Mi"
    ensures count % 1024 != 0 ==> FormatMemory(count * 1024) == Decimal(count) + "Ki"
    ensures FormatCpu(count * 1000) == Decimal(count)
    ensures count % 1000 != 0 ==> FormatCpu(count) == Decimal(count) + "m"
  {
    hide Decimal, Round;
    WholeUnits(count);
    KibiRound(count);
    NextUnit(count);
  }

  /** Cores with three places are read to the millicore. */
  lemma ThreePlacesRead(cores: nat, a: nat, b: nat, c: nat)
    requires a < 10 && b < 10 && c < 10
    ensures ParseCpu(Decimal(cores) + "." + [Digit(a), Digit(b), Digit(c)]) == Some(1000 * cores + 100 * a + 10 * b + c)
  {
    hide NumberOf, Decimal, Round;
    var places := [Digit(a), Digit(b), Digit(c)];
    var s := Decimal(cores) + "." + places;
    assert IsDigit(s[0]) && s[|s| - 1] == Digit(c);
    TrimKeeps(s);
    PointReads(cores, places, 100 * a + 10 * b + c, a, b, c);
    var n := 100 * a + 10 * b + c;
    assert (cores as real + n as real / 1000.0) * 1000.0 == (1000 * cores + n) as real;
    RoundOfWhole(1000 * cores + n, (cores as real + n as real / 1000.0) * 1000.0);
  }

  lemma PointReads(cores: nat, places: string, n: nat, a: nat, b: nat, c: nat)
    requires a < 10 && b < 10 && c < 10 && places == [Digit(a), Digit(b), Digit(c)] && n == 100 * a + 10 * b + c
    ensures NumberOf(Decimal(cores) + "." + places) == Some(cores as real + n as real / 1000.0)
  {
    hide Decimal;
    var whole := Decimal(cores);
    var s := whole + "." + places;
    TrimKeeps(s);
    DecimalReadsBack(cores);
    FindUnique(s, '.', 0, |whole|);
    assert s[..|whole|] == whole && s[|whole| + 1..] == places;
    PlacesValue(a, b, c);
    assert TenToThe(3) == 1000;
  }

  lemma PlacesValue(a: nat, b: nat, c: nat)
    requires a < 10 && b < 10 && c < 10
    ensures Number([Digit(a), Digit(b), Digit(c)]) == Some(100 * a + 10 * b + c)
  {
    var s := [Digit(a), Digit(b), Digit(c)];
    assert s[..2] == [Digit(a), Digit(b)] && s[..2][..1] == [Digit(a)] && s[..2][..1][..0] == "";
    assert Number(s[..2][..1]) == Some(a);
    assert Number(s[..2]) == Some(10 * a + b);
  }

  /** Bytes come back as the nearest multiple of 1024, halves up. */
  lemma MemoryReadsBack(bytes: nat) returns (v: nat)
    ensures ParseMemory(FormatMemory(bytes)) == Some(v)
    ensures v % 1024 == 0 && -512 <= bytes - v < 512
    ensures v == bytes <==> bytes % 1024 == 0
  {
    hide ParseMemory, Decimal, MemoryUnit, Round, Product;
    UnitsOfFormat();
    v := bytes;
    if bytes % GI == 0 {
      WholeGibibytes(bytes);
      SuffixedReadsBack(bytes / GI, "Gi", GI, bytes);
    } else if bytes % MI == 0 {
      WholeMebibytes(bytes);
      SuffixedReadsBack(bytes / MI, "Mi", MI, bytes);
    } else {
      var count;
      count, v := NearestMultiple(bytes);
      SuffixedReadsBack(count, "Ki", KI, v);
      MultipleIsNearest(bytes, v);
    }
  }
}
