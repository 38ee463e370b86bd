/**
 The field parser of the cron preview: comma-separated parts, ranges, steps and names.
 `Denotes` says which numbers a field text stands for; the parsing loops are proved
 against it, and every set of numbers has a text that parses back to it.
 */
module CronFields {
  import opened Wrappers
  import opened Text

  /** A field's bounds and the names it accepts for numbers. */
  datatype Field = Field(min: nat, max: nat, names: map<string, nat>)

  const MINUTE := Field(0, 59, map[])
  const HOUR := Field(0, 23, map[])
  const DAY_OF_MONTH := Field(1, 31, map[])
  const MONTH := Field(1, 12, map["jan" := 1, "feb" := 2, "mar" := 3, "apr" := 4, "may" := 5, "jun" := 6,
                                  "jul" := 7, "aug" := 8, "sep" := 9, "oct" := 10, "nov" := 11, "dec" := 12])
  const DAY_OF_WEEK := Field(0, 7, map["sun" := 0, "mon" := 1, "tue" := 2, "wed" := 3, "thu" := 4, "fri" := 5, "sat" := 6])

  function Lowered(s: string): (r: string)
    ensures |r| == |s|
  {
    if s == "" then "" else [if 'A' <= s[0] <= 'Z' then s[0] + ('a' - 'A') else s[0]] + Lowered(s[1..])
  }

  /** A bound of a range: a name, or digits. */
  function Bound(s: string, f: Field): Option<nat> {
    if Lowered(s) in f.names then Some(f.names[Lowered(s)])
    else if s == "" then None
    else Number(s)
  }

  datatype Range = Range(lo: nat, hi: nat, step: nat)

  /** One part: a range, possibly the whole field, and a step. None when it is malformed or out of bounds. */
  function Part(part: string, f: Field): (r: Option<Range>)
    ensures r.Some? ==> r.value.step >= 1
    ensures r.Some? && f.min <= f.max ==> f.min <= r.value.lo <= r.value.hi <= f.max
  {
    var slash := Find(part, '/', 0);
    var step := if slash == |part| then Some(1) else Number(part[slash + 1..]);
    var range := part[..slash];
    if step.None? || step.value < 1 then None
    else if range == "*" || range == "" then Some(Range(f.min, f.max, step.value))
    else
      var bounds := Split(range, '-');
      if |bounds| > 2 then None
      else
        var lo, hi := Bound(bounds[0], f), Bound(bounds[|bounds| - 1], f);
        if lo.None? || hi.None? || lo.value < f.min || hi.value > f.max || lo.value > hi.value then None
        else Some(Range(lo.value, hi.value, step.value))
  }

  /** In the day-of-week field, 7 is another name of 0. */
  function Normal(v: nat, f: Field): nat {
    if f.max == 7 && v == 7 then 0 else v
  }

  /** The number `k` steps into the range. */
  function At(r: Range, k: nat): nat {
    r.lo + k * r.step
  }

  /** `n` is the normal form of one of the numbers the range steps through. */
  ghost predicate RangeDenotes(r: Range, f: Field, n: nat) {
    exists k: nat :: At(r, k) <= r.hi && Normal(At(r, k), f) == n
  }

  ghost predicate PartDenotes(part: string, f: Field, n: nat) {
    Part(part, f).Some? && RangeDenotes(Part(part, f).value, f, n)
  }

  predicate WellFormed(spec: string, f: Field) {
    forall part :: part in Split(spec, ',') ==> Part(part, f).Some?
  }

  /** What a field text stands for. */
  ghost predicate Denotes(spec: string, f: Field, n: nat) {
    AnyDenotes(Split(spec, ','), f, n)
  }

  /** The numbers of one range, stepped through from its low end. */
  method AddRange(out: set<nat>, r: Range, f: Field) returns (more: set<nat>)
    requires r.step >= 1
    ensures forall n :: n in more <==> n in out || RangeDenotes(r, f, n)
  {
    more := out;
    var v := r.lo;
    ghost var k: nat := 0;
    while v <= r.hi
      invariant v == At(r, k)
      invariant forall n :: n in more <==> n in out || exists j: nat :: j < k && At(r, j) <= r.hi && Normal(At(r, j), f) == n
      decreases r.hi + 1 - v
    {
      more := more + {Normal(v, f)};
      StepsAscend(r, k, k + 1);
      v, k := v + r.step, k + 1;
    }
    forall j: nat | j >= k
      ensures At(r, j) > r.hi
    {
      StepsAscend(r, k, j);
    }
  }

  lemma StepsAscend(r: Range, k: nat, j: nat)
    requires k <= j
    ensures At(r, j) == At(r, k) + (j - k) * r.step
    ensures (j - k) * r.step >= 0
  {
  }

  lemma RangeIsInhabited(r: Range, f: Field)
    requires r.lo <= r.hi
    ensures RangeDenotes(r, f, Normal(r.lo, f))
  {
    assert At(r, 0) == r.lo;
  }

  /** One part of the text: its numbers join the set, or the parse ends. */
  method AddPart(out: set<nat>, part: string, f: Field) returns (more: Option<set<nat>>)
    requires f.min <= f.max
    ensures more.Some? <==> Part(part, f).Some?
    ensures more.Some? ==> forall n :: n in more.value <==> n in out || PartDenotes(part, f, n)
    ensures more.Some? ==> more.value != {}
  {
    var range := Part(part, f);
    if range.None? {
      return None;
    }
    var added := AddRange(out, range.value, f);
    RangeIsInhabited(range.value, f);
    assert Normal(range.value.lo, f) in added;
    more := Some(added);
  }

  ghost predicate AnyDenotes(parts: seq<string>, f: Field, n: nat) {
    exists part :: part in parts && PartDenotes(part, f, n)
  }

  lemma AnyDenotesGrows(parts: seq<string>, i: nat, f: Field, n: nat)
    requires i < |parts|
    ensures AnyDenotes(parts[..i + 1], f, n) <==> AnyDenotes(parts[..i], f, n) || PartDenotes(parts[i], f, n)
  {
  }

  /** The parser: None exactly for an ill-formed text, otherwise the set the text stands for. */
  method ParseField(spec: string, f: Field) returns (r: Option<set<nat>>)
    requires f.min <= f.max
    ensures r.Some? <==> WellFormed(spec, f)
    ensures r.Some? ==> forall n :: n in r.value <==> Denotes(spec, f, n)
    ensures r.Some? ==> r.value != {}
  {
    hide PartDenotes, Part;
    var parts := Split(spec, ',');
    var out: set<nat> := {};
    for i := 0 to |parts|
      invariant forall k :: 0 <= k < i ==> Part(parts[k], f).Some?
      invariant forall n :: n in out <==> AnyDenotes(parts[..i], f, n)
      invariant i > 0 ==> out != {}
    {
      var more := AddPart(out, parts[i], f);
      if more.None? {
        assert parts[i] in parts;
        return None;
      }
      forall n
        ensures n in more.value <==> AnyDenotes(parts[..i + 1], f, n)
      {
        AnyDenotesGrows(parts, i, f, n);
      }
      out := more.value;
    }
    assert parts[..|parts|] == parts;
    r := Some(out);
  }

  // ----- what a field can stand for

  /** Only numbers of the field's own range, with 7 folded into 0. */
  lemma DenotesWithinBounds(spec: string, f: Field, n: nat)
    requires f.min <= f.max && Denotes(spec, f, n)
    ensures n <= f.max && (n >= f.min || (f.max == 7 && n == 0)) && (f.max == 7 ==> n < 7)
  {
  }

  /** A set written out as numbers and commas. */
  function Spelled(ns: seq<nat>): string
    requires ns != []
  {
    Join(Decimals(ns), ',')
  }

  function Decimals(ns: seq<nat>): (r: seq<string>)
    ensures |r| == |ns| && forall i :: 0 <= i < |ns| ==> r[i] == Decimal(ns[i])
  {
    if ns == [] then [] else [Decimal(ns[0])] + Decimals(ns[1..])
  }

  /** The names are words: no name starts with a digit. */
  predicate NamesAreWords(f: Field) {
    forall s :: s in f.names ==> s == "" || !IsDigit(s[0])
  }

  lemma SinglePart(n: nat, f: Field)
    requires f.min <= n <= f.max && NamesAreWords(f)
    ensures Part(Decimal(n), f) == Some(Range(n, n, 1))
  {
    var s := Decimal(n);
    DecimalReadsBack(n);
    assert '/' !in s && '-' !in s && s[..|s|] == s;
    FindUnique(s, '/', 0, |s|);
    FindUnique(s, '-', 0, |s|);
    assert s[0] != '*' && Lowered(s)[0] == s[0];
    SplitWhole(s, '-');
  }

  /** Every non-empty set of the field's numbers has a text standing for exactly it. */
  lemma EverySetCanBeSpelled(ns: seq<nat>, f: Field)
    requires ns != [] && NamesAreWords(f)
    requires forall i :: 0 <= i < |ns| ==> f.min <= ns[i] <= f.max && Normal(ns[i], f) == ns[i]
    ensures WellFormed(Spelled(ns), f)
    ensures forall n :: Denotes(Spelled(ns), f, n) <==> n in ns
  {
    hide Part, Number, Decimal;
    var parts := Decimals(ns);
    assert forall i :: 0 <= i < |parts| ==> ',' !in parts[i];
    SplitJoins(parts, ',');
    forall i | 0 <= i < |ns|
      ensures Part(parts[i], f).Some?
      ensures forall n :: PartDenotes(parts[i], f, n) <==> n == ns[i]
    {
      SinglePart(ns[i], f);
      assert At(Range(ns[i], ns[i], 1), 0) == ns[i];
    }
    forall n
      ensures Denotes(Spelled(ns), f, n) <==> n in ns
    {
      if n in ns {
        var i :| 0 <= i < |ns| && ns[i] == n;
        assert PartDenotes(parts[i], f, n) && parts[i] in parts;
      }
      if Denotes(Spelled(ns), f, n) {
        var part :| part in parts && PartDenotes(part, f, n);
        var i :| 0 <= i < |parts| && parts[i] == part;
      }
    }
  }
}
