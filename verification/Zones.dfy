/**
 Local time and its inversion: a zone is an offset with a list of changes, and
 `utcFromZoned` looks for the instant showing a wall clock by correcting a guess twice.
 Instants and wall clocks are minutes; a wall clock counts them as if it were UTC.

 When changes are further apart than twice the largest offset, two corrections find an
 instant showing the wall clock whenever there is one (`TwoPassesFind`), and for a wall
 clock a change skips they miss by exactly the shift, on the side the guess started
 from (`SkippedMissesByShift`). Of the two instants showing a wall clock a change repeats
 they take the earlier one when that reading, as UTC, comes before the change
 (`RepeatedTakes`), so the instants taken ascend with their wall clocks (`TakenAscend`).
 */
module Zones {
  import opened Wrappers

  datatype Change = Change(at: int, offset: int)
  datatype Zone = Zone(base: int, changes: seq<Change>)

  /** A calendar date (as its day number), hour and minute. */
  datatype Parts = Parts(day: int, hour: nat, minute: nat)

  function Offset(z: Zone, t: int): int
    decreases |z.changes|
  {
    if z.changes == [] then z.base
    else
      var last := z.changes[|z.changes| - 1];
      if t >= last.at then last.offset else Offset(z.(changes := z.changes[..|z.changes| - 1]), t)
  }

  /** The offset a change replaces. */
  function OffsetBefore(z: Zone, i: nat): int
    requires i < |z.changes|
  {
    if i == 0 then z.base else z.changes[i - 1].offset
  }

  function WallClock(z: Zone, t: int): int {
    t + Offset(z, t)
  }

  predicate Within(offset: int, bound: nat) {
    offset <= bound && -offset <= bound
  }

  predicate Regular(z: Zone, bound: nat) {
    && Within(z.base, bound)
    && (forall i :: 0 <= i < |z.changes| ==> Within(z.changes[i].offset, bound))
    && (forall i :: 0 < i < |z.changes| ==> z.changes[i].at - z.changes[i - 1].at > 2 * bound)
  }

  /** Date.UTC of the parts. */
  function Minutes(p: Parts): int {
    p.day * 1440 + p.hour * 60 + p.minute
  }

  lemma DayHourMinute(minutes: int)
    ensures minutes / 1440 * 1440 + minutes % 1440 / 60 * 60 + minutes % 60 == minutes
    ensures 0 <= minutes % 1440 / 60 < 24
  {
    var day, rest := minutes / 1440, minutes % 1440;
    assert minutes == day * 1440 + rest && day * 1440 == 60 * (24 * day);
    assert rest == rest / 60 * 60 + rest % 60;
  }

  function PartsOf(minutes: int): (p: Parts)
    ensures Minutes(p) == minutes && p.hour < 24 && p.minute < 60
  {
    DayHourMinute(minutes);
    Parts(minutes / 1440, minutes % 1440 / 60, minutes % 60)
  }

  function ZonedParts(z: Zone, t: int): (p: Parts)
    ensures Minutes(p) == WallClock(z, t)
  {
    PartsOf(WallClock(z, t))
  }

  /** The instant two corrections arrive at. */
  function Inverted(z: Zone, wall: int): int {
    wall - Offset(z, wall - Offset(z, wall))
  }

  method UtcFromZoned(p: Parts, z: Zone) returns (guess: int)
    ensures guess == Inverted(z, Minutes(p))
  {
    var want := Minutes(p);
    guess := want;
    for i := 0 to 2
      invariant i == 0 ==> guess == want
      invariant i == 1 ==> guess == want - Offset(z, want)
      invariant i == 2 ==> guess == Inverted(z, want)
    {
      var zp := ZonedParts(z, guess);
      guess := guess + want - Minutes(zp);
    }
  }

  // ----- two corrections are enough

  lemma {:induction false} ChangesAscend(z: Zone, bound: nat, i: nat, j: nat)
    requires Regular(z, bound) && i < j < |z.changes|
    ensures z.changes[j].at - z.changes[i].at > 2 * bound
    decreases j
  {
    if i + 1 < j {
      ChangesAscend(z, bound, i, j - 1);
    }
  }

  /** Around a change, up to the spacing, only its two offsets are in force. */
  lemma {:induction false} OffsetAround(z: Zone, bound: nat, i: nat, t: int)
    requires Regular(z, bound) && i < |z.changes|
    requires z.changes[i].at - 2 * bound <= t <= z.changes[i].at + 2 * bound
    ensures Offset(z, t) == if t < z.changes[i].at then OffsetBefore(z, i) else z.changes[i].offset
    decreases |z.changes|
  {
    var n := |z.changes| - 1;
    var front := z.(changes := z.changes[..n]);
    if i < n {
      ChangesAscend(z, bound, i, n);
      OffsetAround(front, bound, i, t);
    } else if t < z.changes[i].at && i > 0 {
      assert z.changes[i - 1].at <= t;
      assert front.changes[|front.changes| - 1] == z.changes[i - 1];
    }
  }

  /** In a window no wider than the spacing, at most one change takes effect. */
  lemma {:induction false} OneChange(z: Zone, bound: nat, lo: int, hi: int) returns (change: Option<nat>)
    requires Regular(z, bound) && lo <= hi <= lo + 2 * bound
    ensures change.None? ==> forall t :: lo <= t <= hi ==> Offset(z, t) == Offset(z, lo)
    ensures change.Some? ==> change.value < |z.changes| && lo < z.changes[change.value].at <= hi
    decreases |z.changes|
  {
    var n := |z.changes| - 1;
    if n < 0 || z.changes[n].at <= lo {
      change := None;
    } else if z.changes[n].at <= hi {
      change := Some(n);
    } else {
      change := OneChange(z.(changes := z.changes[..n]), bound, lo, hi);
    }
  }

  lemma {:induction false} OffsetBounded(z: Zone, bound: nat, t: int)
    requires Regular(z, bound)
    ensures Within(Offset(z, t), bound)
    decreases |z.changes|
  {
    if z.changes != [] && t < z.changes[|z.changes| - 1].at {
      OffsetBounded(z.(changes := z.changes[..|z.changes| - 1]), bound, t);
    }
  }

  /** The change skips the wall clock: clocks are moved forward past it. */
  predicate Skips(z: Zone, i: nat, wall: int)
    requires i < |z.changes|
  {
    z.changes[i].at + OffsetBefore(z, i) <= wall < z.changes[i].at + z.changes[i].offset
  }

  /** The offsets an inversion meets, around one change or none. */
  lemma OffsetNear(z: Zone, bound: nat, wall: int, change: Option<nat>, t: int)
    requires Regular(z, bound) && wall - bound <= t <= wall + bound
    requires change.None? ==> forall u :: wall - bound <= u <= wall + bound ==> Offset(z, u) == Offset(z, wall - bound)
    requires change.Some? ==> change.value < |z.changes| && wall - bound < z.changes[change.value].at <= wall + bound
    ensures change.None? ==> Offset(z, t) == Offset(z, wall)
    ensures change.Some? ==>
              Offset(z, t) == if t < z.changes[change.value].at then OffsetBefore(z, change.value) else z.changes[change.value].offset
  {
    if change.Some? {
      OffsetAround(z, bound, change.value, t);
    }
  }

  /** Whenever some instant shows the wall clock, the instant returned shows it. */
  lemma TwoPassesFind(z: Zone, bound: nat, t: int)
    requires Regular(z, bound)
    ensures WallClock(z, Inverted(z, WallClock(z, t))) == WallClock(z, t)
  {
    var wall := WallClock(z, t);
    var change := OneChange(z, bound, wall - bound, wall + bound);
    var first := wall - Offset(z, wall);
    OffsetBounded(z, bound, t);
    OffsetBounded(z, bound, wall);
    OffsetBounded(z, bound, first);
    OffsetNear(z, bound, wall, change, t);
    OffsetNear(z, bound, wall, change, wall);
    OffsetNear(z, bound, wall, change, first);
    OffsetNear(z, bound, wall, change, wall - Offset(z, first));
  }

  /** A wall clock is shown by no instant exactly when one of the changes skips it. */
  lemma ShownUnlessSkipped(z: Zone, bound: nat, wall: int)
    requires Regular(z, bound)
    ensures (exists t :: WallClock(z, t) == wall) <==> !exists i :: 0 <= i < |z.changes| && Skips(z, i, wall)
  {
    var change := OneChange(z, bound, wall - bound, wall + bound);
    if change.None? {
      OffsetBounded(z, bound, wall - bound);
      OffsetNear(z, bound, wall, change, wall - Offset(z, wall - bound));
      assert WallClock(z, wall - Offset(z, wall - bound)) == wall;
      forall i | 0 <= i < |z.changes|
        ensures !Skips(z, i, wall)
      {
        if Skips(z, i, wall) {
          SkippedMissesByShift(z, bound, i, wall);
        }
      }
    } else {
      var i := change.value;
      var before, after := wall - OffsetBefore(z, i), wall - z.changes[i].offset;
      OffsetNear(z, bound, wall, change, before);
      OffsetNear(z, bound, wall, change, after);
      if before < z.changes[i].at {
        assert WallClock(z, before) == wall;
      } else if after >= z.changes[i].at {
        assert WallClock(z, after) == wall;
      } else {
        assert Skips(z, i, wall);
      }
      forall t, j | WallClock(z, t) == wall && 0 <= j < |z.changes|
        ensures !Skips(z, j, wall)
      {
        if Skips(z, j, wall) {
          TwoPassesFind(z, bound, t);
          SkippedMissesByShift(z, bound, j, wall);
        }
      }
    }
  }

  /** For a skipped wall clock, the instant returned shows it off by exactly the shift: later when UTC at that reading is past the change, earlier otherwise. */
  lemma SkippedMissesByShift(z: Zone, bound: nat, i: nat, wall: int)
    requires Regular(z, bound) && i < |z.changes| && Skips(z, i, wall)
    ensures var shift := z.changes[i].offset - OffsetBefore(z, i);
            && shift > 0
            && WallClock(z, Inverted(z, wall)) == if wall >= z.changes[i].at then wall + shift else wall - shift
  {
    var first := wall - Offset(z, wall);
    OffsetBounded(z, bound, wall);
    OffsetBounded(z, bound, first);
    OffsetAround(z, bound, i, wall);
    OffsetAround(z, bound, i, first);
    OffsetAround(z, bound, i, wall - Offset(z, first));
  }

  // ----- repeated wall clocks

  /** The change repeats the wall clock: clocks are moved back to or before it. */
  predicate Repeats(z: Zone, i: nat, wall: int)
    requires i < |z.changes|
  {
    z.changes[i].at + z.changes[i].offset <= wall < z.changes[i].at + OffsetBefore(z, i)
  }

  /** The instant is the one the inversion finds for the wall clock it shows. */
  predicate Taken(z: Zone, t: int) {
    Inverted(z, WallClock(z, t)) == t
  }

  /** Of the two instants, the one the inversion does not find. */
  function NotTaken(z: Zone, i: nat, wall: int): int
    requires i < |z.changes|
  {
    if wall < z.changes[i].at then wall - z.changes[i].offset else wall - OffsetBefore(z, i)
  }

  lemma BoundedBefore(z: Zone, bound: nat, i: nat)
    requires Regular(z, bound) && i < |z.changes|
    ensures Within(OffsetBefore(z, i), bound)
  {
  }

  /** A repeated wall clock is shown before and after the change; the inversion takes the first showing when that reading, as UTC, comes before the change, and the second otherwise. */
  lemma RepeatedTakes(z: Zone, bound: nat, i: nat, wall: int)
    requires Regular(z, bound) && i < |z.changes| && Repeats(z, i, wall)
    ensures var first, second := wall - OffsetBefore(z, i), wall - z.changes[i].offset;
            && first < z.changes[i].at <= second
            && WallClock(z, first) == wall && WallClock(z, second) == wall
            && Inverted(z, wall) == if wall < z.changes[i].at then first else second
  {
    var at, before, after := z.changes[i].at, OffsetBefore(z, i), z.changes[i].offset;
    BoundedBefore(z, bound, i);
    OffsetAround(z, bound, i, wall);
    OffsetAround(z, bound, i, wall - before);
    OffsetAround(z, bound, i, wall - after);
  }

  /** Two instants showing one wall clock lie on either side of one change that repeats it. */
  lemma ShownTwice(z: Zone, bound: nat, t: int, u: int) returns (i: nat)
    requires Regular(z, bound) && t < u && WallClock(z, u) <= WallClock(z, t)
    ensures i < |z.changes| && t < z.changes[i].at <= u
    ensures Offset(z, t) == OffsetBefore(z, i) && Offset(z, u) == z.changes[i].offset
  {
    OffsetBounded(z, bound, t);
    OffsetBounded(z, bound, u);
    var change := OneChange(z, bound, t, u);
    i := change.value;
    OffsetAround(z, bound, i, t);
    OffsetAround(z, bound, i, u);
  }

  /** The instants not taken are exactly the other showings of repeated wall clocks. */
  lemma NotTakenExactly(z: Zone, bound: nat, t: int)
    requires Regular(z, bound)
    ensures !Taken(z, t) <==> exists i :: 0 <= i < |z.changes| && Repeats(z, i, WallClock(z, t)) && t == NotTaken(z, i, WallClock(z, t))
  {
    var wall := WallClock(z, t);
    TwoPassesFind(z, bound, t);
    if !Taken(z, t) {
      var u := Inverted(z, wall);
      var i := ShownTwice(z, bound, if t < u then t else u, if t < u then u else t);
      assert Repeats(z, i, wall);
      RepeatedTakes(z, bound, i, wall);
      assert t == NotTaken(z, i, wall);
    }
    forall i | 0 <= i < |z.changes| && Repeats(z, i, wall) && t == NotTaken(z, i, wall)
      ensures !Taken(z, t)
    {
      RepeatedTakes(z, bound, i, wall);
    }
  }

  /** Among wall clocks that are shown, a later one is inverted to a later instant. */
  lemma TakenAscend(z: Zone, bound: nat, t: int, u: int)
    requires Regular(z, bound) && Taken(z, t) && Taken(z, u) && WallClock(z, t) < WallClock(z, u)
    ensures t < u
  {
    if u < t {
      var i := ShownTwice(z, bound, u, t);
      RepeatedTakes(z, bound, i, WallClock(z, t));
      RepeatedTakes(z, bound, i, WallClock(z, u));
    }
  }
}
