/** A set of numbers as a list, lowest first. */
module Listing {
  function Members(r: seq<nat>): set<nat> {
    set v | v in r
  }

  lemma {:induction false} LowestOf(s: set<nat>) returns (low: nat)
    requires s != {}
    ensures low in s && forall v :: v in s ==> low <= v
  {
    low :| low in s;
    var rest := s - {low};
    assert forall v :: v in s ==> v == low || v in rest;
    if rest != {} {
      var below := LowestOf(rest);
      if below < low {
        low := below;
      }
    }
  }

  lemma LowestExists(s: set<nat>)
    requires s != {}
    ensures exists low :: low in s && forall v :: v in s ==> low <= v
  {
    var low := LowestOf(s);
  }

  function Lowest(s: set<nat>): (low: nat)
    requires s != {}
    ensures low in s && forall v :: v in s ==> low <= v
  {
    LowestExists(s);
    var low :| low in s && forall v :: v in s ==> low <= v;
    low
  }

  function Ascending(s: set<nat>): (r: seq<nat>)
    ensures forall v :: v in r <==> v in s
  {
    if s == {} then [] else [Lowest(s)] + Ascending(s - {Lowest(s)})
  }

  lemma {:induction false} AscendingIsSorted(s: set<nat>)
    ensures forall i, j :: 0 <= i < j < |Ascending(s)| ==> Ascending(s)[i] < Ascending(s)[j]
  {
    if s != {} {
      var rest := Ascending(s - {Lowest(s)});
      AscendingIsSorted(s - {Lowest(s)});
      assert forall j :: 0 <= j < |rest| ==> rest[j] in rest;
    }
  }
}
