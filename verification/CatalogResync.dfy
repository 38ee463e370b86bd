/**
 A deleted and recreated image: it is attempted again from a copy read after the deletion
 whenever no sync of the old copy has yet to record (`RecreatedIsAttempted`), and need not be
 otherwise (`RecreatedGoesUnattempted`).
 */
module CatalogResync {
  import opened Wrappers
  import opened CatalogSync

  /** An undelivered event will make the tracking map forget the image. */
  predicate ForgetDue(queue: seq<Notice>, name: Name) {
    exists i :: 0 <= i < |queue| && queue[i].name == name && Forgets(queue[i])
  }

  /** The `k`-th step records an attempt of the image. */
  predicate Attempts(s: State, es: seq<Event>, k: nat, id: SyncId, name: Name)
    requires Exec(s, es).Some? && k < |es|
  {
    var at := StateAt(s, es, k);
    es[k] == Record(id) && id in at.syncs && at.syncs[id].name == name && at.syncs[id].phase == Passed && Eligible(at.syncs[id].image)
  }

  lemma ForgetStaysDue(s: State, e: Event, name: Name)
    requires Step(s, e).Some? && ForgetDue(s.queue, name)
    ensures ForgetDue(Step(s, e).value.queue, name) || name !in Step(s, e).value.lastSource
  {
    var s' := Step(s, e).value;
    var i :| 0 <= i < |s.queue| && s.queue[i].name == name && Forgets(s.queue[i]);
    if e.Deliver? {
      assert i > 0 ==> s'.queue[i - 1] == s.queue[i];
    } else {
      assert s'.queue[i] == s.queue[i];
    }
  }

  lemma TrackedByRecord(s: State, e: Event, name: Name)
    requires Step(s, e).Some? && name in Step(s, e).value.lastSource
    ensures || (e.Record? && s.syncs[e.id].name == name && Step(s, e).value.lastSource[name] == s.syncs[e.id].image.catalog.value)
            || (name in s.lastSource && s.lastSource[name] == Step(s, e).value.lastSource[name])
  {
  }

  /** The attempt the tracking map remembers at the end of a run, or the map held it all along and nothing was to be forgotten. */
  lemma {:induction false} LastAttempt(s: State, es: seq<Event>, name: Name) returns (k: Option<nat>, id: SyncId)
    requires Exec(s, es).Some? && Exec(s, es).value.queue == [] && name in Exec(s, es).value.lastSource
    ensures k.Some? ==>
              && k.value < |es| && Attempts(s, es, k.value, id, name)
              && StateAt(s, es, k.value).syncs[id].image.catalog.value == Exec(s, es).value.lastSource[name]
    ensures k.None? ==> name in s.lastSource && !ForgetDue(s.queue, name)
    ensures k.None? ==> s.lastSource[name] == Exec(s, es).value.lastSource[name]
    decreases |es|
  {
    k, id := None, 0;
    if es != [] {
      var s' := Step(s, es[0]).value;
      k, id := LastAttempt(s', es[1..], name);
      if k.Some? {
        k := Some(k.value + 1);
      } else {
        TrackedByRecord(s, es[0], name);
        if ForgetDue(s.queue, name) {
          ForgetStaysDue(s, es[0], name);
        }
        if es[0].Record? && s.syncs[es[0].id].name == name {
          k, id := Some(0), es[0].id;
        }
      }
    }
  }

  /** The event reads a copy of the image for the sync. */
  predicate ReadsCopy(e: Event, id: SyncId, name: Name) {
    e == Request(id, name) || (e == Read(name) && id == GATED)
  }

  /** A sync of the image that has not recorded yet, with its copy. */
  predicate Open(s: State, id: SyncId, name: Name, image: Image) {
    id in s.syncs && s.syncs[id].name == name && s.syncs[id].image == image && s.syncs[id].phase != Recorded
  }

  lemma OpenedByRead(s: State, e: Event, id: SyncId, name: Name, image: Image)
    requires Step(s, e).Some? && Open(Step(s, e).value, id, name, image)
    ensures Open(s, id, name, image) || (ReadsCopy(e, id, name) && name in s.cluster && s.cluster[name] == image)
  {
  }

  /** Where a sync's copy was read: in the run, unless the sync was open at its start. */
  lemma {:induction false} CopyWasRead(s: State, es: seq<Event>, k: nat, id: SyncId, name: Name, image: Image) returns (i: Option<nat>)
    requires Exec(s, es).Some? && k <= |es| && Open(StateAt(s, es, k), id, name, image)
    ensures i.Some? ==>
              && i.value < k && ReadsCopy(es[i.value], id, name)
              && name in StateAt(s, es, i.value).cluster && StateAt(s, es, i.value).cluster[name] == image
    ensures i.None? ==> Open(s, id, name, image)
    decreases k
  {
    i := None;
    if k > 0 {
      var s' := Step(s, es[0]).value;
      i := CopyWasRead(s', es[1..], k - 1, id, name, image);
      if i.Some? {
        i := Some(i.value + 1);
      } else {
        OpenedByRead(s, es[0], id, name, image);
        if !Open(s, id, name, image) {
          i := Some(0);
        }
      }
    }
  }

  /**
   An image deleted while no sync of it has yet to record: if the worker comes to rest with
   the image there again, its last attempt was of its current source, from a copy read after
   the deletion.
   */
  lemma RecreatedIsAttempted(s: State, es: seq<Event>, name: Name) returns (i: nat, k: nat, id: SyncId)
    requires Inv(s) && es != [] && es[0] == Remove(name) && Exec(s, es).Some? && Quiet(Exec(s, es).value)
    requires forall id :: id in s.syncs && s.syncs[id].name == name ==> s.syncs[id].phase == Recorded
    requires name in Exec(s, es).value.cluster && Eligible(Exec(s, es).value.cluster[name])
    ensures 0 < i < k < |es| && (es[i] == Request(id, name) || (es[i] == Read(name) && id == GATED)) && es[k] == Record(id)
    ensures id in StateAt(s, es, k).syncs && StateAt(s, es, k).syncs[id].name == name && StateAt(s, es, k).syncs[id].phase == Passed
    ensures name in StateAt(s, es, i).cluster && StateAt(s, es, k).syncs[id].image == StateAt(s, es, i).cluster[name]
    ensures StateAt(s, es, k).syncs[id].image.catalog == Exec(s, es).value.cluster[name].catalog
  {
    var s' := Step(s, es[0]).value;
    RunsKeepInv(s, es);
    assert s'.queue[|s.queue|] == Deleted(name);
    var attempt, sync := LastAttempt(s', es[1..], name);
    var image := StateAt(s', es[1..], attempt.value).syncs[sync].image;
    var read := CopyWasRead(s', es[1..], attempt.value, sync, name, image);
    i, k, id := read.value + 1, attempt.value + 1, sync;
  }

  // ----- a recreated image that is never attempted

  lemma ExecFirst(s: State, e: Event, rest: seq<Event>)
    requires Step(s, e).Some?
    ensures Exec(s, [e] + rest) == Exec(Step(s, e).value, rest)
  {
    assert ([e] + rest)[1..] == rest;
  }

  /** The sync holds the old copy when the deletion has been handled. */
  function Holding(s: State, name: Name, image: Image): State {
    s.(cluster := s.cluster - {name}, lastSource := s.lastSource - {name}, syncSem := true, syncs := map[1 := Sync(name, image, Passed)])
  }

  lemma DeletedUnderSync(s: State, name: Name, rest: seq<Event>)
    requires Quiet(s) && name in s.cluster && Eligible(s.cluster[name])
    ensures Exec(s, [Request(1, name)] + ([Remove(name)] + ([Deliver] + ([Acquire(1)] + rest)))) == Exec(Holding(s, name, s.cluster[name]), rest)
  {
    hide Exec;
    var image := s.cluster[name];
    var s1 := s.(syncs := map[1 := Sync(name, image, Queued)]);
    var s2 := s1.(cluster := s.cluster - {name}, queue := [Deleted(name)]);
    var s3 := s2.(queue := [], lastSource := s.lastSource - {name});
    assert Step(s, Request(1, name)) == Some(s1);
    assert s1.queue + [Deleted(name)] == [Deleted(name)];
    assert Step(s1, Remove(name)) == Some(s2);
    assert [Deleted(name)][1..] == [];
    assert Step(s2, Deliver) == Some(s3);
    assert s3.syncs[1 := Sync(name, image, Passed)] == map[1 := Sync(name, image, Passed)];
    assert Step(s3, Acquire(1)) == Some(Holding(s, name, image));
    ExecFirst(s, Request(1, name), [Remove(name)] + ([Deliver] + ([Acquire(1)] + rest)));
    ExecFirst(s1, Remove(name), [Deliver] + ([Acquire(1)] + rest));
    ExecFirst(s2, Deliver, [Acquire(1)] + rest);
    ExecFirst(s3, Acquire(1), rest);
  }

  lemma RecordedAfterForget(s: State, name: Name)
    requires Quiet(s) && name in s.cluster && Eligible(s.cluster[name]) && UpToDate(s, name)
    ensures var image := s.cluster[name];
            Exec(Holding(s, name, image), [Record(1)] + ([Patch(1)] + ([Apply(name, image)] + ([Deliver] + [])))) == Some(s)
  {
    hide Exec;
    var image := s.cluster[name];
    var s4 := Holding(s, name, image);
    var s5 := s4.(lastSource := s.lastSource, syncs := map[1 := Sync(name, image, Recorded)]);
    var s6 := s.(cluster := s.cluster - {name});
    var s7 := s.(queue := [Upserted(name, image)]);
    assert (s.lastSource - {name})[name := image.catalog.value] == s.lastSource;
    assert s4.syncs[1 := Sync(name, image, Recorded)] == map[1 := Sync(name, image, Recorded)];
    assert Step(s4, Record(1)) == Some(s5);
    assert s5.syncs - {1} == map[] && s5.queue + [] == [];
    assert Step(s5, Patch(1)) == Some(s6);
    assert (s.cluster - {name})[name := image] == s.cluster && s6.queue + [Upserted(name, image)] == [Upserted(name, image)];
    assert Step(s6, Apply(name, image)) == Some(s7);
    assert [Upserted(name, image)][1..] == [];
    assert Step(s7, Deliver) == Some(s);
    ExecFirst(s4, Record(1), [Patch(1)] + ([Apply(name, image)] + ([Deliver] + [])));
    ExecFirst(s5, Patch(1), [Apply(name, image)] + ([Deliver] + []));
    ExecFirst(s6, Apply(name, image), [Deliver] + []);
    ExecFirst(s7, Deliver, []);
    ExecNothing(s);
  }

  lemma ExecNothing(s: State)
    ensures Exec(s, []) == Some(s)
  {
  }

  /** From any idle state: a sync reads its copy, the image is deleted and forgotten, the sync records, and the image applied again counts as seen. */
  lemma RecreatedGoesUnattempted(s: State, name: Name)
    requires Inv(s) && Quiet(s) && name in s.cluster && Eligible(s.cluster[name])
    ensures var es := [Request(1, name), Remove(name), Deliver, Acquire(1), Record(1), Patch(1), Apply(name, s.cluster[name]), Deliver];
            && Exec(s, es) == Some(s)
            && forall k :: 0 <= k < |es| && es[k].Record? ==> k < 6
  {
    hide Exec, Step;
    var image := s.cluster[name];
    var last := [Record(1)] + ([Patch(1)] + ([Apply(name, image)] + ([Deliver] + [])));
    DeletedUnderSync(s, name, last);
    RecordedAfterForget(s, name);
    assert [Request(1, name), Remove(name), Deliver, Acquire(1), Record(1), Patch(1), Apply(name, image), Deliver]
        == [Request(1, name)] + ([Remove(name)] + ([Deliver] + ([Acquire(1)] + last)));
  }
}
