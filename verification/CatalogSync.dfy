/**
 Watch-driven catalog sync: the worker's shared fields, changed in place, and the
 goroutines that change them. Each mutex section, channel operation and API call is one
 step; the watch goroutine, the event consumer and any number of ticker, upsert and
 forced syncs interleave freely, each with the copy of the image it once read.

 Main results: a state in which no goroutine can move has every live image's last
 attempted source equal to its current one (`StuckMeansConverged`), and the watch path
 never fetches the same source of an image twice without a reason (`NoHotLoop`).
 */
module CatalogSync {
  import opened Listing
  import opened Wrappers

  type Name = string
  // A catalog source, compared as a whole.
  type Source = string

  datatype Image = Image(registry: bool, catalog: Option<Source>)

  predicate Eligible(img: Image) {
    img.registry && img.catalog.Some?
  }

  datatype Notice = Upserted(name: Name, image: Image) | Deleted(name: Name)

  // ----- the tracking map

  type Sources = map<Name, Source>

  /** An unseen image counts as changed. */
  predicate SourceMoved(last: Sources, name: Name, img: Image)
    requires Eligible(img)
  {
    name !in last || last[name] != img.catalog.value
  }

  // ----- the worker, updated in place

  /** The worker's fields after one image event handled with nothing in between. */
  function AfterImageEvent(last: Sources, pending: set<Name>, wake: bool, n: Notice): (Sources, set<Name>, bool) {
    match n
    case Deleted(name) => (last - {name}, pending, wake)
    case Upserted(name, img) =>
      if !Eligible(img) then (last - {name}, pending, wake)
      else if SourceMoved(last, name, img) then (last, pending + {name}, true)
      else (last, pending, wake)
  }

  class Worker {
    var lastSource: Sources
    var pending: set<Name>
    var wake: bool      // the capacity-1 wake channel holds a token
    var syncSem: bool   // the capacity-1 semaphore is taken

    constructor ()
      ensures lastSource == map[] && pending == {} && !wake && !syncSem
    {
      lastSource, pending, wake, syncSem := map[], {}, false, false;
    }

    method RecordSource(name: Name, img: Image)
      requires Eligible(img)
      modifies this`lastSource
      ensures lastSource == old(lastSource)[name := img.catalog.value]
      ensures !SourceMoved(lastSource, name, img)
    {
      lastSource := lastSource[name := img.catalog.value];
    }

    method ForgetSource(name: Name)
      modifies this`lastSource
      ensures lastSource == old(lastSource) - {name}
    {
      lastSource := lastSource - {name};
    }

    method Enqueue(name: Name)
      modifies this`pending, this`wake
      ensures pending == old(pending) + {name} && wake
    {
      pending := pending + {name};
      if !wake {
        wake := true;
      }
    }

    /** Hands out every pending name once and leaves none. */
    method DrainPending() returns (names: seq<Name>)
      modifies this`pending
      ensures pending == {}
      ensures |names| == |old(pending)| && forall name :: name in names <==> name in old(pending)
    {
      names := [];
      var left := pending;
      while left != {}
        invariant left <= pending && pending == old(pending)
        invariant forall name :: name in names <==> name in pending - left
        invariant |names| + |left| == |pending|
        decreases left
      {
        var name :| name in left;
        names := names + [name];
        left := left - {name};
      }
      pending := {};
    }

    method OnImageEvent(n: Notice)
      modifies this`lastSource, this`pending, this`wake
      ensures (lastSource, pending, wake) == AfterImageEvent(old(lastSource), old(pending), old(wake), n)
      ensures n.Deleted? || !n.image.registry || n.image.catalog.None? ==>
                lastSource == old(lastSource) - {n.name} && pending == old(pending) && wake == old(wake)
      ensures n.Upserted? && n.image.registry && n.image.catalog.Some? ==>
                && lastSource == old(lastSource)
                && (if n.name in lastSource && lastSource[n.name] == n.image.catalog.value then pending == old(pending) && wake == old(wake)
                    else pending == old(pending) + {n.name} && wake)
    {
      if n.Deleted? {
        ForgetSource(n.name);
      } else if !Eligible(n.image) {
        ForgetSource(n.name);
      } else if SourceMoved(lastSource, n.name, n.image) {
        Enqueue(n.name);
      }
    }

    /** The gated sync of the watch path: attempts, and records the attempt, exactly when the source moved. Gives the semaphore back. */
    method SyncIfSourceChanged(name: Name, img: Image) returns (attempted: bool)
      requires !syncSem
      modifies this`lastSource, this`syncSem
      ensures !syncSem
      ensures attempted <==>
                img.registry && img.catalog.Some? && !(name in old(lastSource) && old(lastSource)[name] == img.catalog.value)
      ensures lastSource == if attempted then old(lastSource)[name := img.catalog.value] else old(lastSource)
    {
      syncSem := true;
      attempted := false;
      if Eligible(img) && SourceMoved(lastSource, name, img) {
        RecordSource(name, img);
        attempted := true;
      }
      syncSem := false;
    }
  }

  // ----- the interleaved goroutines

  /** OnImageEvent between its sections: after the check, and between the insert and the send. */
  datatype Watcher = Listening | Inserting(name: Name) | Sending

  /** RunEventSync: blocked on the wake channel, woken but not drained, between names, or inside one name's sync. */
  datatype Consumer = Asleep | Woken | Draining(left: set<Name>) | Busy(left: set<Name>)

  /** Waiting for the semaphore, holding it, past the gate, and after recording its attempt. */
  datatype Phase = Queued | Holding | Passed | Recorded

  datatype Sync = Sync(name: Name, image: Image, phase: Phase)

  type SyncId = nat
  // The consumer's own sync, the only one that goes through the gate.
  const GATED: SyncId := 0

  datatype State = State(
    cluster: map<Name, Image>,
    queue: seq<Notice>,       // undelivered watch events, oldest first
    lastSource: Sources,
    pending: set<Name>,
    wake: bool,
    syncSem: bool,
    watcher: Watcher,
    consumer: Consumer,
    syncs: map<SyncId, Sync>)

  datatype Event =
    // from outside
    | Apply(name: Name, image: Image)
    | Remove(name: Name)
    | Request(id: SyncId, name: Name)   // ticker, upsert or forced sync reads its copy
    | GiveUp(id: SyncId)                // a forced sync stops waiting for the semaphore
    // the worker's own steps
    | Deliver
    | Insert
    | Send
    | Receive
    | Drain
    | Rest
    | Read(name: Name)
    | Acquire(id: SyncId)
    | Gate
    | Record(id: SyncId)
    | Patch(id: SyncId)

  predicate External(e: Event) {
    e.Apply? || e.Remove? || e.Request? || e.GiveUp?
  }

  function EndSync(s: State, id: SyncId): State {
    s.(syncs := s.syncs - {id},
       consumer := if id == GATED && s.consumer.Busy? then Draining(s.consumer.left) else s.consumer)
  }

  predicate InPhase(s: State, id: SyncId, p: Phase) {
    id in s.syncs && s.syncs[id].phase == p
  }

  function Step(s: State, e: Event): Option<State> {
    match e
    case Apply(name, image) =>
      Some(s.(cluster := s.cluster[name := image], queue := s.queue + [Upserted(name, image)]))
    case Remove(name) =>
      if name !in s.cluster then None
      else Some(s.(cluster := s.cluster - {name}, queue := s.queue + [Deleted(name)]))
    case Request(id, name) =>
      if id == GATED || id in s.syncs || name !in s.cluster || !Eligible(s.cluster[name]) then None
      else Some(s.(syncs := s.syncs[id := Sync(name, s.cluster[name], Queued)]))
    case GiveUp(id) =>
      if id == GATED || !InPhase(s, id, Queued) then None else Some(EndSync(s, id))
    case Deliver =>
      if s.watcher != Listening || s.queue == [] then None
      else
        var n, rest := s.queue[0], s.(queue := s.queue[1..]);
        if Forgets(n) then Some(rest.(lastSource := s.lastSource - {n.name}))
        else if SourceMoved(s.lastSource, n.name, n.image) then Some(rest.(watcher := Inserting(n.name)))
        else Some(rest)
    case Insert =>
      if !s.watcher.Inserting? then None
      else Some(s.(pending := s.pending + {s.watcher.name}, watcher := Sending))
    case Send =>
      if s.watcher != Sending then None else Some(s.(wake := true, watcher := Listening))
    case Receive =>
      if s.consumer != Asleep || !s.wake then None else Some(s.(wake := false, consumer := Woken))
    case Drain =>
      if s.consumer != Woken then None else Some(s.(pending := {}, consumer := Draining(s.pending)))
    case Rest =>
      if s.consumer != Draining({}) then None else Some(s.(consumer := Asleep))
    case Read(name) =>
      if !s.consumer.Draining? || name !in s.consumer.left then None
      else
        var left := s.consumer.left - {name};
        if name !in s.cluster then Some(s.(consumer := Draining(left)))
        else Some(s.(consumer := Busy(left), syncs := s.syncs[GATED := Sync(name, s.cluster[name], Queued)]))
    case Acquire(id) =>
      if s.syncSem || !InPhase(s, id, Queued) then None
      else
        var phase := if id == GATED then Holding else Passed;
        Some(s.(syncSem := true, syncs := s.syncs[id := s.syncs[id].(phase := phase)]))
    case Gate =>
      if !InPhase(s, GATED, Holding) then None
      else
        var sync := s.syncs[GATED];
        if Eligible(sync.image) && SourceMoved(s.lastSource, sync.name, sync.image)
        then Some(s.(syncs := s.syncs[GATED := sync.(phase := Passed)]))
        else Some(EndSync(s.(syncSem := false), GATED))
    case Record(id) =>
      if !InPhase(s, id, Passed) || !Eligible(s.syncs[id].image) then None
      else
        var sync := s.syncs[id];
        Some(s.(lastSource := s.lastSource[sync.name := sync.image.catalog.value],
                syncs := s.syncs[id := sync.(phase := Recorded)]))
    case Patch(id) =>
      if !InPhase(s, id, Recorded) then None
      else
        var name := s.syncs[id].name;
        var emitted := if name in s.cluster then [Upserted(name, s.cluster[name])] else [];
        Some(EndSync(s.(syncSem := false, queue := s.queue + emitted), id))
  }

  /** The event makes the tracking map forget the image. */
  predicate Forgets(n: Notice) {
    n.Deleted? || !Eligible(n.image)
  }

  function Exec(s: State, es: seq<Event>): Option<State>
    decreases |es|
  {
    if es == [] then Some(s)
    else if Step(s, es[0]).None? then None
    else Exec(Step(s, es[0]).value, es[1..])
  }

  /** A worker just started over a cluster: the first watch delivers every live image. */
  predicate Start(s: State) {
    && s.lastSource == map[] && s.pending == {} && !s.wake && !s.syncSem
    && s.watcher == Listening && s.consumer == Asleep && s.syncs == map[]
    && (forall i :: 0 <= i < |s.queue| ==> s.queue[i].Upserted? && s.queue[i].name in s.cluster && s.queue[i].image == s.cluster[s.queue[i].name])
    && (forall name :: name in s.cluster ==> Upserted(name, s.cluster[name]) in s.queue)
  }

  // ----- the invariant

  /** The newest undelivered event about an image. */
  function Newest(queue: seq<Notice>, name: Name): Option<Notice> {
    if queue == [] then None
    else if queue[|queue| - 1].name == name then Some(queue[|queue| - 1])
    else Newest(queue[..|queue| - 1], name)
  }

  predicate AgreesWithCluster(cluster: map<Name, Image>, n: Notice) {
    match n
    case Deleted(name) => name !in cluster
    case Upserted(name, image) => name in cluster && cluster[name] == image
  }

  predicate UpToDate(s: State, name: Name)
    requires name in s.cluster && Eligible(s.cluster[name])
  {
    !SourceMoved(s.lastSource, name, s.cluster[name])
  }

  predicate InHand(c: Consumer, name: Name) {
    (c.Draining? || c.Busy?) && name in c.left
  }

  /** Why a stale image will be looked at again. */
  predicate Covered(s: State, name: Name) {
    || Newest(s.queue, name).Some?
    || name in s.pending
    || s.watcher == Inserting(name)
    || InHand(s.consumer, name)
    || (GATED in s.syncs && s.syncs[GATED].name == name && name in s.cluster && s.syncs[GATED].image == s.cluster[name]
        && s.syncs[GATED].phase != Recorded)
    || (exists id :: id in s.syncs && s.syncs[id].name == name && s.syncs[id].phase == Recorded)
  }

  ghost predicate SemSound(s: State) {
    && (forall a, b :: a in s.syncs && b in s.syncs && s.syncs[a].phase != Queued && s.syncs[b].phase != Queued ==> a == b)
    && (s.syncSem <==> exists id :: id in s.syncs && s.syncs[id].phase != Queued)
  }

  ghost predicate SyncsSound(s: State) {
    && (GATED in s.syncs <==> s.consumer.Busy?)
    && (forall id :: id in s.syncs && s.syncs[id].phase == Holding ==> id == GATED)
    && (forall id :: id in s.syncs && (id != GATED || s.syncs[id].phase == Passed || s.syncs[id].phase == Recorded) ==>
          Eligible(s.syncs[id].image))
    && (InPhase(s, GATED, Passed) ==> SourceMoved(s.lastSource, s.syncs[GATED].name, s.syncs[GATED].image))
  }

  /** A non-empty pending set is announced: by the token, by a consumer about to drain, or by an enqueuer about to send. */
  predicate Announced(s: State) {
    s.pending != {} ==> s.wake || s.consumer == Woken || s.watcher == Sending
  }

  ghost predicate QueueSound(s: State) {
    forall name :: Newest(s.queue, name).Some? ==> AgreesWithCluster(s.cluster, Newest(s.queue, name).value)
  }

  ghost predicate AllCovered(s: State) {
    forall name :: name in s.cluster && Eligible(s.cluster[name]) ==> UpToDate(s, name) || Covered(s, name)
  }

  ghost predicate Inv(s: State) {
    SemSound(s) && SyncsSound(s) && Announced(s) && QueueSound(s) && AllCovered(s)
  }

  lemma NewestIsNamed(queue: seq<Notice>, name: Name)
    ensures Newest(queue, name).Some? ==> Newest(queue, name).value.name == name && Newest(queue, name).value in queue
  {
  }

  lemma NewestAfterAppend(queue: seq<Notice>, n: Notice, name: Name)
    ensures Newest(queue + [n], name) == if n.name == name then Some(n) else Newest(queue, name)
  {
  }

  /** Delivering the oldest event loses the newest only when it was the last one about its image. */
  lemma {:induction false} NewestAfterDeliver(queue: seq<Notice>, name: Name)
    requires queue != []
    ensures Newest(queue, name) ==
            if Newest(queue[1..], name).Some? then Newest(queue[1..], name)
            else if queue[0].name == name then Some(queue[0]) else None
  {
    if |queue| > 1 {
      var front := queue[..|queue| - 1];
      assert front[1..] == queue[1..][..|queue| - 2];
      assert queue[1..][|queue| - 2] == queue[|queue| - 1];
      NewestAfterDeliver(front, name);
    }
  }

  lemma {:induction false} NewestOfMember(queue: seq<Notice>, n: Notice)
    requires n in queue
    ensures Newest(queue, n.name).Some?
  {
    var last := |queue| - 1;
    if queue[last].name != n.name {
      assert n in queue[..last];
      NewestOfMember(queue[..last], n);
    }
  }

  lemma StartSatisfiesInv(s: State)
    requires Start(s)
    ensures Inv(s)
  {
    forall name | Newest(s.queue, name).Some?
      ensures AgreesWithCluster(s.cluster, Newest(s.queue, name).value)
    {
      NewestIsNamed(s.queue, name);
    }
    forall name | name in s.cluster
      ensures Newest(s.queue, name).Some?
    {
      NewestOfMember(s.queue, Upserted(name, s.cluster[name]));
    }
  }

  lemma AppendKeepsQueue(s: State, n: Notice, s': State)
    requires QueueSound(s) && s'.queue == s.queue + [n] && AgreesWithCluster(s'.cluster, n)
    requires s'.cluster.Keys + {n.name} == s.cluster.Keys + {n.name}
    requires forall name :: name != n.name && name in s.cluster ==> s'.cluster[name] == s.cluster[name]
    ensures QueueSound(s')
    ensures forall name :: Newest(s.queue, name).Some? ==> Newest(s'.queue, name).Some?
    ensures Newest(s'.queue, n.name).Some?
  {
    forall name
      ensures Newest(s'.queue, name).Some? ==> AgreesWithCluster(s'.cluster, Newest(s'.queue, name).value)
      ensures Newest(s.queue, name).Some? ==> Newest(s'.queue, name).Some?
    {
      NewestAfterAppend(s.queue, n, name);
      NewestIsNamed(s.queue, name);
    }
    NewestAfterAppend(s.queue, n, n.name);
  }

  lemma ClusterStepKeepsInv(s: State, e: Event)
    requires Inv(s) && (e.Apply? || e.Remove?) && Step(s, e).Some?
    ensures Inv(Step(s, e).value)
  {
    var s' := Step(s, e).value;
    AppendKeepsQueue(s, s'.queue[|s.queue|], s');
    forall name | name in s'.cluster && Eligible(s'.cluster[name])
      ensures UpToDate(s', name) || Covered(s', name)
    {
      assert name != e.name ==> name in s.cluster && s'.cluster[name] == s.cluster[name];
    }
  }

  /** A delivered notice of a current source covers its image from the watcher's hands. */
  lemma DeliverKeepsCover(s: State, name: Name)
    requires AllCovered(s) && Step(s, Deliver).Some? && name in s.cluster && Eligible(s.cluster[name])
    requires QueueSound(s)
    ensures UpToDate(Step(s, Deliver).value, name) || Covered(Step(s, Deliver).value, name)
  {
    hide Newest;
    NewestAfterDeliver(s.queue, name);
  }

  lemma DeliverKeepsQueue(s: State)
    requires QueueSound(s) && Step(s, Deliver).Some?
    ensures QueueSound(Step(s, Deliver).value)
  {
    var s' := Step(s, Deliver).value;
    forall name | Newest(s'.queue, name).Some?
      ensures AgreesWithCluster(s'.cluster, Newest(s'.queue, name).value)
    {
      NewestAfterDeliver(s.queue, name);
    }
  }

  /** Nothing the semaphore and the syncs' phases depend on changes, and a source a sync found moved may be forgotten. */
  lemma SameSyncsSound(s: State, s': State)
    requires SemSound(s) && SyncsSound(s) && s'.syncs == s.syncs && s'.syncSem == s.syncSem && s'.consumer == s.consumer
    requires s'.lastSource == s.lastSource || exists name :: s'.lastSource == s.lastSource - {name}
    ensures SemSound(s') && SyncsSound(s')
  {
    assert SemSound(s');
  }

  lemma DeliverKeepsSyncs(s: State)
    requires SemSound(s) && SyncsSound(s) && Announced(s) && Step(s, Deliver).Some?
    ensures SemSound(Step(s, Deliver).value) && SyncsSound(Step(s, Deliver).value) && Announced(Step(s, Deliver).value)
  {
    hide SemSound, SyncsSound;
    SameSyncsSound(s, Step(s, Deliver).value);
  }

  lemma DeliverKeepsInv(s: State)
    requires Inv(s) && Step(s, Deliver).Some?
    ensures Inv(Step(s, Deliver).value)
  {
    hide UpToDate, Covered, SemSound, SyncsSound, QueueSound, Announced;
    DeliverKeepsQueue(s);
    DeliverKeepsSyncs(s);
    forall name | name in s.cluster && Eligible(s.cluster[name])
      ensures UpToDate(Step(s, Deliver).value, name) || Covered(Step(s, Deliver).value, name)
    {
      DeliverKeepsCover(s, name);
    }
  }

  /** At most one sync is past the semaphore, so at most one has recorded and not patched. */
  lemma OneHolder(s: State, a: SyncId, b: SyncId)
    requires SemSound(s) && a in s.syncs && b in s.syncs && s.syncs[a].phase != Queued && s.syncs[b].phase != Queued
    ensures a == b
  {
  }

  lemma EndKeepsSyncs(s: State, id: SyncId)
    requires SemSound(s) && SyncsSound(s) && id in s.syncs
    ensures SyncsSound(EndSync(s, id))
    ensures s.syncs[id].phase == Queued ==> SemSound(EndSync(s, id))
    ensures s.syncs[id].phase != Queued ==> SemSound(EndSync(s.(syncSem := false), id))
  {
    if s.syncs[id].phase == Queued && s.syncSem {
      var holder :| holder in s.syncs && s.syncs[holder].phase != Queued;
      assert holder in EndSync(s, id).syncs;
    }
  }

  /** Ending a sync uncovers no image, except one it had recorded, or its current copy. */
  lemma EndKeepsCover(s: State, s': State, id: SyncId)
    requires AllCovered(s) && id in s.syncs
    requires s'.cluster == s.cluster && s'.lastSource == s.lastSource && s'.pending == s.pending && s'.watcher == s.watcher
    requires s'.syncs == s.syncs - {id} && (s'.consumer == s.consumer || (s.consumer.Busy? && s'.consumer == Draining(s.consumer.left)))
    requires forall name :: Newest(s.queue, name).Some? ==> Newest(s'.queue, name).Some?
    requires var name := s.syncs[id].name;
             s.syncs[id].phase == Recorded || id == GATED ==>
               name in s.cluster && Eligible(s.cluster[name]) ==>
                 UpToDate(s', name) || Covered(s', name) || (s.syncs[id].phase != Recorded && s.syncs[id].image != s.cluster[name])
    ensures AllCovered(s')
  {
    forall name | name in s'.cluster && Eligible(s'.cluster[name])
      ensures UpToDate(s', name) || Covered(s', name)
    {
      if exists j :: j in s.syncs && s.syncs[j].name == name && s.syncs[j].phase == Recorded {
        var j :| j in s.syncs && s.syncs[j].name == name && s.syncs[j].phase == Recorded;
        assert j != id ==> j in s'.syncs && s'.syncs[j] == s.syncs[j];
      }
    }
  }

  lemma PatchKeepsInv(s: State, id: SyncId)
    requires Inv(s) && Step(s, Patch(id)).Some?
    ensures Inv(Step(s, Patch(id)).value)
  {
    var s' := Step(s, Patch(id)).value;
    var name := s.syncs[id].name;
    EndKeepsSyncs(s, id);
    if name in s.cluster {
      AppendKeepsQueue(s, Upserted(name, s.cluster[name]), s');
    } else {
      assert s'.queue == s.queue;
    }
    EndKeepsCover(s, s', id);
  }

  lemma GiveUpKeepsInv(s: State, id: SyncId)
    requires Inv(s) && Step(s, GiveUp(id)).Some?
    ensures Inv(Step(s, GiveUp(id)).value)
  {
    EndKeepsSyncs(s, id);
    EndKeepsCover(s, EndSync(s, id), id);
  }

  lemma GateKeepsInv(s: State)
    requires Inv(s) && Step(s, Gate).Some?
    ensures Inv(Step(s, Gate).value)
  {
    var s' := Step(s, Gate).value;
    if GATED in s'.syncs {
      PhaseKeepsInv(s, s', GATED, Passed);
    } else {
      EndKeepsSyncs(s, GATED);
      EndKeepsCover(s, s', GATED);
    }
  }

  /** Moving a sync on, up to the point where it records, changes nothing an image is covered by. */
  lemma PhaseKeepsInv(s: State, s': State, id: SyncId, p: Phase)
    requires Inv(s) && id in s.syncs && s.syncs[id].phase != Recorded && p != Queued && p != Recorded
    requires s.syncs[id].phase == Queued ==> !s.syncSem
    requires s' == s.(syncSem := true, syncs := s.syncs[id := s.syncs[id].(phase := p)])
    requires p == Holding ==> id == GATED
    requires p == Passed ==> Eligible(s.syncs[id].image)
    requires p == Passed && id == GATED ==> SourceMoved(s.lastSource, s.syncs[id].name, s.syncs[id].image)
    ensures Inv(s')
  {
    assert s'.syncs[id].phase != Queued;
  }

  lemma RecordKeepsInv(s: State, id: SyncId)
    requires Inv(s) && Step(s, Record(id)).Some?
    ensures Inv(Step(s, Record(id)).value)
  {
    var s' := Step(s, Record(id)).value;
    assert id in s'.syncs && s'.syncs[id].phase == Recorded;
    assert InPhase(s', GATED, Passed) ==> id == GATED by {
      if InPhase(s', GATED, Passed) && id != GATED {
        OneHolder(s, id, GATED);
      }
    }
  }

  /** A new sync only adds cover; the consumer's own takes over from the name it had in hand. */
  lemma QueueSyncKeepsInv(s: State, s': State, id: SyncId, name: Name)
    requires Inv(s) && id !in s.syncs && name in s.cluster && (id != GATED ==> Eligible(s.cluster[name]))
    requires s' == s.(syncs := s.syncs[id := Sync(name, s.cluster[name], Queued)], consumer := s'.consumer)
    requires id != GATED ==> s'.consumer == s.consumer
    requires id == GATED ==> s.consumer.Draining? && s'.consumer == Busy(s.consumer.left - {name})
    ensures Inv(s')
  {
    if s.syncSem {
      var holder :| holder in s.syncs && s.syncs[holder].phase != Queued;
      assert holder in s'.syncs;
    }
    forall other | other in s'.cluster && Eligible(s'.cluster[other])
      ensures UpToDate(s', other) || Covered(s', other)
    {
      if exists j :: j in s.syncs && s.syncs[j].name == other && s.syncs[j].phase == Recorded {
        var j :| j in s.syncs && s.syncs[j].name == other && s.syncs[j].phase == Recorded;
        assert j in s'.syncs && s'.syncs[j] == s.syncs[j];
      }
    }
  }

  lemma ReadKeepsInv(s: State, name: Name)
    requires Inv(s) && Step(s, Read(name)).Some?
    ensures Inv(Step(s, Read(name)).value)
  {
    var s' := Step(s, Read(name)).value;
    if name in s.cluster {
      QueueSyncKeepsInv(s, s', GATED, name);
    }
  }

  /** The channel and pending-set steps pass an image along, from the watcher to the set to the consumer's hands. */
  lemma HandoverKeepsInv(s: State, e: Event)
    requires Inv(s) && Step(s, e).Some?
    requires e.Insert? || e.Send? || e.Receive? || e.Drain? || e.Rest?
    ensures Inv(Step(s, e).value)
  {
  }

  lemma StepKeepsInv(s: State, e: Event)
    requires Inv(s) && Step(s, e).Some?
    ensures Inv(Step(s, e).value)
  {
    match e
    case Apply(_, _) => ClusterStepKeepsInv(s, e);
    case Remove(_) => ClusterStepKeepsInv(s, e);
    case Deliver => DeliverKeepsInv(s);
    case Request(id, name) => QueueSyncKeepsInv(s, Step(s, e).value, id, name);
    case Read(name) => ReadKeepsInv(s, name);
    case GiveUp(id) => GiveUpKeepsInv(s, id);
    case Acquire(id) => PhaseKeepsInv(s, Step(s, e).value, id, if id == GATED then Holding else Passed);
    case Gate => GateKeepsInv(s);
    case Record(id) => RecordKeepsInv(s, id);
    case Patch(id) => PatchKeepsInv(s, id);
    case _ => HandoverKeepsInv(s, e);
  }

  lemma {:induction false} RunsKeepInv(s: State, es: seq<Event>)
    requires Inv(s) && Exec(s, es).Some?
    ensures Inv(Exec(s, es).value)
    decreases |es|
  {
    if es != [] {
      StepKeepsInv(s, es[0]);
      RunsKeepInv(Step(s, es[0]).value, es[1..]);
    }
  }

  // ----- safety: what a stuck state looks like

  ghost predicate Stuck(s: State) {
    forall e :: !External(e) ==> Step(s, e).None?
  }

  ghost predicate Converged(s: State) {
    forall name :: name in s.cluster && Eligible(s.cluster[name]) ==> UpToDate(s, name)
  }

  predicate Quiet(s: State) {
    s.queue == [] && s.pending == {} && s.syncs == map[] && !s.syncSem && s.watcher == Listening && s.consumer == Asleep
  }

  lemma SomeoneMoves(s: State) returns (e: Event)
    requires Inv(s) && !Quiet(s)
    ensures !External(e) && Step(s, e).Some?
  {
    if s.watcher.Inserting? {
      e := Insert;
    } else if s.watcher.Sending? {
      e := Send;
    } else if s.queue != [] {
      e := Deliver;
    } else if s.syncSem {
      var holder :| holder in s.syncs && s.syncs[holder].phase != Queued;
      e := if s.syncs[holder].phase == Holding then Gate else if s.syncs[holder].phase == Passed then Record(holder) else Patch(holder);
    } else if s.syncs != map[] {
      var id :| id in s.syncs;
      e := Acquire(id);
    } else if s.consumer.Woken? {
      e := Drain;
    } else if s.consumer.Draining? && s.consumer.left != {} {
      var name :| name in s.consumer.left;
      e := Read(name);
    } else if s.consumer.Draining? {
      e := Rest;
    } else {
      e := Receive;
    }
  }

  /** When no goroutine can move, nothing is queued, announced or in progress, and every live image's last attempt was of its current source. */
  lemma StuckMeansConverged(s: State)
    requires Inv(s) && Stuck(s)
    ensures Converged(s) && Quiet(s)
  {
    if !Quiet(s) {
      var e := SomeoneMoves(s);
    }
  }

  /** At rest after any run, the tracking map holds the current source of every live image with a registry and a catalog. */
  lemma RestHoldsCurrentSources(s: State, es: seq<Event>)
    requires Start(s) && Exec(s, es).Some? && Stuck(Exec(s, es).value)
    ensures var s' := Exec(s, es).value;
            forall name :: name in s'.cluster && s'.cluster[name].registry && s'.cluster[name].catalog.Some? ==>
              name in s'.lastSource && s'.lastSource[name] == s'.cluster[name].catalog.value
  {
    StartSatisfiesInv(s);
    RunsKeepInv(s, es);
    StuckMeansConverged(Exec(s, es).value);
  }

  // ----- no lost wakeup

  /** The state a run passes through after its first `i` steps. */
  function StateAt(s: State, es: seq<Event>, i: nat): State
    requires Exec(s, es).Some? && i <= |es|
    decreases |es|
  {
    if i == 0 then s else StateAt(Step(s, es[0]).value, es[1..], i - 1)
  }

  /** Every attempt a run records is of an image with a registry and a catalog, by its copy. */
  lemma {:induction false} AttemptsAreOfCatalogs(s: State, es: seq<Event>, k: nat, id: SyncId)
    requires Exec(s, es).Some? && k < |es| && es[k] == Record(id)
    ensures var at := StateAt(s, es, k);
            id in at.syncs && at.syncs[id].image.registry && at.syncs[id].image.catalog.Some?
    decreases k
  {
    if k > 0 {
      AttemptsAreOfCatalogs(Step(s, es[0]).value, es[1..], k - 1, id);
    }
  }

  /** Announced to the consumer and not yet handed to `syncPending`. */
  predicate Awaiting(s: State, name: Name) {
    name in s.pending || InHand(s.consumer, name)
  }

  /** A name stops waiting only by being read for its sync. */
  lemma AwaitingUntilRead(s: State, e: Event, name: Name)
    requires Awaiting(s, name) && Step(s, e).Some? && e != Read(name)
    ensures Awaiting(Step(s, e).value, name)
  {
  }

  lemma {:induction false} AwaitingIsRead(s: State, es: seq<Event>, name: Name) returns (k: nat)
    requires Awaiting(s, name) && Exec(s, es).Some? && Quiet(Exec(s, es).value)
    ensures k < |es| && es[k] == Read(name)
    decreases |es|
  {
    if es[0] == Read(name) {
      k := 0;
    } else {
      AwaitingUntilRead(s, es[0], name);
      k := AwaitingIsRead(Step(s, es[0]).value, es[1..], name);
      k := k + 1;
    }
  }

  /** Once everything is idle, every name was handed to `syncPending` after its last enqueue. */
  lemma {:induction false} EnqueuedIsHandedOver(s: State, es: seq<Event>, i: nat, name: Name) returns (k: nat)
    requires Exec(s, es).Some? && Quiet(Exec(s, es).value)
    requires i < |es| && es[i] == Insert && StateAt(s, es, i).watcher == Inserting(name)
    ensures i < k < |es| && es[k] == Read(name)
    decreases |es|
  {
    var s' := Step(s, es[0]).value;
    if i == 0 {
      k := AwaitingIsRead(s', es[1..], name);
    } else {
      k := EnqueuedIsHandedOver(s', es[1..], i - 1, name);
    }
    k := k + 1;
  }

  // ----- liveness: the worker's own steps run out

  ghost function Sum(m: map<SyncId, nat>): nat {
    if m == map[] then 0
    else
      var id := Lowest(m.Keys);
      m[id] + Sum(m - {id})
  }

  lemma {:induction false} SumWithout(m: map<SyncId, nat>, id: SyncId)
    requires id in m
    ensures Sum(m) == m[id] + Sum(m - {id})
    decreases |m|
  {
    var least := Lowest(m.Keys);
    if least != id {
      SumWithout(m - {least}, id);
      var rest := m - {id};
      assert least in rest.Keys && Lowest(rest.Keys) in m.Keys;
      assert Lowest(rest.Keys) <= least <= Lowest(rest.Keys);
      assert (m - {least}) - {id} == rest - {least};
    }
  }

  /** What a sync may still upset: everything but the consumer's own sync of a current copy. */
  function Disturbance(cluster: map<Name, Image>, id: SyncId, sync: Sync): nat {
    if id == GATED && sync.name in cluster && sync.image == cluster[sync.name] then 0
    else if sync.phase == Recorded then 2
    else 3
  }

  function Toil(id: SyncId, sync: Sync): nat {
    match sync.phase
    case Queued => 3
    case Holding => 2
    case Passed => 1
    case Recorded => 13
  }

  function Disturbances(s: State): map<SyncId, nat> {
    map id | id in s.syncs :: Disturbance(s.cluster, id, s.syncs[id])
  }

  function Toils(s: State): map<SyncId, nat> {
    map id | id in s.syncs :: Toil(id, s.syncs[id])
  }

  function Forgetting(queue: seq<Notice>): nat {
    if queue == [] then 0 else (if Forgets(queue[0]) then 1 else 0) + Forgetting(queue[1..])
  }

  lemma {:induction false} ForgettingAppend(queue: seq<Notice>, n: Notice)
    ensures Forgetting(queue + [n]) == Forgetting(queue) + if Forgets(n) then 1 else 0
  {
    if queue != [] {
      ForgettingAppend(queue[1..], n);
      assert (queue + [n])[1..] == queue[1..] + [n];
    } else {
      assert queue + [n] == [n];
    }
  }

  function OutOfDate(s: State): set<Name> {
    set name | name in s.cluster && Eligible(s.cluster[name]) && SourceMoved(s.lastSource, name, s.cluster[name])
  }

  /** Stale copies and forgetting events left, images out of date, and handovers left: compared in this order. */
  datatype Work = Work(upsets: nat, outOfDate: nat, toil: nat)

  predicate Less(a: Work, b: Work) {
    || a.upsets < b.upsets
    || (a.upsets == b.upsets && a.outOfDate < b.outOfDate)
    || (a.upsets == b.upsets && a.outOfDate == b.outOfDate && a.toil < b.toil)
  }

  function Handovers(s: State): nat {
    11 * |s.queue| + 5 * |s.pending| + (if s.wake then 3 else 0)
    + (match s.watcher case Listening => 0 case Inserting(_) => 10 case Sending => 4)
    + (match s.consumer
       case Asleep => 0
       case Woken => 2
       case Draining(left) => 1 + 5 * |left|
       case Busy(left) => 1 + 5 * |left|)
  }

  ghost function WorkLeft(s: State): Work {
    Work(Sum(Disturbances(s)) + Forgetting(s.queue), |OutOfDate(s)|, Handovers(s) + Sum(Toils(s)))
  }

  lemma SumChange(m: map<SyncId, nat>, m': map<SyncId, nat>, id: SyncId)
    requires m - {id} == m' - {id}
    ensures Sum(m') + (if id in m then m[id] else 0) == Sum(m) + (if id in m' then m'[id] else 0)
  {
    if id in m {
      SumWithout(m, id);
    } else {
      assert m - {id} == m;
    }
    if id in m' {
      SumWithout(m', id);
    } else {
      assert m' - {id} == m';
    }
  }

  /** One sync changing, or ending, leaves the share of the others. */
  lemma SyncChange(s: State, s': State, id: SyncId)
    requires s'.cluster == s.cluster
    requires s'.syncs == s.syncs - {id} || (id in s'.syncs && s'.syncs == s.syncs[id := s'.syncs[id]])
    ensures Sum(Disturbances(s')) + (if id in s.syncs then Disturbance(s.cluster, id, s.syncs[id]) else 0)
         == Sum(Disturbances(s)) + (if id in s'.syncs then Disturbance(s.cluster, id, s'.syncs[id]) else 0)
    ensures Sum(Toils(s')) + (if id in s.syncs then Toil(id, s.syncs[id]) else 0)
         == Sum(Toils(s)) + (if id in s'.syncs then Toil(id, s'.syncs[id]) else 0)
  {
    assert Disturbances(s) - {id} == Disturbances(s') - {id};
    assert Toils(s) - {id} == Toils(s') - {id};
    SumChange(Disturbances(s), Disturbances(s'), id);
    SumChange(Toils(s), Toils(s'), id);
  }

  lemma SameSyncs(s: State, s': State)
    requires s'.cluster == s.cluster && s'.syncs == s.syncs
    ensures Disturbances(s') == Disturbances(s) && Toils(s') == Toils(s)
  {
  }

  lemma SameOutOfDate(s: State, s': State)
    requires s'.cluster == s.cluster && s'.lastSource == s.lastSource
    ensures OutOfDate(s') == OutOfDate(s)
  {
  }

  lemma DeliverShrinksWork(s: State)
    requires Step(s, Deliver).Some?
    ensures Less(WorkLeft(Step(s, Deliver).value), WorkLeft(s))
  {
    hide Disturbances, Toils, OutOfDate, Sum;
    var s' := Step(s, Deliver).value;
    SameSyncs(s, s');
    if !Forgets(s.queue[0]) {
      SameOutOfDate(s, s');
    }
  }

  lemma HandoverShrinksWork(s: State, e: Event)
    requires Step(s, e).Some? && (e.Insert? || e.Send? || e.Receive? || e.Drain? || e.Rest?)
    ensures Less(WorkLeft(Step(s, e).value), WorkLeft(s))
  {
    var s' := Step(s, e).value;
    hide Disturbances, Toils, OutOfDate, Sum, Forgetting;
    SameSyncs(s, s');
    SameOutOfDate(s, s');
    if e.Insert? && s.watcher.name in s.pending {
      assert s'.pending == s.pending;
    }
  }

  lemma ReadOfLiveShrinksWork(s: State, s': State, name: Name)
    requires s.consumer.Draining? && name in s.consumer.left && name in s.cluster && GATED !in s.syncs
    requires s' == s.(consumer := Busy(s.consumer.left - {name}), syncs := s.syncs[GATED := Sync(name, s.cluster[name], Queued)])
    ensures Less(WorkLeft(s'), WorkLeft(s))
  {
    hide Disturbances, Toils, OutOfDate, Sum, Forgetting, Less;
    SameOutOfDate(s, s');
    SyncChange(s, s', GATED);
    assert Handovers(s') == Handovers(s) - 5;
    LessToil(WorkLeft(s'), WorkLeft(s));
  }

  lemma ReadOfGoneShrinksWork(s: State, s': State, name: Name)
    requires s.consumer.Draining? && name in s.consumer.left
    requires s' == s.(consumer := Draining(s.consumer.left - {name}))
    ensures Less(WorkLeft(s'), WorkLeft(s))
  {
    hide Disturbances, Toils, OutOfDate, Sum, Forgetting, Less;
    SameOutOfDate(s, s');
    SameSyncs(s, s');
    assert Handovers(s') == Handovers(s) - 5;
    LessToil(WorkLeft(s'), WorkLeft(s));
  }

  lemma LessToil(a: Work, b: Work)
    requires a.upsets == b.upsets && a.outOfDate == b.outOfDate && a.toil < b.toil
    ensures Less(a, b)
  {
  }

  lemma ReadShrinksWork(s: State, name: Name)
    requires Inv(s) && Step(s, Read(name)).Some?
    ensures Less(WorkLeft(Step(s, Read(name)).value), WorkLeft(s))
  {
    hide WorkLeft, Less;
    if name in s.cluster {
      ReadOfLiveShrinksWork(s, Step(s, Read(name)).value, name);
    } else {
      ReadOfGoneShrinksWork(s, Step(s, Read(name)).value, name);
    }
  }

  lemma PhaseShrinksWork(s: State, s': State, id: SyncId)
    requires id in s.syncs && id in s'.syncs && s'.syncs[id] == s.syncs[id].(phase := s'.syncs[id].phase)
    requires s' == s.(syncSem := s'.syncSem, syncs := s.syncs[id := s'.syncs[id]])
    requires s.syncs[id].phase == Queued || s.syncs[id].phase == Holding
    requires s'.syncs[id].phase == Passed || (s.syncs[id].phase == Queued && s'.syncs[id].phase == Holding)
    ensures Less(WorkLeft(s'), WorkLeft(s))
  {
    hide Disturbances, Toils, OutOfDate, Sum, Forgetting;
    SameOutOfDate(s, s');
    SyncChange(s, s', id);
    assert Handovers(s') == Handovers(s);
  }

  lemma EndedGateShrinksWork(s: State, s': State)
    requires GATED in s.syncs && s.consumer.Busy?
    requires s' == s.(syncSem := false, syncs := s.syncs - {GATED}, consumer := Draining(s.consumer.left))
    ensures Less(WorkLeft(s'), WorkLeft(s))
  {
    SameOutOfDate(s, s');
    SyncChange(s, s', GATED);
    assert Handovers(s') == Handovers(s);
  }

  lemma GateShrinksWork(s: State)
    requires Inv(s) && Step(s, Gate).Some?
    ensures Less(WorkLeft(Step(s, Gate).value), WorkLeft(s))
  {
    var s' := Step(s, Gate).value;
    if GATED in s'.syncs {
      PhaseShrinksWork(s, s', GATED);
    } else {
      EndedGateShrinksWork(s, s');
    }
  }

  lemma RecordedIsUpToDate(s: State, s': State, name: Name)
    requires name in OutOfDate(s) && s'.cluster == s.cluster && s'.lastSource == s.lastSource[name := s.cluster[name].catalog.value]
    ensures |OutOfDate(s')| < |OutOfDate(s)|
  {
    assert OutOfDate(s') == OutOfDate(s) - {name};
  }

  /** Recording either uses up a stale or ungated sync, or brings an image up to date. */
  lemma RecordShrinksWork(s: State, id: SyncId)
    requires Inv(s) && Step(s, Record(id)).Some?
    ensures Less(WorkLeft(Step(s, Record(id)).value), WorkLeft(s))
  {
    var s' := Step(s, Record(id)).value;
    var sync := s.syncs[id];
    SyncChange(s, s', id);
    assert s'.queue == s.queue;
    if Disturbance(s.cluster, id, sync) == 0 {
      assert SourceMoved(s.lastSource, sync.name, sync.image);
      assert sync.name in OutOfDate(s);
      RecordedIsUpToDate(s, s', sync.name);
    }
  }

  /** The event a patch emits costs less than the recorded sync it ends, and never makes the map forget a current image. */
  lemma PatchShrinksWork(s: State, s': State, id: SyncId, emitted: seq<Notice>)
    requires id in s.syncs && s.syncs[id].phase == Recorded && Eligible(s.syncs[id].image)
    requires emitted == if s.syncs[id].name in s.cluster then [Upserted(s.syncs[id].name, s.cluster[s.syncs[id].name])] else []
    requires s' == s.(syncSem := false, queue := s.queue + emitted, syncs := s.syncs - {id}, consumer := s'.consumer)
    requires s'.consumer == if id == GATED && s.consumer.Busy? then Draining(s.consumer.left) else s.consumer
    ensures Less(WorkLeft(s'), WorkLeft(s))
  {
    hide Disturbances, Toils, OutOfDate, Sum, Forgetting;
    SameOutOfDate(s, s');
    SyncChange(s, s', id);
    assert Handovers(s') == Handovers(s) + 11 * |emitted|;
    if emitted == [] {
      assert s'.queue == s.queue;
    } else {
      ForgettingAppend(s.queue, emitted[0]);
      assert Disturbance(s.cluster, id, s.syncs[id]) == 0 ==> !Forgets(emitted[0]);
    }
  }

  /** Every step of the worker's own leaves strictly less work: left alone, no schedule of the goroutines goes on for ever. */
  lemma OwnStepsRunOut(s: State, e: Event)
    requires Inv(s) && !External(e) && Step(s, e).Some?
    ensures Less(WorkLeft(Step(s, e).value), WorkLeft(s))
  {
    match e
    case Deliver => DeliverShrinksWork(s);
    case Record(id) => RecordShrinksWork(s, id);
    case Patch(id) =>
      var name := s.syncs[id].name;
      PatchShrinksWork(s, Step(s, e).value, id, if name in s.cluster then [Upserted(name, s.cluster[name])] else []);
    case Read(name) => ReadShrinksWork(s, name);
    case Acquire(id) => PhaseShrinksWork(s, Step(s, e).value, id);
    case Gate => GateShrinksWork(s);
    case _ => HandoverShrinksWork(s, e);
  }

  /** From any reachable state, the worker's own steps lead to convergence. */
  lemma {:induction false} Settles(s: State) returns (es: seq<Event>)
    requires Inv(s)
    ensures (forall i :: 0 <= i < |es| ==> !External(es[i])) && Exec(s, es).Some?
    ensures Stuck(Exec(s, es).value) && Converged(Exec(s, es).value)
    decreases WorkLeft(s).upsets, WorkLeft(s).outOfDate, WorkLeft(s).toil
  {
    if Stuck(s) {
      StuckMeansConverged(s);
      es := [];
    } else {
      var e :| !External(e) && Step(s, e).Some?;
      OwnStepsRunOut(s, e);
      StepKeepsInv(s, e);
      var rest := Settles(Step(s, e).value);
      es := [e] + rest;
      assert es[1..] == rest;
    }
  }

  /** Whatever happened outside and in whatever order: in every reachable state the worker is converged or can still move, and can get there. */
  lemma AlwaysConverges(s: State, es: seq<Event>) returns (more: seq<Event>)
    requires Start(s) && Exec(s, es).Some?
    ensures Announced(Exec(s, es).value)
    ensures Stuck(Exec(s, es).value) ==> Converged(Exec(s, es).value)
    ensures Exec(Exec(s, es).value, more).Some? && Converged(Exec(Exec(s, es).value, more).value)
  {
    StartSatisfiesInv(s);
    RunsKeepInv(s, es);
    if Stuck(Exec(s, es).value) {
      StuckMeansConverged(Exec(s, es).value);
    }
    more := Settles(Exec(s, es).value);
  }

  // ----- no hot loop

  /** What happened to the tracking map: an attempt, by the gated path or another, or a forget. */
  datatype Mark = Attempt(name: Name, source: Source, gated: bool) | Forgot(name: Name)

  function MarkOf(s: State, e: Event): (marks: seq<Mark>)
    requires Step(s, e).Some?
    ensures |marks| <= 1
  {
    match e
    case Record(id) => [Attempt(s.syncs[id].name, s.syncs[id].image.catalog.value, id == GATED)]
    case Deliver => if Forgets(s.queue[0]) then [Forgot(s.queue[0].name)] else []
    case _ => []
  }

  function Marks(s: State, es: seq<Event>): seq<Mark>
    requires Exec(s, es).Some?
    decreases |es|
  {
    if es == [] then [] else MarkOf(s, es[0]) + Marks(Step(s, es[0]).value, es[1..])
  }

  /** The marks that can make an attempt of `source` due again. */
  predicate Reopens(m: Mark, name: Name, source: Source) {
    m.name == name && (m.Forgot? || m.source != source)
  }

  lemma TrackingFollowsMarks(s: State, e: Event)
    requires Step(s, e).Some?
    ensures var last, now := Step(s, e).value.lastSource, MarkOf(s, e);
            if now == [] then last == s.lastSource
            else if now[0].Forgot? then last == s.lastSource - {now[0].name}
            else last == s.lastSource[now[0].name := now[0].source]
  {
  }

  /** While an image's last attempt is of `source`, the gated path does not attempt that source before something reopens it. */
  lemma {:induction false} ReopenedFirst(s: State, es: seq<Event>, name: Name, source: Source, j: nat) returns (k: nat)
    requires Inv(s) && Exec(s, es).Some?
    requires name in s.lastSource && s.lastSource[name] == source
    requires j < |Marks(s, es)| && Marks(s, es)[j] == Attempt(name, source, true)
    ensures k < j && Marks(s, es)[k].name == name && (Marks(s, es)[k].Forgot? || Marks(s, es)[k].source != source)
    decreases |es|
  {
    var s' := Step(s, es[0]).value;
    var now := MarkOf(s, es[0]);
    StepKeepsInv(s, es[0]);
    TrackingFollowsMarks(s, es[0]);
    if now == [] {
      assert Marks(s, es) == Marks(s', es[1..]);
      k := ReopenedFirst(s', es[1..], name, source, j);
    } else if Reopens(now[0], name, source) {
      k := 0;
    } else {
      assert Marks(s, es) == now + Marks(s', es[1..]) && |now| == 1;
      k := ReopenedFirst(s', es[1..], name, source, j - 1);
      k := k + 1;
    }
  }

  /** Between an attempt of a source and a watch-path fetch of that same source there is a forget of the image or an attempt of another source, whether or not any fetch succeeded. */
  lemma {:induction false} NoHotLoop(s: State, es: seq<Event>, i: nat, j: nat) returns (k: nat)
    requires Inv(s) && Exec(s, es).Some?
    requires i < j < |Marks(s, es)| && Marks(s, es)[i].Attempt?
    requires Marks(s, es)[j] == Attempt(Marks(s, es)[i].name, Marks(s, es)[i].source, true)
    ensures i < k < j && Marks(s, es)[k].name == Marks(s, es)[i].name
    ensures Marks(s, es)[k].Forgot? || Marks(s, es)[k].source != Marks(s, es)[i].source
    decreases |es|
  {
    hide Inv, Step, MarkOf;
    var s' := Step(s, es[0]).value;
    var now := MarkOf(s, es[0]);
    StepKeepsInv(s, es[0]);
    if now == [] {
      assert Marks(s, es) == Marks(s', es[1..]);
      k := NoHotLoop(s', es[1..], i, j);
    } else {
      assert Marks(s, es) == now + Marks(s', es[1..]) && |now| == 1;
      if i == 0 {
        TrackingFollowsMarks(s, es[0]);
        k := ReopenedFirst(s', es[1..], now[0].name, now[0].source, j - 1);
      } else {
        k := NoHotLoop(s', es[1..], i - 1, j - 1);
      }
      k := k + 1;
    }
  }

  // ----- the steps are the methods' sections

  /** Run back to back, the watch goroutine's steps do to the worker what `OnImageEvent` does. */
  lemma HandlerIsItsSteps(s: State)
    requires s.watcher == Listening && s.queue != []
    ensures var s1 := Step(s, Deliver).value;
            var s' := if s1.watcher.Inserting? then Step(Step(s1, Insert).value, Send).value else s1;
            && s'.watcher == Listening
            && (s'.lastSource, s'.pending, s'.wake) == AfterImageEvent(s.lastSource, s.pending, s.wake, s.queue[0])
  {
  }
}
