/**
 The fan-out of change notifications to connected streams: bounded buffers, sends that
 never block, subscriptions that end by a cancel which may be called again.

 `Hub` is the object; below it the same operations interleave as mutex sections and
 channel operations of any number of streams. For every run: no step sends on or closes a
 closed channel (`NeverPanics`), the gauge counts the live subscriptions (`RunsKeepInv`),
 and what a stream gets is an in-order part of what it was entitled to, short by exactly
 the notifications that met a full buffer (`StreamGetsWhatItIsEntitledTo`).
 */
module EventHub {
  import opened Subsequences

  const CAPACITY: nat := 16

  predicate Entitled(owner: string, admin: bool, target: string) {
    admin || target == "" || owner == target
  }

  /** A send that gives up when there is no room. */
  function Offered(buffer: seq<string>, kind: string): seq<string> {
    if |buffer| < CAPACITY then buffer + [kind] else buffer
  }

  // ----- the object

  class Subscription {
    const owner: string
    const admin: bool
    var buffer: seq<string>
    var closed: bool

    constructor (owner: string, admin: bool)
      ensures this.owner == owner && this.admin == admin && buffer == [] && !closed
    {
      this.owner, this.admin, buffer, closed := owner, admin, [], false;
    }

    /** Sending on a closed channel panics, so callers must hold an open one. */
    method TrySend(kind: string)
      requires !closed
      modifies this`buffer
      ensures buffer == Offered(old(buffer), kind)
    {
      if |buffer| < CAPACITY {
        buffer := buffer + [kind];
      }
    }

    /** Closing a closed channel panics. */
    method Close()
      requires !closed
      modifies this`closed
      ensures closed
    {
      closed := true;
    }
  }

  class Hub {
    var subs: set<Subscription>
    var gauge: int

    ghost predicate Valid()
      reads this, subs
    {
      gauge == |subs| && forall sub :: sub in subs ==> !sub.closed && |sub.buffer| <= CAPACITY
    }

    constructor ()
      ensures Valid() && subs == {}
    {
      subs, gauge := {}, 0;
    }

    method Subscribe(owner: string, admin: bool) returns (sub: Subscription)
      requires Valid()
      modifies this
      ensures Valid() && fresh(sub) && subs == old(subs) + {sub}
      ensures sub.owner == owner && sub.admin == admin && sub.buffer == []
    {
      sub := new Subscription(owner, admin);
      subs := subs + {sub};
      gauge := gauge + 1;
    }

    /** The cancel of a stream: the first call ends it, any other leaves everything as it is. */
    method Cancel(sub: Subscription)
      requires Valid()
      modifies this, sub`closed
      ensures Valid() && subs == old(subs) - {sub}
      ensures sub in old(subs) ==> sub.closed && gauge == old(gauge) - 1
      ensures sub !in old(subs) ==> sub.closed == old(sub.closed) && gauge == old(gauge)
    {
      if sub in subs {
        subs := subs - {sub};
        sub.Close();
        gauge := gauge - 1;
      }
    }

    method Notify(kind: string, target: string)
      requires Valid()
      modifies subs
      ensures Valid()
      ensures forall sub :: sub in subs ==>
                var entitled := sub.admin || target == "" || sub.owner == target;
                sub.buffer == if entitled && |old(sub.buffer)| < 16 then old(sub.buffer) + [kind] else old(sub.buffer)
    {
      var rest := subs;
      while rest != {}
        invariant rest <= subs
        invariant forall sub :: sub in subs ==> !sub.closed && |sub.buffer| <= CAPACITY
        invariant forall sub :: sub in rest ==> sub.buffer == old(sub.buffer)
        invariant forall sub :: sub in subs - rest ==>
                    sub.buffer == if Entitled(sub.owner, sub.admin, target) then Offered(old(sub.buffer), kind) else old(sub.buffer)
        decreases |rest|
      {
        var sub :| sub in rest;
        rest := rest - {sub};
        if Entitled(sub.owner, sub.admin, target) {
          sub.TrySend(kind);
        }
      }
    }
  }

  // ----- any number of streams at once

  type StreamId = nat

  datatype Stream = Stream(owner: string, admin: bool, buffer: seq<string>, closed: bool)

  /** `uncounted` are the subscribe calls between their unlock and their gauge increment. */
  datatype State = State(subs: set<StreamId>, streams: map<StreamId, Stream>, uncounted: set<StreamId>, gauge: int)

  datatype Event =
    | Register(id: StreamId, owner: string, admin: bool)
    | Count(id: StreamId)   // the gauge increment; only then does Subscribe return
    | Cancel(id: StreamId)
    | Notify(kind: string, target: string)
    | Receive(id: StreamId)

  const START: State := State({}, map[], {}, 0)

  predicate Gets(s: State, id: StreamId, target: string) {
    id in s.subs && id in s.streams && Entitled(s.streams[id].owner, s.streams[id].admin, target)
  }

  /** The runtime's panics: a send on a closed channel, a close of a closed channel. */
  ghost predicate Panics(s: State, e: Event) {
    match e
    case Notify(_, target) => exists id :: Gets(s, id, target) && s.streams[id].closed
    case Cancel(id) => id in s.subs && id in s.streams && s.streams[id].closed
    case _ => false
  }

  predicate Enabled(s: State, e: Event) {
    match e
    case Register(id, _, _) => id !in s.streams
    case Count(id) => id in s.uncounted
    case Cancel(id) => id in s.streams && id !in s.uncounted
    case Notify(_, _) => true
    case Receive(id) => id in s.streams && s.streams[id].buffer != []
  }

  function Step(s: State, e: Event): State
    requires Enabled(s, e)
  {
    match e
    case Register(id, owner, admin) =>
      s.(subs := s.subs + {id}, streams := s.streams[id := Stream(owner, admin, [], false)], uncounted := s.uncounted + {id})
    case Count(id) => s.(uncounted := s.uncounted - {id}, gauge := s.gauge + 1)
    case Cancel(id) =>
      if id in s.subs then
        s.(subs := s.subs - {id}, streams := s.streams[id := s.streams[id].(closed := true)], gauge := s.gauge - 1)
      else s
    case Notify(kind, target) =>
      s.(streams := map id | id in s.streams ::
           if Gets(s, id, target) then s.streams[id].(buffer := Offered(s.streams[id].buffer, kind)) else s.streams[id])
    case Receive(id) => s.(streams := s.streams[id := s.streams[id].(buffer := s.streams[id].buffer[1..])])
  }

  predicate Runs(s: State, es: seq<Event>)
    decreases |es|
  {
    es == [] || (Enabled(s, es[0]) && Runs(Step(s, es[0]), es[1..]))
  }

  function Exec(s: State, es: seq<Event>): State
    requires Runs(s, es)
    decreases |es|
  {
    if es == [] then s else Exec(Step(s, es[0]), es[1..])
  }

  /** Sound streams, counted once subscribing has returned. */
  ghost predicate Inv(s: State) {
    s.uncounted <= s.subs && StreamsSound(s.subs, s.streams) && s.gauge == |s.subs| - |s.uncounted|
  }

  /** Open exactly while registered, and bounded. */
  ghost predicate StreamsSound(subs: set<StreamId>, streams: map<StreamId, Stream>) {
    && subs <= streams.Keys
    && forall id :: id in streams ==> (streams[id].closed <==> id !in subs) && |streams[id].buffer| <= CAPACITY
  }

  lemma StepKeepsStreams(s: State, e: Event)
    requires StreamsSound(s.subs, s.streams) && Enabled(s, e)
    ensures StreamsSound(Step(s, e).subs, Step(s, e).streams)
  {
  }

  lemma StepKeepsGauge(s: State, e: Event)
    requires s.uncounted <= s.subs <= s.streams.Keys && s.gauge == |s.subs| - |s.uncounted| && Enabled(s, e)
    ensures var s' := Step(s, e); s'.uncounted <= s'.subs && s'.gauge == |s'.subs| - |s'.uncounted|
  {
    match e {
      case Register(id, _, _) => assert id !in s.subs;
      case Count(_) =>
      case Cancel(_) =>
      case Notify(_, _) =>
      case Receive(_) =>
    }
  }

  lemma StepKeepsInv(s: State, e: Event)
    requires Inv(s) && Enabled(s, e)
    ensures Inv(Step(s, e))
  {
    StepKeepsStreams(s, e);
    StepKeepsGauge(s, e);
  }

  /** In every reachable state the gauge is the number of live subscriptions, less those whose subscribe call has yet to count itself. */
  lemma {:induction false} RunsKeepInv(s: State, es: seq<Event>)
    requires Inv(s) && Runs(s, es)
    ensures Inv(Exec(s, es))
    decreases |es|
  {
    if es != [] {
      StepKeepsInv(s, es[0]);
      RunsKeepInv(Step(s, es[0]), es[1..]);
    }
  }

  lemma NeverPanics(es: seq<Event>, e: Event)
    requires Runs(START, es)
    ensures !Panics(Exec(START, es), e)
    ensures Exec(START, es).uncounted == {} ==> Exec(START, es).gauge == |Exec(START, es).subs|
  {
    RunsKeepInv(START, es);
  }

  // ----- what one stream gets

  function Buffer(s: State, id: StreamId): seq<string> {
    if id in s.streams then s.streams[id].buffer else []
  }

  function DueNow(s: State, e: Event, id: StreamId): seq<string> {
    if e.Notify? && Gets(s, id, e.target) then [e.kind] else []
  }

  function ReceivedNow(s: State, e: Event, id: StreamId): seq<string>
    requires Enabled(s, e)
  {
    if e == Receive(id) then [s.streams[id].buffer[0]] else []
  }

  /** The notifications made while the stream was live and entitled to them. */
  function Due(s: State, es: seq<Event>, id: StreamId): seq<string>
    requires Runs(s, es)
    decreases |es|
  {
    if es == [] then [] else DueNow(s, es[0], id) + Due(Step(s, es[0]), es[1..], id)
  }

  function Received(s: State, es: seq<Event>, id: StreamId): seq<string>
    requires Runs(s, es)
    decreases |es|
  {
    if es == [] then [] else ReceivedNow(s, es[0], id) + Received(Step(s, es[0]), es[1..], id)
  }

  /** Those of its notifications that found the buffer full. */
  function Dropped(s: State, es: seq<Event>, id: StreamId): nat
    requires Runs(s, es)
    decreases |es|
  {
    if es == [] then 0
    else (if |Buffer(s, id)| >= CAPACITY then |DueNow(s, es[0], id)| else 0) + Dropped(Step(s, es[0]), es[1..], id)
  }

  /** One step queues what is due at the back and receives from the front, unless the buffer is full. */
  lemma StepQueues(s: State, e: Event, id: StreamId)
    requires Inv(s) && Enabled(s, e)
    ensures var b, b' := Buffer(s, id), Buffer(Step(s, e), id);
            if DueNow(s, e, id) != [] && |b| >= CAPACITY then b' == b && ReceivedNow(s, e, id) == []
            else ReceivedNow(s, e, id) + b' == b + DueNow(s, e, id)
  {
  }

  /** What is got is an in-order part of what is due, `dropped` short of it. */
  ghost predicate FallsShort(got: seq<string>, due: seq<string>, dropped: nat) {
    IsSubsequence(got, due) && |got| + dropped == |due| && (dropped == 0 ==> got == due)
  }

  lemma QueuedThenShort(got: seq<string>, b: seq<string>, b': seq<string>, now: seq<string>, received: seq<string>, end: seq<string>, later: seq<string>, dropped: nat)
    requires |got| <= 1 && got + b' == b + now && FallsShort(received + end, b' + later, dropped)
    ensures FallsShort((got + received) + end, b + (now + later), dropped)
  {
    var rest := received + end;
    assert (got + received) + end == got + rest;
    assert b + (now + later) == got + (b' + later) by {
      assert b + (now + later) == (b + now) + later == (got + b') + later;
    }
    if got == [] {
      assert got + rest == rest && got + (b' + later) == b' + later;
    } else {
      SubsequenceBehind(got[0], rest, b' + later);
      assert got == [got[0]];
    }
  }

  lemma DroppedThenShort(b: seq<string>, kind: string, received: seq<string>, end: seq<string>, later: seq<string>, dropped: nat)
    requires FallsShort(received + end, b + later, dropped)
    ensures FallsShort(([] + received) + end, b + ([kind] + later), 1 + dropped)
  {
    SubsequenceWithin(received + end, b, later, kind);
    assert b + ([kind] + later) == b + [kind] + later;
    assert [] + received == received;
  }

  lemma {:induction false} StreamFrom(s: State, es: seq<Event>, id: StreamId)
    requires Inv(s) && Runs(s, es)
    ensures FallsShort(Received(s, es, id) + Buffer(Exec(s, es), id), Buffer(s, id) + Due(s, es, id), Dropped(s, es, id))
    decreases |es|
  {
    if es == [] {
      assert [] + Buffer(s, id) == Buffer(s, id) + [];
      SubsequenceOfItself(Buffer(s, id) + []);
    } else {
      var s', e, b := Step(s, es[0]), es[0], Buffer(s, id);
      StepKeepsInv(s, e);
      StreamFrom(s', es[1..], id);
      StepQueues(s, e, id);
      var end, later, received, dropped := Buffer(Exec(s, es), id), Due(s', es[1..], id), Received(s', es[1..], id), Dropped(s', es[1..], id);
      if DueNow(s, e, id) != [] && |b| >= CAPACITY {
        DroppedThenShort(b, e.kind, received, end, later, dropped);
      } else {
        QueuedThenShort(ReceivedNow(s, e, id), b, Buffer(s', id), DueNow(s, e, id), received, end, later, dropped);
      }
    }
  }

  /**
   In every run, what a stream has received and still has buffered is an in-order part of
   the notifications it was entitled to while live; the missing ones are exactly those that
   met a full buffer of 16, so with none of these nothing is missing or reordered.
   */
  lemma StreamGetsWhatItIsEntitledTo(es: seq<Event>, id: StreamId)
    requires Runs(START, es)
    ensures var got := Received(START, es, id) + Buffer(Exec(START, es), id);
            && FallsShort(got, Due(START, es, id), Dropped(START, es, id))
            && |Buffer(Exec(START, es), id)| <= 16
  {
    StreamFrom(START, es, id);
    RunsKeepInv(START, es);
    assert Buffer(START, id) + Due(START, es, id) == Due(START, es, id);
  }

  /** However slow the consumer, an entitled notification leaves it something to wake up to, and one with room is never lost. */
  lemma NotifyWakes(s: State, kind: string, target: string, id: StreamId)
    requires Inv(s) && id in s.subs
    requires s.streams[id].admin || target == "" || s.streams[id].owner == target
    ensures var buffer := Buffer(Step(s, Notify(kind, target)), id);
            buffer != [] && (|Buffer(s, id)| < 16 ==> buffer == Buffer(s, id) + [kind])
  {
  }

  /** The event names this owner's objects, or everybody's. */
  predicate Concerns(e: Event, owner: string) {
    e.Notify? && (e.target == "" || e.target == owner)
  }

  /** A stream that is no administrator's is due nothing while every notification names another owner; an administrator's is due all there are. */
  lemma {:induction false} DueByOwner(s: State, es: seq<Event>, id: StreamId)
    requires Inv(s) && Runs(s, es) && id in s.subs && forall i :: 0 <= i < |es| ==> es[i] != Cancel(id)
    ensures !s.streams[id].admin && (forall i :: 0 <= i < |es| ==> !Concerns(es[i], s.streams[id].owner)) ==> Due(s, es, id) == []
    ensures s.streams[id].admin || (forall i :: 0 <= i < |es| && es[i].Notify? ==> Concerns(es[i], s.streams[id].owner)) ==>
              Due(s, es, id) == Kinds(es)
    decreases |es|
  {
    if es != [] {
      var s' := Step(s, es[0]);
      StepKeepsInv(s, es[0]);
      OwnerStays(s, es[0], id);
      assert forall i :: 0 <= i < |es[1..]| ==> es[1..][i] == es[i + 1];
      DueByOwner(s', es[1..], id);
    }
  }

  lemma OwnerStays(s: State, e: Event, id: StreamId)
    requires Inv(s) && Enabled(s, e) && id in s.subs && e != Cancel(id)
    ensures var s' := Step(s, e);
            id in s'.subs && id in s'.streams && s'.streams[id].owner == s.streams[id].owner && s'.streams[id].admin == s.streams[id].admin
    ensures DueNow(s, e, id) == if e.Notify? && (s.streams[id].admin || Concerns(e, s.streams[id].owner)) then [e.kind] else []
  {
  }

  /** The kinds of all notifications, in order. */
  function Kinds(es: seq<Event>): seq<string> {
    if es == [] then [] else (if es[0].Notify? then [es[0].kind] else []) + Kinds(es[1..])
  }

  /** After its cancel a stream is entitled to nothing more, and further cancels change nothing. */
  lemma {:induction false} CancelIsFinal(s: State, es: seq<Event>, id: StreamId)
    requires Inv(s) && Runs(s, es) && id in s.streams && id !in s.subs
    ensures Due(s, es, id) == [] && id in Exec(s, es).streams && id !in Exec(s, es).subs
    ensures Enabled(Exec(s, es), Cancel(id)) ==> Step(Exec(s, es), Cancel(id)) == Exec(s, es)
    decreases |es|
  {
    if es != [] {
      StepKeepsInv(s, es[0]);
      CancelIsFinal(Step(s, es[0]), es[1..], id);
    }
  }
}
