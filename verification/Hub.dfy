/** The WebSocket hub (internal/server/ws.go): one event loop that serves
    registrations, publications and ticks in whatever order they are ready,
    while connections come, read, and go. */
module Hub {

  const CLIENT_SEND_BUFFER := 256
  const PUBLISH_BUFFER := 512
  const REQUEST_BUFFER := 64

  /** A client is a pointer in the program; here it is its identity. */
  type ClientId = nat

  /** `encodable` says whether serialising the event succeeds. */
  datatype Event = Event(kind: string, data: string, encodable: bool)

  /** A client's send channel. */
  datatype Chan = Chan(buffer: seq<Event>, closed: bool)

  predicate Throttled(kind: string) {
    kind in {"price_update", "spread_stats", "latency_stats", "uptime_stats"}
  }

  /** The last event of each kind. */
  function Latest(events: seq<Event>): map<string, Event> {
    if events == [] then map[]
    else
      var last := events[|events| - 1];
      Latest(events[..|events| - 1])[last.kind := last]
  }

  function Encodable(events: seq<Event>): seq<Event> {
    if events == [] then []
    else
      var n := |events| - 1;
      Encodable(events[..n]) + if events[n].encodable then [events[n]] else []
  }

  function ThrottledOf(events: seq<Event>): seq<Event> {
    if events == [] then []
    else
      var n := |events| - 1;
      ThrottledOf(events[..n]) + if Throttled(events[n].kind) then [events[n]] else []
  }

  /** What taking an event from the queue broadcasts at once. */
  function Sent(ev: Event): seq<Event> {
    if ev.encodable && !Throttled(ev.kind) then [ev] else []
  }

  // ---------- The history of the loop ----------

  /** What the loop has done: taken an event from the queue, or, on a tick, flushed
      the pending ones. */
  datatype Action = Took(ev: Event) | Ticked(flushed: seq<Event>)

  function TakenIn(actions: seq<Action>): seq<Event> {
    if actions == [] then []
    else
      var front := TakenIn(actions[..|actions| - 1]);
      match actions[|actions| - 1]
      case Took(ev) => front + [ev]
      case Ticked(_) => front
  }

  /** What one action broadcasts. */
  function Output(a: Action): seq<Event> {
    match a
    case Took(ev) => Sent(ev)
    case Ticked(flushed) => Encodable(flushed)
  }

  /** Everything broadcast by a history, in order. */
  function LogOf(actions: seq<Action>): seq<Event> {
    if actions == [] then []
    else
      LogOf(actions[..|actions| - 1]) + Output(actions[|actions| - 1])
  }

  /** The throttled events taken since the last tick. */
  function SinceTick(actions: seq<Action>): seq<Event> {
    if actions == [] then []
    else
      match actions[|actions| - 1]
      case Took(ev) =>
        var front := SinceTick(actions[..|actions| - 1]);
        if Throttled(ev.kind) then front + [ev] else front
      case Ticked(_) => []
  }

  /** Every tick flushed, once per throttled kind taken since the tick before, the
      latest event of that kind. */
  ghost predicate TicksAreRight(actions: seq<Action>) {
    forall i | 0 <= i < |actions| && actions[i].Ticked? ::
      IsFlush(actions[i].flushed, Latest(SinceTick(actions[..i])), {})
  }

  lemma TicksOfOneMore(actions: seq<Action>, a: Action)
    requires TicksAreRight(actions)
    requires a.Ticked? ==> IsFlush(a.flushed, Latest(SinceTick(actions)), {})
    ensures TicksAreRight(actions + [a])
  {
    hide IsFlush, Latest, SinceTick;
    var more := actions + [a];
    forall i | 0 <= i < |more| && more[i].Ticked?
      ensures IsFlush(more[i].flushed, Latest(SinceTick(more[..i])), {})
    {
      assert more[..i] == actions[..i];
      assert actions[..|actions|] == actions;
    }
  }

  lemma TookStep(actions: seq<Action>, ev: Event)
    ensures TakenIn(actions + [Took(ev)]) == TakenIn(actions) + [ev]
    ensures LogOf(actions + [Took(ev)]) == LogOf(actions) + Sent(ev)
    ensures SinceTick(actions + [Took(ev)])
            == if Throttled(ev.kind) then SinceTick(actions) + [ev] else SinceTick(actions)
    ensures TicksAreRight(actions) ==> TicksAreRight(actions + [Took(ev)])
  {
    assert (actions + [Took(ev)])[..|actions|] == actions;
    if TicksAreRight(actions) {
      TicksOfOneMore(actions, Took(ev));
    }
  }

  lemma TickedStep(actions: seq<Action>, flushed: seq<Event>)
    requires IsFlush(flushed, Latest(SinceTick(actions)), {})
    ensures TakenIn(actions + [Ticked(flushed)]) == TakenIn(actions)
    ensures LogOf(actions + [Ticked(flushed)]) == LogOf(actions) + Encodable(flushed)
    ensures SinceTick(actions + [Ticked(flushed)]) == []
    ensures TicksAreRight(actions) ==> TicksAreRight(actions + [Ticked(flushed)])
  {
    hide IsFlush, Latest;
    assert (actions + [Ticked(flushed)])[..|actions|] == actions;
    if TicksAreRight(actions) {
      TicksOfOneMore(actions, Ticked(flushed));
    }
  }

  lemma {:induction false} LogOfConcat(a: seq<Action>, b: seq<Action>)
    ensures LogOf(a + b) == LogOf(a) + LogOf(b)
  {
    hide LogOf, Output;
    if b == [] {
      LogOfNothing();
      assert a + b == a;
    } else {
      var n := |b| - 1;
      LogOfConcat(a, b[..n]);
      LogOfLast(b);
      LogOfLast(a + b);
      assert (a + b)[..|a| + n] == a + b[..n];
    }
  }

  lemma LogOfNothing()
    ensures LogOf([]) == []
  {
  }

  lemma LogOfLast(actions: seq<Action>)
    requires actions != []
    ensures LogOf(actions) == LogOf(actions[..|actions| - 1]) + Output(actions[|actions| - 1])
  {
  }

  /** `SinceTick` is what it says: after a tick, or from the start, the throttled
      part of everything taken. */
  lemma {:induction false} SinceTickIsThrottledPart(actions: seq<Action>, from: nat)
    requires from <= |actions| && (from == 0 || actions[from - 1].Ticked?)
    requires forall i | from <= i < |actions| :: actions[i].Took?
    ensures SinceTick(actions) == ThrottledOf(TakenIn(actions[from..]))
  {
    var n := |actions| - 1;
    if from == |actions| {
      assert actions[from..] == [];
    } else {
      SinceTickIsThrottledPart(actions[..n], from);
      assert actions[from..][..n - from] == actions[..n][from..];
      var taken := TakenIn(actions[..n][from..]);
      assert (taken + [actions[n].ev])[..|taken|] == taken;
    }
  }

  /** What may happen next: an arm of the hub's select, or a move of the outside
      world. A schedule is any sequence of these. */
  datatype Step =
    | Connect(c: ClientId)
    | Disconnect(c: ClientId)
    | Consume(c: ClientId)
    | Publish(ev: Event)
    | TakeRegister
    | TakeUnregister
    | TakePublish
    | TakeTick

  /** Who is connected and what was sent to whom. `log` is everything broadcast so
      far, `since[c]` how long it was when `c` was registered, `received[c]` what
      `c`'s writer has taken from its channel. */
  datatype Wiring = Wiring(
    registerQueue: seq<ClientId>,
    clients: set<ClientId>,
    chans: map<ClientId, Chan>,
    log: seq<Event>,
    since: map<ClientId, nat>,
    received: map<ClientId, seq<Event>>)

  /** A registered client, and one waiting to be registered, has an open channel. */
  ghost predicate ChannelsOpen(w: Wiring) {
    && w.clients <= w.chans.Keys
    && (forall c | c in w.clients :: !w.chans[c].closed)
    && (forall c | c in w.registerQueue :: c in w.chans && !w.chans[c].closed)
    && (forall c | c in w.chans :: |w.chans[c].buffer| <= CLIENT_SEND_BUFFER)
  }

  /** Each client is registered at most once. */
  ghost predicate RegisteredOnce(w: Wiring) {
    && (forall c | c in w.registerQueue :: c in w.chans && c !in w.since)
    && (forall i, j | 0 <= i < j < |w.registerQueue| :: w.registerQueue[i] != w.registerQueue[j])
    && w.clients <= w.since.Keys <= w.chans.Keys == w.received.Keys
  }

  /** Everything ever put in `c`'s channel. */
  function SentTo(w: Wiring, c: ClientId): seq<Event>
    requires c in w.chans && c in w.received
  {
    w.received[c] + w.chans[c].buffer
  }

  /** Whoever was ever registered has been sent, in order and without gaps, a
      prefix of what was broadcast since; whoever still is, all of it. */
  ghost predicate SentInOrder(w: Wiring)
    requires w.clients <= w.since.Keys <= w.chans.Keys == w.received.Keys
  {
    && (forall c | c in w.chans && c !in w.since :: SentTo(w, c) == [])
    && (forall c | c in w.since :: w.since[c] <= |w.log| && SentTo(w, c) <= w.log[w.since[c]..])
    && (forall c | c in w.clients :: SentTo(w, c) == w.log[w.since[c]..])
  }

  ghost predicate Safe(w: Wiring) {
    ChannelsOpen(w) && RegisteredOnce(w) && SentInOrder(w)
  }

  lemma SafeFacts(w: Wiring)
    requires Safe(w)
    ensures ChannelsOpen(w) && RegisteredOnce(w) && w.chans.Keys == w.received.Keys
  {
  }

  /** What has happened stays: the broadcasts, who was registered when, and what
      each client has received only ever grow. */
  ghost predicate Grows(w: Wiring, w': Wiring) {
    && w.log <= w'.log && w.chans.Keys <= w'.chans.Keys
    && (forall c | c in w.since :: c in w'.since && w'.since[c] == w.since[c])
    && (forall c | c in w.received :: c in w'.received && w.received[c] <= w'.received[c])
  }

  lemma GrowsReflexive(w: Wiring)
    ensures Grows(w, w)
  {
  }

  lemma GrowsTransitive(w: Wiring, v: Wiring, u: Wiring)
    requires Grows(w, v) && Grows(v, u)
    ensures Grows(w, u)
  {
  }

  lemma LoggingGrows(w: Wiring, v: Wiring)
    requires v.since == w.since && v.received == w.received && w.log <= v.log && w.chans.Keys <= v.chans.Keys
    ensures Grows(w, v)
  {
  }

  lemma ReceivingGrows(w: Wiring, v: Wiring, c: ClientId, messages: seq<Event>)
    requires v.since == w.since && v.log == w.log && w.chans.Keys <= v.chans.Keys
    requires v.received == w.received[c := messages] && (c in w.received ==> w.received[c] <= messages)
    ensures Grows(w, v)
  {
  }

  lemma RegisteringGrows(w: Wiring, v: Wiring, c: ClientId)
    requires RegisteredOnce(w) && c in w.registerQueue
    requires v.since == w.since[c := |w.log|] && v.log == w.log && v.chans == w.chans && v.received == w.received
    ensures Grows(w, v)
  {
  }

  /** One event goes to every client that has room; the others are dropped. */
  ghost predicate IsBroadcast(w: Wiring, ev: Event, clients: set<ClientId>, chans: map<ClientId, Chan>)
    requires w.clients <= w.chans.Keys
  {
    && chans.Keys == w.chans.Keys
    && clients == (set c | c in w.clients && |w.chans[c].buffer| < CLIENT_SEND_BUFFER)
    && forall c | c in chans ::
         chans[c] == if c in clients then Chan(w.chans[c].buffer + [ev], false)
                     else if c in w.clients then Chan(w.chans[c].buffer, true)
                     else w.chans[c]
  }

  /** What broadcasting `ev` does, whether or not it can be serialised. */
  ghost predicate Delivered(w: Wiring, ev: Event, clients: set<ClientId>, chans: map<ClientId, Chan>, log: seq<Event>)
    requires w.clients <= w.chans.Keys
  {
    if ev.encodable then IsBroadcast(w, ev, clients, chans) && log == w.log + [ev]
    else clients == w.clients && chans == w.chans && log == w.log
  }

  /** A broadcast so far: the clients in `todo` are still to be served. */
  ghost predicate IsPartialBroadcast(w: Wiring, ev: Event, todo: set<ClientId>, clients: set<ClientId>,
                                     chans: map<ClientId, Chan>)
    requires w.clients <= w.chans.Keys
  {
    && chans.Keys == w.chans.Keys && todo <= clients <= w.clients
    && (forall c | c in w.clients && c !in todo :: c in clients <==> |w.chans[c].buffer| < CLIENT_SEND_BUFFER)
    && forall c | c in chans ::
         chans[c] == if c in todo || c !in w.clients then w.chans[c]
                     else if c in clients then Chan(w.chans[c].buffer + [ev], false)
                     else Chan(w.chans[c].buffer, true)
  }

  lemma BroadcastStarts(w: Wiring, ev: Event)
    requires w.clients <= w.chans.Keys
    ensures IsPartialBroadcast(w, ev, w.clients, w.clients, w.chans)
  {
  }

  /** The next client's channel is untouched; serving it, or dropping it when its
      buffer is full, is one step of the broadcast. */
  lemma NotYetSent(w: Wiring, ev: Event, todo: set<ClientId>, clients: set<ClientId>, chans: map<ClientId, Chan>,
                   c: ClientId)
    requires ChannelsOpen(w) && IsPartialBroadcast(w, ev, todo, clients, chans) && c in todo
    ensures c in chans && !chans[c].closed
    ensures var sent, closed := Chan(chans[c].buffer + [ev], false), Chan(chans[c].buffer, true);
            if |chans[c].buffer| < CLIENT_SEND_BUFFER then
              IsPartialBroadcast(w, ev, todo - {c}, clients, chans[c := sent])
            else
              IsPartialBroadcast(w, ev, todo - {c}, clients - {c}, chans[c := closed])
  {
  }

  lemma BroadcastEnds(w: Wiring, ev: Event, clients: set<ClientId>, chans: map<ClientId, Chan>)
    requires w.clients <= w.chans.Keys && IsPartialBroadcast(w, ev, {}, clients, chans)
    ensures IsBroadcast(w, ev, clients, chans)
  {
  }

  function Broadcasted(w: Wiring, ev: Event, clients: set<ClientId>, chans: map<ClientId, Chan>): Wiring {
    w.(clients := clients, chans := chans, log := w.log + [ev])
  }

  lemma BroadcastIsSafe(w: Wiring, ev: Event, clients: set<ClientId>, chans: map<ClientId, Chan>)
    requires Safe(w) && IsBroadcast(w, ev, clients, chans)
    ensures Safe(Broadcasted(w, ev, clients, chans))
  {
    var w' := Broadcasted(w, ev, clients, chans);
    assert ChannelsOpen(w') && RegisteredOnce(w');
    BroadcastKeepsOrder(w, ev, clients, chans);
  }

  lemma BroadcastSends(w: Wiring, ev: Event, clients: set<ClientId>, chans: map<ClientId, Chan>, c: ClientId)
    requires w.clients <= w.chans.Keys == w.received.Keys && IsBroadcast(w, ev, clients, chans) && c in chans
    ensures SentTo(Broadcasted(w, ev, clients, chans), c) == SentTo(w, c) + if c in clients then [ev] else []
  {
  }

  lemma LogExtended(log: seq<Event>, ev: Event, from: nat)
    requires from <= |log|
    ensures (log + [ev])[from..] == log[from..] + [ev]
  {
  }

  lemma BroadcastKeepsOrder(w: Wiring, ev: Event, clients: set<ClientId>, chans: map<ClientId, Chan>)
    requires Safe(w) && IsBroadcast(w, ev, clients, chans)
    ensures SentInOrder(Broadcasted(w, ev, clients, chans))
  {
    hide ChannelsOpen, SentTo;
    var w' := Broadcasted(w, ev, clients, chans);
    SafeFacts(w);
    forall c | c in chans
      ensures SentTo(w', c) == SentTo(w, c) + if c in clients then [ev] else []
      ensures c in w.since ==> w'.log[w.since[c]..] == w.log[w.since[c]..] + [ev]
    {
      BroadcastSends(w, ev, clients, chans, c);
      if c in w.since {
        LogExtended(w.log, ev, w.since[c]);
      }
    }
  }

  /** Steps that move no message keep the order of what was sent. */
  lemma SameMessages(w: Wiring, w': Wiring)
    requires RegisteredOnce(w) && RegisteredOnce(w') && SentInOrder(w)
    requires w'.log == w.log && w'.since == w.since && w'.clients <= w.clients && w.chans.Keys <= w'.chans.Keys
    requires forall c | c in w.chans :: SentTo(w', c) == SentTo(w, c)
    requires forall c | c in w'.chans && c !in w.chans :: SentTo(w', c) == []
    ensures SentInOrder(w')
  {
  }

  lemma UnregisterIsSafe(w: Wiring, c: ClientId)
    requires Safe(w) && c in w.clients
    ensures Safe(w.(clients := w.clients - {c}, chans := w.chans[c := Chan(w.chans[c].buffer, true)]))
  {
    hide SentInOrder;
    var w' := w.(clients := w.clients - {c}, chans := w.chans[c := Chan(w.chans[c].buffer, true)]);
    assert c !in w.registerQueue;
    SameMessages(w, w');
  }

  function Consumed(w: Wiring, c: ClientId): Wiring
    requires c in w.chans && w.chans[c].buffer != [] && c in w.received
  {
    var ch := w.chans[c];
    w.(chans := w.chans[c := Chan(ch.buffer[1..], ch.closed)],
       received := w.received[c := w.received[c] + [ch.buffer[0]]])
  }

  lemma ConsumedIsOpen(w: Wiring, c: ClientId)
    requires ChannelsOpen(w) && c in w.chans && w.chans[c].buffer != [] && c in w.received
    ensures ChannelsOpen(Consumed(w, c))
  {
  }

  lemma ConsumedIsRegisteredOnce(w: Wiring, c: ClientId)
    requires RegisteredOnce(w) && c in w.chans && w.chans[c].buffer != [] && c in w.received
    ensures RegisteredOnce(Consumed(w, c))
    ensures forall d | d in w.chans :: SentTo(Consumed(w, c), d) == SentTo(w, d)
  {
  }

  lemma ConsumeIsSafe(w: Wiring, c: ClientId)
    requires Safe(w) && c in w.chans && w.chans[c].buffer != [] && c in w.received
    ensures Safe(Consumed(w, c))
  {
    hide ChannelsOpen, RegisteredOnce, SentInOrder, SentTo;
    SafeFacts(w);
    ConsumedIsOpen(w, c);
    ConsumedIsRegisteredOnce(w, c);
    SameMessages(w, Consumed(w, c));
  }

  function Connected(w: Wiring, c: ClientId): Wiring {
    w.(registerQueue := w.registerQueue + [c], chans := w.chans[c := Chan([], false)], received := w.received[c := []])
  }

  lemma ConnectedIsOpen(w: Wiring, c: ClientId)
    requires ChannelsOpen(w) && c !in w.chans
    ensures ChannelsOpen(Connected(w, c))
  {
    assert forall d :: d in Connected(w, c).registerQueue <==> d in w.registerQueue || d == c;
  }

  lemma ConnectedIsRegisteredOnce(w: Wiring, c: ClientId)
    requires RegisteredOnce(w) && c !in w.chans
    ensures RegisteredOnce(Connected(w, c))
    ensures forall d | d in w.chans :: SentTo(Connected(w, c), d) == SentTo(w, d)
    ensures SentTo(Connected(w, c), c) == []
  {
    var q := Connected(w, c).registerQueue;
    assert forall d :: d in q <==> d in w.registerQueue || d == c;
    forall i, j | 0 <= i < j < |q| ensures q[i] != q[j] {
      assert q[i] in w.registerQueue;
    }
  }

  lemma ConnectIsSafe(w: Wiring, c: ClientId)
    requires Safe(w) && c !in w.chans
    ensures Safe(Connected(w, c))
  {
    hide ChannelsOpen, RegisteredOnce, SentInOrder, SentTo;
    SafeFacts(w);
    ConnectedIsOpen(w, c);
    ConnectedIsRegisteredOnce(w, c);
    SameMessages(w, Connected(w, c));
  }

  function Registered(w: Wiring): Wiring
    requires w.registerQueue != []
  {
    var c := w.registerQueue[0];
    w.(registerQueue := w.registerQueue[1..], clients := w.clients + {c}, since := w.since[c := |w.log|])
  }

  lemma RegisteredIsOpen(w: Wiring)
    requires ChannelsOpen(w) && w.registerQueue != []
    ensures ChannelsOpen(Registered(w))
  {
    assert forall d :: d in w.registerQueue[1..] ==> d in w.registerQueue;
  }

  lemma RegisteredIsRegisteredOnce(w: Wiring)
    requires RegisteredOnce(w) && w.registerQueue != []
    ensures RegisteredOnce(Registered(w))
  {
    assert forall d :: d in w.registerQueue[1..] ==> d in w.registerQueue && d != w.registerQueue[0];
  }

  /** What a client is owed starts where the log ends. */
  lemma RegisteredKeepsOrder(w: Wiring)
    requires w.registerQueue != [] && RegisteredOnce(w) && SentInOrder(w) && RegisteredOnce(Registered(w))
    ensures SentInOrder(Registered(w))
  {
    var c := w.registerQueue[0];
    assert SentTo(w, c) == [] && w.log[|w.log|..] == [];
    assert forall d | d in w.chans :: SentTo(Registered(w), d) == SentTo(w, d);
  }

  lemma RegisterIsSafe(w: Wiring)
    requires Safe(w) && w.registerQueue != []
    ensures Safe(Registered(w))
  {
    hide ChannelsOpen, RegisteredOnce, SentInOrder;
    RegisteredIsOpen(w);
    RegisteredIsRegisteredOnce(w);
    RegisteredKeepsOrder(w);
  }

  /** A flush so far: `todo` is what is left of the pending kinds. */
  ghost predicate IsFlush(flushed: seq<Event>, pending: map<string, Event>, todo: set<string>) {
    && (forall i | 0 <= i < |flushed| ::
          flushed[i].kind in pending && flushed[i].kind !in todo && flushed[i] == pending[flushed[i].kind])
    && (forall k | k in pending && k !in todo :: exists i :: 0 <= i < |flushed| && flushed[i].kind == k)
    && (forall i, j | 0 <= i < j < |flushed| :: flushed[i].kind != flushed[j].kind)
  }

  lemma FlushStart(pending: map<string, Event>)
    ensures IsFlush([], pending, pending.Keys) && Encodable([]) == []
  {
  }

  lemma LatestOfNone()
    ensures Latest([]) == map[]
  {
  }

  lemma FlushStep(flushed: seq<Event>, pending: map<string, Event>, todo: set<string>, k: string)
    requires IsFlush(flushed, pending, todo) && k in todo && k in pending && pending[k].kind == k
    ensures IsFlush(flushed + [pending[k]], pending, todo - {k})
  {
    var f := flushed + [pending[k]];
    assert forall i | 0 <= i < |flushed| :: f[i] == flushed[i];
    assert f[|flushed|].kind == k;
    forall q | q in pending && q !in todo && q != k
      ensures exists i :: 0 <= i < |f| && f[i].kind == q
    {
      var i :| 0 <= i < |flushed| && flushed[i].kind == q;
      assert f[i].kind == q;
    }
  }

  lemma EncodableStep(events: seq<Event>, ev: Event)
    ensures Encodable(events + [ev]) == Encodable(events) + if ev.encodable then [ev] else []
  {
    assert (events + [ev])[..|events|] == events;
  }

  lemma LatestStep(events: seq<Event>, ev: Event)
    ensures Latest(events + [ev]) == Latest(events)[ev.kind := ev]
  {
    assert (events + [ev])[..|events|] == events;
  }

  class Hub {
    var publishQueue: seq<Event>
    var registerQueue: seq<ClientId>
    var unregisterQueue: seq<ClientId>
    var clients: set<ClientId>
    var chans: map<ClientId, Chan>
    var pending: map<string, Event>

    ghost var log: seq<Event>
    ghost var since: map<ClientId, nat>
    ghost var received: map<ClientId, seq<Event>>
    /** The events Publish accepted, and what the loop has done with them. */
    ghost var accepted: seq<Event>
    ghost var actions: seq<Action>

    ghost function View(): Wiring
      reads this
    {
      Wiring(registerQueue, clients, chans, log, since, received)
    }

    ghost predicate Valid()
      reads this
    {
      && Safe(View())
      && |publishQueue| <= PUBLISH_BUFFER
      && accepted == TakenIn(actions) + publishQueue
      && log == LogOf(actions) && TicksAreRight(actions)
      && pending == Latest(SinceTick(actions))
    }

    constructor ()
      ensures Valid() && clients == {} && log == [] && chans == map[]
    {
      publishQueue, registerQueue, unregisterQueue := [], [], [];
      clients, chans, pending := {}, map[], map[];
      log, since, received, accepted, actions := [], map[], map[], [], [];
    }

    // ---------- Channel operations; Go panics where their preconditions fail ----------

    /** Sending on a closed channel panics. */
    method Send(c: ClientId, ev: Event)
      requires c in chans && !chans[c].closed && |chans[c].buffer| < CLIENT_SEND_BUFFER
      modifies this`chans
      ensures chans == old(chans)[c := Chan(old(chans)[c].buffer + [ev], false)]
    {
      chans := chans[c := Chan(chans[c].buffer + [ev], false)];
    }

    /** Closing a closed channel panics. */
    method Close(c: ClientId)
      requires c in chans && !chans[c].closed
      modifies this`chans
      ensures chans == old(chans)[c := Chan(old(chans)[c].buffer, true)]
    {
      chans := chans[c := Chan(chans[c].buffer, true)];
    }

    // ---------- The outside world ----------

    /** ServeWS: a new client asks to be registered; it waits while the request
        channel is full. */
    method Connects(c: ClientId)
      requires Valid() && c !in chans && |registerQueue| < REQUEST_BUFFER
      modifies this`registerQueue, this`chans, this`received
      ensures Valid() && registerQueue == old(registerQueue) + [c]
      ensures chans == old(chans)[c := Chan([], false)] && received == old(received)[c := []]
    {
      hide Safe, Latest;
      ConnectIsSafe(View(), c);
      chans := chans[c := Chan([], false)];
      received := received[c := []];
      registerQueue := registerQueue + [c];
    }

    /** readPump ends: the client asks to be unregistered, at any time. */
    method Disconnects(c: ClientId)
      requires Valid() && |unregisterQueue| < REQUEST_BUFFER
      modifies this`unregisterQueue
      ensures Valid() && unregisterQueue == old(unregisterQueue) + [c]
    {
      unregisterQueue := unregisterQueue + [c];
    }

    /** writePump takes a message; what was buffered before a close still arrives. */
    method Consumes(c: ClientId)
      requires Valid() && c in chans && chans[c].buffer != []
      modifies this`chans, this`received
      ensures Valid()
      ensures received == old(received)[c := old(received)[c] + [old(chans)[c].buffer[0]]]
      ensures chans == old(chans)[c := Chan(old(chans)[c].buffer[1..], old(chans)[c].closed)]
    {
      hide Safe, Latest;
      SafeFacts(View());
      ConsumeIsSafe(View(), c);
      var ch := chans[c];
      received := received[c := received[c] + [ch.buffer[0]]];
      chans := chans[c := Chan(ch.buffer[1..], ch.closed)];
    }

    /** Publish never blocks: it drops the event when the queue is full. */
    method Publishes(ev: Event)
      requires Valid()
      modifies this`publishQueue, this`accepted
      ensures Valid()
      ensures publishQueue == old(publishQueue) + if |old(publishQueue)| < PUBLISH_BUFFER then [ev] else []
      ensures accepted == old(accepted) + if |old(publishQueue)| < PUBLISH_BUFFER then [ev] else []
    {
      if |publishQueue| < PUBLISH_BUFFER {
        publishQueue := publishQueue + [ev];
        accepted := accepted + [ev];
      }
    }

    // ---------- The arms of the select ----------

    method OnRegister()
      requires Valid() && registerQueue != []
      modifies this`registerQueue, this`clients, this`since
      ensures Valid() && registerQueue == old(registerQueue)[1..]
      ensures var c := old(registerQueue)[0];
              clients == old(clients) + {c} && since == old(since)[c := |log|]
    {
      hide Safe, Latest;
      RegisterIsSafe(View());
      var c := registerQueue[0];
      registerQueue := registerQueue[1..];
      clients := clients + {c};
      since := since[c := |log|];
    }

    method OnUnregister()
      requires Valid() && unregisterQueue != []
      modifies this`unregisterQueue, this`clients, this`chans
      ensures Valid() && unregisterQueue == old(unregisterQueue)[1..]
      ensures var c := old(unregisterQueue)[0];
              && clients == old(clients) - {c}
              && chans == if c in old(clients) then old(chans)[c := Chan(old(chans)[c].buffer, true)] else old(chans)
    {
      hide Safe, Latest;
      SafeFacts(View());
      var c := unregisterQueue[0];
      unregisterQueue := unregisterQueue[1..];
      if c in clients {
        UnregisterIsSafe(View(), c);
        clients := clients - {c};
        Close(c);
      }
    }

    method OnPublish()
      requires Valid() && publishQueue != []
      modifies this`publishQueue, this`actions, this`pending, this`clients, this`chans, this`log
      ensures Valid() && publishQueue == old(publishQueue)[1..] && chans.Keys == old(chans.Keys)
      ensures var ev := old(publishQueue)[0];
              && actions == old(actions) + [Took(ev)] && log == old(log) + Sent(ev)
              && if ev.kind in {"price_update", "spread_stats", "latency_stats", "uptime_stats"} then
                   pending == old(pending)[ev.kind := ev] && chans == old(chans) && clients == old(clients)
                 else
                   pending == old(pending) && Delivered(old(View()), ev, clients, chans, log)
    {
      hide Safe, Latest, Delivered, TakenIn, LogOf, SinceTick, TicksAreRight;
      SafeFacts(View());
      var ev := publishQueue[0];
      publishQueue := publishQueue[1..];
      TookStep(actions, ev);
      assert log + [] == log;
      LatestStep(SinceTick(actions), ev);
      actions := actions + [Took(ev)];
      if Throttled(ev.kind) {
        pending := pending[ev.kind := ev];
      } else {
        Broadcast(ev);
      }
    }

    /** Every throttled kind published since the previous tick is broadcast once,
        with its latest value; the kinds come in no particular order. */
    method OnTick() returns (ghost flushed: seq<Event>)
      requires Valid()
      modifies this`actions, this`pending, this`clients, this`chans, this`log
      ensures Valid() && pending == map[] && chans.Keys == old(chans.Keys)
      ensures actions == old(actions) + [Ticked(flushed)]
      ensures log == old(log) + Encodable(flushed)
      ensures IsFlush(flushed, Latest(SinceTick(old(actions))), {})
    {
      hide Safe, IsFlush, Encodable, Latest, TakenIn, LogOf, SinceTick, TicksAreRight;
      flushed := [];
      var todo := pending.Keys;
      LatestKinds(SinceTick(actions));
      FlushStart(pending);
      while todo != {}
        invariant Safe(View()) && todo <= pending.Keys && pending == old(pending)
        invariant chans.Keys == old(chans.Keys) && actions == old(actions)
        invariant log == old(log) + Encodable(flushed) && IsFlush(flushed, pending, todo)
        decreases |todo|
      {
        var k :| k in todo;
        FlushStep(flushed, pending, todo, k);
        EncodableStep(flushed, pending[k]);
        todo := todo - {k};
        Broadcast(pending[k]);
        flushed := flushed + [pending[k]];
      }
      TickedStep(actions, flushed);
      LatestOfNone();
      pending := map[];
      actions := actions + [Ticked(flushed)];
    }

    /** Send to every client; a client whose buffer is full is dropped. An event
        that cannot be serialised is not sent at all. */
    method Broadcast(ev: Event)
      requires Safe(View())
      modifies this`clients, this`chans, this`log
      ensures Safe(View()) && chans.Keys == old(chans.Keys)
      ensures ChannelsOpen(old(View())) && Delivered(old(View()), ev, clients, chans, log)
      ensures log == old(log) + if ev.encodable then [ev] else []
    {
      hide Safe;
      SafeFacts(View());
      if !ev.encodable {
        return;
      }
      ghost var w := View();
      SendToAll(ev);
      BroadcastIsSafe(w, ev, clients, chans);
      log := log + [ev];
    }

    method SendToAll(ev: Event)
      requires ChannelsOpen(View())
      modifies this`clients, this`chans
      ensures IsBroadcast(old(View()), ev, clients, chans)
    {
      hide IsPartialBroadcast, IsBroadcast;
      ghost var w := View();
      var todo := clients;
      BroadcastStarts(w, ev);
      while todo != {}
        invariant todo <= w.clients && IsPartialBroadcast(w, ev, todo, clients, chans)
        decreases |todo|
      {
        var c :| c in todo;
        NotYetSent(w, ev, todo, clients, chans, c);
        todo := todo - {c};
        if |chans[c].buffer| < CLIENT_SEND_BUFFER {
          Send(c, ev);
        } else {
          clients := clients - {c};
          Close(c);
        }
      }
      BroadcastEnds(w, ev, clients, chans);
    }

    // ---------- Any interleaving ----------

    predicate Enabled(s: Step)
      reads this
    {
      match s
      case Connect(c) => c !in chans && |registerQueue| < REQUEST_BUFFER
      case Disconnect(c) => |unregisterQueue| < REQUEST_BUFFER
      case Consume(c) => c in chans && chans[c].buffer != []
      case Publish(ev) => true
      case TakeRegister => registerQueue != []
      case TakeUnregister => unregisterQueue != []
      case TakePublish => publishQueue != []
      case TakeTick => true
    }

    lemma WiringFacts()
      requires Valid()
      ensures ChannelsOpen(View()) && RegisteredOnce(View()) && chans.Keys == received.Keys
    {
    }

    /** The arm taken is the one scheduled, and history only grows. */
    method Perform(s: Step)
      requires Valid() && Enabled(s)
      modifies this
      ensures Valid() && Grows(old(View()), View()) && old(actions) <= actions
      ensures match s
              case Connect(c) => registerQueue == old(registerQueue) + [c] && c in chans
              case Disconnect(c) => unregisterQueue == old(unregisterQueue) + [c]
              case Consume(c) => received == old(received)[c := old(received)[c] + [old(chans)[c].buffer[0]]]
              case Publish(ev) => accepted == old(accepted) + if |old(publishQueue)| < PUBLISH_BUFFER then [ev] else []
              case TakeRegister => clients == old(clients) + {old(registerQueue)[0]}
              case TakeUnregister => clients == old(clients) - {old(unregisterQueue)[0]}
              case TakePublish =>
                && actions == old(actions) + [Took(old(publishQueue)[0])]
                && log == old(log) + Sent(old(publishQueue)[0])
              case TakeTick => pending == map[] && exists flushed :: TickOf(old(actions), old(log), flushed)
      ensures s.TakePublish? || s.TakeTick? || (actions == old(actions) && log == old(log))
      ensures s.Publish? || accepted == old(accepted)
    {
      hide Valid, ChannelsOpen, RegisteredOnce, Latest, Delivered, IsFlush, Encodable, Grows, SinceTick;
      WiringFacts();
      ghost var w := View();
      match s {
        case Connect(c) =>
          Connects(c);
          ReceivingGrows(w, View(), c, []);
        case Disconnect(c) =>
          Disconnects(c);
          LoggingGrows(w, View());
        case Consume(c) =>
          Consumes(c);
          ReceivingGrows(w, View(), c, received[c]);
        case Publish(ev) =>
          Publishes(ev);
          LoggingGrows(w, View());
        case TakeRegister =>
          OnRegister();
          RegisteringGrows(w, View(), w.registerQueue[0]);
        case TakeUnregister =>
          OnUnregister();
          LoggingGrows(w, View());
        case TakePublish =>
          OnPublish();
          LoggingGrows(w, View());
        case TakeTick =>
          ghost var flushed := OnTick();
          assert TickOf(old(actions), old(log), flushed);
          LoggingGrows(w, View());
      }
    }

    /** The hub has just ticked: it flushed `flushed`, rightly, and broadcast it. */
    ghost predicate TickOf(before: seq<Action>, logged: seq<Event>, flushed: seq<Event>)
      reads this
    {
      && actions == before + [Ticked(flushed)] && log == logged + Encodable(flushed)
      && IsFlush(flushed, Latest(SinceTick(before)), {})
    }

    /** No schedule makes the hub send on or close a closed channel, and every
        state it reaches is valid and extends the one before: what was broadcast,
        accepted and received is never taken back or reordered. */
    method Run(schedule: seq<Step>)
      requires Valid()
      modifies this
      ensures Valid() && Grows(old(View()), View())
      ensures old(actions) <= actions && old(accepted) <= accepted
    {
      hide Valid, Grows, Safe;
      GrowsReflexive(View());
      for i := 0 to |schedule|
        invariant Valid() && Grows(old(View()), View())
        invariant old(actions) <= actions && old(accepted) <= accepted
      {
        if Enabled(schedule[i]) {
          ghost var w := View();
          Perform(schedule[i]);
          GrowsTransitive(old(View()), w, View());
        }
      }
    }

    /** What any reachable state says about throttled delivery. Take any tick of its
        history and the actions since the tick before: what the tick added to the
        log is, for each throttled kind taken in between and for no other, the last
        event of that kind, once, as far as it can be serialised. */
    lemma ThrottledDelivery(from: nat, i: nat)
      requires Valid() && from <= i < |actions| && actions[i].Ticked?
      requires from == 0 || actions[from - 1].Ticked?
      requires forall j | from <= j < i :: actions[j].Took?
      ensures log == LogOf(actions[..i]) + Encodable(actions[i].flushed) + LogOf(actions[i + 1..])
      ensures var flushed, window := actions[i].flushed, ThrottledOf(TakenIn(actions[from..i]));
              && (forall k, l | 0 <= k < l < |flushed| :: flushed[k].kind != flushed[l].kind)
              && (forall k | 0 <= k < |flushed| :: IsLastOfKind(flushed[k], window))
              && (forall k | 0 <= k < |window| :: exists l :: 0 <= l < |flushed| && flushed[l].kind == window[k].kind)
    {
      hide Safe, LogOf, TakenIn, ThrottledOf, Encodable, IsLastOfKind;
      var before, flushed := actions[..i], actions[i].flushed;
      assert actions == before + [actions[i]] + actions[i + 1..];
      LogOfConcat(before + [actions[i]], actions[i + 1..]);
      LogOfConcat(before, [actions[i]]);
      LogOfTick(flushed);
      SinceTickIsThrottledPart(before, from);
      assert before[from..] == actions[from..i];
      var window := ThrottledOf(TakenIn(actions[from..i]));
      forall k | 0 <= k < |flushed| ensures IsLastOfKind(flushed[k], window) {
        LatestIsLast(window, flushed[k].kind);
      }
      forall k | 0 <= k < |window| ensures exists l :: 0 <= l < |flushed| && flushed[l].kind == window[k].kind {
        LatestIsLast(window, window[k].kind);
      }
    }
  }

  ghost predicate IsLastOfKind(ev: Event, events: seq<Event>) {
    exists i :: 0 <= i < |events| && events[i] == ev && forall j | i < j < |events| :: events[j].kind != ev.kind
  }

  lemma LogOfTick(flushed: seq<Event>)
    ensures LogOf([Ticked(flushed)]) == Encodable(flushed)
  {
    assert [Ticked(flushed)][..0] == [];
  }

  lemma {:induction false} LatestKinds(events: seq<Event>)
    ensures forall k :: k in Latest(events) ==> Latest(events)[k].kind == k
  {
    if events == [] {
    } else {
      LatestKinds(events[..|events| - 1]);
    }
  }

  /** `Latest` is what it says: for each kind, the last event of that kind. */
  lemma {:induction false} LatestIsLast(events: seq<Event>, k: string)
    ensures k in Latest(events) <==> exists i :: 0 <= i < |events| && events[i].kind == k
    ensures k in Latest(events) ==> Latest(events)[k].kind == k && IsLastOfKind(Latest(events)[k], events)
  {
    if events == [] {
    } else {
      var n := |events| - 1;
      LatestIsLast(events[..n], k);
      if events[n].kind == k {
        assert Latest(events)[k] == events[n];
      } else if k in Latest(events) {
        LastOfLonger(Latest(events)[k], events);
      }
    }
  }

  lemma LastOfLonger(ev: Event, events: seq<Event>)
    requires events != [] && IsLastOfKind(ev, events[..|events| - 1]) && events[|events| - 1].kind != ev.kind
    ensures IsLastOfKind(ev, events)
  {
    var n := |events| - 1;
    var i :| 0 <= i < n && events[..n][i] == ev && forall j | i < j < n :: events[..n][j].kind != ev.kind;
    assert events[i] == ev;
    forall j | i < j < |events| ensures events[j].kind != ev.kind {
      assert j < n ==> events[..n][j] == events[j];
    }
  }
}
