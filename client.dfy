/**
 * The client of `Client.cs`: the tag context, the shared tick timer with
 * its registrations, the assembly and sending of event batches, and queries.
 *
 * The sockets are not modelled: how a datagram send ends is an argument of
 * each send, what the datagrams carried is kept as a log, the stream
 * connection is the sequence of bytes written to it, and the collector's
 * reply is an argument. The serializer is the opaque function `serialize`.
 */
module RiemannClient {
  import opened Wrappers
  import opened Primitives
  import opened Events
  import opened TagContext
  import opened Wire
  import opened TickSchedule

  /** The handle `Tag` returns; disposing it puts its owner's context back to the node's parent. */
  class RiemannTags {
    const owner: Client
    const node: TagNode

    constructor (owner: Client, node: TagNode)
      ensures this.owner == owner && this.node == node
    {
      this.owner := owner;
      this.node := node;
    }

    method Dispose()
      modifies owner`tag
      ensures owner.tag == node.underlying
    {
      owner.tag := node.underlying;
    }
  }

  /** One registration of the tick timer; the handle `Tick` returns. */
  class TickDisposable {
    const tickTime: int32
    const service: string
    var nextTick: int32
    var removeRequested: bool
    const onTick: () -> TickEvent

    /** The countdown has no initialiser, so a new registration starts at 0. */
    constructor (tickTime: int32, service: string, onTick: () -> TickEvent)
      ensures this.tickTime == tickTime && this.service == service && this.onTick == onTick
      ensures nextTick == 0 && !removeRequested
    {
      this.tickTime := tickTime;
      this.service := service;
      this.onTick := onTick;
      nextTick := 0;
      removeRequested := false;
    }

    /** Disposing only asks for removal; the next pulse removes the registration. */
    method Dispose()
      modifies this`removeRequested
      ensures removeRequested
    {
      removeRequested := true;
    }

    function Snapshot(): Reg
      reads this
    {
      Reg(tickTime, service, nextTick, removeRequested)
    }
  }

  /** The states of a list of registrations. */
  function Snapshots(ts: seq<TickDisposable>): (r: seq<Reg>)
    reads ts
    ensures |r| == |ts|
    ensures forall i :: 0 <= i < |ts| ==> r[i] == ts[i].Snapshot()
    decreases |ts|
  {
    if ts == [] then [] else Snapshots(ts[..|ts| - 1]) + [ts[|ts| - 1].Snapshot()]
  }

  /** Each element of a list without repeats, mapped to its position. */
  ghost function Positions<T>(ts: seq<T>): (m: map<T, int>)
    requires Distinct(ts)
    ensures forall j :: 0 <= j < |ts| ==> ts[j] in m && m[ts[j]] == j
  {
    map j | 0 <= j < |ts| :: ts[j] := j
  }

  /** What each registration's callback returns when it is called. */
  function Callbacks(ts: seq<TickDisposable>): (r: seq<TickEvent>)
    ensures |r| == |ts|
    ensures forall i :: 0 <= i < |ts| ==> r[i] == ts[i].onTick()
    decreases |ts|
  {
    if ts == [] then [] else Callbacks(ts[..|ts| - 1]) + [ts[|ts| - 1].onTick()]
  }

  /** The `Select` of `SendEvents`: an input event as a wire event from host `name`, with no tags yet. */
  function ToWire(name: string, e: Event): WireEvent {
    WireEvent(name, e.service, e.state, e.description, e.metric, Some(e.ttl), [])
  }

  /** The wire events of one batch: each input in turn, with the tag snapshot added to its tags. */
  function BatchEvents(name: string, events: seq<Event>, tags: seq<string>): (r: seq<WireEvent>)
    ensures |r| == |events|
    decreases |events|
  {
    if events == [] then []
    else
      var n := |events| - 1;
      var w := ToWire(name, events[n]);
      BatchEvents(name, events[..n], tags) + [w.(tags := w.tags + tags)]
  }

  /**
   * The message `SendEvents` hands to the serializer: no query, and one wire
   * event per input, in order, from host `name`, with the input's fields and
   * the tag snapshot.
   */
  function BatchMessage(name: string, events: seq<Event>, tags: seq<string>): (m: Msg)
    ensures m.query.None? && |m.events| == |events|
    ensures forall i :: 0 <= i < |events| ==>
      m.events[i] == WireEvent(name, events[i].service, events[i].state, events[i].description,
                               events[i].metric, Some(events[i].ttl), tags)
  {
    BatchEventsCopyFields(name, events, tags);
    Msg(BatchEvents(name, events, tags), None)
  }

  /**
   * One wire event per input, in input order: host `name`, service, state,
   * description, metric and ttl copied from the input, and the tags exactly
   * the snapshot, the same for every event of the batch.
   */
  lemma {:induction false} BatchEventsCopyFields(name: string, events: seq<Event>, tags: seq<string>)
    ensures forall i :: 0 <= i < |events| ==>
      var w := BatchEvents(name, events, tags)[i];
      && w.host == name
      && w.service == events[i].service
      && w.state == events[i].state
      && w.description == events[i].description
      && w.metric == events[i].metric
      && w.ttl == Some(events[i].ttl)
      && w.tags == tags
    decreases |events|
  {
    if events != [] {
      var n := |events| - 1;
      BatchEventsCopyFields(name, events[..n], tags);
      assert forall i :: 0 <= i < n ==> events[..n][i] == events[i];
    }
  }

  /** Splitting a batch splits its wire events: the conversion is event by event. */
  lemma {:induction false} BatchEventsConcat(name: string, a: seq<Event>, b: seq<Event>, tags: seq<string>)
    ensures BatchEvents(name, a + b, tags) == BatchEvents(name, a, tags) + BatchEvents(name, b, tags)
    decreases |b|
  {
    if b != [] {
      var n := |b| - 1;
      assert (a + b)[..|a| + n] == a + b[..n];
      BatchEventsConcat(name, a, b[..n], tags);
    } else {
      assert a + b == a;
    }
  }

  /**
   * How a send by this client ends: a socket error other than 10040
   * surfaces; after the stream fallback a reply with `ok = false` raises its
   * error; otherwise the send succeeds.
   */
  function SendResult(t: Transmission, reply: Reply): Outcome<ClientError> {
    if t.failure.Some? then Fail(t.failure.value)
    else if t.readsReply && !reply.ok then Fail(RemoteError(reply.error))
    else Pass
  }

  /** A send succeeds exactly when the datagram went out, or it fell back to the stream and the collector said `ok`. */
  lemma SendSucceeds(payload: Bytes, outcome: SendOutcome, reply: Reply)
    ensures SendResult(Transmit(payload, outcome), reply) == Pass <==>
            outcome.Delivered? || (outcome == SocketError(MessageTooLong) && reply.ok)
    ensures outcome == SocketError(MessageTooLong) && !reply.ok ==>
            SendResult(Transmit(payload, outcome), reply) == Fail(RemoteError(reply.error))
  {
  }

  class Client {
    /** The local host's name (`GetFqdn`), set once. */
    const name: string
    const serialize: Msg -> Bytes
    /** The current tag node; `None` when no tag is active. */
    var tag: Option<TagNode>
    /** The registrations; `None` when there is no list. */
    var ticks: Option<seq<TickDisposable>>
    /** Whether the shared one-second timer exists. */
    var timerActive: bool
    /** The payloads sent as datagrams. */
    var datagrams: seq<Bytes>
    /** The bytes written to the stream connection. */
    var stream: seq<byte>

    /** The timer exists exactly when the list does; a list that exists is non-empty and holds each registration once. */
    ghost predicate Valid()
      reads this
    {
      && (ticks.Some? <==> timerActive)
      && (ticks.Some? ==> |ticks.value| > 0 && Distinct(ticks.value))
    }

    function Registrations(): seq<TickDisposable>
      reads this
    {
      if ticks.Some? then ticks.value else []
    }

    /** The tags the client enumerates now, outer to inner. */
    function CurrentTags(): seq<string>
      reads this
    {
      Current(tag)
    }

    constructor (name: string, serialize: Msg -> Bytes)
      ensures Valid()
      ensures this.name == name && this.serialize == serialize
      ensures tag.None? && ticks.None? && !timerActive && datagrams == [] && stream == []
    {
      this.name := name;
      this.serialize := serialize;
      tag := None;
      ticks := None;
      timerActive := false;
      datagrams := [];
      stream := [];
    }

    /** Push a tag: the new node's parent is the node that was current. */
    method Tag(t: string) returns (scope: RiemannTags)
      modifies this`tag
      ensures fresh(scope) && scope.owner == this
      ensures tag == Some(scope.node) && scope.node.underlying == old(tag)
      ensures CurrentTags() == old(CurrentTags()) + [t]
    {
      tag := Some(Push(tag, t));
      scope := new RiemannTags(this, tag.value);
    }

    /**
     * Register a recurring check; the first registration after the list was
     * dropped creates the list and starts the timer.
     */
    method Tick(tickTime: int32, service: string, onTick: () -> TickEvent) returns (d: TickDisposable)
      requires Valid()
      modifies this`ticks, this`timerActive
      ensures Valid()
      ensures fresh(d) && d.tickTime == tickTime && d.service == service && d.onTick == onTick
      ensures d.nextTick == 0 && !d.removeRequested
      ensures ticks == Some(old(Registrations()) + [d]) && timerActive
    {
      d := new TickDisposable(tickTime, service, onTick);
      var current := if ticks.None? then [] else ticks.value;
      if ticks.None? {
        timerActive := true;
      }
      ticks := Some(current + [d]);
      assert d !in current;
    }

    /** The loop of `SendEvents` that adds the tag snapshot to each wire event and puts it in the message. */
    method AssembleMessage(events: seq<Event>, tags: seq<string>) returns (msg: Msg)
      ensures msg == BatchMessage(name, events, tags)
      ensures msg.query.None? && |msg.events| == |events|
      ensures forall i :: 0 <= i < |events| ==>
        msg.events[i].host == name && msg.events[i].service == events[i].service && msg.events[i].tags == tags
    {
      msg := Msg([], None);
      var i := 0;
      while i < |events|
        invariant 0 <= i <= |events|
        invariant msg == Msg(BatchEvents(name, events[..i], tags), None)
      {
        var w := ToWire(name, events[i]);
        w := w.(tags := w.tags + tags);
        assert events[..i + 1][..i] == events[..i];
        msg := msg.(events := msg.events + [w]);
        i := i + 1;
      }
      assert events[..i] == events;
      BatchEventsCopyFields(name, events, tags);
    }

    /**
     * Send a batch: snapshot the tags, build one message, send it as a
     * datagram, and fall back to a framed write on the stream only when the
     * datagram is too long, then check the collector's reply.
     */
    method SendEvents(events: seq<Event>, outcome: SendOutcome, reply: Reply) returns (r: Outcome<ClientError>)
      modifies this`datagrams, this`stream
      ensures var t := Transmit(serialize(BatchMessage(name, events, CurrentTags())), outcome);
              && datagrams == old(datagrams) + t.datagrams
              && stream == old(stream) + t.streamBytes
              && r == SendResult(t, reply)
    {
      var tags: seq<string> := [];
      if tag.Some? {
        tags := Tags(tag.value);
      }
      var message := AssembleMessage(events, tags);
      r := SendPayload(serialize(message), outcome, reply);
    }

    /**
     * The transport half of `SendEvents`: the payload goes out as one
     * datagram; only a "message too long" socket error (10040) makes it fall
     * back to a framed write on the stream, whose reply is then checked.
     */
    method SendPayload(payload: Bytes, outcome: SendOutcome, reply: Reply) returns (r: Outcome<ClientError>)
      modifies this`datagrams, this`stream
      ensures var t := Transmit(payload, outcome);
              && datagrams == old(datagrams) + t.datagrams
              && stream == old(stream) + t.streamBytes
              && r == SendResult(t, reply)
    {
      match outcome
      case Delivered =>
        datagrams := datagrams + [payload];
        r := Pass;
      case SocketError(code) =>
        if code == MessageTooLong {
          var prefix := Reverse(LittleEndianBytes(|payload| as int32));
          stream := stream + prefix;
          stream := stream + payload;
          assert stream == old(stream) + (prefix + payload);
          if !reply.ok {
            r := Fail(RemoteError(reply.error));
          } else {
            r := Pass;
          }
        } else {
          r := Fail(SocketFailure(code));
        }
    }

    /** Build one event, refusing a state longer than 255 UTF-16 code units before anything is sent, and send it alone. */
    method SendEvent(service: string, state: string, description: string, metric: Float32, ttl: int32 := 0,
                     outcome: SendOutcome, reply: Reply) returns (r: Outcome<ClientError>)
      modifies this`datagrams, this`stream
      ensures Utf16Length(state) > 255 ==> r == Fail(StateTooLong) && datagrams == old(datagrams) && stream == old(stream)
      ensures Utf16Length(state) <= 255 ==>
              var t := Transmit(serialize(BatchMessage(name, [Event(service, state, description, metric, ttl)],
                                                       CurrentTags())), outcome);
              && datagrams == old(datagrams) + t.datagrams
              && stream == old(stream) + t.streamBytes
              && r == SendResult(t, reply)
    {
      var ev := NewEvent(service, state, description, metric, ttl);
      if ev.Failure? {
        return Fail(ev.error);
      }
      r := SendEvents([ev.value], outcome, reply);
    }

    /**
     * One pulse of the timer. Every registration is decremented; a due one
     * fires its callback, contributes an event and restarts. Flagged
     * registrations are removed after the sweep (the list and the timer go
     * when all were flagged), and the pulse's events go out in one batch if
     * there are any. A callback state too long for an event aborts the pulse
     * where it stands: nothing is removed and nothing is sent.
     */
    method ProcessTicks(outcome: SendOutcome, reply: Reply) returns (r: Outcome<ClientError>)
      requires Valid() && timerActive
      modifies this`ticks, this`timerActive, this`datagrams, this`stream, ticks.value
      ensures Valid()
      ensures var ts := old(ticks.value);
              var sw := Sweep(old(Snapshots(ts)), Callbacks(ts));
              && (forall j :: 0 <= j < |ts| ==> ts[j].Snapshot() == sw.regs[j])
              && (sw.error.Some? ==>
                    && r == Fail(sw.error.value) && ticks == old(ticks) && timerActive
                    && datagrams == old(datagrams) && stream == old(stream))
              && (sw.error.None? ==>
                    && ticks == Prune(ts, old(Snapshots(ts)))
                    && (sw.events == [] ==> r == Pass && datagrams == old(datagrams) && stream == old(stream))
                    && (sw.events != [] ==>
                          var t := Transmit(serialize(BatchMessage(name, sw.events, CurrentTags())), outcome);
                          && datagrams == old(datagrams) + t.datagrams
                          && stream == old(stream) + t.streamBytes
                          && r == SendResult(t, reply)))
    {
      var ts := ticks.value;
      ghost var regs0 := Snapshots(ts);
      ghost var position := Positions(ts);
      var events, removals, failure := SweepRegistrations(ts, position, regs0, Callbacks(ts));
      if failure.Some? {
        return Fail(failure.value);
      }
      r := FinishPulse(ts, regs0, events, removals, outcome, reply);
    }

    /** The end of a pulse that did not abort: remove the flagged registrations, then send the events, if any, in one batch. */
    method FinishPulse(ts: seq<TickDisposable>, ghost regs0: seq<Reg>, events: seq<Event>, removals: seq<TickDisposable>,
                       outcome: SendOutcome, reply: Reply) returns (r: Outcome<ClientError>)
      requires ticks == Some(ts) && timerActive && |ts| > 0 && Distinct(ts)
      requires |regs0| == |ts| && removals == Flagged(ts, regs0)
      modifies this`ticks, this`timerActive, this`datagrams, this`stream
      ensures ticks == Prune(ts, regs0) && Valid()
      ensures events == [] ==> r == Pass && datagrams == old(datagrams) && stream == old(stream)
      ensures events != [] ==>
                var t := Transmit(serialize(BatchMessage(name, events, CurrentTags())), outcome);
                && datagrams == old(datagrams) + t.datagrams
                && stream == old(stream) + t.streamBytes
                && r == SendResult(t, reply)
    {
      RemoveFlagged(ts, regs0, removals);
      if |events| > 0 {
        r := SendEvents(events, outcome, reply);
      } else {
        r := Pass;
      }
    }

    /**
     * The removal step of a pulse: nothing happens without removals; when
     * every registration was flagged the list is dropped and the timer
     * disposed; otherwise each flagged registration is removed from the list.
     */
    method RemoveFlagged(ts: seq<TickDisposable>, ghost regs0: seq<Reg>, removals: seq<TickDisposable>)
      requires ticks == Some(ts) && timerActive && |ts| > 0 && Distinct(ts)
      requires |regs0| == |ts| && removals == Flagged(ts, regs0)
      modifies this`ticks, this`timerActive
      ensures ticks == Prune(ts, regs0) && Valid()
    {
      if |removals| > 0 {
        FlaggedIffRequested(ts, regs0);
        if |removals| == |ts| {
          ticks := None;
          timerActive := false;
        } else {
          var remaining := RemoveEach(ts, removals);
          KeepDistinct(ts, removals);
          ghost var j :| 0 <= j < |ts| && !regs0[j].removeRequested;
          assert ts[j] in remaining;
          ticks := Some(remaining);
        }
      }
    }

    /**
     * A query, with the message written as a frame like every other message
     * on the stream: `Success` with the reply's states when the collector
     * says `ok`, otherwise its error.
     */
    method Query(query: string, reply: Reply) returns (r: Result<seq<State>, ClientError>)
      modifies this`stream
      ensures stream == old(stream) + Frame(serialize(Msg([], Some(query))))
      ensures r.Success? <==> reply.ok
      ensures r.Success? ==> r.value == reply.states
      ensures r.Failure? ==> r.error == RemoteError(reply.error)
    {
      var payload := serialize(Msg([], Some(query)));
      stream := stream + Frame(payload);
      if reply.ok {
        return Success(reply.states);
      }
      r := Failure(RemoteError(reply.error));
    }

    /** `Query` as the source writes it: the serialized message goes on the stream with no length prefix. */
    method QueryAsWritten(query: string, reply: Reply) returns (r: Result<seq<State>, ClientError>)
      modifies this`stream
      ensures stream == old(stream) + serialize(Msg([], Some(query)))
      ensures r.Success? <==> reply.ok
      ensures r.Success? ==> r.value == reply.states
      ensures r.Failure? ==> r.error == RemoteError(reply.error)
    {
      var payload := serialize(Msg([], Some(query)));
      stream := stream + payload;
      if reply.ok {
        return Success(reply.states);
      }
      r := Failure(RemoteError(reply.error));
    }
  }

  /**
   * Out-of-order disposal on a client: with `outer` and then `inner` tagged,
   * disposing the outer handle leaves the tags that were active before
   * either; disposing the inner handle afterwards brings `outer` back;
   * disposing the outer handle a second time drops it again.
   */
  method DisposeOutOfOrder(c: Client, outer: string, inner: string)
    returns (whileOpen: seq<string>, afterOuter: seq<string>, afterInner: seq<string>, afterOuterAgain: seq<string>)
    modifies c`tag
    ensures whileOpen == old(c.CurrentTags()) + [outer, inner]
    ensures afterOuter == old(c.CurrentTags())
    ensures afterInner == old(c.CurrentTags()) + [outer]
    ensures afterOuterAgain == old(c.CurrentTags())
    ensures c.tag == old(c.tag)
  {
    var o := c.Tag(outer);
    var i := c.Tag(inner);
    whileOpen := c.CurrentTags();
    o.Dispose();
    afterOuter := c.CurrentTags();
    i.Dispose();
    afterInner := c.CurrentTags();
    o.Dispose();
    afterOuterAgain := c.CurrentTags();
  }

  /**
   * The sweep loop of `ProcessTicks` over the registrations, in list order:
   * its effect on each registration, the events collected, the registrations
   * seen flagged, and the error that aborts it, as `Sweep` and `Flagged` say.
   */
  method SweepRegistrations(ts: seq<TickDisposable>, ghost position: map<TickDisposable, int>,
                            ghost regs0: seq<Reg>, ghost outs: seq<TickEvent>)
    returns (events: seq<Event>, removals: seq<TickDisposable>, failure: Option<ClientError>)
    requires forall j :: 0 <= j < |ts| ==> ts[j] in position && position[ts[j]] == j
    requires |regs0| == |ts| && |outs| == |ts|
    requires forall j :: 0 <= j < |ts| ==> outs[j] == ts[j].onTick()
    requires forall j :: 0 <= j < |ts| ==> ts[j].Snapshot() == regs0[j]
    modifies ts
    ensures forall j :: 0 <= j < |ts| ==> ts[j].Snapshot() == Sweep(regs0, outs).regs[j]
    ensures failure == Sweep(regs0, outs).error
    ensures failure.None? ==> events == Sweep(regs0, outs).events && removals == Flagged(ts, regs0)
  {
    events, removals, failure := [], [], None;
    var i := 0;
    ghost var swept: seq<Reg> := [];
    while i < |ts| && failure.None?
      invariant 0 <= i <= |ts| && |swept| == i
      invariant SweepUpTo(regs0, outs, i) == SweepState(swept, events, failure)
      invariant forall j :: 0 <= j < i ==> ts[j].Snapshot() == swept[j]
      invariant forall j :: i <= j < |ts| ==> ts[j].Snapshot() == regs0[j]
      invariant removals == FlaggedUpTo(ts, regs0, i)
    {
      var tick := ts[i];
      assert forall j :: 0 <= j < |ts| && j != i ==> ts[j] != tick;
      events, removals, failure, swept := SweepAt(tick, ts, regs0, outs, i, events, removals, swept);
      i := i + 1;
    }
    SweptSnapshots(ts, regs0, outs, i, swept);
  }

  /** Where the sweep loop stops, the registrations hold the states `Sweep` gives them. */
  lemma SweptSnapshots(ts: seq<TickDisposable>, regs0: seq<Reg>, outs: seq<TickEvent>, i: nat, swept: seq<Reg>)
    requires |regs0| == |ts| && |outs| == |ts| && i <= |ts|
    requires swept == SweepUpTo(regs0, outs, i).regs
    requires i == |ts| || SweepUpTo(regs0, outs, i).error.Some?
    requires forall j :: 0 <= j < i ==> ts[j].Snapshot() == swept[j]
    requires forall j :: i <= j < |ts| ==> ts[j].Snapshot() == regs0[j]
    ensures forall j :: 0 <= j < |ts| ==> ts[j].Snapshot() == Sweep(regs0, outs).regs[j]
    ensures Sweep(regs0, outs).error == SweepUpTo(regs0, outs, i).error
    ensures Sweep(regs0, outs).error.None? ==> Sweep(regs0, outs).events == SweepUpTo(regs0, outs, i).events
  {
    if i < |ts| {
      SweepStopsAtError(regs0, outs, i, |ts|);
    }
  }

  /** The body of the sweep loop at registration `i`, on a sweep that has not failed so far. */
  method SweepAt(tick: TickDisposable, ghost ts: seq<TickDisposable>, ghost regs0: seq<Reg>,
                 ghost outs: seq<TickEvent>, i: nat, events: seq<Event>, removals: seq<TickDisposable>,
                 ghost swept: seq<Reg>)
    returns (events': seq<Event>, removals': seq<TickDisposable>, failure: Option<ClientError>,
             ghost swept': seq<Reg>)
    requires |outs| == |regs0| && |ts| == |regs0| && i < |regs0| && ts[i] == tick
    requires tick.Snapshot() == regs0[i] && outs[i] == tick.onTick()
    requires SweepUpTo(regs0, outs, i) == SweepState(swept, events, None)
    requires removals == FlaggedUpTo(ts, regs0, i)
    modifies tick`nextTick
    ensures SweepUpTo(regs0, outs, i + 1) == SweepState(swept', events', failure)
    ensures removals' == FlaggedUpTo(ts, regs0, i + 1)
    ensures swept' == swept + [tick.Snapshot()]
  {
    var fired;
    fired, failure := SweepOne(tick);
    SweepAdvance(regs0, outs, i, Step(tick.Snapshot(), fired, failure));
    swept' := swept + [tick.Snapshot()];
    removals' := removals + (if tick.removeRequested then [tick] else []);
    events' := events + (if fired.Some? then [fired.value] else []);
  }

  /**
   * One registration in the sweep: decrement; if due, call the callback,
   * build the event (which can throw) and restart the countdown.
   */
  method SweepOne(tick: TickDisposable) returns (fired: Option<Event>, failure: Option<ClientError>)
    modifies tick`nextTick
    ensures Step(tick.Snapshot(), fired, failure) == StepReg(old(tick.Snapshot()), tick.onTick())
  {
    fired, failure := None, None;
    tick.nextTick := Dec32(tick.nextTick);
    if tick.nextTick <= 0 {
      var t := tick.onTick();
      var ev := NewEvent(tick.service, t.state, t.description, t.metricValue, tick.tickTime);
      if ev.Failure? {
        return None, Some(ev.error);
      }
      fired := Some(ev.value);
      tick.nextTick := tick.tickTime;
    }
  }

  /** The removal loop of `ProcessTicks`: `List.Remove` of each flagged registration in turn. */
  method RemoveEach<T(==)>(ts: seq<T>, removals: seq<T>) returns (remaining: seq<T>)
    requires Distinct(ts)
    ensures remaining == Keep(ts, removals)
  {
    remaining := ts;
    KeepNothing(ts);
    var k := 0;
    while k < |removals|
      invariant 0 <= k <= |removals|
      invariant remaining == Keep(ts, removals[..k])
    {
      RemoveFirstIsKeep(ts, removals[..k], removals[k]);
      assert removals[..k + 1] == removals[..k] + [removals[k]];
      remaining := RemoveFirst(remaining, removals[k]);
      k := k + 1;
    }
    assert removals[..k] == removals;
  }

  /**
   * What the collector makes of an unframed query: it reads the first four
   * bytes as a length, so it never reads back the payload that was written,
   * whatever the serializer produced.
   */
  lemma UnframedQueryIsMisread(payload: Bytes)
    ensures ParseFrame(payload) != Some((payload, []))
  {
  }

  /** The framed query reads back exactly. */
  lemma FramedQueryIsRead(payload: Bytes)
    ensures ParseFrame(Frame(payload)) == Some((payload, []))
  {
    FrameRoundTrip(payload, []);
    assert Frame(payload) + [] == Frame(payload);
  }
}
