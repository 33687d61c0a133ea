/**
 * The older single-event client of `Riemann.cs`: its own tag context, and
 * `SendEvent`, which validates the state, builds a one-event message and
 * sends it as a datagram, falling back to a framed write on the stream
 * connection when the datagram is too long. Unlike `Client`, it never reads
 * a reply after the fallback.
 *
 * As in `Client`, the sockets are outside the model: the datagram outcome
 * is an argument, the datagrams sent are a log, the stream connection is
 * the bytes written to it, and the serializer is the opaque `serialize`.
 */
module LegacyRiemann {
  import opened Wrappers
  import opened Primitives
  import opened Events
  import opened TagContext
  import opened Wire
  import RiemannClient

  /** The wire event `SendEvent` builds: host `name`, the arguments, `ttl` set only when it is not 0, and the tags. */
  function SingleEvent(name: string, service: string, state: string, description: string, metric: Float32,
                       ttl: int32, tags: seq<string>): WireEvent
  {
    WireEvent(name, service, state, description, metric, if ttl != 0 then Some(ttl) else None, tags)
  }

  /** The message `SendEvent` hands to the serializer: that one event and no query. */
  function SingleMessage(name: string, service: string, state: string, description: string, metric: Float32,
                         ttl: int32, tags: seq<string>): Msg
  {
    Msg([SingleEvent(name, service, state, description, metric, ttl, tags)], None)
  }

  /**
   * The message of `SendEvent` carries exactly one event, from host `name`,
   * with the arguments copied, the tags given, and a `ttl` field present
   * exactly when the argument is not 0.
   */
  lemma SingleMessageFields(name: string, service: string, state: string, description: string,
                            metric: Float32, ttl: int32, tags: seq<string>)
    ensures var m := SingleMessage(name, service, state, description, metric, ttl, tags);
            && m.query.None? && |m.events| == 1
            && m.events[0].host == name && m.events[0].service == service
            && m.events[0].state == state && m.events[0].description == description
            && m.events[0].metric == metric && m.events[0].tags == tags
            && (m.events[0].ttl.Some? <==> ttl != 0)
            && (ttl != 0 ==> m.events[0].ttl == Some(ttl))
  {
  }

  /**
   * Against the batch client: with a non-zero `ttl` the single-event message
   * is the batch message of that one event; with `ttl` 0 the two differ only
   * in that the batch sets the field to 0 where this client leaves it unset.
   */
  lemma {:induction false} SingleAgreesWithBatch(name: string, service: string, state: string, description: string,
                                                 metric: Float32, ttl: int32, tags: seq<string>)
    ensures var single := SingleMessage(name, service, state, description, metric, ttl, tags);
            var batch := RiemannClient.BatchMessage(name, [Event(service, state, description, metric, ttl)], tags);
            && (ttl != 0 ==> single == batch)
            && (ttl == 0 ==> single.events[0].ttl.None? && batch.events[0].ttl == Some(0) &&
                             single.events[0].(ttl := Some(0)) == batch.events[0])
  {
    var e := Event(service, state, description, metric, ttl);
    assert [e][..0] == [];
    assert [] + tags == tags;
    assert RiemannClient.BatchEvents(name, [e], tags) ==
           [WireEvent(name, service, state, description, metric, Some(ttl), tags)];
  }

  /** How a send by this client ends: only a socket error other than 10040 surfaces. */
  function LegacyResult(t: Transmission): Outcome<ClientError> {
    if t.failure.Some? then Fail(t.failure.value) else Pass
  }

  /**
   * A send succeeds exactly when the datagram went out or the stream fallback
   * was taken, whatever the collector would answer; any other socket error
   * is rethrown with its code.
   */
  lemma LegacySendSucceeds(payload: Bytes, outcome: SendOutcome)
    ensures LegacyResult(Transmit(payload, outcome)) == Pass <==>
            outcome.Delivered? || outcome == SocketError(MessageTooLong)
    ensures outcome.SocketError? && outcome.code != MessageTooLong ==>
            LegacyResult(Transmit(payload, outcome)) == Fail(SocketFailure(outcome.code))
  {
  }

  /**
   * The same fallback ends differently in the two clients: `Client` reads the
   * collector's reply and fails when it is not `ok`, this client does not.
   */
  lemma FallbackIgnoresReply(payload: Bytes, reply: Reply)
    requires !reply.ok
    ensures LegacyResult(Transmit(payload, SocketError(MessageTooLong))) == Pass
    ensures RiemannClient.SendResult(Transmit(payload, SocketError(MessageTooLong)), reply) == Fail(RemoteError(reply.error))
  {
  }

  /** The handle `Tag` returns; disposing it puts its owner's context back to the node's parent. */
  class RiemannTags {
    const owner: Riemann
    const node: TagNode

    constructor (owner: Riemann, node: TagNode)
      ensures this.owner == owner && this.node == node
    {
      this.owner := owner;
      this.node := node;
    }

    method Dispose()
      modifies owner`tag
      ensures owner.tag == node.underlying
    {
      owner.tag := node.underlying;
    }
  }

  class Riemann {
    /** The local host's name (`GetFqdn`), set once. */
    const name: string
    const serialize: Msg -> Bytes
    /** The current tag node; `None` when no tag is active. */
    var tag: Option<TagNode>
    /** The payloads sent as datagrams. */
    var datagrams: seq<Bytes>
    /** The bytes written to the stream connection. */
    var stream: seq<byte>

    constructor (name: string, serialize: Msg -> Bytes)
      ensures this.name == name && this.serialize == serialize
      ensures tag.None? && datagrams == [] && stream == []
    {
      this.name := name;
      this.serialize := serialize;
      tag := None;
      datagrams := [];
      stream := [];
    }

    /** The tags the client enumerates now, outer to inner. */
    function CurrentTags(): seq<string>
      reads this
    {
      Current(tag)
    }

    /** Push a tag: the new node's parent is the node that was current. */
    method Tag(t: string) returns (scope: RiemannTags)
      modifies this`tag
      ensures fresh(scope) && scope.owner == this
      ensures tag == Some(scope.node) && scope.node.underlying == old(tag)
      ensures CurrentTags() == old(CurrentTags()) + [t]
    {
      tag := Some(Push(tag, t));
      scope := new RiemannTags(this, tag.value);
    }

    /**
     * Send one event: a state longer than 255 UTF-16 code units is refused before
     * anything is sent; otherwise the message of that one event, with the
     * tags active now, goes out as a datagram, or as a frame on the stream
     * when the datagram is too long.
     */
    method SendEvent(service: string, state: string, description: string, metric: Float32, ttl: int32 := 0,
                     outcome: SendOutcome) returns (r: Outcome<ClientError>)
      modifies this`datagrams, this`stream
      ensures Utf16Length(state) > MaxStateLength ==>
              r == Fail(StateTooLong) && datagrams == old(datagrams) && stream == old(stream)
      ensures Utf16Length(state) <= MaxStateLength ==>
              var t := Transmit(serialize(SingleMessage(name, service, state, description, metric, ttl, old(CurrentTags()))), outcome);
              && datagrams == old(datagrams) + t.datagrams
              && stream == old(stream) + t.streamBytes
              && r == LegacyResult(t)
    {
      if Utf16Length(state) > MaxStateLength {
        return Fail(StateTooLong);
      }
      var ttlField: Option<int32> := None;
      if ttl != 0 {
        ttlField := Some(ttl);
      }
      var tags: seq<string> := [];
      if tag.Some? {
        tags := Tags(tag.value);
      }
      var message := Msg([WireEvent(name, service, state, description, metric, ttlField, tags)], None);
      r := SendPayload(serialize(message), outcome);
    }

    /**
     * One firing of the timer `Tick` starts: call the callback and send its
     * report as an event of `service` whose ttl is the interval.
     */
    method TickElapsed(tickTime: int32, service: string, onTick: () -> TickEvent, outcome: SendOutcome)
      returns (r: Outcome<ClientError>)
      modifies this`datagrams, this`stream
      ensures var e := onTick();
              Utf16Length(e.state) > MaxStateLength ==>
              r == Fail(StateTooLong) && datagrams == old(datagrams) && stream == old(stream)
      ensures var e := onTick();
              Utf16Length(e.state) <= MaxStateLength ==>
              var m := SingleMessage(name, service, e.state, e.description, e.metricValue, tickTime, old(CurrentTags()));
              var t := Transmit(serialize(m), outcome);
              && datagrams == old(datagrams) + t.datagrams
              && stream == old(stream) + t.streamBytes
              && r == LegacyResult(t)
    {
      var e := onTick();
      r := SendEvent(service, e.state, e.description, e.metricValue, tickTime, outcome);
    }

    /**
     * The transport half of `SendEvent`: the payload goes out as one
     * datagram; only a "message too long" socket error (10040) makes it fall
     * back to a framed write on the stream, and no reply is read after it.
     */
    method SendPayload(payload: Bytes, outcome: SendOutcome) returns (r: Outcome<ClientError>)
      modifies this`datagrams, this`stream
      ensures var t := Transmit(payload, outcome);
              && datagrams == old(datagrams) + t.datagrams
              && stream == old(stream) + t.streamBytes
              && r == LegacyResult(t)
    {
      match outcome
      case Delivered =>
        datagrams := datagrams + [payload];
        r := Pass;
      case SocketError(code) =>
        if code == MessageTooLong {
          var prefix := Reverse(LittleEndianBytes(|payload| as int32));
          stream := stream + prefix;
          stream := stream + payload;
          assert stream == old(stream) + (prefix + payload);
          r := Pass;
        } else {
          r := Fail(SocketFailure(code));
        }
    }
  }
}
