/**
 * The client-side event value (`Event.cs`) and the value a tick callback
 * returns (`TickEvent.cs`).
 */
module Events {
  import opened Wrappers
  import opened Primitives

  /** The longest `state` an event may carry, in UTF-16 code units (`String.Length`). */
  const MaxStateLength: nat := 255

  /** The exceptions the client raises. */
  datatype ClientError =
    | StateTooLong                  // ArgumentException on the `state` parameter
    | SocketFailure(code: int)      // a SocketException rethrown from the datagram send
    | RemoteError(message: string)  // the collector answered with `ok = false`

  /**
   * The fields of an event. `NewEvent` is the checked constructor; the C#
   * fields are public, so an event reaching `SendEvents` may hold any values.
   */
  datatype Event = Event(
    service: string,
    state: string,
    description: string,
    metric: Float32,
    ttl: int32)

  /** What a tick callback reports; the scheduler adds the service name and the interval. */
  datatype TickEvent = TickEvent(state: string, description: string, metricValue: Float32)

  /** The state check of the constructor: `state.Length`, in UTF-16 code units, is at most 255. */
  predicate ValidState(state: string) {
    Utf16Length(state) <= MaxStateLength
  }

  /**
   * The `Event` constructor: a `state` longer than 255 UTF-16 code units is
   * refused before any field is set; otherwise every field is the argument
   * given. An omitted `ttl` is 0.
   */
  function NewEvent(service: string, state: string, description: string, metric: Float32,
                    ttl: int32 := 0): (r: Result<Event, ClientError>)
    ensures r.Success? <==> Utf16Length(state) <= 255
    ensures r.Failure? ==> r.error == StateTooLong
    ensures r.Success? ==>
      && r.value.service == service
      && r.value.state == state
      && r.value.description == description
      && r.value.metric == metric
      && r.value.ttl == ttl
  {
    if !ValidState(state) then Failure(StateTooLong)
    else Success(Event(service, state, description, metric, ttl))
  }

  /** Building with the `ttl` argument left out gives an event whose `TTL` is 0. */
  lemma OmittedTtlIsZero(service: string, state: string, description: string, metric: Float32)
    requires Utf16Length(state) <= 255
    ensures NewEvent(service, state, description, metric).Success?
    ensures NewEvent(service, state, description, metric).value.ttl == 0
  {
  }

  /**
   * The empty state and every state of 255 characters from the Basic
   * Multilingual Plane are accepted; no state of 256 characters is.
   */
  lemma StateLengthBoundary(service: string, description: string, metric: Float32, s: string)
    ensures NewEvent(service, "", description, metric).Success?
    ensures |s| == 255 && (forall i :: 0 <= i < |s| ==> (s[i] as int) < 0x10000) ==>
            NewEvent(service, s, description, metric).Success?
    ensures |s| == 256 ==> NewEvent(service, s, description, metric) == Failure(StateTooLong)
  {
    if |s| == 255 && (forall i :: 0 <= i < |s| ==> (s[i] as int) < 0x10000) {
      Utf16LengthOfBmp(s);
    }
  }

  /**
   * Characters outside the Basic Multilingual Plane count twice: 128 of them
   * make a `Length` of 256, and the state is refused.
   */
  lemma AstralStateRefused(service: string, description: string, metric: Float32)
    ensures var s := seq(128, _ => '\U{1F600}');
            NewEvent(service, s, description, metric) == Failure(StateTooLong)
  {
    var s := seq(128, _ => '\U{1F600}');
    Utf16LengthOfAstral(s);
  }
}
