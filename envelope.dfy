/** Wire shapes of the signaling relay.

    Every frame is one JSON object `{ type, id?, sdp?, candidate? }`; the relay
    reads `type` and, for some types, `id`, and copies `sdp` and `candidate`
    without looking inside them. Frames travel the same shape in both
    directions, so one datatype describes both what clients send and what the
    relay sends back.
 */
module Envelopes {

  datatype Option<T> = None | Some(value: T)

  /** The identity of one socket connection (the `ws` object of the server). */
  type ClientId = nat

  /** An opaque negotiation payload (a session description or a network candidate). */
  type Payload = string

  /** A decoded frame; the constructor is its `type` field. */
  datatype Envelope =
    | Broadcaster                                   // 'broadcaster'
    | Watcher(id: Option<int>)                      // 'watcher'; the relay fills `id` when it forwards one
    | Offer(id: Option<int>, sdp: Payload)          // 'offer'
    | Answer(id: Option<int>, sdp: Payload)         // 'answer'
    | IceCandidate(id: Option<int>, candidate: Payload) // 'ice-candidate'
    | Start                                         // 'start'
    | Close                                         // 'close', sent by the relay when the broadcaster leaves
    | Disconnect(id: Option<int>)                   // 'disconnect', sent by the relay when a viewer leaves
    | Unknown(tag: string)                          // any other `type`; see RoutedType

  /** The `type` values the message handler has a case for. A decoded frame
      whose `type` is one of these is never `Unknown`. */
  predicate RoutedType(tag: string) {
    tag in {"broadcaster", "watcher", "offer", "answer", "ice-candidate", "start"}
  }

  /** One outbound `send` call: which connection, which frame. */
  datatype Send = Send(to: ClientId, msg: Envelope)

  /** The recipients of a sequence of sends, in sending order. The ensures
      spell out the comprehension element by element, so that facts about
      `Recipients(out)` connect to the sends `out[k]` they come from. */
  function Recipients(out: seq<Send>): (rs: seq<ClientId>)
    ensures |rs| == |out|
    ensures forall k :: 0 <= k < |out| ==> rs[k] == out[k].to && out[k].to in rs
  {
    seq(|out|, k requires 0 <= k < |out| => out[k].to)
  }

  /** No element occurs twice. */
  predicate Distinct<T(==)>(s: seq<T>) {
    forall i, j :: 0 <= i < j < |s| ==> s[i] != s[j]
  }
}
