/**
 * The per-message step of `receive` (fever_threatbus/fever.py:256-267): a data-channel
 * message is decoded, split into topic and payload at the first space, and its payload
 * is kept only when the topic ends in "indicator".
 *
 * Receiving from the ZeroMQ SUB socket, its prefix subscription on the p2p topic and
 * the UTF-8 decoding are transport: a frame arrives here already decoded, or marked as
 * one that failed to decode.
 */
module Receiver {
  import opened Wrappers
  import opened Strings

  /** One message taken off the SUB socket: `recv().decode()` either failed or gave text. */
  datatype Frame = Undecodable | Decoded(text: string)

  /** The event-type suffix of the topics the bridge keeps. */
  const IndicatorSuffix: string := "indicator"

  /**
   * `text.split(" ", 1)` unpacked into two names: the text before the first space and
   * everything after it; no result when the text has no space (the unpacking raises).
   */
  function SplitFirst(text: string): (r: Option<(string, string)>)
    ensures r.Some? <==> ' ' in text
    ensures r.Some? ==> text == r.value.0 + " " + r.value.1 && ' ' !in r.value.0
  {
    if text == [] then None
    else if text[0] == ' ' then Some(([], text[1..]))
    else
      match SplitFirst(text[1..])
      case None => None
      case Some((topic, payload)) => Some(([text[0]] + topic, payload))
  }

  /** Joining a space-free topic and any payload with a space splits back into them. */
  lemma {:induction false} SplitJoin(topic: string, payload: string)
    requires ' ' !in topic
    ensures SplitFirst(topic + " " + payload) == Some((topic, payload))
  {
    if topic != [] {
      var text := topic + " " + payload;
      SplitJoin(topic[1..], payload);
      assert text[0] == topic[0] && text[0] != ' ';
      assert text[1..] == topic[1..] + " " + payload;
      assert [topic[0]] + topic[1..] == topic;
    } else {
      assert (topic + " " + payload)[1..] == payload;
    }
  }

  /** The payload `receive` enqueues for this frame, or None when it drops the frame. */
  function Payload(f: Frame): (r: Option<string>)
    ensures f.Undecodable? ==> r.None?
    ensures f.Decoded? && ' ' !in f.text ==> r.None?
    ensures r.Some? ==> exists topic :: ' ' !in topic && EndsWith(topic, IndicatorSuffix)
                                     && f.text == topic + " " + r.value
  {
    match f
    case Undecodable => None
    case Decoded(text) =>
      match SplitFirst(text)
      case None => None
      case Some((topic, payload)) => if EndsWith(topic, IndicatorSuffix) then Some(payload) else None
  }

  /**
   * For a well-formed message `"<topic> <payload>"` the payload is kept, with any spaces
   * inside it, exactly when the topic ends in "indicator".
   */
  lemma PayloadOfMessage(topic: string, payload: string)
    requires ' ' !in topic
    ensures Payload(Decoded(topic + " " + payload)) ==
      if EndsWith(topic, IndicatorSuffix) then Some(payload) else None
  {
    SplitJoin(topic, payload);
  }

  /** The payloads `receive` enqueues for a run of frames, in receipt order. */
  function Accepted(frames: seq<Frame>): seq<string> {
    FilterMap(Payload, frames)
  }

  /** Receiving two runs one after the other enqueues the first run's payloads first. */
  lemma AcceptedAppend(a: seq<Frame>, b: seq<Frame>)
    ensures Accepted(a + b) == Accepted(a) + Accepted(b)
  {
    FilterMapAppend(Payload, a, b);
  }

  /** Nothing is enqueued that some frame did not carry as an indicator payload. */
  lemma AcceptedFromFrames(frames: seq<Frame>, k: nat)
    requires k < |Accepted(frames)|
    ensures exists j :: 0 <= j < |frames| && Payload(frames[j]) == Some(Accepted(frames)[k])
  {
    FilterMapFrom(Payload, frames, k);
  }
}
