/**
 * The client side of the Threat Bus management protocol (fever_threatbus/fever.py:93-180):
 * the requests the bridge sends, the check that a reply means success, and the
 * heartbeat loop that stops at the first reply that does not.
 *
 * `send_manage_message` itself (a ZeroMQ REQ socket polled with a timeout) is I/O:
 * its result is an input here. It returns Python `None` when no reply arrives in time,
 * which is the same value a JSON `null` reply decodes to, so both are `Json.Null`.
 */
module Management {
  import opened Json

  /** The three JSON actions the bridge sends to the management endpoint. */
  datatype Action =
    | Subscribe(requested: string, snapshot: int)
    | Unsubscribe(topic: Value)
    | Heartbeat(topic: Value)

  /** One request sent to a `host:port` management endpoint. */
  datatype Message = Message(endpoint: string, action: Action)

  /** A reply whose meaning is "success": a dict whose "status" is the string "success". */
  predicate IsSuccessReply(reply: Value) {
    reply.Dict? && "status" in reply.fields && reply.fields["status"] == Str("success")
  }

  /**
   * `reply_is_success`: the value of the Python `and`-chain
   * `reply and type(reply) is dict and reply.get("status") and reply["status"] == "success"`,
   * i.e. the first falsy operand or the last one. Callers only test it for truthiness.
   */
  function ReplyIsSuccess(reply: Value): (r: Value)
    ensures Truthy(r) <==> IsSuccessReply(reply)
    ensures !Truthy(reply) ==> r == reply
  {
    if !Truthy(reply) then reply
    else if !reply.Dict? then Bool(false)
    else
      var status := Get(reply.fields, "status");
      if !Truthy(status) then status
      else Bool(status == Str("success"))
  }

  /** What `if not reply_is_success(reply)` tests the negation of. */
  predicate Succeeded(reply: Value) {
    Truthy(ReplyIsSuccess(reply))
  }

  /** The index of the first reply that is not a success, or |replies| if all succeed. */
  function FirstFailure(replies: seq<Value>): (k: nat)
    ensures k <= |replies|
    ensures forall j :: 0 <= j < k ==> IsSuccessReply(replies[j])
    ensures k < |replies| ==> !IsSuccessReply(replies[k])
  {
    if replies == [] || !Succeeded(replies[0]) then 0
    else 1 + FirstFailure(replies[1..])
  }

  /**
   * `heartbeat` (fever.py:164-180): every iteration sends `{"action": "heartbeat", "topic": topic}`
   * and reads one reply; the loop ends at the first reply that is not a success.
   * `replies` is the stream of replies the management endpoint gives (timeouts are `Null`);
   * running out of it means the loop is still going. The sleep between beats is left out.
   */
  method HeartbeatLoop(endpoint: string, topic: Value, replies: seq<Value>)
    returns (sent: seq<Message>, failed: bool)
    ensures failed <==> exists j :: 0 <= j < |replies| && !IsSuccessReply(replies[j])
    ensures |sent| == if failed then FirstFailure(replies) + 1 else |replies|
    ensures forall j :: 0 <= j < |sent| ==> sent[j] == Message(endpoint, Heartbeat(topic))
    ensures forall j :: 0 <= j < |sent| - 1 ==> IsSuccessReply(replies[j])
  {
    var beat := Message(endpoint, Heartbeat(topic));
    sent, failed := [], false;
    var i := 0;
    while i < |replies|
      invariant 0 <= i <= |replies|
      invariant |sent| == i
      invariant forall j :: 0 <= j < i ==> sent[j] == beat
      invariant forall j :: 0 <= j < i ==> IsSuccessReply(replies[j])
    {
      sent := sent + [beat];
      if !Succeeded(replies[i]) {
        failed := true;
        return;
      }
      i := i + 1;
    }
  }
}
