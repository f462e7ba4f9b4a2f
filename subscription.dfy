/**
 * The handshake half of `start` (fever_threatbus/fever.py:195-217): deciding whether a
 * subscribe reply grants a lease, deriving the data-channel endpoints from the
 * management endpoint, and handing the lease over from the previous p2p topic to the
 * new one, together with the single exit-time unsubscribe registration.
 */
module Subscription {
  import opened Json
  import opened Wrappers
  import opened Management

  /** The topic `start` asks Threat Bus for. */
  const RequestedTopic: string := "stix2/indicator"

  /** `zmq_endpoint.split(":")[0]`: the endpoint up to its first ':', or all of it. */
  function Host(endpoint: string): (h: string)
    ensures |h| <= |endpoint| && endpoint[..|h|] == h
    ensures ':' !in h
    ensures |h| < |endpoint| ==> endpoint[|h|] == ':'
  {
    if endpoint == [] || endpoint[0] == ':' then []
    else [endpoint[0]] + Host(endpoint[1..])
  }

  /** A derived `host:port` endpoint; the port is whatever value the reply carried. */
  datatype Endpoint = Endpoint(host: string, port: Value)

  /** Ports whose Python `str()` is modelled: None, booleans, integers and strings. */
  predicate Renderable(port: Value) {
    port.Null? || port.Bool? || port.Int? || port.Str?
  }

  function DigitChar(d: nat): (c: char)
    requires d < 10
    ensures '0' <= c <= '9'
    ensures c == '0' <==> d == 0
  {
    ('0' as int + d) as char
  }

  /** Decimal digits of a natural number, most significant first. */
  function Digits(n: nat): (s: string)
    ensures |s| >= 1
    ensures forall c :: c in s ==> '0' <= c <= '9'
    ensures s[0] == '0' ==> s == "0"
  {
    if n < 10 then [DigitChar(n)] else Digits(n / 10) + [DigitChar(n % 10)]
  }

  /** The number a string of decimal digits denotes (Python's `int(s)` on such a string). */
  function ReadDecimal(s: string): int {
    if s == [] then 0 else 10 * ReadDecimal(s[..|s| - 1]) + (s[|s| - 1] as int - '0' as int)
  }

  /** The digits of a number read back as that number. */
  lemma {:induction false} DigitsRoundTrip(n: nat)
    ensures ReadDecimal(Digits(n)) == n
  {
    var s := Digits(n);
    if n >= 10 {
      DigitsRoundTrip(n / 10);
      assert s[..|s| - 1] == Digits(n / 10);
    }
  }

  /**
   * Python's `str(port)` for the renderable ports: an integer port is written in decimal,
   * with a leading '-' when negative, and reads back as itself.
   */
  function PortText(port: Value): (r: string)
    requires Renderable(port)
    ensures port.Int? && port.i >= 0 ==> ReadDecimal(r) == port.i
    ensures port.Int? && port.i < 0 ==> |r| >= 2 && r[0] == '-' && ReadDecimal(r[1..]) == -port.i
    ensures port.Int? ==> var digits := if port.i < 0 then r[1..] else r;
      |digits| >= 1 && (forall c :: c in digits ==> '0' <= c <= '9') && (digits[0] == '0' ==> digits == "0")
    ensures port.Str? ==> r == port.s
    ensures port.Bool? ==> r == (if port.b then "True" else "False")
    ensures port.Null? ==> r == "None"
  {
    match port
    case Null => "None"
    case Bool(b) => if b then "True" else "False"
    case Int(i) =>
      if i < 0 then
        DigitsRoundTrip(-i);
        assert ("-" + Digits(-i))[1..] == Digits(-i);
        "-" + Digits(-i)
      else
        DigitsRoundTrip(i);
        Digits(i)
    case Str(s) => s
  }

  /**
   * `f"{zmq_host}:{port}"`. Reading the host back out of a derived endpoint gives the host
   * it was built from, so the derived endpoints live on the management endpoint's host.
   */
  function Text(e: Endpoint): (r: string)
    requires Renderable(e.port)
    ensures ':' !in e.host ==> Host(r) == e.host && |e.host| < |r| && r[|e.host| + 1..] == PortText(e.port)
  {
    var r := e.host + ":" + PortText(e.port);
    if ':' in e.host then r
    else
      HostOfJoin(e.host, PortText(e.port));
      r
  }

  /** `Host` stops at the first ':' it meets, whatever follows. */
  lemma {:induction false} HostOfJoin(host: string, rest: string)
    requires ':' !in host
    ensures Host(host + ":" + rest) == host
    decreases |host|
  {
    var joined := host + ":" + rest;
    if host == [] {
      assert joined[0] == ':';
    } else {
      HostOfJoin(host[1..], rest);
      assert joined[0] == host[0] && joined[1..] == host[1..] + ":" + rest;
    }
  }

  /** A granted lease: the p2p topic and the two data-channel endpoints. */
  datatype Subscription = Subscription(topic: Value, pub: Endpoint, sub: Endpoint)

  /**
   * The checks at fever.py:196-207: the reply must be a success and carry truthy
   * "pub_port", "sub_port" and "topic" (port 0 or an empty topic counts as missing).
   */
  function ParseSubscription(endpoint: string, reply: Value): (r: Option<Subscription>)
    ensures r.Some? <==>
      IsSuccessReply(reply)
      && Present(reply.fields, "pub_port")
      && Present(reply.fields, "sub_port")
      && Present(reply.fields, "topic")
    ensures r.Some? ==>
      r.value.topic == reply.fields["topic"]
      && Truthy(r.value.topic)
      && r.value.pub == Endpoint(Host(endpoint), reply.fields["pub_port"])
      && r.value.sub == Endpoint(Host(endpoint), reply.fields["sub_port"])
  {
    if !Succeeded(reply) then None
    else
      var pubPort := Get(reply.fields, "pub_port");
      var subPort := Get(reply.fields, "sub_port");
      var topic := Get(reply.fields, "topic");
      if !Truthy(pubPort) || !Truthy(subPort) || !Truthy(topic) then None
      else
        var host := Host(endpoint);
        Some(Subscription(topic, Endpoint(host, pubPort), Endpoint(host, subPort)))
  }

  /** `atexit.register(unsubscribe, zmq_endpoint, topic)`. */
  datatype ExitHandler = UnsubscribeAtExit(endpoint: string, topic: Value)

  /** The global `p2p_topic` together with the atexit registrations. */
  datatype Lease = Lease(topic: Value, handlers: seq<ExitHandler>)

  /** Before the first successful subscription: `p2p_topic = None`, nothing registered. */
  const NoLease: Lease := Lease(Null, [])

  /** A held lease has exactly one exit-time unsubscribe, and it is for that lease. */
  predicate WellFormed(l: Lease) {
    if Truthy(l.topic) then |l.handlers| == 1 && l.handlers[0].topic == l.topic
    else l.handlers == []
  }

  /** The outcome of one handshake: the new lease, the requests sent, the grant if any. */
  datatype HandoverResult = HandoverResult(lease: Lease, sent: seq<Message>, granted: Option<Subscription>)

  /**
   * One handshake of `start` (fever.py:195-217): subscribe, and on success release the
   * previous p2p topic (unsubscribe it and `atexit.unregister(unsubscribe)`, which drops
   * every registration of that function), adopt the new topic and register its
   * exit-time unsubscribe.
   */
  function Handover(l: Lease, endpoint: string, snapshot: int, reply: Value): (r: HandoverResult)
    ensures |r.sent| >= 1 && r.sent[0] == Message(endpoint, Subscribe(RequestedTopic, snapshot))
    ensures r.granted == ParseSubscription(endpoint, reply)
    ensures r.granted.None? ==> r.lease == l && |r.sent| == 1
    ensures r.granted.Some? && WellFormed(l) ==>
      && r.lease.topic == r.granted.value.topic
      && r.lease.handlers == [UnsubscribeAtExit(endpoint, r.granted.value.topic)]
      && r.sent[1..] == (if Truthy(l.topic) then [Message(endpoint, Unsubscribe(l.topic))] else [])
    ensures WellFormed(l) ==> WellFormed(r.lease)
  {
    var subscribe := [Message(endpoint, Subscribe(RequestedTopic, snapshot))];
    match ParseSubscription(endpoint, reply)
    case None => HandoverResult(l, subscribe, None)
    case Some(s) =>
      var release := if Truthy(l.topic) then [Message(endpoint, Unsubscribe(l.topic))] else [];
      var kept := if Truthy(l.topic) then [] else l.handlers;
      HandoverResult(Lease(s.topic, kept + [UnsubscribeAtExit(endpoint, s.topic)]), subscribe + release, Some(s))
  }

  /**
   * Handshakes one after another, one per reply, as successive restarts perform them:
   * each sends at least its subscribe request, and the grant reported is the last one's.
   */
  function Handovers(l: Lease, endpoint: string, snapshot: int, replies: seq<Value>): (r: HandoverResult)
    ensures |r.sent| >= |replies|
    ensures replies != [] ==> r.granted == ParseSubscription(endpoint, replies[|replies| - 1])
    decreases |replies|
  {
    if replies == [] then HandoverResult(l, [], None)
    else
      var first := Handover(l, endpoint, snapshot, replies[0]);
      var rest := Handovers(first.lease, endpoint, snapshot, replies[1..]);
      HandoverResult(rest.lease, first.sent + rest.sent, if |replies| == 1 then first.granted else rest.granted)
  }

  /** The p2p topics granted by the successful replies, in order. */
  function AdoptedTopics(endpoint: string, replies: seq<Value>): seq<Value> {
    if replies == [] then []
    else GrantedTopic(endpoint, replies[0]) + AdoptedTopics(endpoint, replies[1..])
  }

  /** The topic a request releases, if it is an unsubscribe. */
  function UnsubscribedTopic(m: Message): Option<Value> {
    if m.action.Unsubscribe? then Some(m.action.topic) else None
  }

  /** The topics of the unsubscribe requests among `sent`, in order. */
  function Released(sent: seq<Message>): seq<Value> {
    FilterMap(UnsubscribedTopic, sent)
  }

  /** The topics that the exit-time registrations will unsubscribe. */
  function ExitTopics(l: Lease): (ts: seq<Value>)
    ensures |ts| == |l.handlers|
    ensures forall j :: 0 <= j < |ts| ==> ts[j] == l.handlers[j].topic
  {
    seq(|l.handlers|, j requires 0 <= j < |l.handlers| => l.handlers[j].topic)
  }

  /** The topic a reply grants, as a zero- or one-element sequence. */
  function GrantedTopic(endpoint: string, reply: Value): seq<Value> {
    match ParseSubscription(endpoint, reply)
    case None => []
    case Some(s) => [s.topic]
  }

  /** One handshake releases exactly what it supersedes and registers exactly what it adopts. */
  lemma HandoverAccounting(l: Lease, endpoint: string, snapshot: int, reply: Value)
    requires WellFormed(l)
    ensures var r := Handover(l, endpoint, snapshot, reply);
      Released(r.sent) + ExitTopics(r.lease) == ExitTopics(l) + GrantedTopic(endpoint, reply)
  {
    var r := Handover(l, endpoint, snapshot, reply);
    FilterMapAppend(UnsubscribedTopic, r.sent[..1], r.sent[1..]);
    assert r.sent == r.sent[..1] + r.sent[1..];
    assert Released(r.sent[..1]) == [];
    if r.granted.Some? && Truthy(l.topic) {
      assert Released(r.sent[1..]) == [l.topic];
    } else {
      assert Released(r.sent[1..]) == [];
    }
  }

  /**
   * The sequence bookkeeping of one induction step of EveryLeaseReleasedOnce, stated on
   * plain sequences only to keep that step cheap to verify.
   */
  lemma Regroup(all: seq<Value>, first: seq<Value>, rest: seq<Value>,
                exitAll: seq<Value>, exitFirst: seq<Value>, exitBefore: seq<Value>,
                granted: seq<Value>, later: seq<Value>)
    requires all == first + rest
    requires first + exitFirst == exitBefore + granted
    requires rest + exitAll == exitFirst + later
    ensures all + exitAll == exitBefore + (granted + later)
  {
    calc {
      all + exitAll;
      first + (rest + exitAll);
      (first + exitFirst) + later;
    }
  }

  /**
   * No lease is leaked or released twice: over any run of handshakes, the topics
   * unsubscribed on handover, followed by the one still registered for exit, are exactly
   * the topics held before plus the topics adopted, in adoption order.
   */
  lemma {:induction false} EveryLeaseReleasedOnce(l: Lease, endpoint: string, snapshot: int, replies: seq<Value>)
    requires WellFormed(l)
    ensures WellFormed(Handovers(l, endpoint, snapshot, replies).lease)
    ensures var r := Handovers(l, endpoint, snapshot, replies);
      Released(r.sent) + ExitTopics(r.lease) == ExitTopics(l) + AdoptedTopics(endpoint, replies)
    decreases |replies|
  {
    var r := Handovers(l, endpoint, snapshot, replies);
    if replies == [] {
      assert Released(r.sent) == [] && r.lease == l;
      assert ExitTopics(l) + [] == ExitTopics(l);
    } else {
      var first := Handover(l, endpoint, snapshot, replies[0]);
      var rest := Handovers(first.lease, endpoint, snapshot, replies[1..]);
      assert r.lease == rest.lease && r.sent == first.sent + rest.sent;
      assert AdoptedTopics(endpoint, replies) == GrantedTopic(endpoint, replies[0]) + AdoptedTopics(endpoint, replies[1..]);
      var granted := GrantedTopic(endpoint, replies[0]);
      var later := AdoptedTopics(endpoint, replies[1..]);
      assert Released(first.sent) + ExitTopics(first.lease) == ExitTopics(l) + granted by {
        HandoverAccounting(l, endpoint, snapshot, replies[0]);
      }
      assert Released(rest.sent) + ExitTopics(rest.lease) == ExitTopics(first.lease) + later by {
        EveryLeaseReleasedOnce(first.lease, endpoint, snapshot, replies[1..]);
      }
      assert WellFormed(r.lease) by {
        EveryLeaseReleasedOnce(first.lease, endpoint, snapshot, replies[1..]);
      }
      assert Released(r.sent) == Released(first.sent) + Released(rest.sent) by {
        FilterMapAppend(UnsubscribedTopic, first.sent, rest.sent);
      }
      Regroup(Released(r.sent), Released(first.sent), Released(rest.sent),
              ExitTopics(r.lease), ExitTopics(first.lease), ExitTopics(l), granted, later);
    }
  }

  /**
   * From the initial state, every p2p topic ever adopted is released exactly once: the
   * superseded ones by the unsubscribes sent on handover, the current one by the single
   * exit-time registration.
   */
  lemma FromNoLease(endpoint: string, snapshot: int, replies: seq<Value>)
    ensures var r := Handovers(NoLease, endpoint, snapshot, replies);
      && |r.lease.handlers| <= 1
      && Released(r.sent) + ExitTopics(r.lease) == AdoptedTopics(endpoint, replies)
  {
    EveryLeaseReleasedOnce(NoLease, endpoint, snapshot, replies);
    assert ExitTopics(NoLease) == [];
  }
}
