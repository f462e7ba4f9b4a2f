/**
 * The bridge's global state and the steps that change it in place
 * (fever_threatbus/fever.py:18-23, 66-87, 164-283, 311-325): the lease handover in
 * `start`, `stop_signal`, the heartbeat's cancellation, the receiver appending to the
 * indicator queue, the consumer taking from it, and `main`'s restart loop.
 */
module Bridge {
  import opened Json
  import opened Wrappers
  import opened Strings
  import opened Management
  import opened Subscription
  import opened Receiver
  import opened Supervisor

  class Bridge {
    /** `p2p_topic`: the lease topic Threat Bus granted last (`None` before the first). */
    var p2pTopic: Value
    /** The `atexit` registrations of `unsubscribe`, in registration order. */
    var exitHandlers: seq<ExitHandler>
    /** The management requests sent so far by `start` (subscribe and unsubscribe). */
    var sent: seq<Message>
    /** `async_tasks`. */
    var tasks: seq<TaskKind>
    /** `user_exit`. */
    var userExit: bool
    /** The `asyncio.Queue` of raw indicator payloads, front first. */
    var queue: seq<string>
    /** The queue's count of items put and not yet marked done with `task_done`. */
    var unfinished: nat

    ghost predicate Valid()
      reads this
    {
      WellFormed(Lease(p2pTopic, exitHandlers)) && |queue| <= unfinished
    }

    /** The whole state as a value, for stating what a step does to it. */
    function Snapshot(): BridgeState
      reads this
    {
      BridgeState(Lease(p2pTopic, exitHandlers), sent, tasks, userExit, queue, unfinished)
    }

    /** The module globals at import time. */
    constructor ()
      ensures Valid() && Snapshot() == Initial
    {
      p2pTopic := Null;
      exitHandlers := [];
      sent := [];
      tasks := [];
      userExit := false;
      queue := [];
      unfinished := 0;
    }

    /**
     * The lease handover of `start` once a subscription is granted (fever.py:210-217):
     * release the previous p2p topic, if any, before adopting the new one, and leave
     * exactly one exit-time unsubscribe, for the new topic.
     */
    method AdoptLease(endpoint: string, topic: Value)
      requires Valid() && Truthy(topic)
      modifies this`p2pTopic, this`exitHandlers, this`sent
      ensures Valid()
      ensures p2pTopic == topic
      ensures exitHandlers == [UnsubscribeAtExit(endpoint, topic)]
      ensures sent == old(sent) + if Truthy(old(p2pTopic)) then [Message(endpoint, Unsubscribe(old(p2pTopic)))] else []
    {
      if Truthy(p2pTopic) {
        // a restart: release the old lease now that a new one works
        sent := sent + [Message(endpoint, Unsubscribe(p2pTopic))];
        exitHandlers := [];
      }
      p2pTopic := topic;
      exitHandlers := exitHandlers + [UnsubscribeAtExit(endpoint, topic)];
    }

    /**
     * `start` up to its final `gather` (fever.py:195-229), given the reply to the
     * subscribe request: the handshake, and on success the lease handover, the three
     * tasks in order and a fresh queue. On a failed handshake only the subscribe
     * request was sent.
     */
    method Start(endpoint: string, snapshot: int, reply: Value) returns (granted: Option<Subscription>)
      requires Valid()
      modifies this
      ensures Valid()
      ensures (Snapshot(), granted) == StartStep(old(Snapshot()), endpoint, snapshot, reply)
    {
      ghost var h := Handover(Lease(p2pTopic, exitHandlers), endpoint, snapshot, reply);
      sent := sent + [Message(endpoint, Subscribe(RequestedTopic, snapshot))];
      granted := ParseSubscription(endpoint, reply);
      if granted.None? {
        return;
      }
      AdoptLease(endpoint, granted.value.topic);
      assert sent == old(sent) + h.sent;
      tasks := tasks + [HeartbeatTask];
      queue, unfinished := [], 0;
      tasks := tasks + [ReceiveTask];
      tasks := tasks + [ProcessTask];
      assert tasks == old(tasks) + EpochTasks;
    }

    /** The list side of `cancel_async_tasks` (fever.py:66-76): `async_tasks = []`. */
    method CancelTasks()
      modifies this`tasks
      ensures tasks == []
    {
      tasks := [];
    }

    /** `stop_signal` (fever.py:79-87): set `user_exit`, then cancel the tasks. */
    method StopSignal()
      modifies this`userExit, this`tasks
      ensures userExit && tasks == []
    {
      userExit := true;
      CancelTasks();
    }

    /**
     * The heartbeat task for the current lease (fever.py:164-180): it beats while the
     * replies succeed and, at the first that does not, cancels the tasks and ends.
     */
    method RunHeartbeat(endpoint: string, replies: seq<Value>) returns (beats: seq<Message>, failed: bool)
      modifies this`tasks
      ensures failed <==> FirstFailure(replies) < |replies|
      ensures |beats| == if failed then FirstFailure(replies) + 1 else |replies|
      ensures forall j :: 0 <= j < |beats| ==> beats[j] == Message(endpoint, Heartbeat(p2pTopic))
      ensures tasks == if failed then [] else old(tasks)
    {
      beats, failed := HeartbeatLoop(endpoint, p2pTopic, replies);
      if failed {
        CancelTasks();
      }
    }

    /** `indicator_queue.put(msg)` on an unbounded queue. */
    method Put(msg: string)
      requires Valid()
      modifies this`queue, this`unfinished
      ensures Valid()
      ensures queue == old(queue) + [msg] && unfinished == old(unfinished) + 1
    {
      queue := queue + [msg];
      unfinished := unfinished + 1;
    }

    /** `indicator_queue.get()`: the front item, or None where the consumer would wait. */
    method Take() returns (item: Option<string>)
      requires Valid()
      modifies this`queue
      ensures Valid()
      ensures old(queue) != [] ==> |queue| < unfinished
      ensures old(queue) == [] ==> item.None? && queue == []
      ensures old(queue) != [] ==> item == Some(old(queue)[0]) && queue == old(queue)[1..]
    {
      if queue == [] {
        return None;
      }
      item := Some(queue[0]);
      queue := queue[1..];
    }

    /**
     * `indicator_queue.task_done()`: false where asyncio raises ValueError (called too
     * often). It keeps `Valid()` only after a `Take` has made `|queue| < unfinished`, which
     * is how `Consume`, its only caller, uses it.
     */
    method TaskDone() returns (ok: bool)
      modifies this`unfinished
      ensures |queue| < old(unfinished) ==> |queue| <= unfinished
      ensures ok <==> old(unfinished) > 0
      ensures unfinished == if ok then old(unfinished) - 1 else old(unfinished)
    {
      if unfinished == 0 {
        return false;
      }
      unfinished := unfinished - 1;
      ok := true;
    }

    /** One iteration of `receive`'s loop with a message at hand (fever.py:256-267). */
    method Receive(frame: Frame)
      requires Valid()
      modifies this`queue, this`unfinished
      ensures Valid()
      ensures queue == old(queue) + ToSeq(Payload(frame))
      ensures unfinished == old(unfinished) + |ToSeq(Payload(frame))|
    {
      match frame
      case Undecodable =>
        return;
      case Decoded(text) =>
        var split := SplitFirst(text);
        if split.None? {
          return;
        }
        var (topic, msg) := split.value;
        if !EndsWith(topic, IndicatorSuffix) {
          return;
        }
        Put(msg);
    }

    /** `receive` over a run of messages: the queue grows by the accepted payloads, in order. */
    method ReceiveAll(frames: seq<Frame>)
      requires Valid()
      modifies this`queue, this`unfinished
      ensures Valid()
      ensures queue == old(queue) + Accepted(frames)
      ensures unfinished == old(unfinished) + |Accepted(frames)|
    {
      for i := 0 to |frames|
        invariant Valid()
        invariant queue == old(queue) + Accepted(frames[..i])
        invariant unfinished == old(unfinished) + |Accepted(frames[..i])|
      {
        Receive(frames[i]);
        assert frames[..i + 1] == frames[..i] + [frames[i]];
        AcceptedAppend(frames[..i], [frames[i]]);
        assert Accepted([frames[i]]) == ToSeq(Payload(frames[i])) + Accepted([]);
      }
      assert frames[..|frames|] == frames;
    }

    /**
     * `do_something_with_intel` (fever.py:272-283) until the queue is empty: it takes
     * items from the front, parses each (`parses` stands for `stix2.parse` succeeding)
     * and marks it done. A parse error is not caught there: it ends the task, leaving
     * that item taken and never marked done.
     */
    method Consume(parses: string -> bool) returns (processed: seq<string>, failed: Option<string>)
      requires Valid()
      modifies this`queue, this`unfinished
      ensures Valid()
      ensures old(queue) == processed + ToSeq(failed) + queue
      ensures failed.None? ==> queue == []
      ensures forall m :: m in processed ==> parses(m)
      ensures failed.Some? ==> !parses(failed.value)
      ensures unfinished == old(unfinished) - |processed|
    {
      processed, failed := [], None;
      while true
        invariant Valid()
        invariant old(queue) == processed + queue
        invariant unfinished == old(unfinished) - |processed|
        invariant forall m :: m in processed ==> parses(m)
        decreases |queue|
      {
        var item := Take();
        if item.None? {
          return;
        }
        var msg := item.value;
        if !parses(msg) {
          failed := Some(msg);
          return;
        }
        assert old(queue) == (processed + [msg]) + queue;
        var ok := TaskDone();
        assert ok;
        processed := processed + [msg];
      }
    }

    /**
     * One pass of `main`'s loop body: `start`, then whatever ended it, then the decision.
     * A handshake interrupted by an exception has sent its subscribe request and got no
     * reply, which is what `Start` does with `Null`. A granted epoch is ended by
     * `stop_signal` when a signal arrived, or else, when it ended in CancelledError, by
     * the heartbeat cancelling the tasks.
     */
    method RunEpoch(endpoint: string, snapshot: int, e: Epoch) returns (decision: Decision)
      requires Valid()
      modifies this
      ensures Valid()
      ensures (Snapshot(), decision) == EpochStep(old(Snapshot()), endpoint, snapshot, e)
    {
      var granted := Start(endpoint, snapshot, Answer(e));
      if e.interrupted.Some? {
        decision := Decide(Raised(e.interrupted.value), userExit);
        return;
      }
      var end := Returned;
      if granted.Some? {
        if e.signalled {
          StopSignal();
        } else if e.raised == Cancelled {
          CancelTasks();
        }
        end := Raised(e.raised);
      }
      decision := Decide(end, userExit);
    }

    /** `main`'s `while True` loop (fever.py:311-325) over a run of epochs. */
    method Supervise(endpoint: string, snapshot: int, epochs: seq<Epoch>) returns (ran: nat, decision: Decision)
      requires Valid()
      modifies this
      ensures Valid()
      ensures (Snapshot(), ran, decision) == MainLoop(old(Snapshot()), endpoint, snapshot, epochs)
    {
      ran, decision := 0, Restart;
      while ran < |epochs|
        invariant ran <= |epochs|
        invariant Valid() && decision == Restart
        invariant var r := MainLoop(Snapshot(), endpoint, snapshot, epochs[ran..]);
          MainLoop(old(Snapshot()), endpoint, snapshot, epochs) == (r.0, r.1 + ran, r.2)
      {
        MainLoopFrom(Snapshot(), endpoint, snapshot, epochs, ran);
        decision := RunEpoch(endpoint, snapshot, epochs[ran]);
        ran := ran + 1;
        if decision != Restart {
          return;
        }
      }
    }
  }
}
