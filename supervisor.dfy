/**
 * The bridge's process level (fever_threatbus/fever.py:79-87, 186-234, 286-325): the
 * config-path check, the decision `main` takes when `asyncio.run(start(...))` ends, and
 * one run of the bridge as a state machine over epochs. An epoch is one call of `start`:
 * a handshake, then (if it succeeded) the three tasks running until something ends them.
 *
 * The class `Bridge.Bridge` performs these steps in place; the functions here are what
 * its methods are proved against.
 */
module Supervisor {
  import opened Json
  import opened Wrappers
  import opened Strings
  import opened Management
  import opened Subscription

  /** The settings files Dynaconf reads when no `--config` is given. */
  const DefaultSettingsFiles: seq<string> := ["config.yaml", "config.yml"]

  /** The message `main` exits with when `--config` has the wrong extension. */
  const WrongExtension: string := "Please provide a `yaml` or `yml` configuration file."

  datatype Settings = Files(paths: seq<string>) | Refused(message: string)

  /**
   * `main`'s handling of `--config` (fever.py:288-296). An absent or empty argument
   * keeps the defaults; any other path must end in "yaml" or "yml" (no dot is
   * required) and then replaces them; otherwise `sys.exit` refuses it.
   */
  function SettingsFiles(config: Option<string>): (r: Settings)
    ensures r.Refused? <==>
      config.Some? && config.value != [] && !EndsWith(config.value, "yaml") && !EndsWith(config.value, "yml")
    ensures r.Refused? ==> r.message == WrongExtension
    ensures r.Files? ==> forall p :: p in r.paths ==> EndsWith(p, "yaml") || EndsWith(p, "yml")
    ensures r.Files? && config.Some? && config.value != [] ==> r.paths == [config.value]
    ensures config.None? || config.value == [] ==> r == Files(DefaultSettingsFiles)
  {
    match config
    case None => Files(DefaultSettingsFiles)
    case Some(path) =>
      if path == [] then Files(DefaultSettingsFiles)
      else if !EndsWith(path, "yaml") && !EndsWith(path, "yml") then Refused(WrongExtension)
      else Files([path])
  }

  /** The exceptions `main` distinguishes; `OtherError` is anything it does not catch. */
  datatype Exc = KeyboardInterrupt | SystemExit | Cancelled | OtherError

  /** How `asyncio.run(start(...))` ended. */
  datatype EpochEnd = Returned | Raised(exc: Exc)

  /** What `main` does next: run `start` again, return, or let the exception escape. */
  datatype Decision = Restart | Exit | Propagate

  /** The `try`/`except` body of `main`'s loop (fever.py:311-325). */
  function Decide(end: EpochEnd, userExit: bool): (d: Decision)
    ensures d == Exit <==>
      end.Raised? && (end.exc == KeyboardInterrupt || end.exc == SystemExit || (end.exc == Cancelled && userExit))
    ensures d == Restart <==> end == Returned || (end == Raised(Cancelled) && !userExit)
    ensures d == Propagate <==> end == Raised(OtherError)
  {
    match end
    case Returned => Restart
    case Raised(exc) =>
      match exc
      case KeyboardInterrupt => Exit
      case SystemExit => Exit
      case Cancelled => if userExit then Exit else Restart
      case OtherError => Propagate
  }

  /** The tasks `start` creates, in the order it appends them to `async_tasks`. */
  datatype TaskKind = HeartbeatTask | ReceiveTask | ProcessTask

  const EpochTasks: seq<TaskKind> := [HeartbeatTask, ReceiveTask, ProcessTask]

  /**
   * The bridge's mutable state: the lease (`p2p_topic` and the atexit registrations),
   * the management requests sent so far, `async_tasks`, `user_exit`, and the indicator
   * queue with its count of items not yet marked done.
   */
  datatype BridgeState = BridgeState(
    lease: Lease,
    sent: seq<Message>,
    tasks: seq<TaskKind>,
    userExit: bool,
    queue: seq<string>,
    unfinished: nat)

  /** The process starts with no lease, no tasks, no exit request and an empty queue. */
  const Initial: BridgeState := BridgeState(NoLease, [], [], false, [], 0)

  /**
   * `start` up to the point where it waits on its tasks (fever.py:195-229): the handshake,
   * and on success the three tasks appended in order and a fresh, empty queue.
   */
  function StartStep(s: BridgeState, endpoint: string, snapshot: int, reply: Value): (r: (BridgeState, Option<Subscription>))
    ensures r.1 == ParseSubscription(endpoint, reply)
    ensures var h := Handover(s.lease, endpoint, snapshot, reply);
      r.0.lease == h.lease && r.0.sent == s.sent + h.sent
    ensures r.1.None? ==> r.0 == s.(sent := r.0.sent)
    ensures r.1.Some? ==> r.0.tasks == s.tasks + EpochTasks && r.0.queue == [] && r.0.unfinished == 0
    ensures r.0.userExit == s.userExit
  {
    var h := Handover(s.lease, endpoint, snapshot, reply);
    var handshaken := s.(lease := h.lease, sent := s.sent + h.sent);
    if h.granted.None? then (handshaken, None)
    else (handshaken.(tasks := s.tasks + EpochTasks, queue := [], unfinished := 0), h.granted)
  }

  /**
   * One epoch as `main` sees it. `interrupted` is an exception raised while `start` still
   * waits for the subscribe reply (fever.py:110): no asyncio signal handler exists yet, so
   * SIGINT surfaces there as KeyboardInterrupt and leaves `asyncio.run` at once. Otherwise
   * `reply` answers the subscribe request; if the subscription is granted, the tasks run
   * until `raised` ends `start`, and `signalled` says whether SIGHUP, SIGTERM or SIGINT
   * reached `stop_signal` meanwhile. A heartbeat failure shows up as `raised == Cancelled`
   * without a signal; a consumer task that dies of a parse error (fever.py:279) shows up
   * as `raised == OtherError`, re-raised by `gather` (fever.py:234).
   */
  datatype Epoch = Epoch(interrupted: Option<Exc>, reply: Value, signalled: bool, raised: Exc)

  /** The reply the handshake acts on: an interrupted handshake sent its request and got none. */
  function Answer(e: Epoch): Value {
    if e.interrupted.Some? then Null else e.reply
  }

  /**
   * One epoch: `start`, then `stop_signal` (sets `user_exit`, then cancels the tasks) or
   * the heartbeat's own cancellation, then `main`'s decision. The signal handlers are
   * installed only once the tasks exist (fever.py:231-233), so `stop_signal` can only run
   * after a granted subscription; a signal before that is an interrupted handshake.
   */
  function EpochStep(s: BridgeState, endpoint: string, snapshot: int, e: Epoch): (r: (BridgeState, Decision))
  {
    var (started, granted) := StartStep(s, endpoint, snapshot, Answer(e));
    if e.interrupted.Some? then (started, Decide(Raised(e.interrupted.value), started.userExit))
    else if granted.None? then (started, Decide(Returned, started.userExit))
    else
      var ended :=
        if e.signalled then started.(userExit := true, tasks := [])
        else if e.raised == Cancelled then started.(tasks := [])
        else started;
      (ended, Decide(Raised(e.raised), ended.userExit))
  }

  /**
   * What ends an epoch decides what `main` does next: an exception during the handshake
   * is decided like any other (KeyboardInterrupt exits); a refused handshake restarts; a
   * signal sets `user_exit` and cancels the tasks, so the epoch never restarts and its
   * CancelledError exits; CancelledError without a signal (the heartbeat found the lease
   * invalid) restarts, with the tasks cancelled; any other exception escapes `main`.
   */
  lemma EpochDecision(s: BridgeState, endpoint: string, snapshot: int, e: Epoch)
    ensures var r := EpochStep(s, endpoint, snapshot, e);
      var granted := e.interrupted.None? && ParseSubscription(endpoint, e.reply).Some?;
      && (e.interrupted.Some? ==> r.1 == Decide(Raised(e.interrupted.value), s.userExit) && r.0.tasks == s.tasks)
      && (e.interrupted.None? && !granted ==> r.1 == Restart && r.0.tasks == s.tasks)
      && (granted && e.signalled ==> r.1 != Restart && r.0.tasks == [])
      && (granted && e.signalled && e.raised == Cancelled ==> r.1 == Exit)
      && (granted && !e.signalled && !s.userExit && e.raised == Cancelled ==> r.1 == Restart && r.0.tasks == [])
      && (granted && !e.signalled && e.raised == OtherError ==> r.1 == Propagate)
      && r.0.userExit == (s.userExit || (granted && e.signalled))
  {
  }

  /** An epoch changes the lease and the requests exactly as its handshake does. */
  lemma EpochHandover(s: BridgeState, endpoint: string, snapshot: int, e: Epoch)
    ensures var r := EpochStep(s, endpoint, snapshot, e);
      var h := Handover(s.lease, endpoint, snapshot, Answer(e));
      r.0.lease == h.lease && r.0.sent == s.sent + h.sent
  {
  }

  /**
   * `main`'s `while True` over a run of epochs: the final state, how many epochs ran, and
   * the decision taken after the last one (`Restart` when the epochs ran out first).
   */
  function MainLoop(s: BridgeState, endpoint: string, snapshot: int, epochs: seq<Epoch>): (r: (BridgeState, nat, Decision))
    ensures r.1 <= |epochs|
    ensures r.2 == Restart ==> r.1 == |epochs|
    ensures r.2 != Restart ==> r.1 >= 1
    decreases |epochs|
  {
    if epochs == [] then (s, 0, Restart)
    else
      var (next, d) := EpochStep(s, endpoint, snapshot, epochs[0]);
      if d != Restart then (next, 1, d)
      else
        var (last, n, d') := MainLoop(next, endpoint, snapshot, epochs[1..]);
        (last, n + 1, d')
  }

  /** One turn of `main`'s loop, as the imperative loop takes it: MainLoop unfolded once. */
  lemma MainLoopTurn(s: BridgeState, endpoint: string, snapshot: int, epochs: seq<Epoch>)
    requires epochs != []
    ensures var step := EpochStep(s, endpoint, snapshot, epochs[0]);
      var rest := MainLoop(step.0, endpoint, snapshot, epochs[1..]);
      MainLoop(s, endpoint, snapshot, epochs)
        == if step.1 != Restart then (step.0, 1, step.1) else (rest.0, rest.1 + 1, rest.2)
  {
  }

  /** MainLoopTurn for the epochs from index `i` on, as a loop over an index meets them. */
  lemma MainLoopFrom(s: BridgeState, endpoint: string, snapshot: int, epochs: seq<Epoch>, i: nat)
    requires i < |epochs|
    ensures var step := EpochStep(s, endpoint, snapshot, epochs[i]);
      var rest := MainLoop(step.0, endpoint, snapshot, epochs[i + 1..]);
      MainLoop(s, endpoint, snapshot, epochs[i..])
        == if step.1 != Restart then (step.0, 1, step.1) else (rest.0, rest.1 + 1, rest.2)
  {
    assert epochs[i..][0] == epochs[i] && epochs[i..][1..] == epochs[i + 1..];
    MainLoopTurn(s, endpoint, snapshot, epochs[i..]);
  }

  /** The state in which epoch `k` starts when every epoch before it decided to restart. */
  function StateBefore(s: BridgeState, endpoint: string, snapshot: int, epochs: seq<Epoch>, k: nat): BridgeState
    requires k <= |epochs|
    decreases k
  {
    if k == 0 then s
    else StateBefore(EpochStep(s, endpoint, snapshot, epochs[0]).0, endpoint, snapshot, epochs[1..], k - 1)
  }

  /** The decision taken after epoch `k`, run from StateBefore. */
  function DecisionAt(s: BridgeState, endpoint: string, snapshot: int, epochs: seq<Epoch>, k: nat): Decision
    requires k < |epochs|
  {
    EpochStep(StateBefore(s, endpoint, snapshot, epochs, k), endpoint, snapshot, epochs[k]).1
  }

  /**
   * `main`'s loop stops at the first epoch whose decision is not a restart and acts on
   * that decision: every earlier epoch decided to restart, the last one run decided
   * what the loop returns, and the final state is the one that epoch left.
   */
  lemma {:induction false} MainLoopStopsAtFirstExit(s: BridgeState, endpoint: string, snapshot: int, epochs: seq<Epoch>)
    ensures var r := MainLoop(s, endpoint, snapshot, epochs);
      && r.0 == StateBefore(s, endpoint, snapshot, epochs, r.1)
      && (forall k :: 0 <= k < r.1 - 1 ==> DecisionAt(s, endpoint, snapshot, epochs, k) == Restart)
      && (r.1 == 0 ==> epochs == [] && r.2 == Restart)
      && (r.1 > 0 ==> r.2 == DecisionAt(s, endpoint, snapshot, epochs, r.1 - 1))
    decreases |epochs|
  {
    if epochs != [] {
      var r := MainLoop(s, endpoint, snapshot, epochs);
      var step := EpochStep(s, endpoint, snapshot, epochs[0]);
      MainLoopTurn(s, endpoint, snapshot, epochs);
      assert DecisionAt(s, endpoint, snapshot, epochs, 0) == step.1;
      assert StateBefore(s, endpoint, snapshot, epochs, 1) == step.0;
      if step.1 == Restart {
        var rest := MainLoop(step.0, endpoint, snapshot, epochs[1..]);
        assert r == (rest.0, rest.1 + 1, rest.2);
        MainLoopStopsAtFirstExit(step.0, endpoint, snapshot, epochs[1..]);
        forall k | 1 <= k <= rest.1
          ensures DecisionAt(s, endpoint, snapshot, epochs, k)
               == DecisionAt(step.0, endpoint, snapshot, epochs[1..], k - 1)
        {
          assert epochs[1..][k - 1] == epochs[k];
        }
      }
    }
  }

  /**
   * `user_exit` is never reset: once a signal has been seen, it stays set for every
   * later epoch, so a later CancelledError ends the process.
   */
  lemma {:induction false} UserExitIsSticky(s: BridgeState, endpoint: string, snapshot: int, epochs: seq<Epoch>)
    requires s.userExit
    ensures MainLoop(s, endpoint, snapshot, epochs).0.userExit
    decreases |epochs|
  {
    if epochs != [] {
      var step := EpochStep(s, endpoint, snapshot, epochs[0]);
      EpochDecision(s, endpoint, snapshot, epochs[0]);
      if step.1 == Restart {
        UserExitIsSticky(step.0, endpoint, snapshot, epochs[1..]);
      }
    }
  }

  /** The replies the handshakes of a run of epochs acted on. */
  function RepliesOf(epochs: seq<Epoch>): (rs: seq<Value>)
    ensures |rs| == |epochs|
    ensures forall k :: 0 <= k < |epochs| ==> rs[k] == Answer(epochs[k])
  {
    seq(|epochs|, k requires 0 <= k < |epochs| => Answer(epochs[k]))
  }

  /** The lease and the requests after `main`'s loop are those of the handshakes of the epochs it ran. */
  lemma {:induction false} MainLoopHandovers(s: BridgeState, endpoint: string, snapshot: int, epochs: seq<Epoch>)
    ensures var r := MainLoop(s, endpoint, snapshot, epochs);
      var h := Handovers(s.lease, endpoint, snapshot, RepliesOf(epochs[..r.1]));
      r.0.lease == h.lease && r.0.sent == s.sent + h.sent
    decreases |epochs|
  {
    var r := MainLoop(s, endpoint, snapshot, epochs);
    if epochs == [] {
      assert RepliesOf(epochs[..r.1]) == [];
    } else {
      var step := EpochStep(s, endpoint, snapshot, epochs[0]);
      var first := Handover(s.lease, endpoint, snapshot, Answer(epochs[0]));
      EpochHandover(s, endpoint, snapshot, epochs[0]);
      var replies := RepliesOf(epochs[..r.1]);
      assert r.1 >= 1 && replies[0] == Answer(epochs[0]);
      var later := Handovers(first.lease, endpoint, snapshot, replies[1..]);
      var h := Handovers(s.lease, endpoint, snapshot, replies);
      assert h.lease == later.lease && h.sent == first.sent + later.sent;
      if step.1 != Restart {
        assert r.0 == step.0 && replies[1..] == [];
        assert later.sent == [] && first.sent + [] == first.sent;
      } else {
        var rest := MainLoop(step.0, endpoint, snapshot, epochs[1..]);
        assert r.0 == rest.0 && r.1 == rest.1 + 1;
        assert replies[1..] == RepliesOf(epochs[1..][..rest.1]);
        assert rest.0.lease == later.lease && rest.0.sent == step.0.sent + later.sent by {
          MainLoopHandovers(step.0, endpoint, snapshot, epochs[1..]);
        }
        SentRegroup(s.sent, first.sent, later.sent);
      }
    }
  }

  /**
   * Associativity for MainLoopHandovers, a proof helper that exists only to keep that
   * induction step cheap to verify: it models nothing in the bridge.
   */
  lemma SentRegroup(sent: seq<Message>, first: seq<Message>, later: seq<Message>)
    ensures (sent + first) + later == sent + (first + later)
  {
  }

  /**
   * Across restarts, every p2p topic the bridge ever adopted is released exactly once
   * and in order: the superseded ones by an unsubscribe on the next handover, the last
   * one by the single exit-time registration left behind.
   */
  lemma MainLoopReleasesEveryLease(endpoint: string, snapshot: int, epochs: seq<Epoch>)
    ensures var r := MainLoop(Initial, endpoint, snapshot, epochs);
      && |r.0.lease.handlers| <= 1
      && Released(r.0.sent) + ExitTopics(r.0.lease) == AdoptedTopics(endpoint, RepliesOf(epochs[..r.1]))
  {
    var r := MainLoop(Initial, endpoint, snapshot, epochs);
    MainLoopHandovers(Initial, endpoint, snapshot, epochs);
    FromNoLease(endpoint, snapshot, RepliesOf(epochs[..r.1]));
    assert Initial.sent + Handovers(NoLease, endpoint, snapshot, RepliesOf(epochs[..r.1])).sent
        == Handovers(NoLease, endpoint, snapshot, RepliesOf(epochs[..r.1])).sent;
  }
}
