# fever-threatbus bridge: a verified model of its decision logic

`fever_threatbus/fever.py` connects a FEVER deployment to a Threat Bus host. It
subscribes to the topic `stix2/indicator` over the Threat Bus management protocol
(ZeroMQ request/reply with JSON bodies). It is given a private point-to-point topic,
the "p2p topic" or lease, which it keeps alive with heartbeats. It receives indicators
on a data channel, queues them, and hands them to a consumer. A `main` loop restarts
the whole thing whenever the tasks get cancelled, unless the user asked the process to
stop.

This project models the sequential logic inside that plumbing and proves what it
promises:

- `Json` holds the Python values a reply decodes to and Python truthiness on them.
- `Management` covers `reply_is_success`, the management requests and the heartbeat
  loop.
- `Subscription` covers the handshake of `start`:
  - when a subscribe reply grants a lease;
  - how the data-channel endpoints are derived from the management endpoint;
  - the lease handover from the old p2p topic to the new one, with its exit-time
    unsubscribe registration.
  It also proves the lease accounting over any run of restarts: every adopted topic
  is released exactly once, in order.
- `Receiver` covers the per-message step of `receive`: split at the first space, keep
  only topics ending in `indicator`.
- `Supervisor` covers the `--config` extension check and `main`'s restart decision. It
  also gives the whole bridge as a pure state machine over "epochs" (one call of
  `start` each), and states the properties of that machine.
- `Bridge.Bridge` is the bridge's global state as a class: `p2p_topic`, the atexit
  registrations, `async_tasks`, `user_exit` and the indicator queue. Its methods perform
  each step in place. Each method is proved equal to the corresponding `Supervisor`
  function, or states its new state outright.
- `Wrappers` (Option, FilterMap) and `Strings` (`str.endswith`) are helpers.

I/O and the event loop become explicit inputs:

- the reply to each management request, where a timeout is `Null`, the same value a
  JSON `null` decodes to;
- each data-channel frame, already decoded or marked undecodable;
- whether `stix2.parse` accepts a message;
- for each epoch: an exception that interrupted the handshake, if any; whether a signal
  reached `stop_signal`; and which exception ended `asyncio.run`.

Some behaviour of the code is easy to misread:

- The config check tests `endswith("yaml")` and `endswith("yml")`, with no dot. So
  `myyaml` passes and `config.YAML` does not.
- The consumer only parses each item and marks it done.
- `do_something_with_intel` does not catch a `stix2.parse` failure. The exception ends
  the consumer task, and the item it took is never marked done. `asyncio.gather` in
  `start` (fever.py:234) re-raises it, `asyncio.run` re-raises it again, and neither of
  `main`'s handlers (fever.py:319, 321) catches it. So the whole process ends without a
  restart: the epoch's decision is `Propagate`.
- The asyncio signal handlers exist only once the tasks do (fever.py:231-233). While
  `start` waits for the subscribe reply (fever.py:110), SIGINT raises KeyboardInterrupt
  out of `asyncio.run`, and `main` returns (fever.py:319-320).

## Model

| member | source | states |
|---|---|---|
| Json.Truthy | fever_threatbus/fever.py:125-127 | Python's `bool()`, which every `if not x` in the bridge tests; its falsy values are the ones `FalsyValues` lists |
| Json.FalsyValues | fever_threatbus/fever.py:125-127 | a value is falsy exactly when it is None, False, 0, 0.0, "", [] or {} |
| Management.ReplyIsSuccess | fever_threatbus/fever.py:117-129 | the `and`-chain's value is truthy exactly when the reply is a dict whose "status" is the string "success"; so no reply (timeout `None`), a non-dict, an empty dict, or a missing or other status all fail, and a falsy reply is returned as is |
| Management.FirstFailure | fever_threatbus/fever.py:175-178 | the index at which the heartbeat stops: every earlier reply is a success, and the one at that index is not (or there is none) |
| Management.HeartbeatLoop | fever_threatbus/fever.py:164-180 | one heartbeat `{"action": "heartbeat", "topic": p2p_topic}` per iteration while replies succeed; it fails iff some reply is not a success, sends exactly up to and including the first failing reply's request, and never sends after it |
| Subscription.Host | fever_threatbus/fever.py:205 | `endpoint.split(":")[0]`: the longest ':'-free prefix of the endpoint, followed by ':' unless it is the whole endpoint |
| Subscription.PortText | fever_threatbus/fever.py:206-207 | `str(port)` inside the f-string: an integer port is written as decimal digits without leading zeros, after a '-' when negative, and those digits read back as the port; a string port is itself; True, False and None are written by name |
| Subscription.DigitsRoundTrip | fever_threatbus/fever.py:206-207 | the decimal digits written for a natural number read back as that number |
| Subscription.Text | fever_threatbus/fever.py:205-207 | `f"{zmq_host}:{port}"`: splitting a derived endpoint at its first ':' gives back the ':'-free host it was built on, and the rest is the port's text |
| Subscription.ParseSubscription | fever_threatbus/fever.py:195-207 | a lease is granted iff the reply is a success and carries truthy "pub_port", "sub_port" and "topic" (port 0 or "" counts as missing); then the topic and ports are the reply's own, on the management endpoint's host |
| Subscription.Handover | fever_threatbus/fever.py:195-217 | a handshake always sends the subscribe for "stix2/indicator" first; a refused one changes no lease and sends nothing else; a granted one unsubscribes the old truthy p2p topic before adopting the new, leaving exactly one exit-time unsubscribe, for the new topic; the single-registration invariant is kept |
| Subscription.Handovers | fever_threatbus/fever.py:195-217 | the handshakes of successive `start` calls, one per reply: each sends at least its subscribe request, and the grant reported is the last handshake's; `EveryLeaseReleasedOnce` states its lease accounting |
| Subscription.HandoverAccounting | fever_threatbus/fever.py:210-217 | one handshake releases exactly the lease it supersedes and registers exactly the one it adopts |
| Subscription.EveryLeaseReleasedOnce | fever_threatbus/fever.py:210-217 | over any run of handshakes, the unsubscribed topics followed by the exit-registered one are the topics held before plus the adopted topics, in adoption order: none leaked, none released twice |
| Subscription.FromNoLease | fever_threatbus/fever.py:210-217 | from `p2p_topic = None`, at most one exit registration is ever left, and every adopted topic is released exactly once, in order |
| Receiver.SplitFirst | fever_threatbus/fever.py:257 | `text.split(" ", 1)` unpacked into two names succeeds iff the text has a space; the topic has no space and topic + " " + payload is the text |
| Receiver.SplitJoin | fever_threatbus/fever.py:257 | splitting a space-free topic joined to any payload by a space gives them back, with the payload's own spaces intact |
| Receiver.Payload | fever_threatbus/fever.py:256-267 | an undecodable frame or one without a space is dropped; a kept payload is the rest of a message whose topic ends in "indicator" |
| Receiver.PayloadOfMessage | fever_threatbus/fever.py:256-267 | for a message "<topic> <payload>", the payload is enqueued exactly when the topic ends in "indicator" |
| Receiver.AcceptedAppend | fever_threatbus/fever.py:262-267 | the payloads kept from two runs of frames are those of the first run followed by those of the second: queue order is receipt order |
| Receiver.AcceptedFromFrames | fever_threatbus/fever.py:256-267 | every queued payload was carried, as an indicator payload, by some received frame |
| Supervisor.SettingsFiles | fever_threatbus/fever.py:288-296 | no `--config` or an empty one keeps "config.yaml" and "config.yml"; a path is refused with the fixed message iff it ends in neither "yaml" nor "yml"; otherwise it replaces the defaults |
| Supervisor.Decide | fever_threatbus/fever.py:311-325 | exit iff KeyboardInterrupt, SystemExit, or CancelledError with `user_exit` set; restart iff `start` returned or CancelledError without `user_exit`; any other exception escapes |
| Supervisor.StartStep | fever_threatbus/fever.py:195-229 | `start` changes the lease and the requests sent exactly as its handshake (`Handover`) does; a refused handshake changes nothing else; a granted one appends the heartbeat, receive and process tasks in that order and starts a fresh empty queue; `user_exit` is untouched |
| Supervisor.EpochStep | fever_threatbus/fever.py:311-325 | one pass of `main`'s loop body (the `start` call of fever.py:195-234) together with `stop_signal` and the heartbeat's cancellation; what it decides is stated by `EpochDecision`, what it does to the lease and requests by `EpochHandover` |
| Supervisor.EpochDecision | fever_threatbus/fever.py:79-87 | an exception during the handshake is decided as `main` decides it (KeyboardInterrupt returns, fever.py:319-320); a refused handshake restarts with the tasks untouched; a signal sets `user_exit` and cancels the tasks, so the epoch never restarts and its CancelledError exits; a CancelledError from the heartbeat without a signal restarts with the tasks cancelled; a task's uncaught exception, such as a parse error, escapes `main` |
| Supervisor.EpochHandover | fever_threatbus/fever.py:195-217 | an epoch changes the lease and the requests sent exactly as its handshake does; an interrupted handshake is one that got no reply |
| Supervisor.MainLoop | fever_threatbus/fever.py:311-325 | the loop runs at most the given epochs; it ends before they run out only on an exit or escape decision, after at least one epoch; `MainLoopStopsAtFirstExit` says where it stops |
| Supervisor.MainLoopStopsAtFirstExit | fever_threatbus/fever.py:311-325 | the loop stops at the first epoch whose decision is not a restart and returns that decision: every earlier epoch decided to restart, and the final state is the one the last epoch run left |
| Supervisor.UserExitIsSticky | fever_threatbus/fever.py:85-86 | `user_exit` is never cleared once set; with `EpochDecision`, an epoch that saw a signal after a granted handshake never restarts |
| Supervisor.MainLoopHandovers | fever_threatbus/fever.py:311-325 | after the loop, the lease and the requests sent are those of the handshakes of the epochs that ran, in order |
| Supervisor.MainLoopReleasesEveryLease | fever_threatbus/fever.py:210-217 | across all restarts of a process, every p2p topic adopted is released exactly once and in order, and at most one exit registration remains |
| Bridge.Bridge.constructor | fever_threatbus/fever.py:18-23 | the globals start with no lease, no registrations, no tasks, `user_exit` false and an empty queue |
| Bridge.Bridge.AdoptLease | fever_threatbus/fever.py:210-217 | the old truthy p2p topic is unsubscribed and its registration dropped before the new topic is set and registered alone |
| Bridge.Bridge.Start | fever_threatbus/fever.py:195-229 | in place, `start`'s handshake and task creation do exactly what `StartStep` says, and the single-registration invariant is kept |
| Bridge.Bridge.CancelTasks | fever_threatbus/fever.py:66-76 | `async_tasks` is emptied |
| Bridge.Bridge.StopSignal | fever_threatbus/fever.py:79-87 | `user_exit` is set and the tasks are cancelled |
| Bridge.Bridge.RunHeartbeat | fever_threatbus/fever.py:164-180 | the heartbeat for the current p2p topic beats up to the first failing reply and then cancels the tasks; otherwise it leaves them |
| Bridge.Bridge.Put | fever_threatbus/fever.py:267 | the payload goes to the back of the queue and counts as unfinished |
| Bridge.Bridge.Take | fever_threatbus/fever.py:278 | the consumer removes the front item; on an empty queue it gets nothing (where asyncio would wait) |
| Bridge.Bridge.TaskDone | fever_threatbus/fever.py:283 | `task_done` succeeds iff some item is unfinished, and then decrements the count |
| Bridge.Bridge.Receive | fever_threatbus/fever.py:256-267 | one received frame appends its accepted payload, if any, to the back of the queue and leaves it unchanged otherwise |
| Bridge.Bridge.ReceiveAll | fever_threatbus/fever.py:253-267 | a run of frames appends exactly the accepted payloads, in receipt order |
| Bridge.Bridge.Consume | fever_threatbus/fever.py:277-283 | the consumer takes items front first, parses and marks each done; it stops with the queue empty, or at the first item that fails to parse, which is taken but never marked done |
| Bridge.Bridge.RunEpoch | fever_threatbus/fever.py:311-325 | one pass of `main`'s loop body in place does exactly what `EpochStep` says |
| Bridge.Bridge.Supervise | fever_threatbus/fever.py:311-325 | `main`'s loop in place does exactly what `MainLoop` says: same final state, epoch count and decision |

## Left out

- ZeroMQ contexts, sockets, pollers and timeouts (fever.py:101-114, 247-254) are
  network I/O. Replies and frames are inputs, and a timeout is the `Null` reply.
- The SUB socket's prefix subscription on the p2p topic (fever.py:249) happens in the
  transport. Frames reach the model after it.
- UTF-8 decoding is not modelled. A frame is already text, or undecodable.
- asyncio task creation, `gather`, cancellation, sleeps and signal-handler installation
  (fever.py:66-76, 220-234, 269) are concurrency. Only two things are kept: the ordered
  list of task kinds, and the exception that ends an epoch. `cancel_async_tasks`
  empties `async_tasks` before it gathers, so it waits on nothing. The model keeps only
  the emptying.
- `unsubscribe`'s own reply check (fever.py:158-161) only decides what gets logged. The
  request is modelled; the reply is not.
- Bridge.Bridge.RunHeartbeat and Management.HeartbeatLoop run over a finite sequence of
  replies. Running out of replies stands for "still beating". The `while True` never
  ends on its own.
- Bridge.Bridge.Take returns nothing on an empty queue, where `Queue.get` would suspend
  the task.
- A handshake interrupted by an exception is modelled as one that sent its subscribe
  request and got no reply. An exception raised before the request went out is not
  told apart.
- Supervisor.EpochStep lets an exception interrupt only the wait for the subscribe
  reply. The wait for the old topic's unsubscribe reply (fever.py:214, up to 5 s in the
  poll at fever.py:110) is not an interruption point. It comes after the grant and
  before fever.py:215-217. A KeyboardInterrupt there makes `main` return with the old
  topic already unsubscribed but still registered for exit, and with the new grant never
  recorded. So the old topic is released twice and the new one never. The accounting
  lemmas (EveryLeaseReleasedOnce, MainLoopReleasesEveryLease) hold only for the epochs
  the model can represent.
- SIGTERM or SIGHUP before the asyncio handlers exist ends the process through the
  default signal action, outside Python's exceptions. Only exceptions are modelled.
- `stix2.parse` is a foreign library. Whether it accepts a message is a parameter, and
  the parsed indicator is opaque.
- Logging (every `logger` call), `setup_logging_with_config`, argparse and Dynaconf
  loading and validation (fever.py:28-63, 289-309) are thin wrappers over unseen
  libraries. Only the `--config` extension check is modelled.
- `atexit` is modelled as a list of pending unsubscribe registrations. Running them at
  process exit is not modelled.
- Subscription.PortText renders only scalar ports (its `requires Renderable`): None,
  booleans, integers and strings. Python's `str()` of float, list and dict ports is not
  modelled.
- Subscription.Text renders only scalar ports: None, booleans, integers and strings.
  Float, list and dict ports keep their value, but Python's `str()` of them is not
  modelled.
- setup.py is packaging metadata and is not part of this model.
