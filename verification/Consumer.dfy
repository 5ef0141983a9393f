/** The event processor behind its broker: a message leaves the queue when the handler returns nil, and the handler
    returns nil once it has offered the message to the worker queue, whether or not there was room. */
module Consumer {
  import opened Model
  import opened Tables
  import B = Broker
  import P = Pool

  type Message = BlockWithTransactions

  datatype System = System(broker: B.Broker, pool: P.Pool)

  const START := System(B.START, P.START)

  datatype Handled = Handled(pool: P.Pool, ok: bool)

  /** The handler: an undecodable message is an error; any other is offered to the workers, and that is a success. */
  function Handle(decode: string -> Option<Message>, pool: P.Pool, body: string): Handled {
    match decode(body)
    case None => Handled(pool, false)
    case Some(m) => Handled(P.Accept(pool, m), true)
  }

  /** Handover is one delivery from the processor's queue; all else happens at the broker or among the workers. */
  datatype Action = Outside(a: B.Action) | Handover(e: B.Envelope, deleteOk: bool) | Worker(w: P.Action)

  /** q is the queue of the processor's subscription. */
  predicate Step(cfg: Config, q: nat, decode: string -> Option<Message>, s: System, a: Action, s': System) {
    match a
    case Outside(b) =>
      !(b.Process? && b.queue == q) && s' == System(B.Next(s.broker, b), s.pool)
    case Handover(e, deleteOk) =>
      B.Deliverable(s.broker, q, e) &&
      var h := Handle(decode, s.pool, e.body);
      s' == System(B.Next(s.broker, B.Process(q, e, h.ok, deleteOk)), h.pool)
    case Worker(w) => !w.Deliver? && P.Step(cfg, s.pool, w, s'.pool) && s'.broker == s.broker
  }

  /** Any finite sequence of steps, from any state. */
  ghost predicate Steps(cfg: Config, q: nat, decode: string -> Option<Message>, run: seq<System>, acts: seq<Action>) {
    |run| == |acts| + 1 && forall i :: 0 <= i < |acts| ==> Step(cfg, q, decode, run[i], acts[i], run[i + 1])
  }

  ghost predicate Reachable(cfg: Config, q: nat, decode: string -> Option<Message>, s: System) {
    exists run, acts :: Steps(cfg, q, decode, run, acts) && run[0] == START && run[|acts|] == s
  }

  lemma ReachableStep(cfg: Config, q: nat, decode: string -> Option<Message>, s: System, a: Action, s': System)
    requires Reachable(cfg, q, decode, s) && Step(cfg, q, decode, s, a, s')
    ensures Reachable(cfg, q, decode, s')
  {
    var run, acts :| Steps(cfg, q, decode, run, acts) && run[0] == START && run[|acts|] == s;
    var run', acts' := run + [s'], acts + [a];
    forall i | 0 <= i < |acts'| ensures Step(cfg, q, decode, run'[i], acts'[i], run'[i + 1]) {
      if i < |acts| { assert Step(cfg, q, decode, run[i], acts[i], run[i + 1]); }
    }
    assert Steps(cfg, q, decode, run', acts') && run'[|acts'|] == s';
  }

  /** To the workers every hand-over is a delivery or nothing: all results about the pool hold here. */
  lemma {:induction false} PoolReachable(cfg: Config, q: nat, decode: string -> Option<Message>, run: seq<System>,
                                         acts: seq<Action>, n: nat)
    requires Steps(cfg, q, decode, run, acts) && run[0] == START && n <= |acts|
    ensures P.Reachable(cfg, run[n].pool)
  {
    if n == 0 {
      P.StartReachable(cfg);
    } else {
      PoolReachable(cfg, q, decode, run, acts, n - 1);
      var s, a, s' := run[n - 1], acts[n - 1], run[n - 1 + 1];
      assert Step(cfg, q, decode, s, a, s');
      match a {
        case Outside(b) =>
        case Handover(e, deleteOk) =>
          if decode(e.body).Some? { P.ReachableStep(cfg, s.pool, P.Deliver(decode(e.body).value), s'.pool); }
        case Worker(w) => P.ReachableStep(cfg, s.pool, w, s'.pool);
      }
    }
  }

  // ---------------------------------------------------------------- a published message is pending or has arrived

  predicate Pending(s: System, q: nat, e: B.Envelope) { q < |s.broker.queues| && e in s.broker.queues[q].pending }

  /** The message the body stands for was offered to the workers. */
  predicate Arrived(decode: string -> Option<Message>, s: System, body: string) {
    decode(body).Some? && exists a :: a in s.pool.arrivals && a.msg == decode(body).value
  }

  lemma PendingOrArrivedStep(cfg: Config, q: nat, decode: string -> Option<Message>, s: System, a: Action, s': System,
                             e: B.Envelope)
    requires Step(cfg, q, decode, s, a, s') && (Pending(s, q, e) || Arrived(decode, s, e.body))
    ensures Pending(s', q, e) || Arrived(decode, s', e.body)
  {
    ArrivalsStay(cfg, q, decode, s, a, s');
    if Pending(s, q, e) {
      match a {
        case Outside(b) => PendingStays(s.broker, b, q, e);
        case Handover(f, deleteOk) =>
          if f == e && decode(e.body).Some? {
            assert s'.pool.arrivals[|s.pool.arrivals|].msg == decode(e.body).value;
          }
        case Worker(w) =>
      }
    }
  }

  lemma PendingStays(b: B.Broker, a: B.Action, q: nat, e: B.Envelope)
    requires q < |b.queues| && e in b.queues[q].pending && !(a.Process? && a.queue == q)
    ensures q < |B.Next(b, a).queues| && e in B.Next(b, a).queues[q].pending
  {
  }

  lemma ArrivalsStay(cfg: Config, q: nat, decode: string -> Option<Message>, s: System, a: Action, s': System)
    requires Step(cfg, q, decode, s, a, s')
    ensures s.pool.arrivals <= s'.pool.arrivals
  {
  }

  /** Step n publishes the body to the processor's linked queue, as envelope e. */
  predicate Publishes(q: nat, s: System, a: Action, e: B.Envelope) {
    && a.Outside? && a.a.Publish? && a.a.sendOk && e == B.Envelope(s.broker.nextId, a.a.body)
    && q < |s.broker.queues| && s.broker.queues[q].linked && s.broker.queues[q].topic == a.a.topic
    && (a.a.topic in s.broker.topics || a.a.topicOk)
  }

  /** At least once: at every later point of every run a published message is pending or was offered to the workers. */
  lemma {:induction false} PendingOrArrived(cfg: Config, q: nat, decode: string -> Option<Message>, run: seq<System>,
                                            acts: seq<Action>, n: nat, k: nat, e: B.Envelope)
    requires Steps(cfg, q, decode, run, acts) && n < k <= |acts| && Publishes(q, run[n], acts[n], e)
    ensures Pending(run[k], q, e) || Arrived(decode, run[k], e.body)
    decreases k - n
  {
    var s, a, s' := run[k - 1], acts[k - 1], run[k - 1 + 1];
    assert Step(cfg, q, decode, s, a, s');
    if k == n + 1 {
      assert s'.broker.queues[q] == B.Sent(s.broker.queues[q], a.a.topic, e);
    } else {
      PendingOrArrived(cfg, q, decode, run, acts, n, k - 1, e);
      PendingOrArrivedStep(cfg, q, decode, s, a, s', e);
    }
  }

  // ---------------------------------------------------------------- nothing arrives that was not published

  /** One of the first n steps published the envelope to the processor's queue. */
  predicate Sent(q: nat, run: seq<System>, acts: seq<Action>, n: nat, e: B.Envelope) {
    |run| == |acts| + 1 && n <= |acts| && exists i :: 0 <= i < n && Publishes(q, run[i], acts[i], e)
  }

  /** One of the first n steps published a body that stands for the message. */
  ghost predicate SentMessage(q: nat, decode: string -> Option<Message>, run: seq<System>, acts: seq<Action>, n: nat,
                              m: Message)
  {
    exists e :: Sent(q, run, acts, n, e) && decode(e.body) == Some(m)
  }

  lemma PendingSource(cfg: Config, q: nat, decode: string -> Option<Message>, s: System, a: Action, s': System,
                      e: B.Envelope)
    requires Step(cfg, q, decode, s, a, s') && Pending(s', q, e)
    ensures Pending(s, q, e) || Publishes(q, s, a, e)
  {
  }

  lemma ArrivalSource(cfg: Config, q: nat, decode: string -> Option<Message>, s: System, a: Action, s': System,
                      x: P.Arrival)
    requires Step(cfg, q, decode, s, a, s') && x in s'.pool.arrivals
    ensures x in s.pool.arrivals || (a.Handover? && Pending(s, q, a.e) && decode(a.e.body) == Some(x.msg))
  {
  }

  /** What is pending, and what was offered to the workers, was published to the processor's queue before. */
  lemma {:induction false} OnlySent(cfg: Config, q: nat, decode: string -> Option<Message>, run: seq<System>,
                                    acts: seq<Action>, n: nat)
    requires Steps(cfg, q, decode, run, acts) && run[0] == START && n <= |acts|
    ensures forall e :: Pending(run[n], q, e) ==> Sent(q, run, acts, n, e)
    ensures forall x :: x in run[n].pool.arrivals ==> SentMessage(q, decode, run, acts, n, x.msg)
  {
    if n > 0 {
      OnlySent(cfg, q, decode, run, acts, n - 1);
      var s, a, s' := run[n - 1], acts[n - 1], run[n - 1 + 1];
      assert Step(cfg, q, decode, s, a, s');
      forall e | Pending(s', q, e) ensures Sent(q, run, acts, n, e) { PendingSource(cfg, q, decode, s, a, s', e); }
      forall x | x in s'.pool.arrivals ensures SentMessage(q, decode, run, acts, n, x.msg) {
        ArrivalSource(cfg, q, decode, s, a, s', x);
        if x in s.pool.arrivals {
          var e :| Sent(q, run, acts, n - 1, e) && decode(e.body) == Some(x.msg);
          assert Sent(q, run, acts, n, e);
        } else {
          assert Sent(q, run, acts, n, a.e);
        }
      }
    }
  }

  // ---------------------------------------------------------------- what a hand-over does

  /** The handler's answer is an error exactly if the body does not decode, whether there is room or not; a decoded
      message becomes the last one waiting if and only if fewer than 100 wait; and the broker deletes what the handler
      did not answer with an error, if the deletion succeeds. */
  lemma HandoverDoes(cfg: Config, q: nat, decode: string -> Option<Message>, s: System, e: B.Envelope, deleteOk: bool,
                     s': System)
    requires Step(cfg, q, decode, s, Handover(e, deleteOk), s')
    ensures Handle(decode, s.pool, e.body).ok <==> decode(e.body).Some?
    ensures s'.pool.queue ==
            if decode(e.body).Some? && |s.pool.queue| < 100 then s.pool.queue + [decode(e.body).value] else s.pool.queue
    ensures s'.pool.core == s.pool.core && s'.pool.workers == s.pool.workers && s'.pool.verdicts == s.pool.verdicts
    ensures s'.broker.queues[q].pending ==
            if decode(e.body).Some? && deleteOk then s.broker.queues[q].pending - {e} else s.broker.queues[q].pending
    ensures |s'.broker.queues| == |s.broker.queues| &&
            forall p :: 0 <= p < |s.broker.queues| && p != q ==> s'.broker.queues[p] == s.broker.queues[p]
  {
  }

  /** Step i hands the message over while fewer than 100 wait. */
  predicate FindsRoom(decode: string -> Option<Message>, s: System, a: Action, m: Message) {
    a.Handover? && decode(a.e.body) == Some(m) && |s.pool.queue| < 100
  }

  lemma QueueableStep(cfg: Config, q: nat, decode: string -> Option<Message>, s: System, a: Action, s': System,
                      m: Message)
    requires Step(cfg, q, decode, s, a, s')
    ensures P.Queueable(s'.pool, m) <==> P.Queueable(s.pool, m) || FindsRoom(decode, s, a, m)
  {
    match a {
      case Outside(b) =>
      case Handover(e, deleteOk) =>
        if decode(e.body).Some? {
          var x := P.Arrival(decode(e.body).value, |s.pool.queue| < 100);
          P.QueuedIffRoom(cfg, s.pool, decode(e.body).value, s'.pool);
          assert s'.pool.arrivals[|s.pool.arrivals|] == x;
        }
      case Worker(w) => P.ArrivalsKept(cfg, s.pool, w, s'.pool);
    }
  }

  lemma {:induction false} QueueableIffRoom(cfg: Config, q: nat, decode: string -> Option<Message>, run: seq<System>,
                                            acts: seq<Action>, n: nat, m: Message)
    requires Steps(cfg, q, decode, run, acts) && run[0] == START && n <= |acts|
    ensures P.Queueable(run[n].pool, m) <==> exists i :: 0 <= i < n && FindsRoom(decode, run[i], acts[i], m)
  {
    if n > 0 {
      assert Step(cfg, q, decode, run[n - 1], acts[n - 1], run[n - 1 + 1]);
      QueueableIffRoom(cfg, q, decode, run, acts, n - 1, m);
      QueueableStep(cfg, q, decode, run[n - 1], acts[n - 1], run[n], m);
    }
  }

  /** If each delivery finds fewer than 100 waiting, each is queued. */
  lemma {:induction false} AllQueued(cfg: Config, q: nat, decode: string -> Option<Message>, run: seq<System>,
                                     acts: seq<Action>, n: nat)
    requires Steps(cfg, q, decode, run, acts) && run[0] == START && n <= |acts|
    requires forall i :: 0 <= i < n && acts[i].Handover? ==> |run[i].pool.queue| < 100
    ensures forall x :: x in run[n].pool.arrivals ==> x.queued
  {
    if n > 0 {
      var s, a, s' := run[n - 1], acts[n - 1], run[n - 1 + 1];
      assert Step(cfg, q, decode, s, a, s');
      AllQueued(cfg, q, decode, run, acts, n - 1);
      if a.Handover? && decode(a.e.body).Some? {
        P.QueuedIffRoom(cfg, s.pool, decode(a.e.body).value, s'.pool);
      } else if a.Worker? {
        P.ArrivalsKept(cfg, s.pool, a.w, s'.pool);
      }
    }
  }

  /** At rest, and with every delivery having found fewer than 100 waiting, the workers took exactly the messages
      published. */
  lemma TakenIffSent(cfg: Config, q: nat, decode: string -> Option<Message>, run: seq<System>, acts: seq<Action>,
                     m: Message)
    requires Steps(cfg, q, decode, run, acts) && run[0] == START && AtRest(run[|acts|], q)
    requires forall i :: 0 <= i < |acts| && acts[i].Handover? ==> |run[i].pool.queue| < 100
    ensures m in run[|acts|].pool.taken <==> SentMessage(q, decode, run, acts, |acts|, m)
  {
    var s := run[|acts|].pool;
    PoolReachable(cfg, q, decode, run, acts, |acts|);
    P.ReachableInv(cfg, s);
    AllQueued(cfg, q, decode, run, acts, |acts|);
    assert s.taken == s.taken + s.queue;
    P.QueuedMembers(s.arrivals, m);
    if m in s.taken {
      OnlySent(cfg, q, decode, run, acts, |acts|);
    }
    if SentMessage(q, decode, run, acts, |acts|, m) {
      var e :| Sent(q, run, acts, |acts|, e) && decode(e.body) == Some(m);
      var n :| 0 <= n < |acts| && Publishes(q, run[n], acts[n], e);
      PendingOrArrived(cfg, q, decode, run, acts, n, |acts|, e);
    }
  }

  // ---------------------------------------------------------------- at rest

  predicate AtRest(s: System, q: nat) {
    (q < |s.broker.queues| ==> s.broker.queues[q].pending == {}) && P.Quiescent(s.pool)
  }

  /** With broker and workers at rest, a published message was decodable and offered to the workers; and it was
      processed exactly if at one of its deliveries fewer than 100 messages were waiting. */
  lemma ProcessedIffRoom(cfg: Config, q: nat, decode: string -> Option<Message>, run: seq<System>, acts: seq<Action>,
                         n: nat, e: B.Envelope)
    requires Steps(cfg, q, decode, run, acts) && run[0] == START && n < |acts| && Publishes(q, run[n], acts[n], e)
    requires AtRest(run[|acts|], q)
    ensures Arrived(decode, run[|acts|], e.body)
    ensures P.Answered(run[|acts|].pool, decode(e.body).value) <==>
            exists i :: 0 <= i < |acts| && acts[i].Handover? && decode(acts[i].e.body) == decode(e.body)
                        && |run[i].pool.queue| < 100
  {
    PendingOrArrived(cfg, q, decode, run, acts, n, |acts|, e);
    PoolReachable(cfg, q, decode, run, acts, |acts|);
    var m := decode(e.body).value;
    P.AnsweredIffQueued(cfg, run[|acts|].pool, m);
    QueueableIffRoom(cfg, q, decode, run, acts, |acts|, m);
    assert forall i :: 0 <= i < |acts| ==>
             (FindsRoom(decode, run[i], acts[i], m) <==>
              acts[i].Handover? && decode(acts[i].e.body) == decode(e.body) && |run[i].pool.queue| < 100);
  }

  // ---------------------------------------------------------------- a message that is deleted and never processed

  /** No trace of the message is left that could still lead to its processing, and it was not processed. */
  predicate Gone(q: nat, decode: string -> Option<Message>, s: System, m: Message) {
    && q < |s.broker.queues| && (forall e :: e in s.broker.queues[q].pending ==> decode(e.body) != Some(m))
    && m !in s.pool.queue && (forall w :: 0 <= w < |s.pool.workers| ==> !P.HoldsMessage(s.pool.workers[w], m))
    && !P.Answered(s.pool, m)
  }

  /** The step publishes the message again. */
  predicate Republishes(decode: string -> Option<Message>, a: Action, m: Message) {
    a.Outside? && a.a.Publish? && decode(a.a.body) == Some(m)
  }

  lemma GoneAtBroker(b: B.Broker, a: B.Action, q: nat, decode: string -> Option<Message>, m: Message)
    requires q < |b.queues| && forall e :: e in b.queues[q].pending ==> decode(e.body) != Some(m)
    requires a.Publish? ==> decode(a.body) != Some(m)
    ensures q < |B.Next(b, a).queues|
    ensures forall e :: e in B.Next(b, a).queues[q].pending ==> decode(e.body) != Some(m)
  {
  }

  lemma GoneAtPool(cfg: Config, s: P.Pool, a: P.Action, s': P.Pool, m: Message)
    requires P.Step(cfg, s, a, s') && (a.Deliver? ==> a.msg != m)
    requires m !in s.queue && !P.Answered(s, m)
    requires forall w :: 0 <= w < |s.workers| ==> !P.HoldsMessage(s.workers[w], m)
    ensures m !in s'.queue && !P.Answered(s', m)
    ensures forall w :: 0 <= w < |s'.workers| ==> !P.HoldsMessage(s'.workers[w], m)
  {
    forall v | v in s'.verdicts ensures v.msg != m {
      if v !in s.verdicts { assert !P.HoldsMessage(s.workers[a.worker], m); }
    }
    if a.Take? { assert s.queue[0] in s.queue; }
  }

  lemma StaysGoneStep(cfg: Config, q: nat, decode: string -> Option<Message>, s: System, a: Action, s': System,
                      m: Message)
    requires Step(cfg, q, decode, s, a, s') && Gone(q, decode, s, m) && !Republishes(decode, a, m)
    ensures Gone(q, decode, s', m)
  {
    match a {
      case Outside(b) => GoneAtBroker(s.broker, b, q, decode, m);
      case Handover(e, deleteOk) =>
        assert e in s.broker.queues[q].pending;
        var h := Handle(decode, s.pool, e.body);
        GoneAtBroker(s.broker, B.Process(q, e, h.ok, deleteOk), q, decode, m);
        if h.ok { GoneAtPool(cfg, s.pool, P.Deliver(decode(e.body).value), h.pool, m); }
      case Worker(w) => GoneAtPool(cfg, s.pool, w, s'.pool, m);
    }
  }

  /** What is gone stays unprocessed, however the run goes on, until it is published again. */
  lemma {:induction false} StaysGone(cfg: Config, q: nat, decode: string -> Option<Message>, run: seq<System>,
                                     acts: seq<Action>, n: nat, m: Message)
    requires Steps(cfg, q, decode, run, acts) && n <= |acts| && Gone(q, decode, run[0], m)
    requires forall i :: 0 <= i < n ==> !Republishes(decode, acts[i], m)
    ensures Gone(q, decode, run[n], m)
  {
    if n > 0 {
      StaysGone(cfg, q, decode, run, acts, n - 1, m);
      assert Step(cfg, q, decode, run[n - 1], acts[n - 1], run[n - 1 + 1]);
      StaysGoneStep(cfg, q, decode, run[n - 1], acts[n - 1], run[n], m);
    }
  }

  const TOPIC := "block_with_txs"

  /** One subscription, one pending envelope that was delivered n times and never deleted, and idle workers. */
  predicate Backlogged(s: System, e: B.Envelope, m: Message, n: nat) {
    && s.broker == Subscribed(TOPIC, {e}, 1) && e.id == 0
    && |s.pool.queue| == n && (forall x :: x in s.pool.queue ==> x == m)
    && s.pool.workers == P.START.workers && s.pool.verdicts == []
  }

  function Subscribed(topic: string, pending: set<B.Envelope>, nextId: nat): B.Broker {
    B.Broker({topic}, [B.Queue(topic, true, pending)], nextId)
  }

  lemma PublishOnce(topic: string, pending: set<B.Envelope>, id: nat, body: string)
    ensures B.Next(Subscribed(topic, pending, id), B.Publish(topic, body, true, true)) ==
            Subscribed(topic, pending + {B.Envelope(id, body)}, id + 1)
  {
    var b, e := Subscribed(topic, pending, id), B.Envelope(id, body);
    assert B.FanOut(b.queues, topic, e) == [B.Queue(topic, true, pending + {e})];
  }

  lemma StartReachable(cfg: Config, q: nat, decode: string -> Option<Message>)
    ensures Reachable(cfg, q, decode, START)
  {
    var none: seq<Action> := [];
    assert Steps(cfg, q, decode, [START], none) && [START][|none|] == START;
  }

  lemma BacklogStart(cfg: Config, decode: string -> Option<Message>, x: string, m: Message) returns (s: System)
    ensures Reachable(cfg, 0, decode, s) && Backlogged(s, B.Envelope(0, x), m, 0)
  {
    StartReachable(cfg, 0, decode);
    var subscribe, publish := B.Subscribe(TOPIC, true, true, true), B.Publish(TOPIC, x, true, true);
    var s1 := System(Subscribed(TOPIC, {}, 0), P.START);
    assert B.Next(START.broker, subscribe) == s1.broker;
    ReachableStep(cfg, 0, decode, START, Outside(subscribe), s1);
    s := System(Subscribed(TOPIC, {B.Envelope(0, x)}, 1), P.START);
    PublishOnce(TOPIC, {}, 0, x);
    assert {} + {B.Envelope(0, x)} == {B.Envelope(0, x)};
    ReachableStep(cfg, 0, decode, s1, Outside(publish), s);
  }

  lemma {:induction false} Backlog(cfg: Config, decode: string -> Option<Message>, x: string, m: Message, n: nat)
    returns (s: System)
    requires decode(x) == Some(m) && n <= P.QUEUE_CAPACITY
    ensures Reachable(cfg, 0, decode, s) && Backlogged(s, B.Envelope(0, x), m, n)
  {
    var e := B.Envelope(0, x);
    if n == 0 {
      s := BacklogStart(cfg, decode, x, m);
    } else {
      var before := Backlog(cfg, decode, x, m, n - 1);
      s := System(before.broker, P.Accept(before.pool, m));
      ReachableStep(cfg, 0, decode, before, Handover(e, false), s);
    }
  }

  /** Losing a message does happen. Behind a full worker queue the handler reports success, the broker deletes the
      message, and nothing is left of it. */
  lemma CanLose(cfg: Config, decode: string -> Option<Message>, x: string, y: string, m: Message, lost: Message)
    returns (s: System, s': System)
    requires decode(x) == Some(m) && decode(y) == Some(lost) && m != lost
    ensures Reachable(cfg, 0, decode, s) && Pending(s, 0, B.Envelope(1, y)) && Handle(decode, s.pool, y).ok
    ensures |s.pool.queue| == 100
    ensures Step(cfg, 0, decode, s, Handover(B.Envelope(1, y), true), s') && Reachable(cfg, 0, decode, s')
    ensures Gone(0, decode, s', lost)
  {
    var publish, e, f := B.Publish(TOPIC, y, true, true), B.Envelope(0, x), B.Envelope(1, y);
    var full := Backlog(cfg, decode, x, m, P.QUEUE_CAPACITY);
    s := System(Subscribed(TOPIC, {e} + {f}, 2), full.pool);
    PublishOnce(TOPIC, {e}, 1, y);
    ReachableStep(cfg, 0, decode, full, Outside(publish), s);
    s' := System(B.Next(s.broker, B.Process(0, f, true, true)), P.Accept(s.pool, lost));
    ReachableStep(cfg, 0, decode, s, Handover(f, true), s');
  }

  // ---------------------------------------------------------------- what can happen

  /** Nothing is ever blocked: callers and other queues may do anything, a pending message may be handed over whatever
      the state of the workers, and the workers may go on whatever the state of the broker. */
  lemma NothingBlocked(cfg: Config, q: nat, decode: string -> Option<Message>, s: System, b: B.Action, e: B.Envelope,
                       deleteOk: bool, w: P.Action, pool: P.Pool)
    ensures !(b.Process? && b.queue == q) ==>
              Step(cfg, q, decode, s, Outside(b), System(B.Next(s.broker, b), s.pool))
    ensures Pending(s, q, e) && s.broker.queues[q].linked ==>
              exists s' :: Step(cfg, q, decode, s, Handover(e, deleteOk), s')
    ensures !w.Deliver? && P.Step(cfg, s.pool, w, pool) ==>
              Step(cfg, q, decode, s, Worker(w), System(s.broker, pool))
  {
    if Pending(s, q, e) && s.broker.queues[q].linked {
      var h := Handle(decode, s.pool, e.body);
      assert Step(cfg, q, decode, s, Handover(e, deleteOk),
                  System(B.Next(s.broker, B.Process(q, e, h.ok, deleteOk)), h.pool));
    }
  }

  /** A message is published and at once handed over. */
  lemma PublishAndHandOver(cfg: Config, decode: string -> Option<Message>, s: System, body: string)
    returns (s': System)
    requires Reachable(cfg, 0, decode, s) && s.broker == Subscribed(TOPIC, {}, s.broker.nextId) && decode(body).Some?
    ensures Reachable(cfg, 0, decode, s') && s'.broker == Subscribed(TOPIC, {}, s'.broker.nextId)
    ensures s'.pool == P.Accept(s.pool, decode(body).value)
  {
    var id := s.broker.nextId;
    var e := B.Envelope(id, body);
    PublishOnce(TOPIC, {}, id, body);
    var s1 := System(Subscribed(TOPIC, {} + {e}, id + 1), s.pool);
    ReachableStep(cfg, 0, decode, s, Outside(B.Publish(TOPIC, body, true, true)), s1);
    s' := System(Subscribed(TOPIC, {}, id + 1), P.Accept(s.pool, decode(body).value));
    var q := s1.broker.queues[0];
    assert q.pending - {e} == {} && s1.broker.queues[0 := q.(pending := {})] == s'.broker.queues;
    ReachableStep(cfg, 0, decode, s1, Handover(e, true), s');
  }

  /** Whatever the pool can do it can do behind the broker, with every message it is to get published, and none left
      pending: with PoolReachable, the pool reaches the same states with and without a broker. */
  lemma {:induction false} BehindBroker(cfg: Config, decode: string -> Option<Message>, encode: Message -> string,
                                        run: seq<P.Pool>, acts: seq<P.Action>, n: nat) returns (s: System)
    requires P.IsRun(cfg, run, acts) && n <= |acts| && forall m :: decode(encode(m)) == Some(m)
    ensures Reachable(cfg, 0, decode, s) && s.pool == run[n]
    ensures s.broker == Subscribed(TOPIC, {}, s.broker.nextId)
  {
    if n == 0 {
      StartReachable(cfg, 0, decode);
      s := System(Subscribed(TOPIC, {}, 0), P.START);
      assert B.Next(START.broker, B.Subscribe(TOPIC, true, true, true)) == s.broker;
      ReachableStep(cfg, 0, decode, START, Outside(B.Subscribe(TOPIC, true, true, true)), s);
    } else {
      var before := BehindBroker(cfg, decode, encode, run, acts, n - 1);
      var a := acts[n - 1];
      assert P.Step(cfg, run[n - 1], a, run[n - 1 + 1]);
      if a.Deliver? {
        s := PublishAndHandOver(cfg, decode, before, encode(a.msg));
      } else {
        s := System(before.broker, run[n]);
        ReachableStep(cfg, 0, decode, before, Worker(a), s);
      }
    }
  }
}
