/** The message broker: a topic fans out to one queue per subscription, and a message leaves a queue only after that
    queue's handler returned nil on it. */
module Broker {
  import opened Model

  /** A message as one publish put it on the queues; ids tell equal bodies apart. */
  datatype Envelope = Envelope(id: nat, body: string)

  /** A queue; linked once the topic delivers to it and a poller reads it. */
  datatype Queue = Queue(topic: string, linked: bool, pending: set<Envelope>)

  datatype Broker = Broker(topics: set<string>, queues: seq<Queue>, nextId: nat)

  const START := Broker({}, [], 0)

  /** What a caller or the poller does, and how the outside services answer. */
  datatype Action =
    | Publish(topic: string, body: string, topicOk: bool, sendOk: bool)
    | Subscribe(topic: string, topicOk: bool, queueOk: bool, linkOk: bool)
    | Process(queue: nat, envelope: Envelope, handlerOk: bool, deleteOk: bool)

  function Sent(q: Queue, topic: string, e: Envelope): Queue {
    if q.linked && q.topic == topic then q.(pending := q.pending + {e}) else q
  }

  function FanOut(queues: seq<Queue>, topic: string, e: Envelope): seq<Queue> {
    seq(|queues|, i requires 0 <= i < |queues| => Sent(queues[i], topic, e))
  }

  /** The topic is created on first use; a failure to create it ends the call. */
  function WithTopic(b: Broker, topic: string, topicOk: bool): Option<Broker> {
    if topic in b.topics then Some(b)
    else if topicOk then Some(b.(topics := b.topics + {topic})) else None
  }

  predicate Deliverable(b: Broker, queue: nat, e: Envelope) {
    queue < |b.queues| && b.queues[queue].linked && e in b.queues[queue].pending
  }

  function Next(b: Broker, a: Action): Broker {
    match a
    case Publish(topic, body, topicOk, sendOk) =>
      (match WithTopic(b, topic, topicOk)
       case None => b
       case Some(c) =>
         if sendOk then c.(queues := FanOut(c.queues, topic, Envelope(c.nextId, body)), nextId := c.nextId + 1) else c)
    case Subscribe(topic, topicOk, queueOk, linkOk) =>
      (match WithTopic(b, topic, topicOk)
       case None => b
       case Some(c) => if queueOk then c.(queues := c.queues + [Queue(topic, linkOk, {})]) else c)
    case Process(queue, e, handlerOk, deleteOk) =>
      if Deliverable(b, queue, e) && handlerOk && deleteOk
      then b.(queues := b.queues[queue := b.queues[queue].(pending := b.queues[queue].pending - {e})])
      else b
  }

  /** The broker after any sequence of calls and deliveries. */
  function After(b: Broker, acts: seq<Action>): Broker {
    if acts == [] then b else Next(After(b, acts[..|acts| - 1]), acts[|acts| - 1])
  }

  // ---------------------------------------------------------------- the broker object

  class MsgBrokerLocalstack {
    var topicArns: set<string>
    var queues: seq<Queue>
    var nextId: nat
    var subscribers: map<string, seq<nat>>

    function State(): Broker
      reads this
    {
      Broker(topicArns, queues, nextId)
    }

    /** The handlers registered for a topic are its linked queues, in order of subscription. */
    ghost predicate Valid()
      reads this
    {
      forall topic :: HandlersOf(topic) == LinkedTo(queues, topic)
    }

    function HandlersOf(topic: string): seq<nat>
      reads this
    {
      if topic in subscribers then subscribers[topic] else []
    }

    constructor ()
      ensures State() == START && Valid()
    {
      topicArns, queues, nextId, subscribers := {}, [], 0, map[];
    }

    /** A topic that is not known yet is created. */
    method EnsureTopic(topic: string, topicOk: bool) returns (ok: bool)
      modifies this`topicArns
      ensures ok <==> topic in topicArns
      ensures topicArns == old(topicArns) + if topicOk then {topic} else {}
    {
      if topic !in topicArns && topicOk {
        topicArns := topicArns + {topic};
      }
      return topic in topicArns;
    }

    method Publish(topic: string, body: string, topicOk: bool, sendOk: bool) returns (ok: bool)
      requires Valid()
      modifies this`topicArns, this`queues, this`nextId
      ensures Valid() && State() == Next(old(State()), Action.Publish(topic, body, topicOk, sendOk))
      ensures ok <==> (topic in old(topicArns) || topicOk) && sendOk
      ensures topicArns == old(topicArns) + if topicOk then {topic} else {}
      ensures !ok ==> queues == old(queues) && nextId == old(nextId)
      ensures ok ==> topic in topicArns && nextId == old(nextId) + 1 && |queues| == old(|queues|)
      ensures ok ==> forall i :: 0 <= i < |queues| ==>
                var q := old(queues[i]);
                queues[i] == if q.linked && q.topic == topic
                             then q.(pending := q.pending + {Envelope(old(nextId), body)}) else q
    {
      var there := EnsureTopic(topic, topicOk);
      if !there {
        return false;
      }
      if !sendOk {
        return false;
      }
      SendToAll(topic, Envelope(nextId, body));
      nextId := nextId + 1;
      return true;
    }

    /** The topic puts the envelope on each of its linked queues. */
    method SendToAll(topic: string, e: Envelope)
      requires Valid()
      modifies this`queues
      ensures Valid() && queues == FanOut(old(queues), topic, e)
    {
      var sent: seq<Queue> := [];
      for i := 0 to |queues|
        invariant sent == FanOut(queues[..i], topic, e)
      {
        sent := sent + [Sent(queues[i], topic, e)];
      }
      assert queues[..|queues|] == queues;
      LinkedSent(queues, topic, e);
      queues := sent;
    }

    method Subscribe(topic: string, topicOk: bool, queueOk: bool, linkOk: bool) returns (ok: bool)
      requires Valid()
      modifies this`topicArns, this`queues, this`subscribers
      ensures Valid() && State() == Next(old(State()), Action.Subscribe(topic, topicOk, queueOk, linkOk))
      ensures ok <==> (topic in old(topicArns) || topicOk) && queueOk && linkOk
      ensures ok ==> topic in topicArns && queues == old(queues) + [Queue(topic, true, {})]
      ensures !ok && topic in topicArns && queueOk ==> queues == old(queues) + [Queue(topic, false, {})]
      ensures topic !in topicArns || !queueOk ==> queues == old(queues)
      ensures topicArns == old(topicArns) + if topicOk then {topic} else {}
    {
      var there := EnsureTopic(topic, topicOk);
      if !there {
        return false;
      }
      if !queueOk {
        return false;
      }
      AddQueue(topic, linkOk);
      return linkOk;
    }

    /** A queue of the subscription's own; once it is linked to the topic, its handler is registered. */
    method AddQueue(topic: string, linkOk: bool)
      requires Valid()
      modifies this`queues, this`subscribers
      ensures Valid() && queues == old(queues) + [Queue(topic, linkOk, {})]
    {
      LinkedMore(queues, Queue(topic, linkOk, {}));
      queues := queues + [Queue(topic, linkOk, {})];
      if linkOk {
        subscribers := subscribers[topic := HandlersOf(topic) + [|queues| - 1]];
      }
    }

    /** One delivery: the handler runs; only if it returns nil is the message deleted, and the deletion may fail. */
    method ProcessMessage(queue: nat, e: Envelope, handlerOk: bool, deleteOk: bool)
      requires Valid() && Deliverable(State(), queue, e)
      modifies this`queues
      ensures Valid() && State() == Next(old(State()), Process(queue, e, handlerOk, deleteOk))
      ensures |queues| == old(|queues|)
      ensures e !in queues[queue].pending <==> handlerOk && deleteOk
      ensures forall i :: 0 <= i < |queues| && i != queue ==> queues[i] == old(queues[i])
      ensures queues[queue].pending + {e} == old(queues[queue].pending)
      ensures queues[queue] == old(queues[queue]).(pending := queues[queue].pending)
    {
      if !handlerOk {
        return;
      }
      if deleteOk {
        ghost var before := queues;
        queues := queues[queue := queues[queue].(pending := queues[queue].pending - {e})];
        forall t ensures LinkedTo(queues, t) == LinkedTo(before, t) { LinkedSame(before, queues, t); }
      }
    }
  }

  /** The positions of a topic's linked queues. */
  function LinkedTo(queues: seq<Queue>, topic: string): seq<nat> {
    if queues == [] then []
    else
      var n := |queues| - 1;
      LinkedTo(queues[..n], topic) + if queues[n].linked && queues[n].topic == topic then [n] else []
  }

  lemma LinkedSnoc(queues: seq<Queue>, q: Queue, topic: string)
    ensures LinkedTo(queues + [q], topic) ==
            if q.linked && topic == q.topic then LinkedTo(queues, topic) + [|queues|] else LinkedTo(queues, topic)
  {
    assert (queues + [q])[..|queues|] == queues;
  }

  lemma {:induction false} LinkedSame(a: seq<Queue>, b: seq<Queue>, topic: string)
    requires |a| == |b|
    requires forall i :: 0 <= i < |a| ==> a[i].linked == b[i].linked && a[i].topic == b[i].topic
    ensures LinkedTo(a, topic) == LinkedTo(b, topic)
  {
    if a != [] {
      LinkedSame(a[..|a| - 1], b[..|b| - 1], topic);
    }
  }

  lemma LinkedMore(queues: seq<Queue>, q: Queue)
    ensures forall t :: LinkedTo(queues + [q], t) ==
                        if q.linked && t == q.topic then LinkedTo(queues, t) + [|queues|] else LinkedTo(queues, t)
  {
    forall t
      ensures LinkedTo(queues + [q], t) ==
              if q.linked && t == q.topic then LinkedTo(queues, t) + [|queues|] else LinkedTo(queues, t)
    {
      LinkedSnoc(queues, q, t);
    }
  }

  lemma LinkedSent(queues: seq<Queue>, topic: string, e: Envelope)
    ensures forall t :: LinkedTo(FanOut(queues, topic, e), t) == LinkedTo(queues, t)
  {
    forall t ensures LinkedTo(FanOut(queues, topic, e), t) == LinkedTo(queues, t) {
      LinkedSame(queues, FanOut(queues, topic, e), t);
    }
  }

  // ---------------------------------------------------------------- delivery

  /** Queues keep their topic and link, envelopes their ids. */
  lemma {:induction false} QueuesStay(b: Broker, acts: seq<Action>, q: nat)
    requires q < |b.queues|
    ensures q < |After(b, acts).queues|
    ensures After(b, acts).queues[q].topic == b.queues[q].topic && After(b, acts).queues[q].linked == b.queues[q].linked
    ensures After(b, acts).nextId >= b.nextId
    decreases |acts|
  {
    if acts != [] {
      QueuesStay(b, acts[..|acts| - 1], q);
    }
  }

  /** Some step in between deleted the message, which it does only when the handler returned nil. */
  predicate HandledIn(acts: seq<Action>, q: nat, e: Envelope) {
    exists n :: 0 <= n < |acts| && acts[n].Process? && acts[n].queue == q && acts[n].envelope == e && acts[n].handlerOk
  }

  /** A pending message stays pending until its handler has returned nil: an erring handler never loses it. */
  lemma {:induction false} StaysUntilHandled(b: Broker, acts: seq<Action>, q: nat, e: Envelope)
    requires q < |b.queues| && e in b.queues[q].pending
    ensures (q < |After(b, acts).queues| && e in After(b, acts).queues[q].pending) || HandledIn(acts, q, e)
    decreases |acts|
  {
    if acts != [] {
      var n := |acts| - 1;
      var front := acts[..n];
      StaysUntilHandled(b, front, q, e);
      QueuesStay(b, front, q);
      if HandledIn(front, q, e) {
        var k :| 0 <= k < |front| && front[k].Process? && front[k].queue == q && front[k].envelope == e
                 && front[k].handlerOk;
        assert acts[k] == front[k];
      } else {
        var mid := After(b, front);
        if e !in Next(mid, acts[n]).queues[q].pending {
          assert acts[n].Process? && acts[n].queue == q;
        }
      }
    }
  }

  /** At least once: a message published successfully to a topic, in any state in which a queue is linked to that
      topic, is in that queue after any further calls unless its handler has by then returned nil on it. */
  lemma Delivery(b: Broker, topic: string, body: string, topicOk: bool, acts: seq<Action>, q: nat)
    requires q < |b.queues| && b.queues[q].linked && b.queues[q].topic == topic
    requires topic in b.topics || topicOk
    ensures var e := Envelope(b.nextId, body);
            var c := After(Next(b, Action.Publish(topic, body, topicOk, true)), acts);
            (q < |c.queues| && e in c.queues[q].pending) || HandledIn(acts, q, e)
  {
    var e := Envelope(b.nextId, body);
    var sent := Next(b, Action.Publish(topic, body, topicOk, true));
    assert sent.queues[q] == Sent(b.queues[q], topic, e);
    StaysUntilHandled(sent, acts, q, e);
  }

  /** A successful call of Subscribe adds a queue of its own that is linked to the topic, also when others are there. */
  lemma SubscribeLinks(b: Broker, topic: string, topicOk: bool)
    requires topic in b.topics || topicOk
    ensures var c := Next(b, Action.Subscribe(topic, topicOk, true, true));
            c.queues == b.queues + [Queue(topic, true, {})] && topic in c.topics && c.nextId == b.nextId
  {
  }

  lemma {:induction false} TopicsStay(b: Broker, acts: seq<Action>, topic: string)
    requires topic in b.topics
    ensures topic in After(b, acts).topics
  {
    if acts != [] { TopicsStay(b, acts[..|acts| - 1], topic); }
  }

  /** From subscription to handler: after a successful Subscribe, whatever happens in between, a message then published
      to the topic is in the subscriber's own queue after any further calls, or its handler has returned nil on it. */
  lemma SubscriberGets(b: Broker, topic: string, body: string, topicOk: bool, before: seq<Action>, after: seq<Action>)
    requires topic in b.topics || topicOk
    ensures var q := |b.queues|;
            var mid := After(Next(b, Action.Subscribe(topic, topicOk, true, true)), before);
            var e, c := Envelope(mid.nextId, body), After(Next(mid, Action.Publish(topic, body, true, true)), after);
            (q < |c.queues| && e in c.queues[q].pending) || HandledIn(after, q, e)
  {
    var subscribed := Next(b, Action.Subscribe(topic, topicOk, true, true));
    SubscribeLinks(b, topic, topicOk);
    QueuesStay(subscribed, before, |b.queues|);
    TopicsStay(subscribed, before, topic);
    Delivery(After(subscribed, before), topic, body, true, after, |b.queues|);
  }

  /** Nothing is invented: what is pending was pending at first, or was published since, to the queue's own topic, while
      the queue was linked. */
  predicate PublishedIn(b: Broker, acts: seq<Action>, topic: string, e: Envelope) {
    exists n :: 0 <= n < |acts| && acts[n].Publish? && acts[n].topic == topic && acts[n].sendOk &&
      e == Envelope(After(b, acts[..n]).nextId, acts[n].body)
  }

  lemma {:induction false} OnlyPublished(acts: seq<Action>, q: nat, e: Envelope)
    requires q < |After(START, acts).queues| && e in After(START, acts).queues[q].pending
    ensures After(START, acts).queues[q].linked
    ensures PublishedIn(START, acts, After(START, acts).queues[q].topic, e)
    decreases |acts|
  {
    if acts != [] {
      var n := |acts| - 1;
      var front := acts[..n];
      var mid := After(START, front);
      if q < |mid.queues| && e in mid.queues[q].pending {
        OnlyPublished(front, q, e);
        var k :| 0 <= k < |front| && front[k].Publish? && front[k].topic == mid.queues[q].topic && front[k].sendOk &&
          e == Envelope(After(START, front[..k]).nextId, front[k].body);
        assert acts[k] == front[k] && acts[..k] == front[..k];
      } else {
        assert acts[n].Publish? && e == Envelope(mid.nextId, acts[n].body);
      }
    }
  }
}
