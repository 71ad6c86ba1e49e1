/**
 Topic-based publish and subscribe (src/hub.rs). `subscribe` and `unsubscribe` run under the lock;
 `publish` clones a sender under the lock and uses it after letting go, so other steps come between.
 A broadcast channel is the set of receivers attached to it; each receiver has a queue.
 */
module Hubs {
  import opened Wrappers
  import opened Bytes
  import Tlv

  type Topic = seq<byte>
  type ChannelId = nat
  type ReceiverId = nat
  type PublisherId = nat

  datatype Event = Event(topic: Topic, payload: seq<Tlv.Entry>, time: u64)

  datatype Receiver = Receiver(topic: Topic, channel: ChannelId, queue: seq<Event>)

  /** A call of `publish` after each of its steps: sender cloned, receivers counted, event sent. */
  datatype Publisher =
    | Cloned(event: Event, sender: Option<ChannelId>)
    | Counted(event: Event, target: ChannelId, count: nat)
    | Done(count: nat)

  /** `channels[c]` is the topic channel `c` was created for; `receivers` are the live ones. */
  datatype State = State(
    topics: map<Topic, ChannelId>,
    channels: seq<Topic>,
    receivers: map<ReceiverId, Receiver>,
    nextReceiver: ReceiverId,
    publishers: map<PublisherId, Publisher>)

  const INITIAL := State(map[], [], map[], 0, map[])

  // ── Steps ──────────────────────────────────────────────────

  function Attached(s: State, c: ChannelId): set<ReceiverId> {
    set r | r in s.receivers && s.receivers[r].channel == c
  }

  function Subscribe(s: State, topic: Topic): State {
    var known := topic in s.topics;
    var c := if known then s.topics[topic] else |s.channels|;
    s.(topics := s.topics[topic := c],
       channels := if known then s.channels else s.channels + [topic],
       receivers := s.receivers[s.nextReceiver := Receiver(topic, c, [])],
       nextReceiver := s.nextReceiver + 1)
  }

  function Unsubscribe(s: State, topic: Topic): State {
    if topic in s.topics && Attached(s, s.topics[topic]) == {} then s.(topics := s.topics - {topic}) else s
  }

  function CloneSender(s: State, p: PublisherId, e: Event): State {
    var sender := if e.topic in s.topics then Some(s.topics[e.topic]) else None;
    s.(publishers := s.publishers[p := Cloned(e, sender)])
  }

  /** The event goes to every receiver attached to the sender at this moment. */
  function Delivered(receivers: map<ReceiverId, Receiver>, c: ChannelId, e: Event): map<ReceiverId, Receiver> {
    map r | r in receivers ::
      if receivers[r].channel == c then receivers[r].(queue := receivers[r].queue + [e]) else receivers[r]
  }

  datatype Step =
    | Subscribes(topic: Topic)
    | Unsubscribes(topic: Topic)
    | Drops(r: ReceiverId)
    | Clones(p: PublisherId, event: Event)
    | Counts(p: PublisherId)
    | Sends(p: PublisherId)

  predicate Enabled(s: State, step: Step) {
    match step
    case Drops(r) => r in s.receivers
    case Clones(p, _) => p !in s.publishers
    case Counts(p) => p in s.publishers && s.publishers[p].Cloned?
    case Sends(p) => p in s.publishers && s.publishers[p].Counted?
    case _ => true
  }

  function Apply(s: State, step: Step): State
    requires Enabled(s, step)
  {
    match step
    case Subscribes(topic) => Subscribe(s, topic)
    case Unsubscribes(topic) => Unsubscribe(s, topic)
    case Drops(r) => s.(receivers := s.receivers - {r})
    case Clones(p, e) => CloneSender(s, p, e)
    case Counts(p) =>
      var pub := s.publishers[p];
      s.(publishers := s.publishers[p :=
        match pub.sender
        case None => Done(0)
        case Some(c) => Counted(pub.event, c, |Attached(s, c)|)])
    case Sends(p) =>
      var pub := s.publishers[p];
      s.(receivers := Delivered(s.receivers, pub.target, pub.event),
         publishers := s.publishers[p := Done(pub.count)])
  }

  predicate Legal(s: State, steps: seq<Step>)
    decreases |steps|
  {
    steps == [] || (Enabled(s, steps[0]) && Legal(Apply(s, steps[0]), steps[1..]))
  }

  function Run(s: State, steps: seq<Step>): State
    requires Legal(s, steps)
    decreases |steps|
  {
    if steps == [] then s else Run(Apply(s, steps[0]), steps[1..])
  }

  // ── Invariant ──────────────────────────────────────────────

  predicate ChannelOf(s: State, c: ChannelId, topic: Topic) { c < |s.channels| && s.channels[c] == topic }

  /** Every live receiver is attached to the channel now stored for its topic. */
  ghost predicate Inv(s: State) {
    && (forall topic :: topic in s.topics ==> ChannelOf(s, s.topics[topic], topic))
    && (forall r :: r in s.receivers ==>
          && r < s.nextReceiver
          && s.receivers[r].topic in s.topics
          && s.receivers[r].channel == s.topics[s.receivers[r].topic])
    && (forall p :: p in s.publishers && s.publishers[p].Cloned? && s.publishers[p].sender.Some? ==>
          ChannelOf(s, s.publishers[p].sender.value, s.publishers[p].event.topic))
    && (forall p :: p in s.publishers && s.publishers[p].Counted? ==>
          ChannelOf(s, s.publishers[p].target, s.publishers[p].event.topic))
  }

  lemma UnsubscribeKeeps(s: State, topic: Topic)
    requires Inv(s)
    ensures Inv(Unsubscribe(s, topic))
  {
    if topic in s.topics {
      var c := s.topics[topic];
      forall r | r in s.receivers ensures s.receivers[r].channel == c ==> r in Attached(s, c) {
      }
    }
  }

  lemma Keeps(s: State, step: Step)
    requires Inv(s) && Enabled(s, step)
    ensures Inv(Apply(s, step))
  {
    hide Unsubscribe;
    if step.Unsubscribes? {
      UnsubscribeKeeps(s, step.topic);
    }
  }

  lemma {:induction false} RunKeeps(s: State, steps: seq<Step>)
    requires Inv(s) && Legal(s, steps)
    ensures Inv(Run(s, steps))
    decreases |steps|
  {
    hide Apply, Enabled, Inv;
    if steps == [] {
    } else {
      Keeps(s, steps[0]);
      RunKeeps(Apply(s, steps[0]), steps[1..]);
    }
  }

  // ── Delivery ───────────────────────────────────────────────

  /** Publisher `p` has cloned its sender but not sent; what it cloned is settled. */
  predicate Sending(s: State, p: PublisherId, e: Event, sender: Option<ChannelId>) {
    && p in s.publishers
    && match s.publishers[p]
       case Cloned(e', c) => e' == e && c == sender
       case Counted(e', c, _) => e' == e && sender == Some(c)
       case Done(_) => false
  }

  /** Receivers live in `s` that are still live in `t` have kept their topic and channel. */
  predicate SameReceivers(s: State, t: State) {
    && s.nextReceiver <= t.nextReceiver
    && forall r :: r in t.receivers && r < s.nextReceiver ==>
         && r in s.receivers
         && t.receivers[r].topic == s.receivers[r].topic
         && t.receivers[r].channel == s.receivers[r].channel
  }

  lemma ReceiversStep(s: State, t: State, step: Step)
    requires SameReceivers(s, t) && Enabled(t, step)
    ensures SameReceivers(s, Apply(t, step))
  {
  }

  lemma {:induction false} ReceiversRun(s: State, t: State, steps: seq<Step>)
    requires SameReceivers(s, t) && Legal(t, steps)
    ensures SameReceivers(s, Run(t, steps))
    decreases |steps|
  {
    hide Apply, Enabled, SameReceivers;
    if steps == [] {
    } else {
      ReceiversStep(s, t, steps[0]);
      ReceiversRun(s, Apply(t, steps[0]), steps[1..]);
    }
  }

  lemma {:induction false} SendingRun(t: State, steps: seq<Step>, p: PublisherId, e: Event, sender: Option<ChannelId>)
    requires Legal(t, steps) && Sending(t, p, e, sender)
    requires p in Run(t, steps).publishers && Run(t, steps).publishers[p].Counted?
    ensures Sending(Run(t, steps), p, e, sender)
    decreases |steps|
  {
    if steps == [] {
    } else {
      var next := Apply(t, steps[0]);
      if !Sending(next, p, e, sender) {
        DoneRun(next, steps[1..], p);
      } else {
        SendingRun(next, steps[1..], p, e, sender);
      }
    }
  }

  lemma {:induction false} DoneRun(t: State, steps: seq<Step>, p: PublisherId)
    requires Legal(t, steps) && p in t.publishers && t.publishers[p].Done?
    ensures p in Run(t, steps).publishers && Run(t, steps).publishers[p].Done?
    decreases |steps|
  {
    if steps == [] {
    } else {
      DoneRun(Apply(t, steps[0]), steps[1..], p);
    }
  }

  /**
   A publish that clones its sender after `before` and sends after `between` reaches every receiver
   of its topic that is live at both moments, once, and no receiver of another topic, whatever is
   subscribed, dropped, unsubscribed or published in between.
   */
  lemma PublishReaches(before: seq<Step>, p: PublisherId, e: Event, between: seq<Step>)
    requires Legal(INITIAL, before)
    requires var s := Run(INITIAL, before);
             && Enabled(s, Clones(p, e))
             && Legal(Apply(s, Clones(p, e)), between)
             && Enabled(Run(Apply(s, Clones(p, e)), between), Sends(p))
    ensures var s := Run(INITIAL, before);
            var t := Run(Apply(s, Clones(p, e)), between);
            var u := Apply(t, Sends(p));
            && (forall r :: r in s.receivers && r in t.receivers && s.receivers[r].topic == e.topic ==>
                  u.receivers[r].queue == t.receivers[r].queue + [e])
            && (forall r :: r in t.receivers && t.receivers[r].topic != e.topic ==>
                  u.receivers[r].queue == t.receivers[r].queue)
            && u.receivers.Keys == t.receivers.Keys
  {
    var s := Run(INITIAL, before);
    var cloned := Apply(s, Clones(p, e));
    var t := Run(cloned, between);
    hide Run, Legal;
    RunKeeps(INITIAL, before);
    Keeps(s, Clones(p, e));
    RunKeeps(cloned, between);
    var sender := if e.topic in s.topics then Some(s.topics[e.topic]) else None;
    SendingRun(cloned, between, p, e, sender);
    assert SameReceivers(s, cloned);
    ReceiversRun(s, cloned, between);
  }

  /** The receivers of a topic. */
  function Listeners(s: State, topic: Topic): set<ReceiverId> {
    set r | r in s.receivers && s.receivers[r].topic == topic
  }

  /**
   What a publish reports: every live receiver of its topic if the sender it cloned is still the one
   stored, and otherwise none.
   */
  lemma CountExactly(before: seq<Step>, p: PublisherId)
    requires Legal(INITIAL, before) && Enabled(Run(INITIAL, before), Counts(p))
    ensures var s := Run(INITIAL, before);
            var pub, after := s.publishers[p], Apply(s, Counts(p)).publishers[p];
            match pub.sender
            case None => after == Done(0)
            case Some(c) =>
              var topic := pub.event.topic;
              && after.Counted? && after.event == pub.event && after.target == c
              && after.count == if topic in s.topics && s.topics[topic] == c then |Listeners(s, topic)| else 0
  {
    hide Run, Legal;
    RunKeeps(INITIAL, before);
    var s := Run(INITIAL, before);
    var pub := s.publishers[p];
    if pub.sender.Some? {
      var c, topic := pub.sender.value, pub.event.topic;
      if topic in s.topics && s.topics[topic] == c {
        assert Attached(s, c) == Listeners(s, topic);
      } else {
        assert Attached(s, c) == {};
      }
    }
  }

  /** Unsubscribing forgets the topic exactly if nobody listens to it, and no other topic. */
  lemma UnsubscribeExactly(before: seq<Step>, topic: Topic, other: Topic)
    requires Legal(INITIAL, before)
    ensures var s := Run(INITIAL, before);
            var after := Apply(s, Unsubscribes(topic));
            && (topic in after.topics <==> Listeners(s, topic) != {})
            && (other != topic ==> (other in after.topics <==> other in s.topics))
            && (other in after.topics ==> after.topics[other] == s.topics[other])
            && after.receivers == s.receivers
  {
    hide Run, Legal;
    RunKeeps(INITIAL, before);
    var s := Run(INITIAL, before);
    if topic in s.topics {
      assert Attached(s, s.topics[topic]) == Listeners(s, topic) by { AttachedListen(s, topic); }
    }
  }

  lemma AttachedListen(s: State, topic: Topic)
    requires Inv(s) && topic in s.topics
    ensures Attached(s, s.topics[topic]) == Listeners(s, topic)
  {
  }

  /** A live receiver's queue only ever grows, by events of its own topic; a new one starts empty. */
  lemma QueuesGrow(before: seq<Step>, step: Step, r: ReceiverId)
    requires Legal(INITIAL, before) && Enabled(Run(INITIAL, before), step)
    requires r in Apply(Run(INITIAL, before), step).receivers
    ensures var s := Run(INITIAL, before);
            var after := Apply(s, step).receivers[r];
            if r !in s.receivers then step.Subscribes? && after.topic == step.topic && after.queue == []
            else
              && after.topic == s.receivers[r].topic
              && (after.queue == s.receivers[r].queue
                  || (&& step.Sends? && s.publishers[step.p].event.topic == after.topic
                      && after.queue == s.receivers[r].queue + [s.publishers[step.p].event]))
  {
    hide Run, Legal;
    RunKeeps(INITIAL, before);
  }

  // ── The hub ────────────────────────────────────────────────

  class Hub {
    var topics: map<Topic, ChannelId>
    ghost var channels: seq<Topic>
    var nextChannel: nat
    var receivers: map<ReceiverId, Receiver>
    var nextReceiver: ReceiverId
    var publishers: map<PublisherId, Publisher>

    ghost predicate Valid()
      reads this
    {
      nextChannel == |channels|
    }

    ghost function Now(): State
      reads this
    {
      State(topics, channels, receivers, nextReceiver, publishers)
    }

    constructor ()
      ensures Valid() && Now() == INITIAL
    {
      topics, channels, nextChannel := map[], [], 0;
      receivers, nextReceiver, publishers := map[], 0, map[];
    }

    /** `entry(topic).or_insert_with(channel).subscribe()`. */
    method SubscribeTo(topic: Topic) returns (r: ReceiverId)
      requires Valid()
      modifies this
      ensures Valid() && Now() == Subscribe(old(Now()), topic) && r == old(nextReceiver)
    {
      if topic !in topics {
        topics := topics[topic := nextChannel];
        channels := channels + [topic];
        nextChannel := nextChannel + 1;
      }
      assert topics == old(topics)[topic := topics[topic]];
      r := nextReceiver;
      receivers := receivers[r := Receiver(topic, topics[topic], [])];
      nextReceiver := nextReceiver + 1;
    }

    method UnsubscribeFrom(topic: Topic)
      requires Valid()
      modifies this
      ensures Valid() && Now() == Unsubscribe(old(Now()), topic)
    {
      if topic in topics {
        var c := topics[topic];
        var attached := set r | r in receivers && receivers[r].channel == c;
        assert attached == Attached(Now(), c);
        if attached == {} {
          topics := topics - {topic};
        }
      }
    }

    method SubscriberCount(topic: Topic) returns (n: nat)
      requires Valid()
      ensures n == if topic in topics then |Attached(Now(), topics[topic])| else 0
    {
      if topic !in topics {
        return 0;
      }
      var c := topics[topic];
      var attached := set r | r in receivers && receivers[r].channel == c;
      assert attached == Attached(Now(), c);
      n := |attached|;
    }

    /** `publish` with nothing in between: clone the sender, count, send. */
    method Publish(e: Event) returns (count: nat)
      requires Valid()
      modifies this`receivers
      ensures Valid()
      ensures if e.topic in topics then
                && count == |Attached(old(Now()), topics[e.topic])|
                && receivers == Delivered(old(receivers), topics[e.topic], e)
              else count == 0 && receivers == old(receivers)
    {
      if e.topic !in topics {
        return 0;
      }
      var sender := topics[e.topic];
      count := SubscriberCount(e.topic);
      receivers := Delivered(receivers, sender, e);
    }
  }
}
