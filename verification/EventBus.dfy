/**
 The in-memory event bus of component/event/bus.go and its channel readers of component/event/subscriber.go,
 as the interleaved atomic steps of any number of callers of Publish, Subscribe and Stop, of the one
 publisher goroutine, and of one listener per subscription.
 */
module EventBus {
  import opened Wrappers
  import opened Lifecycles

  const BUFFER_SIZE := 250

  datatype Message = Message(id: string, data: string)

  datatype Entry = Entry(topic: string, messages: seq<Message>)

  // A subscriber's channel: everything ever sent into it, what its handler has been given, and whether it
  // is closed. `since` records how many entries had been fanned out when it was registered.
  datatype Channel = Channel(topic: string, since: nat, sent: seq<Message>, handled: seq<Message>,
                             closed: bool, returned: bool)
  {
    function Buffered(): int {
      |sent| - |handled|
    }

    // Lines 66-80 of subscriber.go: hand over the next message, or return once the closed channel is drained.
    function Hear(): Channel {
      if returned then this
      else if |handled| < |sent| then this.(handled := handled + [sent[|handled|]])
      else this.(returned := closed)
    }
  }

  // The publisher goroutine: at its select; holding an entry; fanning it out, at message `at` of
  // target `to`; owing the answer of the shutdown handshake; gone.
  datatype Publisher =
    | Selecting
    | Holding(entry: Entry)
    | Sending(entry: Entry, targets: seq<nat>, to: nat, at: nat)
    | Acknowledging
    | Exited

  // A calling goroutine, between two of its atomic steps.
  datatype Caller =
    | Ready
    | Publishing(entry: Entry)              // found the bus started, about to send to the queue
    | Subscribing(topic: string)            // found the bus started, about to lock
    | StopSending                           // won the swap to Stopped, sends on doneChan
    | StopWaiting                           // waits for the answer on doneChan
    | StopLocking                           // about to lock
    | Closing(topics: seq<string>, at: nat) // holds the lock; topics still to visit, position in the first

  datatype Bus = Bus(state: State,
                     subscribers: Option<map<string, seq<nat>>>,
                     channels: seq<Channel>,
                     queue: seq<Entry>,
                     publisher: Publisher,
                     callers: map<nat, Caller>,
                     // what happened so far, and which caller won the swap to Stopped
                     enqueued: seq<Entry>, fannedOut: seq<Entry>, winner: Option<nat>,
                     sentOnClosed: bool, closedTwice: bool, wroteNilMap: bool)
  {
    function CallerAt(t: nat): Caller {
      if t in callers then callers[t] else Ready
    }

    function Goto(t: nat, c: Caller): Bus {
      this.(callers := callers[t := c])
    }

    function SubscribersOf(topic: string): seq<nat> {
      if subscribers.Some? && topic in subscribers.value then subscribers.value[topic] else []
    }

    ghost predicate LockFree() {
      forall t: nat :: !CallerAt(t).Closing?
    }
  }

  // NewEventBus: started, with the publisher goroutine at its select.
  const NEW_BUS := Bus(Started, Some(map[]), [], [], Selecting, map[], [], [], None, false, false, false)

  datatype Step =
    | PublishCheck(t: nat, entry: Entry)
    | PublishSend(t: nat)
    | SubscribeCheck(t: nat, topic: string)
    | SubscribeAppend(t: nat)
    | StopSwap(t: nat)
    | DoneToPublisher(t: nat)
    | DoneToStopper(t: nat, u: nat)
    | DoneAnswer(u: nat)
    | CloseLock(t: nat, topics: seq<string>)
    | CloseNext(t: nat)
    | Take
    | Snapshot
    | SendMessage
    | NextTarget
    | Receive(c: nat)

  ghost predicate Enumerates(topics: seq<string>, keys: set<string>) {
    && (forall i, j :: 0 <= i < j < |topics| ==> topics[i] != topics[j])
    && (forall topic :: topic in topics <==> topic in keys)
  }

  // ---- The atomic steps; one that cannot be taken changes nothing ----

  // Lines 131-142: the state test, then the send, which blocks while the queue is full.
  function StepPublish(b: Bus, step: Step): Bus
    requires step.PublishCheck? || step.PublishSend?
  {
    match step
    case PublishCheck(t, entry) =>
      if b.CallerAt(t) == Ready && b.state == Started then b.Goto(t, Publishing(entry)) else b
    case PublishSend(t) =>
      var caller := b.CallerAt(t);
      if caller.Publishing? && |b.queue| < BUFFER_SIZE
      then b.Goto(t, Ready).(queue := b.queue + [caller.entry], enqueued := b.enqueued + [caller.entry])
      else b
  }

  // Lines 111-126: the state test, then registration under the lock. In Go, appending to an entry of
  // the map that stop has set to nil panics.
  ghost function StepSubscribe(b: Bus, step: Step): Bus
    requires step.SubscribeCheck? || step.SubscribeAppend?
  {
    match step
    case SubscribeCheck(t, topic) =>
      if b.CallerAt(t) == Ready && b.state == Started then b.Goto(t, Subscribing(topic)) else b
    case SubscribeAppend(t) =>
      var caller := b.CallerAt(t);
      if !caller.Subscribing? || !b.LockFree() then b
      else if b.subscribers.None? then b.Goto(t, Ready).(wroteNilMap := true)
      else
        var topic := caller.topic;
        var channel := Channel(topic, |b.fannedOut|, [], [], false, false);
        b.Goto(t, Ready).(channels := b.channels + [channel],
                          subscribers := Some(b.subscribers.value[topic := b.SubscribersOf(topic) + [|b.channels|]]))
  }

  // Lines 101-110 of lifecycle.go and lines 84-107: the swap, the handshake over the unbuffered doneChan,
  // where any sender can meet any receiver, and the closing loop over the map in some order.
  ghost function StepStop(b: Bus, step: Step): Bus
    requires step.StopSwap? || step.DoneToPublisher? || step.DoneToStopper? || step.DoneAnswer?
             || step.CloseLock? || step.CloseNext?
  {
    match step
    case StopSwap(t) =>
      if b.CallerAt(t) == Ready && b.state == Started
      then b.Goto(t, StopSending).(state := Stopped, winner := Some(t)) else b
    case DoneToPublisher(t) =>
      if b.CallerAt(t) == StopSending && b.publisher == Selecting
      then b.Goto(t, StopWaiting).(publisher := Acknowledging) else b
    case DoneToStopper(t, u) =>
      if b.CallerAt(t) == StopSending && b.CallerAt(u) == StopWaiting
      then b.Goto(t, StopWaiting).Goto(u, StopLocking) else b
    case DoneAnswer(u) =>
      if b.CallerAt(u) == StopWaiting && b.publisher == Acknowledging
      then b.Goto(u, StopLocking).(publisher := Exited) else b
    case CloseLock(t, topics) =>
      var keys := if b.subscribers.Some? then b.subscribers.value.Keys else {};
      if b.CallerAt(t) == StopLocking && b.LockFree() && Enumerates(topics, keys)
      then b.Goto(t, Closing(topics, 0)) else b
    case CloseNext(t) =>
      var caller := b.CallerAt(t);
      if !caller.Closing? then b
      else if caller.topics == [] then b.Goto(t, Ready).(subscribers := None)
      else
        var ids := b.SubscribersOf(caller.topics[0]);
        if caller.at >= |ids| then b.Goto(t, Closing(caller.topics[1..], 0))
        else if ids[caller.at] >= |b.channels| then b
        else
          var id := ids[caller.at];
          var channel := b.channels[id];
          b.Goto(t, Closing(caller.topics, caller.at + 1)).(
            closedTwice := b.closedTwice || channel.closed,
            channels := b.channels[id := channel.(closed := true)])
  }

  // Lines 149-185: take an entry, snapshot its topic's subscribers under the read lock, send every
  // message to every one of them, blocking while a buffer is full.
  ghost function StepPublisher(b: Bus, step: Step): Bus
    requires step.Take? || step.Snapshot? || step.SendMessage? || step.NextTarget?
  {
    match step
    case Take =>
      if b.publisher == Selecting && b.queue != []
      then b.(publisher := Holding(b.queue[0]), queue := b.queue[1..]) else b
    case Snapshot =>
      if !b.publisher.Holding? || !b.LockFree() then b
      else
        var entry := b.publisher.entry;
        var targets := b.SubscribersOf(entry.topic);
        b.(fannedOut := b.fannedOut + [entry],
           publisher := if |targets| == 0 then Selecting else Sending(entry, targets, 0, 0))
    case SendMessage =>
      if !b.publisher.Sending? then b
      else
        var Sending(entry, targets, to, at) := b.publisher;
        if to >= |targets| || at >= |entry.messages| || targets[to] >= |b.channels| then b
        else
          var channel := b.channels[targets[to]];
          if channel.closed then b.(sentOnClosed := true)
          else if channel.Buffered() >= BUFFER_SIZE then b
          else b.(channels := b.channels[targets[to] := channel.(sent := channel.sent + [entry.messages[at]])],
                  publisher := Sending(entry, targets, to, at + 1))
    case NextTarget =>
      if !b.publisher.Sending? then b
      else
        var Sending(entry, targets, to, at) := b.publisher;
        if at < |entry.messages| then b
        else b.(publisher := if to + 1 < |targets| then Sending(entry, targets, to + 1, 0) else Selecting)
  }

  function StepReceive(b: Bus, c: nat): Bus {
    if c < |b.channels| then b.(channels := b.channels[c := b.channels[c].Hear()]) else b
  }

  ghost function Next(b: Bus, step: Step): Bus {
    match step
    case PublishCheck(_, _) => StepPublish(b, step)
    case PublishSend(_) => StepPublish(b, step)
    case SubscribeCheck(_, _) => StepSubscribe(b, step)
    case SubscribeAppend(_) => StepSubscribe(b, step)
    case Take => StepPublisher(b, step)
    case Snapshot => StepPublisher(b, step)
    case SendMessage => StepPublisher(b, step)
    case NextTarget => StepPublisher(b, step)
    case Receive(c) => StepReceive(b, c)
    case _ => StepStop(b, step)
  }

  ghost function Run(steps: seq<Step>): Bus {
    if steps == [] then NEW_BUS else Next(Run(steps[..|steps| - 1]), steps[|steps| - 1])
  }

  // ---- What a subscriber should get ----

  // The messages of the entries on one topic, in order.
  function Stream(entries: seq<Entry>, topic: string): seq<Message> {
    if entries == [] then []
    else
      var entry := entries[|entries| - 1];
      Stream(entries[..|entries| - 1], topic) + if entry.topic == topic then entry.messages else []
  }

  // Everything published on its topic that was fanned out since the channel was registered.
  function Due(b: Bus, channel: Channel): seq<Message>
    requires channel.since <= |b.fannedOut|
  {
    Stream(b.fannedOut[channel.since..], channel.topic)
  }

  // The part of the current entry that the fan-out still owes its k-th target.
  function Owed(p: Publisher, k: nat): seq<Message>
    requires p.Sending? && p.at <= |p.entry.messages|
  {
    if k < p.to then [] else if k == p.to then p.entry.messages[p.at..] else p.entry.messages
  }

  // One more entry adds its messages to the stream of its own topic, and nothing to any other.
  lemma StreamGrows(entries: seq<Entry>, since: nat, entry: Entry, topic: string)
    requires since <= |entries|
    ensures Stream((entries + [entry])[since..], topic)
            == Stream(entries[since..], topic) + if entry.topic == topic then entry.messages else []
  {
    assert (entries + [entry])[since..] == entries[since..] + [entry];
    assert (entries[since..] + [entry])[..|entries| - since] == entries[since..];
  }

  // ---- The invariant ----

  predicate Stops(c: Caller) {
    c.StopSending? || c.StopWaiting? || c.StopLocking? || c.Closing?
  }

  // Only the winner of the swap is ever inside stop.
  ghost predicate OneStopper(b: Bus) {
    && b.state == (if b.winner.Some? then Stopped else Started)
    && forall t: nat :: Stops(b.CallerAt(t)) ==> b.winner == Some(t)
  }

  // The publisher goroutine has taken the signal of stop from its select, and takes no entry any more.
  predicate Gone(b: Bus) {
    b.publisher.Acknowledging? || b.publisher.Exited?
  }

  // How far the winner has come decides where the publisher goroutine is.
  ghost predicate Handshake(b: Bus) {
    if b.winner.None? then !Gone(b) && b.subscribers.Some?
    else match b.CallerAt(b.winner.value)
      case StopSending => !Gone(b) && b.subscribers.Some?
      case StopWaiting => b.publisher.Acknowledging? && b.subscribers.Some?
      case StopLocking => b.publisher.Exited? && b.subscribers.Some?
      case Closing(_, _) => b.publisher.Exited? && b.subscribers.Some?
      case _ => b.publisher.Exited? && b.subscribers.None?
  }

  // A topic lists channels of its own, each once.
  ghost predicate Registered(channels: seq<Channel>, topic: string, ids: seq<nat>) {
    && (forall k :: 0 <= k < |ids| ==> ids[k] < |channels| && channels[ids[k]].topic == topic)
    && (forall j, k :: 0 <= j < k < |ids| ==> ids[j] != ids[k])
  }

  ghost predicate Registry(b: Bus) {
    && (b.subscribers.Some? ==>
          forall topic :: topic in b.subscribers.value ==> Registered(b.channels, topic, b.subscribers.value[topic]))
    && (b.subscribers.Some? ==>
          forall id :: 0 <= id < |b.channels| ==>
            b.channels[id].topic in b.subscribers.value && id in b.subscribers.value[b.channels[id].topic])
  }

  // A channel the closing loop has passed: its topic is done, or it is among the first of the current one.
  predicate VisitedAt(topics: seq<string>, at: nat, topic: string, ids: seq<nat>, id: nat) {
    topic !in topics || (topics != [] && topic == topics[0] && at <= |ids| && id in ids[..at])
  }

  predicate Visited(b: Bus, topics: seq<string>, at: nat, id: nat)
    requires id < |b.channels|
  {
    VisitedAt(topics, at, b.channels[id].topic, b.SubscribersOf(b.channels[id].topic), id)
  }

  // The closing loop goes through topics it has not visited yet.
  ghost predicate Remaining(b: Bus, topics: seq<string>, at: nat) {
    && b.subscribers.Some?
    && (forall i, j :: 0 <= i < j < |topics| ==> topics[i] != topics[j])
    && (forall topic :: topic in topics ==> topic in b.subscribers.value)
    && (topics != [] ==> at <= |b.SubscribersOf(topics[0])|)
  }

  predicate ClosedAsVisited(b: Bus, topics: seq<string>, at: nat, id: nat)
    requires id < |b.channels|
  {
    b.channels[id].closed <==> Visited(b, topics, at, id)
  }

  // Channels are closed exactly as far as the closing loop has come.
  ghost predicate Closed(b: Bus) {
    if b.winner.Some? && b.CallerAt(b.winner.value).Closing? then
      var Closing(topics, at) := b.CallerAt(b.winner.value);
      && Remaining(b, topics, at)
      && forall id :: 0 <= id < |b.channels| ==> ClosedAsVisited(b, topics, at, id)
    else
      forall id :: 0 <= id < |b.channels| ==> b.channels[id].closed == b.subscribers.None?
  }

  // The queue is first in, first out: what was fanned out or is held comes before what is queued.
  ghost predicate InOrder(b: Bus) {
    b.enqueued == b.fannedOut + (if b.publisher.Holding? then [b.publisher.entry] else []) + b.queue
  }

  // The entry being fanned out is the last one, and its targets are the first subscribers of its topic.
  ghost predicate FanOut(b: Bus) {
    b.publisher.Sending? ==>
      var Sending(entry, targets, to, at) := b.publisher;
      && b.subscribers.Some?
      && |b.fannedOut| > 0 && b.fannedOut[|b.fannedOut| - 1] == entry
      && to < |targets| && at <= |entry.messages|
      && targets <= b.SubscribersOf(entry.topic)
  }

  // Each channel has been sent what it was due, except for the rest of the entry being fanned out.
  ghost predicate Delivered(b: Bus, id: nat)
    requires id < |b.channels|
  {
    var channel := b.channels[id];
    && channel.since <= |b.fannedOut|
    && if b.publisher.Sending? && id in b.publisher.targets
       then OwesRest(b.publisher, channel, id, Due(b, channel))
       else channel.sent == Due(b, channel)
  }

  ghost predicate OwesRest(p: Publisher, channel: Channel, id: nat, due: seq<Message>)
    requires p.Sending?
  {
    && p.at <= |p.entry.messages|
    && forall k :: 0 <= k < |p.targets| && p.targets[k] == id ==> channel.sent + Owed(p, k) == due
  }

  ghost predicate Delivery(b: Bus) {
    forall id :: 0 <= id < |b.channels| ==> Delivered(b, id)
  }

  predicate Listened(channel: Channel) {
    && channel.handled <= channel.sent
    && (channel.returned ==> channel.closed && channel.handled == channel.sent)
  }

  ghost predicate Listening(b: Bus) {
    forall id :: 0 <= id < |b.channels| ==> Listened(b.channels[id])
  }

  ghost predicate Inv(b: Bus) {
    && OneStopper(b) && Handshake(b) && Registry(b) && Closed(b)
    && InOrder(b) && FanOut(b) && Delivery(b) && Listening(b)
    && !b.sentOnClosed && !b.closedTwice
  }

  // ---- Each kind of step keeps it ----

  ghost predicate Moved(b: Bus, b': Bus, t: nat, c: Caller) {
    b'.callers == b.callers[t := c]
  }

  lemma OthersStay(b: Bus, b': Bus, t: nat, c: Caller)
    requires Moved(b, b', t, c)
    ensures b'.CallerAt(t) == c
    ensures forall u: nat :: u != t ==> b'.CallerAt(u) == b.CallerAt(u)
  {
  }

  // The channels keep what registration and closing look at.
  predicate SameFaces(b: Bus, b': Bus) {
    && |b'.channels| == |b.channels|
    && forall id :: 0 <= id < |b.channels| ==>
         b'.channels[id].topic == b.channels[id].topic && b'.channels[id].closed == b.channels[id].closed
  }

  lemma RegistryStays(b: Bus, b': Bus)
    requires Registry(b) && b'.subscribers == b.subscribers && |b'.channels| == |b.channels|
    requires forall id :: 0 <= id < |b.channels| ==> b'.channels[id].topic == b.channels[id].topic
    ensures Registry(b')
  {
    if b'.subscribers.Some? {
      forall topic | topic in b'.subscribers.value
        ensures Registered(b'.channels, topic, b'.subscribers.value[topic])
      {
        assert Registered(b.channels, topic, b.subscribers.value[topic]);
      }
    }
  }

  lemma ClosedStays(b: Bus, b': Bus)
    requires Closed(b) && SameFaces(b, b') && b'.subscribers == b.subscribers && b'.winner == b.winner
    requires b.winner.Some? ==>
               var c, c' := b.CallerAt(b.winner.value), b'.CallerAt(b.winner.value);
               c == c' || (!c.Closing? && !c'.Closing?)
    ensures Closed(b')
  {
    if b.winner.Some? && b.CallerAt(b.winner.value).Closing? {
      var Closing(topics, at) := b.CallerAt(b.winner.value);
      forall id | 0 <= id < |b'.channels| ensures ClosedAsVisited(b', topics, at, id) {
        assert ClosedAsVisited(b, topics, at, id);
      }
    }
  }

  // Nothing about deliveries depends on who waits where.
  lemma DeliveryStays(b: Bus, b': Bus)
    requires Inv(b) && b'.channels == b.channels && b'.fannedOut == b.fannedOut
    requires b'.publisher == b.publisher || (!b.publisher.Sending? && !b'.publisher.Sending?)
    ensures Delivery(b') && Listening(b')
  {
    forall id | 0 <= id < |b'.channels| ensures Delivered(b', id) {
      assert Delivered(b, id);
    }
  }

  lemma PublishKeeps(b: Bus, step: Step)
    requires Inv(b) && (step.PublishCheck? || step.PublishSend?)
    ensures Inv(StepPublish(b, step))
  {
    var b' := StepPublish(b, step);
    if b' != b {
      OthersStay(b, b', step.t, b'.CallerAt(step.t));
      ClosedStays(b, b');
      DeliveryStays(b, b');
    }
  }

  lemma SubscribeCheckKeeps(b: Bus, step: Step)
    requires Inv(b) && step.SubscribeCheck?
    ensures Inv(StepSubscribe(b, step))
  {
    var b' := StepSubscribe(b, step);
    if b' != b {
      OthersStay(b, b', step.t, b'.CallerAt(step.t));
      ClosedStays(b, b');
      DeliveryStays(b, b');
    }
  }

  lemma AppendKeeps(b: Bus, t: nat)
    requires Inv(b)
    ensures Inv(StepSubscribe(b, SubscribeAppend(t)))
  {
    var b' := StepSubscribe(b, SubscribeAppend(t));
    if b' == b {
    } else if b.subscribers.None? {
      OthersStay(b, b', t, Ready);
      DeliveryStays(b, b');
    } else {
      OthersStay(b, b', t, Ready);
      AppendRegisters(b, t);
      AppendDelivers(b, t);
      if b.winner.Some? { assert !b.CallerAt(b.winner.value).Closing?; }
      assert FanOut(b');
      assert Closed(b');
    }
  }

  ghost predicate CanAppend(b: Bus, t: nat) {
    b.CallerAt(t).Subscribing? && b.LockFree() && b.subscribers.Some?
  }

  lemma AppendRegisters(b: Bus, t: nat)
    requires Inv(b) && CanAppend(b, t)
    ensures Registry(StepSubscribe(b, SubscribeAppend(t)))
  {
    var b' := StepSubscribe(b, SubscribeAppend(t));
    var topic, ids, id := b.CallerAt(t).topic, b.SubscribersOf(b.CallerAt(t).topic), |b.channels|;
    assert b'.subscribers.value == b.subscribers.value[topic := ids + [id]];
    forall other | other in b'.subscribers.value
      ensures Registered(b'.channels, other, b'.subscribers.value[other])
    {
      if other in b.subscribers.value { assert Registered(b.channels, other, b.subscribers.value[other]); }
    }
    forall i | 0 <= i < |b'.channels|
      ensures b'.channels[i].topic in b'.subscribers.value
      ensures i in b'.subscribers.value[b'.channels[i].topic]
    {
      InAppended(ids, id, i);
    }
  }

  lemma InAppended(ids: seq<nat>, id: nat, i: nat)
    ensures i in ids + [id] <==> i in ids || i == id
  {
  }

  lemma AppendDelivers(b: Bus, t: nat)
    requires Inv(b) && CanAppend(b, t)
    ensures Delivery(StepSubscribe(b, SubscribeAppend(t))) && Listening(StepSubscribe(b, SubscribeAppend(t)))
  {
    var b' := StepSubscribe(b, SubscribeAppend(t));
    forall id | 0 <= id < |b'.channels| ensures Delivered(b', id) && Listened(b'.channels[id]) {
      if id < |b.channels| {
        assert Delivered(b, id) && Listened(b.channels[id]);
      } else {
        assert b'.fannedOut[|b.fannedOut|..] == [];
        if b.publisher.Sending? { TargetsExist(b); }
      }
    }
  }

  lemma TargetsExist(b: Bus)
    requires Inv(b) && b.publisher.Sending?
    ensures forall k :: 0 <= k < |b.publisher.targets| ==>
              && b.publisher.targets[k] < |b.channels|
              && b.channels[b.publisher.targets[k]].topic == b.publisher.entry.topic
    ensures forall j, k :: 0 <= j < k < |b.publisher.targets| ==> b.publisher.targets[j] != b.publisher.targets[k]
  {
    var topic := b.publisher.entry.topic;
    assert Registered(b.channels, topic, b.SubscribersOf(topic));
  }

  lemma StopKeeps(b: Bus, step: Step)
    requires Inv(b)
    requires step.StopSwap? || step.DoneToPublisher? || step.DoneToStopper? || step.DoneAnswer?
    ensures Inv(StepStop(b, step))
  {
    var b' := StepStop(b, step);
    if b' != b {
      var t := if step.DoneAnswer? then step.u else step.t;
      assert !step.DoneToStopper?;
      OthersStay(b, b', t, b'.CallerAt(t));
      DeliveryStays(b, b');
    }
  }

  lemma CloseLockKeeps(b: Bus, t: nat, topics: seq<string>)
    requires Inv(b)
    ensures Inv(StepStop(b, CloseLock(t, topics)))
  {
    var b' := StepStop(b, CloseLock(t, topics));
    if b' != b {
      OthersStay(b, b', t, Closing(topics, 0));
      DeliveryStays(b, b');
      assert b.winner == Some(t) by { assert Stops(b.CallerAt(t)); }
      forall id | 0 <= id < |b.channels| ensures ClosedAsVisited(b', topics, 0, id) {
        assert b.channels[id].topic in b.subscribers.value;
      }
    }
  }

  lemma CloseNextKeeps(b: Bus, t: nat)
    requires Inv(b)
    ensures Inv(StepStop(b, CloseNext(t)))
  {
    var b' := StepStop(b, CloseNext(t));
    if b' != b {
      var Closing(topics, at) := b.CallerAt(t);
      OthersStay(b, b', t, b'.CallerAt(t));
      assert b.winner == Some(t) by { assert Stops(b.CallerAt(t)); }
      if topics == [] {
        DeliveryStays(b, b');
        forall id | 0 <= id < |b'.channels| ensures b'.channels[id].closed {
          assert ClosedAsVisited(b, topics, at, id);
        }
      } else if at >= |b.SubscribersOf(topics[0])| {
        DeliveryStays(b, b');
        ClosedTopicDone(b, t);
      } else {
        CloseChannel(b, t);
      }
    }
  }

  lemma OneMoreVisited(topics: seq<string>, at: nat, topic: string, ids: seq<nat>, id: nat)
    requires topics != [] && (topic == topics[0] ==> at < |ids|)
    ensures VisitedAt(topics, at + 1, topic, ids, id) <==>
            VisitedAt(topics, at, topic, ids, id) || (topic == topics[0] && id == ids[at])
  {
    if topic == topics[0] { assert ids[..at + 1] == ids[..at] + [ids[at]]; }
  }

  lemma TopicVisited(topics: seq<string>, at: nat, topic: string, ids: seq<nat>, id: nat)
    requires topics != [] && topics[0] !in topics[1..]
    requires topic == topics[0] ==> at == |ids| && id in ids
    ensures VisitedAt(topics[1..], 0, topic, ids, id) <==> VisitedAt(topics, at, topic, ids, id)
  {
    assert topics == [topics[0]] + topics[1..];
    if topic == topics[0] { assert ids[..at] == ids; }
  }

  lemma ClosedTopicDone(b: Bus, t: nat)
    requires Registry(b) && Closed(b) && b.winner == Some(t) && b.CallerAt(t).Closing?
    requires b.CallerAt(t).topics != [] && b.CallerAt(t).at >= |b.SubscribersOf(b.CallerAt(t).topics[0])|
    ensures Closed(StepStop(b, CloseNext(t)))
  {
    var b' := StepStop(b, CloseNext(t));
    var Closing(topics, at) := b.CallerAt(t);
    OthersStay(b, b', t, Closing(topics[1..], 0));
    forall id | 0 <= id < |b.channels| ensures ClosedAsVisited(b', topics[1..], 0, id) {
      assert ClosedAsVisited(b, topics, at, id);
      assert id in b.subscribers.value[b.channels[id].topic];
      TopicVisited(topics, at, b.channels[id].topic, b.SubscribersOf(b.channels[id].topic), id);
    }
  }

  // The closing loop is at a channel of the topic it visits.
  ghost predicate CanClose(b: Bus, t: nat) {
    && b.winner == Some(t) && b.CallerAt(t).Closing?
    && b.CallerAt(t).topics != [] && b.CallerAt(t).at < |b.SubscribersOf(b.CallerAt(t).topics[0])|
  }

  ghost function Closes(b: Bus, t: nat): Bus
    requires CanClose(b, t)
  {
    var Closing(topics, at) := b.CallerAt(t);
    var id := b.SubscribersOf(topics[0])[at];
    if id < |b.channels|
    then b.Goto(t, Closing(topics, at + 1)).(channels := b.channels[id := b.channels[id].(closed := true)])
    else b
  }

  // That channel exists and is still open, so closing it is all the step does.
  lemma CloseStep(b: Bus, t: nat) returns (id: nat)
    requires Registry(b) && Closed(b) && !b.closedTwice && CanClose(b, t)
    ensures var Closing(topics, at) := b.CallerAt(t);
            && id == b.SubscribersOf(topics[0])[at] < |b.channels|
            && !b.channels[id].closed && b.channels[id].topic == topics[0]
    ensures StepStop(b, CloseNext(t)) == Closes(b, t)
  {
    var Closing(topics, at) := b.CallerAt(t);
    var ids := b.SubscribersOf(topics[0]);
    assert topics[0] in topics;
    assert Registered(b.channels, topics[0], ids);
    id := ids[at];
    assert ClosedAsVisited(b, topics, at, id);
  }

  lemma CloseVisitsOne(b: Bus, t: nat, next: nat, i: nat)
    requires Registry(b) && Closed(b) && !b.closedTwice && CanClose(b, t) && next == b.CallerAt(t).at + 1
    requires i < |b.channels| && |Closes(b, t).channels| == |b.channels|
    ensures ClosedAsVisited(Closes(b, t), b.CallerAt(t).topics, next, i)
  {
    var id := CloseStep(b, t);
    var Closing(topics, at) := b.CallerAt(t);
    assert ClosedAsVisited(b, topics, at, i);
    OneMoreVisited(topics, at, b.channels[i].topic, b.SubscribersOf(b.channels[i].topic), i);
  }

  lemma CloseVisits(b: Bus, t: nat)
    requires Registry(b) && Closed(b) && !b.closedTwice && CanClose(b, t)
    ensures Closed(Closes(b, t))
  {
    var id := CloseStep(b, t);
    var b' := Closes(b, t);
    var topics, next := b.CallerAt(t).topics, b.CallerAt(t).at + 1;
    assert b'.CallerAt(t) == Closing(topics, next);
    forall i | 0 <= i < |b'.channels| ensures ClosedAsVisited(b', topics, next, i) {
      CloseVisitsOne(b, t, next, i);
    }
  }

  lemma CloseDelivers(b: Bus, t: nat)
    requires Inv(b) && CanClose(b, t)
    ensures Delivery(Closes(b, t)) && Listening(Closes(b, t))
  {
    var id := CloseStep(b, t);
    var b' := Closes(b, t);
    forall i | 0 <= i < |b.channels| ensures Delivered(b', i) && Listened(b'.channels[i]) {
      assert Delivered(b, i) && Listened(b.channels[i]);
    }
  }

  lemma CloseControl(b: Bus, t: nat)
    requires Inv(b) && CanClose(b, t)
    ensures var b' := Closes(b, t);
            && OneStopper(b') && Handshake(b') && Registry(b') && InOrder(b') && FanOut(b')
            && !b'.sentOnClosed && !b'.closedTwice
  {
    var id := CloseStep(b, t);
    var b' := Closes(b, t);
    OthersStay(b, b', t, b'.CallerAt(t));
    RegistryStays(b, b');
  }

  lemma CloseChannel(b: Bus, t: nat)
    requires Inv(b) && CanClose(b, t)
    ensures Inv(StepStop(b, CloseNext(t)))
  {
    var id := CloseStep(b, t);
    CloseVisits(b, t);
    CloseDelivers(b, t);
    CloseControl(b, t);
  }

  // A step of the publisher moves no caller and registers and closes no channel.
  lemma PublisherKeepsControl(b: Bus, b': Bus)
    requires Inv(b)
    requires b'.callers == b.callers && b'.winner == b.winner && b'.state == b.state && b'.subscribers == b.subscribers
    requires !Gone(b) && !Gone(b')
    requires SameFaces(b, b')
    ensures OneStopper(b') && Handshake(b') && Registry(b') && Closed(b')
    ensures forall id :: 0 <= id < |b.channels| ==> !b.channels[id].closed
  {
    assert forall t: nat :: b'.CallerAt(t) == b.CallerAt(t);
    RegistryStays(b, b');
    ClosedStays(b, b');
  }

  lemma TakeKeeps(b: Bus)
    requires Inv(b)
    ensures Inv(StepPublisher(b, Take))
  {
    var b' := StepPublisher(b, Take);
    if b' != b {
      PublisherKeepsControl(b, b');
      DeliveryStays(b, b');
    }
  }

  lemma SnapshotKeeps(b: Bus)
    requires Inv(b)
    ensures Inv(StepPublisher(b, Snapshot))
  {
    var b' := StepPublisher(b, Snapshot);
    if b' != b {
      var entry := b.publisher.entry;
      PublisherKeepsControl(b, b');
      forall id | 0 <= id < |b'.channels| ensures Delivered(b', id) {
        var channel := b.channels[id];
        assert Delivered(b, id);
        StreamGrows(b.fannedOut, channel.since, entry, channel.topic);
        assert channel.topic in b.subscribers.value && id in b.SubscribersOf(channel.topic);
        var targets := b.SubscribersOf(entry.topic);
        if entry.topic in b.subscribers.value { assert Registered(b.channels, entry.topic, targets); }
        assert id in targets <==> channel.topic == entry.topic;
      }
    }
  }

  ghost predicate CanSend(b: Bus) {
    && b.publisher.Sending?
    && b.publisher.to < |b.publisher.targets|
    && b.publisher.at < |b.publisher.entry.messages|
    && b.publisher.targets[b.publisher.to] < |b.channels|
  }

  ghost function Sent(b: Bus): Bus
    requires CanSend(b)
  {
    var Sending(entry, targets, to, at) := b.publisher;
    var channel := b.channels[targets[to]];
    b.(channels := b.channels[targets[to] := channel.(sent := channel.sent + [entry.messages[at]])],
       publisher := Sending(entry, targets, to, at + 1))
  }

  // While the publisher goroutine sends, every channel is open and exists.
  lemma SendStep(b: Bus)
    requires Inv(b)
    ensures StepPublisher(b, SendMessage) == b || (CanSend(b) && StepPublisher(b, SendMessage) == Sent(b))
    ensures CanSend(b) ==> !b.channels[b.publisher.targets[b.publisher.to]].closed
  {
    if b.publisher.Sending? {
      PublisherKeepsControl(b, b);
      TargetsExist(b);
    }
  }

  lemma SendControl(b: Bus)
    requires Inv(b) && CanSend(b) && !b.channels[b.publisher.targets[b.publisher.to]].closed
    ensures OneStopper(Sent(b)) && Handshake(Sent(b)) && Registry(Sent(b)) && Closed(Sent(b))
    ensures InOrder(Sent(b)) && FanOut(Sent(b))
  {
    PublisherKeepsControl(b, Sent(b));
  }

  lemma SendKeeps(b: Bus)
    requires Inv(b)
    ensures Inv(StepPublisher(b, SendMessage))
  {
    SendStep(b);
    if StepPublisher(b, SendMessage) != b {
      var b' := Sent(b);
      SendControl(b);
      forall id | 0 <= id < |b'.channels| ensures Delivered(b', id) && Listened(b'.channels[id]) {
        SendDelivers(b, id);
      }
    }
  }

  lemma SendDelivers(b: Bus, id: nat)
    requires Inv(b) && CanSend(b) && id < |b.channels| && !b.channels[b.publisher.targets[b.publisher.to]].closed
    ensures Delivered(Sent(b), id) && Listened(Sent(b).channels[id])
  {
    TargetsExist(b);
    assert Delivered(b, id) && Listened(b.channels[id]);
    if id in b.publisher.targets {
      SendOwes(b.publisher, b.channels[id], id, Due(b, b.channels[id]));
    }
  }

  // Sending one message turns the first message owed to the current target into one sent.
  lemma SendOwes(p: Publisher, channel: Channel, id: nat, due: seq<Message>)
    requires p.Sending? && OwesRest(p, channel, id, due)
    requires p.to < |p.targets| && p.at < |p.entry.messages|
    requires forall j, k :: 0 <= j < k < |p.targets| ==> p.targets[j] != p.targets[k]
    ensures var channel' := if id == p.targets[p.to] then channel.(sent := channel.sent + [p.entry.messages[p.at]])
                            else channel;
            OwesRest(p.(at := p.at + 1), channel', id, due)
  {
    var message := p.entry.messages[p.at];
    assert p.entry.messages[p.at..] == [message] + p.entry.messages[p.at + 1..];
    var p' := p.(at := p.at + 1);
    forall k | 0 <= k < |p.targets| && p.targets[k] == id
      ensures (if id == p.targets[p.to] then channel.sent + [message] else channel.sent) + Owed(p', k) == due
    {
      assert channel.sent + Owed(p, k) == due;
      if k == p.to {
        assert channel.sent + [message] + p.entry.messages[p.at + 1..] == channel.sent + p.entry.messages[p.at..];
      }
    }
  }

  lemma NextTargetKeeps(b: Bus)
    requires Inv(b)
    ensures Inv(StepPublisher(b, NextTarget))
  {
    var b' := StepPublisher(b, NextTarget);
    if b' != b {
      PublisherKeepsControl(b, b');
      forall id | 0 <= id < |b'.channels| ensures Delivered(b', id) {
        NextTargetDelivers(b, id);
      }
    }
  }

  lemma NextTargetDelivers(b: Bus, id: nat)
    requires Inv(b) && b.publisher.Sending? && b.publisher.at == |b.publisher.entry.messages| && id < |b.channels|
    ensures Delivered(StepPublisher(b, NextTarget), id)
  {
    var b' := StepPublisher(b, NextTarget);
    var channel := b.channels[id];
    assert Delivered(b, id);
    forall k | 0 <= k < |b.publisher.targets| && b.publisher.targets[k] == id
      ensures channel.sent + (if b'.publisher.Sending? then Owed(b'.publisher, k) else []) == Due(b, channel)
    {
      assert channel.sent + Owed(b.publisher, k) == Due(b, channel);
    }
  }

  lemma ReceiveKeeps(b: Bus, c: nat)
    requires Inv(b)
    ensures Inv(StepReceive(b, c))
  {
    var b' := StepReceive(b, c);
    if b' != b {
      assert forall t: nat :: b'.CallerAt(t) == b.CallerAt(t);
      RegistryStays(b, b');
      ClosedStays(b, b');
      forall id | 0 <= id < |b'.channels| ensures Delivered(b', id) && Listened(b'.channels[id]) {
        ReceiveDelivers(b, c, id);
      }
    }
  }

  lemma HearKeeps(channel: Channel)
    requires Listened(channel)
    ensures Listened(channel.Hear())
  {
    if !channel.returned && |channel.handled| < |channel.sent| {
      var n := |channel.handled|;
      assert channel.sent[..n + 1] == channel.sent[..n] + [channel.sent[n]];
    }
  }

  lemma ReceiveDelivers(b: Bus, c: nat, id: nat)
    requires Inv(b) && id < |b.channels|
    ensures Delivered(StepReceive(b, c), id) && Listened(StepReceive(b, c).channels[id])
  {
    assert Delivered(b, id) && Listened(b.channels[id]);
    HearKeeps(b.channels[id]);
    var channel' := StepReceive(b, c).channels[id];
    assert channel'.sent == b.channels[id].sent && channel'.since == b.channels[id].since;
    assert channel'.topic == b.channels[id].topic;
  }

  lemma NextKeepsInv(b: Bus, step: Step)
    requires Inv(b)
    ensures Inv(Next(b, step))
  {
    match step
    case PublishCheck(_, _) => PublishKeeps(b, step);
    case PublishSend(_) => PublishKeeps(b, step);
    case SubscribeCheck(_, _) => SubscribeCheckKeeps(b, step);
    case SubscribeAppend(t) => AppendKeeps(b, t);
    case Take => TakeKeeps(b);
    case Snapshot => SnapshotKeeps(b);
    case SendMessage => SendKeeps(b);
    case NextTarget => NextTargetKeeps(b);
    case Receive(c) => ReceiveKeeps(b, c);
    case CloseLock(t, topics) => CloseLockKeeps(b, t, topics);
    case CloseNext(t) => CloseNextKeeps(b, t);
    case _ => StopKeeps(b, step);
  }

  lemma {:induction false} RunKeepsInv(steps: seq<Step>)
    ensures Inv(Run(steps))
  {
    if steps != [] {
      RunKeepsInv(steps[..|steps| - 1]);
      NextKeepsInv(Run(steps[..|steps| - 1]), steps[|steps| - 1]);
    }
  }

  // ---- What callers did, read off the steps ----

  predicate CanCall(b: Bus, t: nat) {
    b.CallerAt(t) == Ready && b.state == Started
  }

  // What caller t is about to do: publish or register what it last came with, if it found the bus started then.
  ghost function Pending(steps: seq<Step>, t: nat): Caller {
    if steps == [] then Ready
    else
      var init, step := steps[..|steps| - 1], steps[|steps| - 1];
      var before := Pending(init, t);
      match step
      case PublishCheck(u, entry) => if u == t && CanCall(Run(init), t) then Publishing(entry) else before
      case SubscribeCheck(u, topic) => if u == t && CanCall(Run(init), t) then Subscribing(topic) else before
      case PublishSend(u) =>
        if u == t && before.Publishing? && |Run(init).queue| < 250 then Ready else before
      case SubscribeAppend(u) => if u == t && before.Subscribing? && Run(init).LockFree() then Ready else before
      case _ => before
  }

  // The entries published so far: those of the callers that had found the bus started and then found room.
  ghost function Published(steps: seq<Step>): seq<Entry> {
    if steps == [] then []
    else
      var init, step := steps[..|steps| - 1], steps[|steps| - 1];
      if step.PublishSend? && Pending(init, step.t).Publishing? && |Run(init).queue| < 250
      then Published(init) + [Pending(init, step.t).entry]
      else Published(init)
  }

  // The registrations so far: their topics, and how many entries had been fanned out by then.
  ghost function Joined(steps: seq<Step>): seq<(string, nat)> {
    if steps == [] then []
    else
      var init, step := steps[..|steps| - 1], steps[|steps| - 1];
      if step.SubscribeAppend? && Pending(init, step.t).Subscribing? && Run(init).LockFree()
         && Run(init).subscribers.Some?
      then Joined(init) + [(Pending(init, step.t).topic, |Run(init).fannedOut|)]
      else Joined(init)
  }

  predicate Calls(c: Caller) {
    c.Publishing? || c.Subscribing?
  }

  // A caller as far as publishing and registering go.
  function Calling(c: Caller): Caller {
    if Calls(c) then c else Ready
  }

  predicate SameChannel(channel: Channel, j: (string, nat)) {
    channel.topic == j.0 && channel.since == j.1
  }

  predicate SameChannels(channels: seq<Channel>, channels': seq<Channel>) {
    && |channels'| == |channels|
    && forall id :: 0 <= id < |channels| ==>
         channels'[id].topic == channels[id].topic && channels'[id].since == channels[id].since
  }

  lemma StopCalls(b: Bus, step: Step, t: nat)
    requires step.StopSwap? || step.DoneToPublisher? || step.DoneToStopper? || step.DoneAnswer?
             || step.CloseLock? || step.CloseNext?
    ensures Calling(StepStop(b, step).CallerAt(t)) == Calling(b.CallerAt(t))
    ensures StepStop(b, step).enqueued == b.enqueued
  {
  }

  lemma StopSameChannels(b: Bus, step: Step)
    requires step.StopSwap? || step.DoneToPublisher? || step.DoneToStopper? || step.DoneAnswer?
             || step.CloseLock? || step.CloseNext?
    ensures SameChannels(b.channels, StepStop(b, step).channels)
  {
  }

  lemma PublisherCalls(b: Bus, step: Step, t: nat)
    requires step.Take? || step.Snapshot? || step.SendMessage? || step.NextTarget?
    ensures StepPublisher(b, step).CallerAt(t) == b.CallerAt(t)
    ensures StepPublisher(b, step).enqueued == b.enqueued
    ensures SameChannels(b.channels, StepPublisher(b, step).channels)
  {
  }

  lemma ReceiveCalls(b: Bus, c: nat, t: nat)
    ensures StepReceive(b, c).CallerAt(t) == b.CallerAt(t) && StepReceive(b, c).enqueued == b.enqueued
    ensures SameChannels(b.channels, StepReceive(b, c).channels)
  {
  }

  // Steps that are nobody's call.
  lemma OtherCalls(b: Bus, step: Step, t: nat)
    requires !step.PublishCheck? && !step.PublishSend? && !step.SubscribeCheck? && !step.SubscribeAppend?
    ensures Calling(Next(b, step).CallerAt(t)) == Calling(b.CallerAt(t))
    ensures Next(b, step).enqueued == b.enqueued && SameChannels(b.channels, Next(b, step).channels)
  {
    match step
    case PublishCheck(_, _) =>
    case PublishSend(_) =>
    case SubscribeCheck(_, _) =>
    case SubscribeAppend(_) =>
    case Take => PublisherCalls(b, step, t);
    case Snapshot => PublisherCalls(b, step, t);
    case SendMessage => PublisherCalls(b, step, t);
    case NextTarget => PublisherCalls(b, step, t);
    case Receive(c) => ReceiveCalls(b, c, t);
    case _ =>
      StopCalls(b, step, t);
      StopSameChannels(b, step);
  }

  lemma PublishCalls(b: Bus, step: Step, t: nat)
    requires step.PublishCheck? || step.PublishSend?
    ensures var b', c := StepPublish(b, step), b.CallerAt(step.t);
            && b'.channels == b.channels
            && Calling(b'.CallerAt(t)) ==
               (if t != step.t then Calling(b.CallerAt(t))
                else if step.PublishCheck? then if CanCall(b, t) then Publishing(step.entry) else Calling(c)
                else if c.Publishing? && |b.queue| < BUFFER_SIZE then Ready else Calling(c))
            && b'.enqueued == if step.PublishSend? && c.Publishing? && |b.queue| < BUFFER_SIZE
                              then b.enqueued + [c.entry] else b.enqueued
  {
  }

  lemma SubscribeCalls(b: Bus, step: Step, t: nat)
    requires step.SubscribeCheck? || step.SubscribeAppend?
    ensures var b', c := StepSubscribe(b, step), b.CallerAt(step.t);
            && b'.enqueued == b.enqueued
            && Calling(b'.CallerAt(t)) ==
               (if t != step.t then Calling(b.CallerAt(t))
                else if step.SubscribeCheck? then if CanCall(b, t) then Subscribing(step.topic) else Calling(c)
                else if c.Subscribing? && b.LockFree() then Ready else Calling(c))
            && b'.channels == if step.SubscribeAppend? && c.Subscribing? && b.LockFree() && b.subscribers.Some?
                              then b.channels + [Channel(c.topic, |b.fannedOut|, [], [], false, false)] else b.channels
  {
  }

  lemma {:induction false} PendingIsCaller(steps: seq<Step>, t: nat)
    ensures Pending(steps, t) == Calling(Run(steps).CallerAt(t))
  {
    if steps != [] {
      var init, step := steps[..|steps| - 1], steps[|steps| - 1];
      PendingIsCaller(init, t);
      match step
      case PublishCheck(_, _) => PublishCalls(Run(init), step, t);
      case PublishSend(_) => PublishCalls(Run(init), step, t);
      case SubscribeCheck(_, _) => SubscribeCalls(Run(init), step, t);
      case SubscribeAppend(_) => SubscribeCalls(Run(init), step, t);
      case _ => OtherCalls(Run(init), step, t);
    }
  }

  // Nothing published is dropped on the way to the queue, and nothing else gets there: the queue has been given
  // exactly the entries that callers published, in order.
  lemma {:induction false} EnqueuedIsPublished(steps: seq<Step>)
    ensures Run(steps).enqueued == Published(steps)
  {
    if steps != [] {
      var init, step := steps[..|steps| - 1], steps[|steps| - 1];
      EnqueuedIsPublished(init);
      match step
      case PublishCheck(_, _) => PublishCalls(Run(init), step, 0);
      case PublishSend(t) =>
        PendingIsCaller(init, t);
        PublishCalls(Run(init), step, t);
      case SubscribeCheck(_, _) => SubscribeCalls(Run(init), step, 0);
      case SubscribeAppend(_) => SubscribeCalls(Run(init), step, 0);
      case _ => OtherCalls(Run(init), step, 0);
    }
  }

  ghost predicate AreJoined(channels: seq<Channel>, joined: seq<(string, nat)>) {
    |channels| == |joined| && forall id :: 0 <= id < |channels| ==> SameChannel(channels[id], joined[id])
  }

  // There is one channel for each registration made while the map was there, with its topic and its place in
  // the stream of entries.
  lemma {:induction false} ChannelsAreJoined(steps: seq<Step>)
    ensures AreJoined(Run(steps).channels, Joined(steps))
  {
    if steps != [] {
      var init, step := steps[..|steps| - 1], steps[|steps| - 1];
      ChannelsAreJoined(init);
      match step
      case PublishCheck(_, _) => PublishCalls(Run(init), step, 0);
      case PublishSend(_) => PublishCalls(Run(init), step, 0);
      case SubscribeCheck(_, _) => SubscribeCalls(Run(init), step, 0);
      case SubscribeAppend(t) =>
        PendingIsCaller(init, t);
        SubscribeCalls(Run(init), step, t);
      case _ => OtherCalls(Run(init), step, 0);
    }
  }

  // ---- What the bus promises, in every interleaving ----

  // The publisher goroutine never sends on a closed channel, and no channel is closed twice.
  lemma ShutdownIsSafe(steps: seq<Step>)
    ensures !Run(steps).sentOnClosed && !Run(steps).closedTwice
  {
    RunKeepsInv(steps);
  }

  // A channel is only ever closed after the handshake has shown the publisher goroutine gone.
  lemma ClosedOnlyAfterExit(steps: seq<Step>, id: nat)
    requires id < |Run(steps).channels| && Run(steps).channels[id].closed
    ensures Run(steps).publisher.Exited? && Run(steps).state == Stopped
  {
    RunKeepsInv(steps);
  }

  // Processed entries are a prefix of the published ones.
  lemma FirstInFirstOut(steps: seq<Step>)
    ensures Run(steps).fannedOut <= Published(steps)
  {
    RunKeepsInv(steps);
    EnqueuedIsPublished(steps);
  }

  // The messages sent into a channel are those of every entry on its topic that was fanned out since it was
  // registered, in queue order, with at most a tail of the current entry missing.
  lemma DeliveryIsExact(steps: seq<Step>, id: nat) returns (owed: seq<Message>)
    requires id < |Run(steps).channels|
    ensures var b, channel := Run(steps), Run(steps).channels[id];
            && channel.since <= |b.fannedOut|
            && channel.sent + owed == Stream(b.fannedOut[channel.since..], channel.topic)
            && (owed != [] ==>
                  && b.publisher.Sending?
                  && id in b.publisher.targets
                  && b.publisher.entry.topic == channel.topic
                  && exists sent :: b.publisher.entry.messages == sent + owed)
  {
    RunKeepsInv(steps);
    owed := OwedTo(Run(steps), id);
  }

  lemma OwedTo(b: Bus, id: nat) returns (owed: seq<Message>)
    requires Inv(b) && id < |b.channels|
    ensures var channel := b.channels[id];
            && channel.since <= |b.fannedOut|
            && channel.sent + owed == Stream(b.fannedOut[channel.since..], channel.topic)
            && (owed != [] ==>
                  && b.publisher.Sending?
                  && id in b.publisher.targets
                  && b.publisher.entry.topic == channel.topic
                  && exists sent :: b.publisher.entry.messages == sent + owed)
  {
    assert Delivered(b, id);
    if b.publisher.Sending? && id in b.publisher.targets {
      TargetsExist(b);
      var k :| 0 <= k < |b.publisher.targets| && b.publisher.targets[k] == id;
      owed := Owed(b.publisher, k);
      OwedIsTail(b.publisher, k);
    } else {
      owed := [];
    }
  }

  lemma OwedIsTail(p: Publisher, k: nat)
    requires p.Sending? && p.at <= |p.entry.messages|
    ensures exists sent :: p.entry.messages == sent + Owed(p, k)
  {
    var messages := p.entry.messages;
    if k < p.to {
      assert messages == messages + Owed(p, k);
    } else if k == p.to {
      assert messages == messages[..p.at] + Owed(p, k);
    } else {
      assert messages == [] + Owed(p, k);
    }
  }

  // A handler has seen a prefix of its channel's stream, and all of it once the listener has returned.
  lemma HandlersSeeTheStream(steps: seq<Step>, id: nat)
    requires id < |Run(steps).channels|
    ensures var b, channel := Run(steps), Run(steps).channels[id];
            && channel.since <= |b.fannedOut|
            && channel.handled <= Stream(b.fannedOut[channel.since..], channel.topic)
            && (channel.returned ==>
                  channel.handled == Stream(b.fannedOut[channel.since..], channel.topic) && b.publisher.Exited?)
  {
    RunKeepsInv(steps);
    var b := Run(steps);
    assert Listened(b.channels[id]);
    var owed := DeliveryIsExact(steps, id);
    if b.channels[id].returned {
      ClosedOnlyAfterExit(steps, id);
    }
  }

  // A message is sent on as long as the subscriber has fewer than 250 of them waiting.
  lemma SendsUnlessFull(b: Bus)
    requires Inv(b) && b.publisher.Sending? && b.publisher.at < |b.publisher.entry.messages|
    ensures var Sending(entry, targets, to, at) := b.publisher;
            && to < |targets| && targets[to] < |b.channels|
            && var channel, b' := b.channels[targets[to]], Next(b, SendMessage);
               if |channel.sent| - |channel.handled| < 250
               then b' == b.(channels := b.channels[
                               targets[to] := channel.(sent := channel.sent + [entry.messages[at]])],
                             publisher := Sending(entry, targets, to, at + 1))
               else b' == b
  {
    TargetsExist(b);
    SendStep(b);
  }

  ghost predicate WithinBuffers(b: Bus) {
    && |b.queue| <= BUFFER_SIZE
    && forall id :: 0 <= id < |b.channels| ==> b.channels[id].Buffered() <= BUFFER_SIZE
  }

  lemma StopStaysWithin(b: Bus, step: Step)
    requires WithinBuffers(b)
    requires step.StopSwap? || step.DoneToPublisher? || step.DoneToStopper? || step.DoneAnswer?
             || step.CloseLock? || step.CloseNext?
    ensures WithinBuffers(StepStop(b, step))
  {
  }

  lemma PublisherStaysWithin(b: Bus, step: Step)
    requires WithinBuffers(b)
    requires step.Take? || step.Snapshot? || step.SendMessage? || step.NextTarget?
    ensures WithinBuffers(StepPublisher(b, step))
  {
  }

  lemma NextStaysWithin(b: Bus, step: Step)
    requires WithinBuffers(b)
    ensures WithinBuffers(Next(b, step))
  {
    match step
    case PublishCheck(_, _) => assert WithinBuffers(StepPublish(b, step));
    case PublishSend(_) => assert WithinBuffers(StepPublish(b, step));
    case SubscribeCheck(_, _) => assert WithinBuffers(StepSubscribe(b, step));
    case SubscribeAppend(_) => assert WithinBuffers(StepSubscribe(b, step));
    case Take => PublisherStaysWithin(b, step);
    case Snapshot => PublisherStaysWithin(b, step);
    case SendMessage => PublisherStaysWithin(b, step);
    case NextTarget => PublisherStaysWithin(b, step);
    case Receive(c) => assert WithinBuffers(StepReceive(b, c));
    case _ => StopStaysWithin(b, step);
  }

  // Neither the queue nor any channel ever holds more than its buffer.
  lemma {:induction false} BuffersAreBounded(steps: seq<Step>)
    ensures WithinBuffers(Run(steps))
  {
    if steps != [] {
      BuffersAreBounded(steps[..|steps| - 1]);
      NextStaysWithin(Run(steps[..|steps| - 1]), steps[|steps| - 1]);
    }
  }

  // ---- What happens when nobody calls any more ----

  predicate IsNewCall(step: Step) {
    step.PublishCheck? || step.SubscribeCheck? || step.StopSwap?
  }

  // Nothing can move unless somebody makes a new call.
  ghost predicate AtRest(b: Bus) {
    forall step: Step :: !IsNewCall(step) ==> Next(b, step) == b
  }

  predicate Heard(channel: Channel) {
    channel.handled == channel.sent && (channel.closed ==> channel.returned)
  }

  // A listener with something to hear, or with a drained and closed channel, moves.
  lemma ListenerMoves(b: Bus, id: nat)
    requires Inv(b) && id < |b.channels| && !Heard(b.channels[id])
    ensures Next(b, Receive(id)) != b
  {
    assert Listened(b.channels[id]);
    assert StepReceive(b, id).channels[id] == b.channels[id].Hear();
  }

  // The publisher goroutine moves unless it waits for an entry or for stop.
  lemma PublisherMoves(b: Bus) returns (step: Step)
    requires Inv(b) && b.LockFree() && forall id :: 0 <= id < |b.channels| ==> Heard(b.channels[id])
    requires b.publisher.Holding? || b.publisher.Sending? || (b.publisher.Selecting? && b.queue != [])
    ensures !IsNewCall(step) && Next(b, step) != b
  {
    match b.publisher
    case Selecting =>
      step := Take;
      assert StepPublisher(b, step).publisher.Holding?;
    case Holding(_) =>
      step := Snapshot;
      assert |StepPublisher(b, step).fannedOut| == |b.fannedOut| + 1;
    case Sending(entry, targets, to, at) =>
      TargetsExist(b);
      assert targets[to] < |b.channels|;
      assert Heard(b.channels[targets[to]]);
      SendStep(b);
      step := if at < |entry.messages| then SendMessage else NextTarget;
      assert StepPublisher(b, step).publisher != b.publisher;
  }

  // A caller of Publish or Subscribe moves unless the queue is full.
  lemma CallerMoves(b: Bus, t: nat) returns (step: Step)
    requires b.LockFree()
    requires b.CallerAt(t).Subscribing? || (b.CallerAt(t).Publishing? && |b.queue| < BUFFER_SIZE)
    ensures !IsNewCall(step) && Next(b, step) != b
  {
    if b.CallerAt(t).Publishing? {
      step := PublishSend(t);
      assert StepPublish(b, step).CallerAt(t) == Ready;
    } else {
      step := SubscribeAppend(t);
      assert StepSubscribe(b, step).CallerAt(t) == Ready;
    }
  }

  lemma OnlyWinnerCloses(b: Bus)
    requires OneStopper(b) && (b.winner.Some? ==> !b.CallerAt(b.winner.value).Closing?)
    ensures b.LockFree()
  {
    forall t: nat ensures !b.CallerAt(t).Closing? {
      if Stops(b.CallerAt(t)) { assert b.winner == Some(t); }
    }
  }

  lemma {:induction false} SomeOrder(keys: set<string>) returns (topics: seq<string>)
    ensures Enumerates(topics, keys)
    decreases |keys|
  {
    if keys == {} {
      topics := [];
    } else {
      var topic :| topic in keys;
      var rest := SomeOrder(keys - {topic});
      topics := rest + [topic];
    }
  }

  // The closing loop never gets stuck.
  lemma ClosingMoves(b: Bus, t: nat)
    requires Inv(b) && b.winner == Some(t) && b.CallerAt(t).Closing?
    ensures Next(b, CloseNext(t)) != b
  {
    var Closing(topics, at) := b.CallerAt(t);
    assert Next(b, CloseNext(t)) == StepStop(b, CloseNext(t));
    if topics == [] {
      assert StepStop(b, CloseNext(t)).subscribers.None?;
    } else if at >= |b.SubscribersOf(topics[0])| {
      assert StepStop(b, CloseNext(t)).CallerAt(t) == Closing(topics[1..], 0);
      assert |topics[1..]| < |topics|;
    } else {
      var id := CloseStep(b, t);
      assert Closes(b, t).CallerAt(t) == Closing(topics, at + 1);
    }
  }

  // Nor does any other part of stop.
  lemma StopMoves(b: Bus) returns (step: Step)
    requires Inv(b) && b.winner.Some? && Stops(b.CallerAt(b.winner.value))
    requires b.LockFree() ==> !b.publisher.Holding? && !b.publisher.Sending?
    ensures !IsNewCall(step) && Next(b, step) != b
  {
    var t := b.winner.value;
    match b.CallerAt(t)
    case Closing(_, _) =>
      step := CloseNext(t);
      ClosingMoves(b, t);
    case StopSending =>
      OnlyWinnerCloses(b);
      step := DoneToPublisher(t);
      assert StepStop(b, step).publisher == Acknowledging;
    case StopWaiting =>
      step := DoneAnswer(t);
      assert StepStop(b, step).publisher == Exited;
    case StopLocking =>
      OnlyWinnerCloses(b);
      var topics := SomeOrder(b.subscribers.value.Keys);
      step := CloseLock(t, topics);
      assert StepStop(b, step).CallerAt(t) == Closing(topics, 0);
  }

  lemma RestIsHeard(b: Bus)
    requires Inv(b) && AtRest(b)
    ensures forall id :: 0 <= id < |b.channels| ==> Heard(b.channels[id])
  {
    forall id | 0 <= id < |b.channels| ensures Heard(b.channels[id]) {
      if !Heard(b.channels[id]) { ListenerMoves(b, id); }
    }
  }

  lemma RestingPublisher(b: Bus)
    requires Inv(b) && AtRest(b) && b.LockFree()
    ensures !b.publisher.Holding? && !b.publisher.Sending? && (b.publisher.Selecting? ==> b.queue == [])
  {
    RestIsHeard(b);
    if b.publisher.Holding? || b.publisher.Sending? || (b.publisher.Selecting? && b.queue != []) {
      var step := PublisherMoves(b);
    }
  }

  lemma RestingCaller(b: Bus, t: nat)
    requires AtRest(b) && b.LockFree()
    ensures !b.CallerAt(t).Subscribing? && (b.CallerAt(t).Publishing? ==> |b.queue| >= BUFFER_SIZE)
  {
    if b.CallerAt(t).Subscribing? || (b.CallerAt(t).Publishing? && |b.queue| < BUFFER_SIZE) {
      var step := CallerMoves(b, t);
    }
  }

  lemma RestingWinner(b: Bus)
    requires Inv(b) && AtRest(b) && b.winner.Some?
    ensures !Stops(b.CallerAt(b.winner.value))
  {
    if b.LockFree() { RestingPublisher(b); }
    if Stops(b.CallerAt(b.winner.value)) {
      var step := StopMoves(b);
    }
  }

  // The handler of a channel has been given all it is due.
  predicate Served(b: Bus, id: nat)
    requires id < |b.channels|
  {
    var channel := b.channels[id];
    channel.since <= |b.fannedOut| && channel.handled == Stream(b.fannedOut[channel.since..], channel.topic)
  }

  lemma RestServes(b: Bus, id: nat)
    requires Delivery(b) && !b.publisher.Sending? && id < |b.channels| && Heard(b.channels[id])
    ensures Served(b, id)
  {
    assert Delivered(b, id);
  }

  lemma RestingCallers(b: Bus)
    requires Inv(b) && AtRest(b) && (b.winner.Some? ==> !Stops(b.CallerAt(b.winner.value)))
    ensures b.LockFree()
    ensures forall t: nat :: b.CallerAt(t) == Ready || (b.CallerAt(t).Publishing? && |b.queue| >= BUFFER_SIZE)
  {
    OnlyWinnerCloses(b);
    forall t: nat ensures b.CallerAt(t) == Ready || (b.CallerAt(t).Publishing? && |b.queue| >= BUFFER_SIZE) {
      RestingCaller(b, t);
      assert !Stops(b.CallerAt(t));
    }
  }

  // A bus that nobody has stopped only comes to rest when every call has returned and every message published
  // has been given to every handler it is due to.
  lemma RestMeansDelivered(steps: seq<Step>)
    requires AtRest(Run(steps)) && Run(steps).state == Started
    ensures var b := Run(steps);
            && b.fannedOut == Published(steps)
            && (forall t: nat :: b.CallerAt(t) == Ready)
            && forall id :: 0 <= id < |b.channels| ==> Served(b, id)
  {
    RunKeepsInv(steps);
    EnqueuedIsPublished(steps);
    RestOfRunning(Run(steps));
  }

  lemma RestOfRunning(b: Bus)
    requires Inv(b) && AtRest(b) && b.state == Started
    ensures b.fannedOut == b.enqueued
    ensures forall t: nat :: b.CallerAt(t) == Ready
    ensures forall id :: 0 <= id < |b.channels| ==> Served(b, id)
  {
    RestingCallers(b);
    RestingPublisher(b);
    RestIsHeard(b);
    QueueIsLost(b);
    forall id | 0 <= id < |b.channels| ensures Served(b, id) { RestServes(b, id); }
  }

  // A bus that somebody has stopped only comes to rest when stop has returned, every channel is closed and every
  // listener has returned with all it was due; only a Publish caught by a full queue is still waiting, for good.
  lemma RestAfterStop(steps: seq<Step>)
    requires AtRest(Run(steps)) && Run(steps).state == Stopped
    ensures var b := Run(steps);
            && b.publisher.Exited? && b.subscribers.None?
            && (forall t: nat :: b.CallerAt(t) == Ready || (b.CallerAt(t).Publishing? && |b.queue| == 250))
            && forall id :: 0 <= id < |b.channels| ==> b.channels[id].closed && b.channels[id].returned && Served(b, id)
  {
    RunKeepsInv(steps);
    BuffersAreBounded(steps);
    RestOfStopped(Run(steps));
  }

  lemma RestOfStopped(b: Bus)
    requires Inv(b) && AtRest(b) && b.state == Stopped
    ensures b.publisher.Exited? && b.subscribers.None?
    ensures forall t: nat :: b.CallerAt(t) == Ready || (b.CallerAt(t).Publishing? && |b.queue| >= BUFFER_SIZE)
    ensures forall id :: 0 <= id < |b.channels| ==> b.channels[id].closed && b.channels[id].returned && Served(b, id)
  {
    RestingWinner(b);
    RestingCallers(b);
    RestIsHeard(b);
    forall id | 0 <= id < |b.channels| ensures b.channels[id].closed && Heard(b.channels[id]) && Served(b, id) {
      RestServes(b, id);
    }
  }

  ghost predicate SwapsAt(steps: seq<Step>, i: nat)
    requires i < |steps|
  {
    steps[i].StopSwap? && CanCall(Run(steps[..i]), steps[i].t)
  }

  lemma OnlySwapStops(b: Bus, step: Step)
    requires OneStopper(b)
    ensures Next(b, step).state == Stopped <==> b.state == Stopped || (step.StopSwap? && CanCall(b, step.t))
  {
    match step
    case PublishCheck(_, _) => assert StepPublish(b, step).state == b.state;
    case PublishSend(_) => assert StepPublish(b, step).state == b.state;
    case SubscribeCheck(_, _) => assert StepSubscribe(b, step).state == b.state;
    case SubscribeAppend(_) => assert StepSubscribe(b, step).state == b.state;
    case Take => assert StepPublisher(b, step).state == b.state;
    case Snapshot => assert StepPublisher(b, step).state == b.state;
    case SendMessage => assert StepPublisher(b, step).state == b.state;
    case NextTarget => assert StepPublisher(b, step).state == b.state;
    case Receive(c) => assert StepReceive(b, c).state == b.state;
    case StopSwap(t) => assert StepStop(b, step).state == if CanCall(b, t) then Stopped else b.state;
    case _ => assert StepStop(b, step).state == b.state;
  }

  // The bus is stopped if and only if somebody has called Stop; the first such call does it.
  lemma StoppedIff(steps: seq<Step>)
    ensures Run(steps).state == (if exists i :: 0 <= i < |steps| && SwapsAt(steps, i) then Stopped else Started)
  {
    var n := |steps|;
    var flags := seq(n + 1, i requires 0 <= i <= n => Run(steps[..i]).state == Stopped);
    var events := seq(n, i requires 0 <= i < n => SwapsAt(steps, i));
    forall i | 0 <= i < n ensures flags[i + 1] == (flags[i] || events[i]) {
      StepOfRun(steps, i);
      RunKeepsInv(steps[..i]);
      OnlySwapStops(Run(steps[..i]), steps[i]);
    }
    assert steps[..n] == steps;
    RaisedIff(flags, events, n);
    assert forall i :: 0 <= i < n ==> events[i] == SwapsAt(steps, i);
    RunKeepsInv(steps);
  }

  // ---- What it does not promise ----

  predicate Final(b: Bus, b': Bus) {
    Gone(b') && (b.publisher.Exited? ==> b'.publisher.Exited?) && b'.fannedOut == b.fannedOut
    && b.enqueued <= b'.enqueued
  }

  lemma StopStaysGone(b: Bus, step: Step)
    requires Gone(b)
    requires step.StopSwap? || step.DoneToPublisher? || step.DoneToStopper? || step.DoneAnswer?
             || step.CloseLock? || step.CloseNext?
    ensures Final(b, StepStop(b, step))
  {
  }

  lemma StaysGone(b: Bus, step: Step)
    requires Gone(b)
    ensures Final(b, Next(b, step))
  {
    match step
    case PublishCheck(_, _) => assert Final(b, StepPublish(b, step));
    case PublishSend(_) => assert Final(b, StepPublish(b, step));
    case SubscribeCheck(_, _) => assert Final(b, StepSubscribe(b, step));
    case SubscribeAppend(_) => assert Final(b, StepSubscribe(b, step));
    case Take => assert StepPublisher(b, step) == b;
    case Snapshot => assert StepPublisher(b, step) == b;
    case SendMessage => assert StepPublisher(b, step) == b;
    case NextTarget => assert StepPublisher(b, step) == b;
    case Receive(c) => assert Final(b, StepReceive(b, c));
    case _ => StopStaysGone(b, step);
  }

  lemma RunStep(steps: seq<Step>, step: Step)
    ensures Run(steps + [step]) == Next(Run(steps), step)
  {
    assert (steps + [step])[..|steps|] == steps;
  }

  // Nothing is fanned out once the publisher goroutine has taken the signal to stop.
  lemma {:induction false} ExitIsFinal(before: seq<Step>, after: seq<Step>)
    requires Gone(Run(before))
    ensures Final(Run(before), Run(before + after))
    decreases |after|
  {
    if after == [] {
      assert before + after == before;
    } else {
      var init, last := after[..|after| - 1], after[|after| - 1];
      ExitIsFinal(before, init);
      assert before + after == (before + init) + [last];
      RunStep(before + init, last);
      StaysGone(Run(before + init), last);
    }
  }

  // The publisher goroutine takes the signal of stop; Go's select may do so while entries are queued.
  predicate Answers(b: Bus, step: Step) {
    step.DoneToPublisher? && b.CallerAt(step.t) == StopSending && b.publisher == Selecting
  }

  predicate Sends(b: Bus, step: Step) {
    step.PublishSend? && b.CallerAt(step.t).Publishing? && |b.queue| < BUFFER_SIZE
  }

  // The two ways to lose an entry: to leave it in the queue, and to queue it too late.
  predicate Loses(b: Bus, step: Step) {
    (Answers(b, step) && b.queue != []) || (Sends(b, step) && Gone(b))
  }

  predicate Lossy(b: Bus) {
    Gone(b) && b.queue != []
  }

  lemma StopLoses(b: Bus, step: Step)
    requires step.StopSwap? || step.DoneToPublisher? || step.DoneToStopper? || step.DoneAnswer?
             || step.CloseLock? || step.CloseNext?
    ensures Lossy(StepStop(b, step)) <==> Lossy(b) || Loses(b, step)
    ensures Gone(StepStop(b, step)) <==> Gone(b) || Answers(b, step)
  {
  }

  lemma StepLoses(b: Bus, step: Step)
    ensures Lossy(Next(b, step)) <==> Lossy(b) || Loses(b, step)
    ensures Gone(Next(b, step)) <==> Gone(b) || Answers(b, step)
  {
    match step
    case PublishCheck(_, _) => assert StepPublish(b, step).publisher == b.publisher;
    case PublishSend(_) => assert StepPublish(b, step).publisher == b.publisher;
    case SubscribeCheck(_, _) => assert StepSubscribe(b, step).publisher == b.publisher;
    case SubscribeAppend(_) => assert StepSubscribe(b, step).publisher == b.publisher;
    case Take => assert Gone(StepPublisher(b, step)) == Gone(b);
    case Snapshot => assert Gone(StepPublisher(b, step)) == Gone(b);
    case SendMessage => assert Gone(StepPublisher(b, step)) == Gone(b);
    case NextTarget => assert Gone(StepPublisher(b, step)) == Gone(b);
    case Receive(c) => assert StepReceive(b, c).publisher == b.publisher;
    case _ => StopLoses(b, step);
  }

  lemma StepOfRun(steps: seq<Step>, i: nat)
    requires i < |steps|
    ensures Run(steps[..i + 1]) == Next(Run(steps[..i]), steps[i])
  {
    assert steps[..i + 1] == steps[..i] + [steps[i]];
    RunStep(steps[..i], steps[i]);
  }

  ghost predicate LosesAt(steps: seq<Step>, i: nat)
    requires i < |steps|
  {
    Loses(Run(steps[..i]), steps[i])
  }

  // With the publisher goroutine gone some published entry is lost if and only if the goroutine took the signal
  // while the queue was not empty, or an entry was sent to the queue afterwards.
  lemma LossIff(steps: seq<Step>)
    ensures Gone(Run(steps)) && Run(steps).fannedOut != Published(steps) <==>
            exists i :: 0 <= i < |steps| && LosesAt(steps, i)
  {
    var n := |steps|;
    var flags := seq(n + 1, i requires 0 <= i <= n => Lossy(Run(steps[..i])));
    var events := seq(n, i requires 0 <= i < n => LosesAt(steps, i));
    forall i | 0 <= i < n ensures flags[i + 1] == (flags[i] || events[i]) {
      StepOfRun(steps, i);
      StepLoses(Run(steps[..i]), steps[i]);
    }
    assert steps[..n] == steps;
    RaisedIff(flags, events, n);
    assert forall i :: 0 <= i < n ==> events[i] == LosesAt(steps, i);
    RunKeepsInv(steps);
    EnqueuedIsPublished(steps);
    QueueIsLost(Run(steps));
  }

  lemma QueueIsLost(b: Bus)
    requires InOrder(b)
    ensures Lossy(b) <==> Gone(b) && b.fannedOut != b.enqueued
    ensures !b.publisher.Holding? ==> b.enqueued == b.fannedOut + b.queue
  {
    if Gone(b) { assert b.enqueued == b.fannedOut + b.queue; }
  }

  lemma {:induction false} QueuedAtAnswer(steps: seq<Step>) returns (i: nat)
    requires Gone(Run(steps))
    ensures i < |steps| && Answers(Run(steps[..i]), steps[i])
    ensures Run(steps[..i]).enqueued == Run(steps).fannedOut + Run(steps[..i]).queue
    ensures Run(steps[..i]).enqueued <= Run(steps).enqueued
  {
    i := |steps| - 1;
    assert steps[..i + 1] == steps;
    StepOfRun(steps, i);
    StepLoses(Run(steps[..i]), steps[i]);
    if Gone(Run(steps[..i])) {
      StaysGone(Run(steps[..i]), steps[i]);
      var j := QueuedAtAnswer(steps[..i]);
      assert steps[..i][..j] == steps[..j];
      i := j;
    } else {
      AnswerChangesNoEntry(Run(steps[..i]), steps[i]);
      RunKeepsInv(steps[..i]);
      QueueIsLost(Run(steps[..i]));
    }
  }

  // Which ones: the entries in the queue when the goroutine took the signal, and all entries sent after that.
  lemma WhatIsLost(steps: seq<Step>) returns (i: nat)
    requires Gone(Run(steps))
    ensures i < |steps| && Answers(Run(steps[..i]), steps[i])
    ensures Published(steps[..i]) == Run(steps).fannedOut + Run(steps[..i]).queue
    ensures Published(steps[..i]) <= Published(steps)
  {
    i := QueuedAtAnswer(steps);
    EnqueuedIsPublished(steps[..i]);
    EnqueuedIsPublished(steps);
  }

  lemma AnswerChangesNoEntry(b: Bus, step: Step)
    requires Answers(b, step)
    ensures Next(b, step).fannedOut == b.fannedOut && Next(b, step).enqueued == b.enqueued
  {
  }

  // Caller 0 publishes and caller 1 stops the bus; they have got this far, with these entries published.
  ghost predicate Losing(b: Bus, sender: Caller, stopper: Caller, publisher: Publisher, entries: seq<Entry>) {
    && b.CallerAt(0) == sender && b.CallerAt(1) == stopper && b.publisher == publisher
    && b.state == (if stopper == Ready then Started else Stopped)
    && b.queue == entries && b.enqueued == entries && b.fannedOut == []
  }

  lemma LosingSend(steps: seq<Step>, entry: Entry, stopper: Caller, publisher: Publisher, entries: seq<Entry>)
    returns (steps': seq<Step>)
    requires Losing(Run(steps), Publishing(entry), stopper, publisher, entries) && |entries| < BUFFER_SIZE
    ensures steps' == steps + [PublishSend(0)]
    ensures Losing(Run(steps'), Ready, stopper, publisher, entries + [entry])
  {
    RunStep(steps, PublishSend(0));
    steps' := steps + [PublishSend(0)];
  }

  lemma LosingSwap(steps: seq<Step>, sender: Caller, entries: seq<Entry>) returns (steps': seq<Step>)
    requires Losing(Run(steps), sender, Ready, Selecting, entries)
    ensures steps' == steps + [StopSwap(1)] && Losing(Run(steps'), sender, StopSending, Selecting, entries)
  {
    RunStep(steps, StopSwap(1));
    steps' := steps + [StopSwap(1)];
  }

  lemma LosingHandshake(steps: seq<Step>, sender: Caller, entries: seq<Entry>) returns (steps': seq<Step>)
    requires Losing(Run(steps), sender, StopSending, Selecting, entries)
    ensures steps' == steps + [DoneToPublisher(1)] + [DoneAnswer(1)]
    ensures Losing(Run(steps'), sender, StopLocking, Exited, entries)
  {
    RunStep(steps, DoneToPublisher(1));
    var steps1 := steps + [DoneToPublisher(1)];
    assert Losing(Run(steps1), sender, StopWaiting, Acknowledging, entries);
    RunStep(steps1, DoneAnswer(1));
    steps' := steps1 + [DoneAnswer(1)];
  }

  lemma LosingStart(entry: Entry)
    ensures Losing(Run([PublishCheck(0, entry)]), Publishing(entry), Ready, Selecting, [])
  {
    RunStep([], PublishCheck(0, entry));
    assert [] + [PublishCheck(0, entry)] == [PublishCheck(0, entry)];
  }

  // An entry whose Publish had returned before stop began is never delivered.
  lemma LostBeforeStop(entry: Entry) returns (steps: seq<Step>)
    ensures steps == [PublishCheck(0, entry), PublishSend(0), StopSwap(1), DoneToPublisher(1), DoneAnswer(1)]
    ensures Run(steps[..2]).state == Started && Run(steps[..2]).CallerAt(0) == Ready
    ensures var b := Run(steps); b.publisher.Exited? && b.enqueued == [entry] && b.fannedOut == []
  {
    LosingStart(entry);
    var published := LosingSend([PublishCheck(0, entry)], entry, Ready, Selecting, []);
    steps := LosingSwap(published, Ready, [entry]);
    steps := LosingHandshake(steps, Ready, [entry]);
    assert steps[..2] == published;
  }

  // So is one whose Publish tested the state in time and was overtaken by stop.
  lemma LostAfterStop(entry: Entry) returns (steps: seq<Step>)
    ensures steps == [PublishCheck(0, entry), StopSwap(1), DoneToPublisher(1), DoneAnswer(1), PublishSend(0)]
    ensures var b := Run(steps); b.publisher.Exited? && b.enqueued == [entry] && b.fannedOut == []
  {
    LosingStart(entry);
    steps := LosingSwap([PublishCheck(0, entry)], Publishing(entry), []);
    steps := LosingHandshake(steps, Publishing(entry), []);
    steps := LosingSend(steps, entry, StopLocking, Exited, []);
  }

  // Caller t wants to publish, but the queue is full and nobody takes from it any more.
  predicate Blocked(b: Bus, t: nat, entry: Entry) {
    Gone(b) && |b.queue| == BUFFER_SIZE && b.CallerAt(t) == Publishing(entry)
  }

  lemma StopStaysBlocked(b: Bus, step: Step, t: nat, entry: Entry)
    requires Blocked(b, t, entry)
    requires step.StopSwap? || step.DoneToPublisher? || step.DoneToStopper? || step.DoneAnswer?
             || step.CloseLock? || step.CloseNext?
    ensures Blocked(StepStop(b, step), t, entry)
  {
  }

  lemma StaysBlocked(b: Bus, step: Step, t: nat, entry: Entry)
    requires Blocked(b, t, entry)
    ensures Blocked(Next(b, step), t, entry)
  {
    match step
    case PublishCheck(_, _) => assert Blocked(StepPublish(b, step), t, entry);
    case PublishSend(_) => assert Blocked(StepPublish(b, step), t, entry);
    case SubscribeCheck(_, _) => assert Blocked(StepSubscribe(b, step), t, entry);
    case SubscribeAppend(_) => assert Blocked(StepSubscribe(b, step), t, entry);
    case Take => assert StepPublisher(b, step) == b;
    case Snapshot => assert StepPublisher(b, step) == b;
    case SendMessage => assert StepPublisher(b, step) == b;
    case NextTarget => assert StepPublisher(b, step) == b;
    case Receive(c) => assert Blocked(StepReceive(b, c), t, entry);
    case _ => StopStaysBlocked(b, step, t, entry);
  }

  // Such a call never returns.
  lemma {:induction false} BlockedForGood(before: seq<Step>, after: seq<Step>, t: nat, entry: Entry)
    requires Blocked(Run(before), t, entry)
    ensures Blocked(Run(before + after), t, entry)
    decreases |after|
  {
    if after == [] {
      assert before + after == before;
    } else {
      var init, last := after[..|after| - 1], after[|after| - 1];
      BlockedForGood(before, init, t, entry);
      assert before + after == (before + init) + [last];
      RunStep(before + init, last);
      StaysBlocked(Run(before + init), last, t, entry);
    }
  }

  lemma LosingCheck(steps: seq<Step>, entry: Entry, entries: seq<Entry>) returns (steps': seq<Step>)
    requires Losing(Run(steps), Ready, Ready, Selecting, entries)
    ensures steps' == steps + [PublishCheck(0, entry)]
    ensures Losing(Run(steps'), Publishing(entry), Ready, Selecting, entries)
  {
    RunStep(steps, PublishCheck(0, entry));
    steps' := steps + [PublishCheck(0, entry)];
  }

  lemma {:induction false} LosingFill(entry: Entry, k: nat) returns (steps: seq<Step>, entries: seq<Entry>)
    requires k <= BUFFER_SIZE
    ensures |entries| == k && Losing(Run(steps), Ready, Ready, Selecting, entries)
  {
    if k == 0 {
      steps, entries := [], [];
    } else {
      steps, entries := LosingFill(entry, k - 1);
      steps := LosingCheck(steps, entry, entries);
      steps := LosingSend(steps, entry, Ready, Selecting, entries);
      entries := entries + [entry];
    }
  }

  // A Publish that tested the state in time, met a full queue and was overtaken by stop never returns.
  lemma PublishBlockedByStop(entry: Entry) returns (steps: seq<Step>)
    ensures Blocked(Run(steps), 0, entry)
    ensures forall after :: Blocked(Run(steps + after), 0, entry)
  {
    var entries;
    steps, entries := LosingFill(entry, BUFFER_SIZE);
    steps := LosingCheck(steps, entry, entries);
    steps := LosingSwap(steps, Publishing(entry), entries);
    steps := LosingHandshake(steps, Publishing(entry), entries);
    forall after ensures Blocked(Run(steps + after), 0, entry) {
      BlockedForGood(steps, after, 0, entry);
    }
  }

  // Caller t tested the state in time, and is about to register after the winner of the swap has left stop.
  ghost predicate Overtaken(b: Bus, t: nat) {
    b.CallerAt(t).Subscribing? && b.LockFree() && b.winner.Some? && !Stops(b.CallerAt(b.winner.value))
  }

  lemma RegistrationOvertaken(b: Bus, t: nat)
    requires Inv(b)
    ensures StepSubscribe(b, SubscribeAppend(t)).wroteNilMap <==> b.wroteNilMap || Overtaken(b, t)
  {
    if b.winner.Some? && Stops(b.CallerAt(b.winner.value)) { assert b.subscribers.Some?; }
  }

  lemma OnlyRegistrationsWrite(b: Bus, step: Step)
    requires !step.SubscribeAppend?
    ensures Next(b, step).wroteNilMap == b.wroteNilMap
  {
    match step
    case PublishCheck(_, _) => assert StepPublish(b, step).wroteNilMap == b.wroteNilMap;
    case PublishSend(_) => assert StepPublish(b, step).wroteNilMap == b.wroteNilMap;
    case SubscribeCheck(_, _) => assert StepSubscribe(b, step).wroteNilMap == b.wroteNilMap;
    case SubscribeAppend(_) =>
    case Take => assert StepPublisher(b, step).wroteNilMap == b.wroteNilMap;
    case Snapshot => assert StepPublisher(b, step).wroteNilMap == b.wroteNilMap;
    case SendMessage => assert StepPublisher(b, step).wroteNilMap == b.wroteNilMap;
    case NextTarget => assert StepPublisher(b, step).wroteNilMap == b.wroteNilMap;
    case Receive(c) => assert StepReceive(b, c).wroteNilMap == b.wroteNilMap;
    case _ => assert StepStop(b, step).wroteNilMap == b.wroteNilMap;
  }

  lemma LastStepWrites(init: seq<Step>, last: Step)
    ensures Next(Run(init), last).wroteNilMap <==>
            Run(init).wroteNilMap || (last.SubscribeAppend? && Overtaken(Run(init), last.t))
  {
    RunKeepsInv(init);
    if last.SubscribeAppend? {
      RegistrationOvertaken(Run(init), last.t);
    } else {
      OnlyRegistrationsWrite(Run(init), last);
    }
  }

  // The i-th step is a registration that stop has overtaken.
  ghost predicate OvertakenAt(steps: seq<Step>, i: nat)
    requires i < |steps|
  {
    steps[i].SubscribeAppend? && Overtaken(Run(steps[..i]), steps[i].t)
  }

  lemma StepWrites(steps: seq<Step>, i: nat)
    requires i < |steps|
    ensures Run(steps[..i + 1]).wroteNilMap <==> Run(steps[..i]).wroteNilMap || OvertakenAt(steps, i)
  {
    StepOfRun(steps, i);
    LastStepWrites(steps[..i], steps[i]);
  }

  // A flag raised by events is up exactly when one of them has happened.
  lemma {:induction false} RaisedIff(flags: seq<bool>, events: seq<bool>, n: nat)
    requires n <= |events| && |flags| == |events| + 1 && !flags[0]
    requires forall i :: 0 <= i < |events| ==> flags[i + 1] == (flags[i] || events[i])
    ensures flags[n] <==> exists i :: 0 <= i < n && events[i]
  {
    if n > 0 {
      RaisedIff(flags, events, n - 1);
      assert flags[n - 1 + 1] == (flags[n - 1] || events[n - 1]);
    }
  }

  // A run writes to the nil map, which is a panic in Go, if and only if some registration that had tested
  // the state in time was overtaken by a whole stop.
  lemma NilMapWriteIff(steps: seq<Step>)
    ensures Run(steps).wroteNilMap <==> exists i :: 0 <= i < |steps| && OvertakenAt(steps, i)
  {
    var n := |steps|;
    var flags := seq(n + 1, i requires 0 <= i <= n => Run(steps[..i]).wroteNilMap);
    var events := seq(n, i requires 0 <= i < n => OvertakenAt(steps, i));
    forall i | 0 <= i < n ensures flags[i + 1] == (flags[i] || events[i]) {
      StepWrites(steps, i);
    }
    assert steps[..n] == steps;
    RaisedIff(flags, events, n);
    assert forall i :: 0 <= i < n ==> events[i] == OvertakenAt(steps, i);
  }

  // Caller 0 is about to register, caller 1 has gone this far in stop, and nobody else has called.
  ghost predicate Overtaking(b: Bus, stopper: Caller, publisher: Publisher,
                             subscribers: Option<map<string, seq<nat>>>)
  {
    && b.callers == map[0 := Subscribing("t"), 1 := stopper]
    && b.publisher == publisher && b.subscribers == subscribers && !b.wroteNilMap
  }

  lemma OvertakenStart()
    ensures Overtaking(Next(Next(NEW_BUS, SubscribeCheck(0, "t")), StopSwap(1)), StopSending, Selecting, Some(map[]))
  {
  }

  lemma OvertakenHandshake(b: Bus)
    requires Overtaking(b, StopSending, Selecting, Some(map[]))
    ensures Overtaking(Next(Next(b, DoneToPublisher(1)), DoneAnswer(1)), StopLocking, Exited, Some(map[]))
  {
    assert Overtaking(Next(b, DoneToPublisher(1)), StopWaiting, Acknowledging, Some(map[]));
  }

  lemma OvertakenClose(b: Bus)
    requires Overtaking(b, StopLocking, Exited, Some(map[]))
    ensures Overtaking(Next(Next(b, CloseLock(1, [])), CloseNext(1)), Ready, Exited, None)
  {
    assert Overtaking(Next(b, CloseLock(1, [])), Closing([], 0), Exited, Some(map[]));
  }

  lemma RunTwo(steps: seq<Step>, step1: Step, step2: Step)
    ensures Run(steps + [step1, step2]) == Next(Next(Run(steps), step1), step2)
  {
    assert steps + [step1, step2] == (steps + [step1]) + [step2];
    RunStep(steps + [step1], step2);
    RunStep(steps, step1);
  }

  // One Subscribe overtaken by one Stop gets there.
  lemma SubscribeOvertakenByStop() returns (steps: seq<Step>)
    ensures steps == [SubscribeCheck(0, "t"), StopSwap(1)] + [DoneToPublisher(1), DoneAnswer(1)]
                     + [CloseLock(1, []), CloseNext(1)] + [SubscribeAppend(0)]
    ensures Run(steps).wroteNilMap
  {
    RunTwo([], SubscribeCheck(0, "t"), StopSwap(1));
    OvertakenStart();
    steps := [SubscribeCheck(0, "t"), StopSwap(1)];
    assert [] + steps == steps;
    RunTwo(steps, DoneToPublisher(1), DoneAnswer(1));
    OvertakenHandshake(Run(steps));
    steps := steps + [DoneToPublisher(1), DoneAnswer(1)];
    RunTwo(steps, CloseLock(1, []), CloseNext(1));
    OvertakenClose(Run(steps));
    steps := steps + [CloseLock(1, []), CloseNext(1)];
    assert Run(steps).LockFree();
    RunStep(steps, SubscribeAppend(0));
    steps := steps + [SubscribeAppend(0)];
  }
}
