/** Fan-out: what a subscriber gets of the messages the hub accepts. */
module HubDelivery {
  import opened HubSpec

  const QUEUE := 128

  /** A subscriber: its queue, what it has taken, and history: the stretch of the log accepted
      while it was subscribed and, for each of those messages, whether it was left out and how
      many the subscriber had taken at that moment. */
  datatype Sub = Sub(live: bool, queue: seq<Message>, received: seq<Message>,
                     from: nat, until: nat, dropped: seq<bool>, takenAt: seq<nat>)

  /** The non-blocking send. */
  function Offer(u: Sub, m: Message): Sub {
    if !u.live then u
    else
      var full := |u.queue| >= QUEUE;
      u.(queue := if full then u.queue else u.queue + [m], until := u.until + 1,
         dropped := u.dropped + [full], takenAt := u.takenAt + [|u.received|])
  }

  function Receive(u: Sub): Sub {
    if u.queue == [] then u else u.(queue := u.queue[1..], received := u.received + [u.queue[0]])
  }

  datatype Room = Room(hub: State, subs: map<nat, Sub>)

  datatype Event = Post(m: Message) | Take(id: nat) | Subscribe(id: nat) | Unsubscribe(id: nat)

  function Step(r: Room, e: Event): Room {
    match e
    case Post(m) =>
      if Accepts(r.hub, m)
      then Room(Accept(r.hub, m), map id | id in r.subs :: Offer(r.subs[id], m))
      else r
    case Take(id) => if id in r.subs then r.(subs := r.subs[id := Receive(r.subs[id])]) else r
    case Subscribe(id) =>
      if id in r.subs then r
      else r.(subs := r.subs[id := Sub(true, [], [], |r.hub.log|, |r.hub.log|, [], [])])
    case Unsubscribe(id) => if id in r.subs then r.(subs := r.subs[id := r.subs[id].(live := false)]) else r
  }

  function RunRoom(limit: int, es: seq<Event>): Room {
    if es == [] then Room(New(limit), map[]) else Step(RunRoom(limit, es[..|es| - 1]), es[|es| - 1])
  }

  /** The messages that were not left out, in order. */
  function Kept(ms: seq<Message>, dropped: seq<bool>): seq<Message>
    requires |ms| == |dropped|
  {
    if ms == [] then []
    else
      var n := |ms| - 1;
      Kept(ms[..n], dropped[..n]) + if dropped[n] then [] else [ms[n]]
  }

  /** Left out exactly when the queue was full: 128 of the messages kept so far not taken yet. */
  ghost predicate DroppedWhenFull(ms: seq<Message>, dropped: seq<bool>, takenAt: seq<nat>, i: nat)
    requires |ms| == |dropped| == |takenAt| && i < |ms|
  {
    dropped[i] <==> |Kept(ms[..i], dropped[..i])| - takenAt[i] == 128
  }

  ghost predicate SubInv(u: Sub, log: seq<Message>) {
    && u.from <= u.until <= |log| && (u.live ==> u.until == |log|)
    && |u.queue| <= QUEUE
    && |u.dropped| == |u.takenAt| == u.until - u.from
    && u.received + u.queue == Kept(log[u.from..u.until], u.dropped)
    && (forall i :: 0 <= i < u.until - u.from ==> DroppedWhenFull(log[u.from..u.until], u.dropped, u.takenAt, i))
  }

  lemma SliceAppend(log: seq<Message>, m: Message, from: nat)
    requires from <= |log|
    ensures (log + [m])[from..|log| + 1] == log[from..|log|] + [m]
  {}

  lemma OfferInv(u: Sub, log: seq<Message>, m: Message)
    requires SubInv(u, log)
    ensures SubInv(Offer(u, m), log + [m])
  {
    var v, all := Offer(u, m), log + [m];
    var was, now := log[u.from..u.until], all[v.from..v.until];
    if !u.live {
      assert now == was;
    } else {
      var n := |was|;
      SliceAppend(log, m, u.from);
      assert now[..n] == was && now[n] == m;
      assert v.dropped[..n] == u.dropped;
      assert u.received + u.queue + [m] == u.received + (u.queue + [m]);
      forall i | 0 <= i < n + 1 ensures DroppedWhenFull(now, v.dropped, v.takenAt, i) {
        if i < n {
          assert DroppedWhenFull(was, u.dropped, u.takenAt, i);
          assert now[..i] == was[..i] && v.dropped[..i] == u.dropped[..i];
        }
      }
    }
  }

  lemma ReceiveInv(u: Sub, log: seq<Message>)
    requires SubInv(u, log)
    ensures SubInv(Receive(u), log)
  {
    if u.queue != [] {
      assert u.received + u.queue == (u.received + [u.queue[0]]) + u.queue[1..];
    }
  }

  lemma {:induction false} RunSub(limit: int, es: seq<Event>, id: nat)
    requires id in RunRoom(limit, es).subs
    ensures var r := RunRoom(limit, es); SubInv(r.subs[id], r.hub.log)
  {
    var n := |es| - 1;
    var r, e := RunRoom(limit, es[..n]), es[n];
    if id in r.subs { RunSub(limit, es[..n], id); }
    match e
    case Post(m) => if Accepts(r.hub, m) { OfferInv(r.subs[id], r.hub.log, m); }
    case Take(j) => if id in r.subs { ReceiveInv(r.subs[id], r.hub.log); }
    case Subscribe(j) =>
      if id !in r.subs { assert r.hub.log[|r.hub.log|..|r.hub.log|] == []; }
    case Unsubscribe(j) =>
  }

  /** Over any interleaving of posts, receipts, subscriptions and cancellations: what a subscriber
      received plus what is queued is, in order, the stretch of the log accepted while it was
      subscribed, without the messages left out; and one is left out exactly if the queue was full. */
  lemma Delivery(limit: int, es: seq<Event>, id: nat)
    requires id in RunRoom(limit, es).subs
    ensures var log, u := RunRoom(limit, es).hub.log, RunRoom(limit, es).subs[id];
            && u.from <= u.until <= |log| && (u.live ==> u.until == |log|)
            && |u.queue| <= 128 && |u.dropped| == |u.takenAt| == u.until - u.from
            && u.received + u.queue == Kept(log[u.from..u.until], u.dropped)
            && (forall i :: 0 <= i < |u.dropped| ==>
                  (u.dropped[i] <==> |Kept(log[u.from..u.until][..i], u.dropped[..i])| - u.takenAt[i] == 128))
  {
    RunSub(limit, es, id);
    var log, u := RunRoom(limit, es).hub.log, RunRoom(limit, es).subs[id];
    var owed := log[u.from..u.until];
    forall i | 0 <= i < |u.dropped|
      ensures u.dropped[i] <==> |Kept(owed[..i], u.dropped[..i])| - u.takenAt[i] == 128
    {
      assert DroppedWhenFull(owed, u.dropped, u.takenAt, i);
    }
  }

  /** The stretch of the log a subscriber is owed begins when it subscribed. */
  lemma {:induction false} StretchBegins(limit: int, es: seq<Event>, k: nat, id: nat)
    requires k < |es| && es[k] == Subscribe(id) && id !in RunRoom(limit, es[..k]).subs
    ensures var r := RunRoom(limit, es); id in r.subs && r.subs[id].from == |RunRoom(limit, es[..k]).hub.log|
    decreases |es|
  {
    var n := |es| - 1;
    if k < n {
      assert es[..n][..k] == es[..k];
      StretchBegins(limit, es[..n], k, id);
    }
  }

  /** And it ends when it cancelled, or has not ended yet. */
  lemma {:induction false} StretchEnds(limit: int, es: seq<Event>, k: nat, id: nat)
    requires k < |es| && es[k] == Unsubscribe(id)
    requires id in RunRoom(limit, es[..k]).subs && RunRoom(limit, es[..k]).subs[id].live
    ensures var r := RunRoom(limit, es);
            id in r.subs && !r.subs[id].live && r.subs[id].until == |RunRoom(limit, es[..k]).hub.log|
    decreases |es|
  {
    var n := |es| - 1;
    if k < n {
      assert es[..n][..k] == es[..k];
      StretchEnds(limit, es[..n], k, id);
    } else {
      RunSub(limit, es[..k], id);
    }
  }

  /** The messages that were posted, in order. */
  function Posts(es: seq<Event>): seq<Message> {
    if es == [] then []
    else
      var e := es[|es| - 1];
      Posts(es[..|es| - 1]) + if e.Post? then [e.m] else []
  }

  /** Subscribers do not change what the hub accepts: the room's hub is the hub without them. */
  lemma {:induction false} RoomIsHub(limit: int, es: seq<Event>)
    ensures RunRoom(limit, es).hub == Run(New(limit), Posts(es))
  {
    if es != [] {
      var n := |es| - 1;
      RoomIsHub(limit, es[..n]);
      var before := Posts(es[..n]);
      if es[n].Post? {
        assert (before + [es[n].m])[..|before|] == before;
      } else {
        assert before + [] == before;
      }
    }
  }

  lemma StepAfterUnsubscribe(r: Room, e: Event, id: nat)
    requires id in r.subs && !r.subs[id].live
    ensures var t := Step(r, e);
            && id in t.subs && !t.subs[id].live
            && t.subs[id].received + t.subs[id].queue == r.subs[id].received + r.subs[id].queue
            && r.subs[id].received <= t.subs[id].received
  {
    var u := r.subs[id];
    if u.queue != [] { assert u.received + [u.queue[0]] + u.queue[1..] == u.received + u.queue; }
  }

  function RunFrom(r: Room, es: seq<Event>): Room
    decreases |es|
  {
    if es == [] then r else RunFrom(Step(r, es[0]), es[1..])
  }

  /** After it cancelled, a subscriber can still drain its queue, and gets nothing more. */
  lemma {:induction false} NothingAfterUnsubscribe(r: Room, id: nat, es: seq<Event>)
    requires id in r.subs
    ensures var t := RunFrom(Step(r, Unsubscribe(id)), es);
            && id in t.subs
            && t.subs[id].received + t.subs[id].queue == r.subs[id].received + r.subs[id].queue
            && r.subs[id].received <= t.subs[id].received
    decreases |es|
  {
    QuietRun(Step(r, Unsubscribe(id)), id, es);
  }

  lemma {:induction false} QuietRun(r: Room, id: nat, es: seq<Event>)
    requires id in r.subs && !r.subs[id].live
    ensures var t := RunFrom(r, es);
            && id in t.subs
            && t.subs[id].received + t.subs[id].queue == r.subs[id].received + r.subs[id].queue
            && r.subs[id].received <= t.subs[id].received
    decreases |es|
  {
    if es != [] {
      StepAfterUnsubscribe(r, es[0], id);
      QuietRun(Step(r, es[0]), id, es[1..]);
    }
  }
}
