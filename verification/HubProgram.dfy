/** The hub as the program has it, tied to its specification method by method. */
module HubProgram {
  import opened HubSpec
  import opened HubDelivery

  /** A subscriber's channel. */
  class Channel {
    var queue: seq<Message>

    constructor ()
      ensures queue == []
    {
      queue := [];
    }

    /** The non-blocking send: a full queue drops the message. */
    method Send(m: Message)
      modifies this
      ensures queue == if |old(queue)| >= 128 then old(queue) else old(queue) + [m]
    {
      if |queue| < QUEUE { queue := queue + [m]; }
    }

    method Receive() returns (m: Message)
      requires queue != []
      modifies this
      ensures old(queue) == [m] + queue
    {
      m := queue[0];
      queue := queue[1..];
    }
  }

  class Hub {
    const cap: nat
    const text: Text
    var recent: seq<Message>
    var seen: set<string>
    var subscribers: set<Channel>
    ghost var log: seq<Message>
    ghost var visited: nat
    ghost var rebuilds: seq<nat>

    ghost function View(): State
      reads this
    {
      State(recent, seen, cap, log, visited, rebuilds)
    }

    constructor (limit: int, text: Text)
      ensures View() == New(limit) && Inv(View()) && subscribers == {} && this.text == text
    {
      cap := if limit < 1 then 250 else limit;
      this.text := text;
      recent, seen, subscribers := [], {}, {};
      log, visited, rebuilds := [], 0, [];
    }

    method Subscribe() returns (ch: Channel)
      modifies this`subscribers
      ensures fresh(ch) && ch.queue == [] && subscribers == old(subscribers) + {ch}
    {
      ch := new Channel();
      subscribers := subscribers + {ch};
    }

    method Unsubscribe(ch: Channel)
      modifies this`subscribers
      ensures subscribers == old(subscribers) - {ch}
    {
      subscribers := subscribers - {ch};
    }

    /** A new subscriber's view of the past: the last cap messages ever accepted. */
    method Snapshot() returns (ms: seq<Message>)
      requires Inv(View())
      ensures ms == LastOf(log, cap) && Keys(ms) <= seen
    {
      ms := recent;
    }

    /** Fills the table afresh from the history; `visited` counts the entries looked at. */
    method Rebuild()
      modifies this`seen, this`visited
      ensures seen == Keys(recent) && visited == old(visited) + |recent|
    {
      seen := {};
      var i := 0;
      while i < |recent|
        invariant 0 <= i <= |recent| && seen == Keys(recent[..i]) && visited == old(visited) + i
      {
        assert recent[..i + 1][..i] == recent[..i];
        if recent[i].id != "" { seen := seen + {recent[i].platform + "/" + recent[i].id}; }
        visited := visited + 1;
        i := i + 1;
      }
      assert recent[..i] == recent;
    }

    /** Appends to the history and cuts it to the cap. */
    method Remember(m: Message)
      modifies this`recent, this`log
      ensures recent == LastOf(old(recent) + [m], cap) && log == old(log) + [m]
    {
      recent := recent + [m];
      if |recent| > cap { recent := recent[|recent| - cap..]; }
      log := log + [m];
    }

    /** Accepts the cleaned message into history and table, or refuses it. */
    method Store(m: Message) returns (ok: bool)
      requires m.platform != "" && m.text != ""
      modifies this`recent, this`seen, this`log, this`visited, this`rebuilds
      ensures ok <==> m.id == "" || m.platform + "/" + m.id !in old(seen)
      ensures ok <==> Accepts(old(View()), m)
      ensures View() == HubSpec.Publish(old(View()), m)
    {
      var key := Key(m);
      if key != "" {
        if key in seen { return false; }
        seen := seen + {key};
      }
      Remember(m);
      if |seen| > cap * 4 {
        Rebuild();
        rebuilds := rebuilds + [Keyed(log)];
      }
      ok := true;
    }

    /** The fan-out, over the subscribers in any order. */
    method Broadcast(m: Message)
      modifies subscribers
      ensures forall ch :: ch in subscribers ==>
                ch.queue == if |old(ch.queue)| >= 128 then old(ch.queue) else old(ch.queue) + [m]
    {
      var todo := subscribers;
      while todo != {}
        invariant todo <= subscribers
        invariant forall ch :: ch in subscribers ==>
          ch.queue == if ch in todo || |old(ch.queue)| >= 128 then old(ch.queue) else old(ch.queue) + [m]
        decreases |todo|
      {
        var ch :| ch in todo;
        ch.Send(m);
        todo := todo - {ch};
      }
    }

    /** The part of `publish` under the lock. */
    method Deliver(m: Message) returns (ok: bool)
      requires m.platform != "" && m.text != ""
      modifies this`recent, this`seen, this`log, this`visited, this`rebuilds, subscribers
      ensures ok <==> Accepts(old(View()), m)
      ensures View() == HubSpec.Publish(old(View()), m)
      ensures forall ch :: ch in subscribers ==>
                ch.queue == if !ok || |old(ch.queue)| >= 128 then old(ch.queue) else old(ch.queue) + [m]
    {
      ok := Store(m);
      if ok { Broadcast(m); }
    }

    method Publish(raw: Message, now: int) returns (ok: bool)
      requires Inv(View())
      modifies this`recent, this`seen, this`log, this`visited, this`rebuilds, subscribers
      ensures Inv(View())
      ensures ok <==> Accepts(old(View()), Complete(Clean(text, raw), now))
      ensures View() == HubSpec.Publish(old(View()), Complete(Clean(text, raw), now))
      ensures forall ch :: ch in subscribers ==>
                ch.queue == if !ok || |old(ch.queue)| >= 128 then old(ch.queue)
                            else old(ch.queue) + [Complete(Clean(text, raw), now)]
    {
      var m := Clean(text, raw);
      PublishInv(View(), Complete(m, now));
      if m.platform == "" || m.text == "" { return false; }
      m := Complete(m, now);
      ok := Deliver(m);
    }
  }
}
