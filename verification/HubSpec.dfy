/**
 The chat hub: a bounded history, a table of seen message keys that is rebuilt now and then, and a
 lossy fan-out to subscribers.  This is the
 specification and what is proved of every run; the program is in HubProgram.
 */
module HubSpec {
  datatype Message = Message(id: string, platform: string, user: string, text: string, kind: string, time: int)

  const NO_TIME := 0

  /** Trimming white space and lower-casing belong to the library; nothing depends on what they do. */
  datatype Text = Text(trim: string -> string, lower: string -> string)

  function Truncate(s: string, n: nat): string { if |s| <= n then s else s[..n] }

  function Clean(t: Text, m: Message): Message {
    Message(Truncate(t.trim(m.id), 160), Truncate(t.lower(t.trim(m.platform)), 32), Truncate(t.trim(m.user), 80),
            Truncate(t.trim(m.text), 2000), Truncate(t.trim(m.kind), 32), m.time)
  }

  function Complete(m: Message, now: int): Message {
    m.(user := if m.user == "" then "unknown" else m.user, time := if m.time == NO_TIME then now else m.time)
  }

  function Key(m: Message): string { if m.id == "" then "" else m.platform + "/" + m.id }

  /** The keys of the messages that have one. */
  function Keys(ms: seq<Message>): set<string> {
    if ms == [] then {}
    else
      var k := Key(ms[|ms| - 1]);
      Keys(ms[..|ms| - 1]) + if k == "" then {} else {k}
  }

  function Keyed(ms: seq<Message>): nat {
    if ms == [] then 0 else Keyed(ms[..|ms| - 1]) + if Key(ms[|ms| - 1]) == "" then 0 else 1
  }

  function LastOf(ms: seq<Message>, n: nat): seq<Message> { if |ms| <= n then ms else ms[|ms| - n..] }

  /** The hub, and three pieces of history: all accepted messages, the entries all rebuild loops
      together have visited, and how many keyed messages had been accepted at each rebuild. */
  datatype State = State(recent: seq<Message>, seen: set<string>, cap: nat,
                         log: seq<Message>, visited: nat, rebuilds: seq<nat>)

  function New(limit: int): State { State([], {}, if limit < 1 then 250 else limit, [], 0, []) }

  /** `publish`, for a message that has been cleaned. */
  predicate Accepts(s: State, m: Message) {
    m.platform != "" && m.text != "" && (Key(m) == "" || Key(m) !in s.seen)
  }

  function Accept(s: State, m: Message): State {
    var seen := if Key(m) == "" then s.seen else s.seen + {Key(m)};
    var recent := LastOf(s.recent + [m], s.cap);
    var log := s.log + [m];
    if |seen| > s.cap * 4
    then State(recent, Keys(recent), s.cap, log, s.visited + |recent|, s.rebuilds + [Keyed(log)])
    else State(recent, seen, s.cap, log, s.visited, s.rebuilds)
  }

  function Publish(s: State, m: Message): State { if Accepts(s, m) then Accept(s, m) else s }

  function Run(s: State, ms: seq<Message>): State {
    if ms == [] then s else Publish(Run(s, ms[..|ms| - 1]), ms[|ms| - 1])
  }

  // ---------------------------------------------------------------- the invariant

  /** Two accepted messages with one key are more than cap log positions apart. */
  ghost predicate Spaced(log: seq<Message>, cap: nat) {
    forall i, j :: 0 <= i < j < |log| && Key(log[i]) == Key(log[j]) && Key(log[j]) != "" ==> cap < j - i
  }

  /** At least 4*cap+1 keyed messages before the first rebuild, 3*cap+1 before each later one. */
  predicate Apart(r: seq<nat>, cap: nat, i: nat)
    requires i < |r|
  {
    (if i == 0 then 4 * cap + 1 else r[i - 1] + 3 * cap + 1) <= r[i]
  }

  ghost predicate RebuildsApart(r: seq<nat>, cap: nat) { forall i :: 0 <= i < |r| ==> Apart(r, cap, i) }

  ghost predicate Inv(s: State) {
    && 1 <= s.cap
    && s.recent == LastOf(s.log, s.cap)
    && Keys(s.recent) <= s.seen <= Keys(s.log)
    && Spaced(s.log, s.cap)
    && Counts(s)
  }

  lemma {:induction false} KeysJoined(a: seq<Message>, b: seq<Message>)
    ensures Keys(a + b) == Keys(a) + Keys(b)
    decreases |b|
  {
    if b == [] {
      assert a + b == a;
    } else {
      var init := b[..|b| - 1];
      assert (a + b)[..|a + b| - 1] == a + init && (a + b)[|a + b| - 1] == b[|b| - 1];
      KeysJoined(a, init);
    }
  }

  lemma KeyBetween(a: seq<Message>, x: Message, b: seq<Message>)
    requires Key(x) != ""
    ensures Key(x) in Keys(a + [x] + b)
  {
    KeysJoined(a + [x], b);
    assert (a + [x])[..|a|] == a;
  }

  lemma SplitAt(ms: seq<Message>, n: nat, i: nat)
    requires n <= i < |ms|
    ensures ms[n..] == ms[n..i] + [ms[i]] + ms[i + 1..]
  {}

  /** The key of a message is among those of any end of the list that holds the message. */
  lemma KeyInEnd(ms: seq<Message>, n: nat, i: nat)
    requires n <= i < |ms| && Key(ms[i]) != ""
    ensures Key(ms[i]) in Keys(ms[n..])
  {
    SplitAt(ms, n, i);
    KeyBetween(ms[n..i], ms[i], ms[i + 1..]);
  }

  lemma KeyAt(ms: seq<Message>, i: nat)
    requires i < |ms| && Key(ms[i]) != ""
    ensures Key(ms[i]) in Keys(ms)
  {
    assert ms[0..] == ms;
    KeyInEnd(ms, 0, i);
  }

  lemma {:induction false} KeyFound(ms: seq<Message>, k: string) returns (i: nat)
    requires k in Keys(ms)
    ensures i < |ms| && Key(ms[i]) == k != ""
  {
    i := |ms| - 1;
    if Key(ms[i]) != k || k == "" {
      var init := ms[..i];
      i := KeyFound(init, k);
      assert ms[i] == init[i];
    }
  }

  lemma KeysIn(ms: seq<Message>, k: string)
    ensures k in Keys(ms) <==> k != "" && exists i :: 0 <= i < |ms| && Key(ms[i]) == k
  {
    if k in Keys(ms) {
      var i := KeyFound(ms, k);
      assert Key(ms[i]) == k;
    }
    if k != "" && exists i :: 0 <= i < |ms| && Key(ms[i]) == k {
      var i :| 0 <= i < |ms| && Key(ms[i]) == k;
      KeyAt(ms, i);
    }
  }

  lemma {:induction false} KeysFew(ms: seq<Message>)
    ensures |Keys(ms)| <= Keyed(ms) <= |ms|
  {
    if ms != [] { KeysFew(ms[..|ms| - 1]); }
  }

  lemma LastOfAppend(log: seq<Message>, m: Message, cap: nat)
    requires 1 <= cap
    ensures LastOf(LastOf(log, cap) + [m], cap) == LastOf(log + [m], cap)
  {}

  lemma KeysOfEnd(ms: seq<Message>, n: nat)
    requires n <= |ms|
    ensures Keys(ms[n..]) <= Keys(ms)
  {
    assert ms == ms[..n] + ms[n..];
    KeysJoined(ms[..n], ms[n..]);
  }

  lemma KeysOfLast(log: seq<Message>, cap: nat)
    ensures Keys(LastOf(log, cap)) <= Keys(log)
  {
    var n := if cap < |log| then |log| - cap else 0;
    assert log[0..] == log;
    KeysOfEnd(log, n);
  }

  /** A key that is not in the history was last accepted more than cap positions ago. */
  lemma KeyLongAgo(log: seq<Message>, cap: nat, m: Message, i: nat)
    requires Key(m) !in Keys(LastOf(log, cap)) && i < |log| && Key(log[i]) == Key(m) != ""
    ensures cap < |log| - i
  {
    if |log| - cap <= i { KeyInLast(log, cap, i); }
  }

  lemma KeyInLast(log: seq<Message>, cap: nat, i: nat)
    requires |log| - cap <= i < |log| && Key(log[i]) != ""
    ensures Key(log[i]) in Keys(LastOf(log, cap))
  {
    var n := if cap < |log| then |log| - cap else 0;
    assert log[0..] == log;
    KeyInEnd(log, n, i);
  }

  lemma SpacedAppend(log: seq<Message>, cap: nat, m: Message)
    requires Spaced(log, cap) && Key(m) !in Keys(LastOf(log, cap))
    ensures Spaced(log + [m], cap)
  {
    var all := log + [m];
    forall i, j | 0 <= i < j < |all| && Key(all[i]) == Key(all[j]) && Key(all[j]) != "" ensures cap < j - i {
      if j == |log| { KeyLongAgo(log, cap, m, i); } else { assert all[i] == log[i] && all[j] == log[j]; }
    }
  }

  lemma KeysKept(s: State, m: Message)
    requires Inv(s) && Accepts(s, m)
    ensures var t := Accept(s, m); Keys(t.recent) <= t.seen <= Keys(t.log)
  {
    var t := Accept(s, m);
    LastOfAppend(s.log, m, s.cap);
    KeysOfLast(t.log, s.cap);
    assert t.log[..|s.log|] == s.log;
    assert (s.recent + [m])[..|s.recent|] == s.recent;
    KeysOfLast(s.recent + [m], s.cap);
  }

  ghost predicate Counts(s: State) {
    && |s.seen| <= 4 * s.cap
    && 3 * s.visited + |s.seen| + |s.rebuilds| <= Keyed(s.log)
    && (s.rebuilds == [] ==> s.visited == 0)
    && RebuildsApart(s.rebuilds, s.cap)
    && (s.rebuilds != [] ==> s.rebuilds[|s.rebuilds| - 1] + |s.seen| <= Keyed(s.log) + s.cap)
  }

  lemma TableGrows(s: State, m: Message)
    requires 1 <= s.cap && Counts(s) && Accepts(s, m)
    ensures var seen := if Key(m) == "" then s.seen else s.seen + {Key(m)};
            Keyed(s.log + [m]) - |seen| == Keyed(s.log) - |s.seen| && |s.seen| <= |seen| <= |s.seen| + 1
  {
    assert (s.log + [m])[..|s.log|] == s.log;
  }

  lemma ApartAppend(r: seq<nat>, cap: nat, n: nat)
    requires RebuildsApart(r, cap)
    requires (if r == [] then 4 * cap + 1 else r[|r| - 1] + 3 * cap + 1) <= n
    ensures RebuildsApart(r + [n], cap)
  {
    forall i | 0 <= i < |r| + 1 ensures Apart(r + [n], cap, i) {
      if i < |r| { assert Apart(r, cap, i); }
    }
  }

  /** A rebuild pays for itself with what the table loses. */
  lemma RebuildPays(s: State, n: nat, visited: nat, seen: nat)
    requires 1 <= s.cap && Counts(s) && n - (4 * s.cap + 1) == Keyed(s.log) - |s.seen|
    requires 4 * s.cap <= |s.seen| && seen <= visited <= s.cap
    ensures 3 * (s.visited + visited) + seen + |s.rebuilds| + 1 <= n
    ensures RebuildsApart(s.rebuilds + [n], s.cap) && n + seen <= n + s.cap
  {
    ApartAppend(s.rebuilds, s.cap, n);
  }

  function Grown(s: State, m: Message): set<string> { if Key(m) == "" then s.seen else s.seen + {Key(m)} }

  lemma CountsRebuilt(s: State, m: Message)
    requires 1 <= s.cap && Counts(s) && Accepts(s, m) && |Grown(s, m)| > s.cap * 4
    ensures Counts(Accept(s, m))
  {
    TableGrows(s, m);
    var log, recent := s.log + [m], LastOf(s.recent + [m], s.cap);
    KeysFew(recent);
    RebuildPays(s, Keyed(log), |recent|, |Keys(recent)|);
    assert Accept(s, m) == State(recent, Keys(recent), s.cap, log, s.visited + |recent|, s.rebuilds + [Keyed(log)]);
  }

  /** One more key raises the table by one. */
  lemma CountsKept(s: State, m: Message)
    requires 1 <= s.cap && Counts(s) && Accepts(s, m)
    ensures Counts(Accept(s, m))
  {
    if |Grown(s, m)| > s.cap * 4 { CountsRebuilt(s, m); } else { TableGrows(s, m); }
  }

  lemma PublishInv(s: State, m: Message)
    requires Inv(s)
    ensures Inv(Publish(s, m))
  {
    if Accepts(s, m) {
      LastOfAppend(s.log, m, s.cap);
      KeysIn(s.recent, Key(m));
      SpacedAppend(s.log, s.cap, m);
      KeysKept(s, m);
      CountsKept(s, m);
    }
  }

  lemma {:induction false} RunInv(limit: int, ms: seq<Message>)
    ensures Inv(Run(New(limit), ms)) && Run(New(limit), ms).cap == New(limit).cap
  {
    if ms != [] {
      RunInv(limit, ms[..|ms| - 1]);
      PublishInv(Run(New(limit), ms[..|ms| - 1]), ms[|ms| - 1]);
    }
  }

  // ---------------------------------------------------------------- over whole runs

  /** The history is the newest accepted messages in their order, as many as fit. */
  lemma NewestKept(limit: int, ms: seq<Message>)
    ensures var s := Run(New(limit), ms);
            |s.recent| == (if |s.log| <= s.cap then |s.log| else s.cap) && s.recent == s.log[|s.log| - |s.recent|..]
  {
    RunInv(limit, ms);
  }

  /** After any run: the history is the last cap accepted messages, the table holds every key of
      the history and only keys of accepted messages, and equal keys are more than cap apart. */
  lemma HistoryRefinesLog(limit: int, ms: seq<Message>)
    ensures var s := Run(New(limit), ms);
            && s.cap == (if limit < 1 then 250 else limit)
            && s.recent == LastOf(s.log, s.cap)
            && (forall i :: 0 <= i < |s.recent| && Key(s.recent[i]) != "" ==> Key(s.recent[i]) in s.seen)
            && (forall k :: k in s.seen ==> exists i :: 0 <= i < |s.log| && Key(s.log[i]) == k)
            && (forall i, j :: 0 <= i < j < |s.log| && Key(s.log[i]) == Key(s.log[j]) && Key(s.log[j]) != "" ==> s.cap < j - i)
  {
    RunInv(limit, ms);
    var s := Run(New(limit), ms);
    forall i | 0 <= i < |s.recent| && Key(s.recent[i]) != "" ensures Key(s.recent[i]) in s.seen {
      KeysIn(s.recent, Key(s.recent[i]));
    }
    forall k | k in s.seen ensures exists i :: 0 <= i < |s.log| && Key(s.log[i]) == k {
      KeysIn(s.log, k);
    }
  }

  /** After any run, a key among the last cap accepted messages is refused. */
  lemma RecentKeyRefused(limit: int, ms: seq<Message>, m: Message, i: nat)
    requires var s := Run(New(limit), ms);
             i < |s.log| && |s.log| - s.cap <= i && Key(s.log[i]) == Key(m) != ""
    ensures !Accepts(Run(New(limit), ms), m)
  {
    RunInv(limit, ms);
    KeyInLast(Run(New(limit), ms).log, Run(New(limit), ms).cap, i);
  }

  /** A complete message with no key, or with a key never accepted, is let in. */
  lemma NewKeyAccepted(limit: int, ms: seq<Message>, m: Message)
    requires m.platform != "" && m.text != ""
    requires var log := Run(New(limit), ms).log;
             Key(m) == "" || forall i :: 0 <= i < |log| ==> Key(log[i]) != Key(m)
    ensures Accepts(Run(New(limit), ms), m)
  {
    RunInv(limit, ms);
    KeysIn(Run(New(limit), ms).log, Key(m));
  }

  // ---------------------------------------------------------------- by platform and ID

  /** Two messages of one platform with one ID. */
  predicate Same(a: Message, b: Message) { a.platform == b.platform && a.id == b.id }

  /** Characters move from an ID over the slash into the platform. */
  predicate Shifts(a: Message, b: Message) {
    && |a.platform| < |b.platform|
    && b.platform[..|a.platform|] == a.platform && b.platform[|a.platform|] == '/'
    && a.id == b.platform[|a.platform| + 1..] + "/" + b.id
  }

  lemma Joined(p: string, i: string, q: string, j: string)
    requires p + "/" + i == q + "/" + j && |p| < |q|
    ensures q[..|p|] == p && q[|p|] == '/' && i == q[|p| + 1..] + "/" + j
  {
    var s, t := p + "/" + i, q + "/" + j;
    assert s[..|p|] == p && s[|p|] == '/' && s[|p| + 1..] == i;
    assert t[..|p|] == q[..|p|] && t[|p|] == q[|p|] && t[|p| + 1..] == q[|p| + 1..] + "/" + j;
  }

  lemma ShiftJoins(a: Message, b: Message)
    requires Shifts(a, b)
    ensures a.platform + "/" + a.id == b.platform + "/" + b.id
  {
    var n := |a.platform|;
    assert b.platform == b.platform[..n] + [b.platform[n]] + b.platform[n + 1..];
    assert a.platform + "/" + (b.platform[n + 1..] + "/" + b.id) == a.platform + "/" + b.platform[n + 1..] + "/" + b.id;
  }

  /** Two messages with IDs have one key exactly if they agree in platform and ID, or a slash in the
      longer platform makes up for the difference. */
  lemma OneKey(a: Message, b: Message)
    requires a.id != "" && b.id != ""
    ensures Key(a) != "" && Key(b) != ""
    ensures Key(a) == Key(b) <==> Same(a, b) || Shifts(a, b) || Shifts(b, a)
  {
    if Key(a) == Key(b) {
      if |a.platform| < |b.platform| {
        Joined(a.platform, a.id, b.platform, b.id);
      } else if |b.platform| < |a.platform| {
        Joined(b.platform, b.id, a.platform, a.id);
      } else {
        var s, n := a.platform + "/" + a.id, |a.platform|;
        assert s[..n] == a.platform && s[n + 1..] == a.id;
        assert (b.platform + "/" + b.id)[..n] == b.platform && (b.platform + "/" + b.id)[n + 1..] == b.id;
      }
    }
    if Shifts(a, b) { ShiftJoins(a, b); } else if Shifts(b, a) { ShiftJoins(b, a); }
  }

  /** A message is refused while one with its platform and ID is among the last cap accepted. */
  lemma RepeatRefused(limit: int, ms: seq<Message>, m: Message, i: nat)
    requires var s := Run(New(limit), ms);
             i < |s.log| && |s.log| - s.cap <= i && s.log[i].platform == m.platform && s.log[i].id == m.id != ""
    ensures Publish(Run(New(limit), ms), m) == Run(New(limit), ms)
  {
    OneKey(Run(New(limit), ms).log[i], m);
    RecentKeyRefused(limit, ms, m, i);
  }

  /** No accepted message has this platform and ID, nor a slash that could confuse it with m. */
  ghost predicate Unheard(log: seq<Message>, m: Message) {
    forall i :: 0 <= i < |log| ==> log[i].id == "" || !(Same(log[i], m) || Shifts(log[i], m) || Shifts(m, log[i]))
  }

  lemma OtherKey(a: Message, m: Message)
    requires m.id != "" && (a.id == "" || !(Same(a, m) || Shifts(a, m) || Shifts(m, a)))
    ensures Key(a) != Key(m)
  {
    if a.id == "" { OneKey(m, m); } else { OneKey(a, m); }
  }

  /** A complete message without an ID, or whose platform and ID no accepted message has, is let in
      and becomes the newest of all; between platforms without slashes nothing else matters. */
  lemma NewPairAccepted(limit: int, ms: seq<Message>, m: Message)
    requires m.platform != "" && m.text != ""
    requires m.id == "" || Unheard(Run(New(limit), ms).log, m)
    ensures var s := Run(New(limit), ms); Publish(s, m).log == s.log + [m]
  {
    var log := Run(New(limit), ms).log;
    if m.id != "" {
      forall i | 0 <= i < |log| ensures Key(log[i]) != Key(m) { OtherKey(log[i], m); }
    }
    NewKeyAccepted(limit, ms, m);
  }

  /** A message without a platform or a text leaves everything as it was. */
  lemma IncompleteRefused(s: State, m: Message)
    requires m.platform == "" || m.text == ""
    ensures Publish(s, m) == s
  {}

  lemma NoSlashNoShift(a: Message, b: Message)
    requires '/' !in b.platform
    ensures !Shifts(a, b)
  {}

  /** Among platforms without slashes a message is let in whenever no accepted one has its platform
      and its ID. */
  lemma PlainPlatforms(limit: int, ms: seq<Message>, m: Message)
    requires m.platform != "" && m.text != "" && '/' !in m.platform
    requires forall a :: a in Run(New(limit), ms).log ==>
               '/' !in a.platform && !(a.platform == m.platform && a.id == m.id)
    ensures var s := Run(New(limit), ms); Publish(s, m).log == s.log + [m]
  {
    var log := Run(New(limit), ms).log;
    if m.id != "" {
      forall i | 0 <= i < |log| && log[i].id != "" ensures !(Same(log[i], m) || Shifts(log[i], m) || Shifts(m, log[i])) {
        assert log[i] in log;
        NoSlashNoShift(log[i], m);
        NoSlashNoShift(m, log[i]);
      }
      assert Unheard(log, m);
    }
    NewPairAccepted(limit, ms, m);
  }

  /** With slashes it does matter: "b/c" on platform "a" and "c" on platform "a/b" are taken for one
      message, although they differ in both. */
  lemma SlashCollides(limit: int, user: string, text: string, kind: string, time: int)
    requires text != ""
    ensures var m, n := Message("b/c", "a", user, text, kind, time), Message("c", "a/b", user, text, kind, time);
            Run(New(limit), [m, n]).log == [m]
  {
    var m, n := Message("b/c", "a", user, text, kind, time), Message("c", "a/b", user, text, kind, time);
    var none: seq<Message> := [];
    assert [m, n][..1] == [m] && [m][..0] == none;
    assert Run(New(limit), none) == New(limit);
    NewPairAccepted(limit, none, m);
    assert Run(New(limit), [m]) == Publish(New(limit), m);
    assert Run(New(limit), [m]).log == [] + [m] == [m];
    assert n.platform[..1] == "a" && n.platform[2..] == "b" && "b" + "/" + "c" == "b/c";
    assert Shifts(m, n);
    OneKey(m, n);
    RecentKeyRefused(limit, [m], n, 0);
    assert Run(New(limit), [m, n]) == Publish(Run(New(limit), [m]), n);
  }

  // ---------------------------------------------------------------- cleaning

  /** The longest beginning of s with at most n characters. */
  ghost predicate Beginning(r: string, s: string, n: nat) {
    r <= s && |r| <= n && (|r| == n || r == s)
  }

  /** Every field is trimmed and cut at its own limit, the platform in lower case; the time stays. */
  lemma Cleaned(t: Text, m: Message)
    ensures var c := Clean(t, m);
            && Beginning(c.id, t.trim(m.id), 160)
            && Beginning(c.platform, t.lower(t.trim(m.platform)), 32)
            && Beginning(c.user, t.trim(m.user), 80)
            && Beginning(c.text, t.trim(m.text), 2000)
            && Beginning(c.kind, t.trim(m.kind), 32)
            && c.time == m.time
  {}

  /** Only what is missing is filled in, and that does not change what the message is known by. */
  lemma Completed(m: Message, now: int)
    ensures var c := Complete(m, now);
            && c.id == m.id && c.platform == m.platform && c.text == m.text && c.kind == m.kind
            && (m.user != "" ==> c.user == m.user) && (m.user == "" ==> c.user == "unknown")
            && (m.time != NO_TIME ==> c.time == m.time) && (m.time == NO_TIME ==> c.time == now)
  {}

  // ---------------------------------------------------------------- cost

  /** Amortised cost: the table never exceeds four times the cap, and all rebuild loops together
      have visited fewer than a third of the accepted messages. */
  lemma RebuildCost(limit: int, ms: seq<Message>)
    ensures var s := Run(New(limit), ms);
            && |s.seen| <= 4 * s.cap
            && (s.log != [] ==> 3 * s.visited < |s.log|)
            && 3 * s.visited + |s.seen| + |s.rebuilds| <= |s.log|
  {
    RunInv(limit, ms);
    KeysFew(Run(New(limit), ms).log);
  }

  /** Between two rebuilds at least 3*cap+1 keyed messages are accepted, before the first 4*cap+1. */
  lemma RebuildsFarApart(limit: int, ms: seq<Message>, i: nat)
    requires i < |Run(New(limit), ms).rebuilds|
    ensures var s := Run(New(limit), ms);
            && (if i == 0 then 4 * s.cap + 1 else s.rebuilds[i - 1] + 3 * s.cap + 1) <= s.rebuilds[i] <= Keyed(s.log)
  {
    RunInv(limit, ms);
    assert Apart(Run(New(limit), ms).rebuilds, Run(New(limit), ms).cap, i);
    RebuildsBounded(limit, ms, i);
  }

  lemma {:induction false} RebuildsBounded(limit: int, ms: seq<Message>, i: nat)
    requires i < |Run(New(limit), ms).rebuilds|
    ensures Run(New(limit), ms).rebuilds[i] <= Keyed(Run(New(limit), ms).log)
  {
    var n := |ms| - 1;
    var s, m := Run(New(limit), ms[..n]), ms[n];
    if Accepts(s, m) { assert (s.log + [m])[..|s.log|] == s.log; }
    if i < |s.rebuilds| { RebuildsBounded(limit, ms[..n], i); }
  }
}
