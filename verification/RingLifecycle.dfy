/**
 The named mapping: brokers create it, cameras open it, and it lives while anyone holds a
 handle.  `create` and `open` are split at every call to the system and at every header field
 stored or loaded; any number of brokers and cameras interleave.
 */
module RingLifecycle {
  import opened Options
  import opened RingLayout

  /** One process, by what it holds.  `Creating` has passed the size test and holds nothing yet;
      `Got` has a handle from the create call, which reported whether the name existed;
      `Writing(k)` has mapped the object and made the first k stores of the header. */
  datatype Process =
    | Out
    | Creating(target: Header)
    | Got(existed: bool, target: Header)
    | Writing(k: nat, target: Header)
    | Ready(target: Header)
    | Handle
    | Checking(k: nat, seen: Header)
    | Attached(seen: Header)

  /** The object behind the name, if there is one, and how many there have been. */
  datatype World = World(mapping: Option<Header>, generation: nat, procs: map<nat, Process>)

  datatype Event =
    | Create(id: nat, width: nat, height: nat, fps: nat)
    | Open(id: nat)
    | Close(id: nat)
    | Advance(id: nat, systemOk: bool)

  function Proc(w: World, id: nat): Process { if id in w.procs then w.procs[id] else Out }

  predicate Holds(p: Process) { !p.Out? && !p.Creating? }

  predicate IsCamera(p: Process) { p.Handle? || p.Checking? || p.Attached? }

  /** A broker that owns the object: it was told that the name was free. */
  predicate Owns(p: Process) { (p.Got? && !p.existed) || p.Writing? || p.Ready? }

  ghost predicate Held(w: World) { exists id :: Holds(Proc(w, id)) }

  function Set(w: World, id: nat, p: Process): World { w.(procs := w.procs[id := p]) }

  /** Closing a handle; the last one takes the object with it. */
  ghost function Release(w: World, id: nat, p: Process): World {
    var v := Set(w, id, p);
    if Held(v) then v else v.(mapping := None)
  }

  /** The k-th store of `create`: clear, then the fields, `magic` last. */
  function Store(h: Header, k: nat, t: Header): Header {
    match k
    case 0 => BLANK
    case 1 => h.(version := t.version)
    case 2 => h.(width := t.width)
    case 3 => h.(height := t.height)
    case 4 => h.(fps := t.fps)
    case 5 => h.(pitch := t.pitch)
    case 6 => h.(frameBytes := t.frameBytes)
    case 7 => h.(slotStride := t.slotStride)
    case _ => h.(magic := t.magic)
  }

  const STORES := 9

  /** The k-th load of `open`. */
  function Load(seen: Header, k: nat, h: Header): Header {
    match k
    case 0 => seen.(magic := h.magic)
    case 1 => seen.(version := h.version)
    case 2 => seen.(width := h.width)
    case 3 => seen.(height := h.height)
    case 4 => seen.(pitch := h.pitch)
    case 5 => seen.(fps := h.fps)
    case 6 => seen.(frameBytes := h.frameBytes)
    case _ => seen.(slotStride := h.slotStride)
  }

  ghost function AdvanceBroker(w: World, id: nat, systemOk: bool): World
    requires Proc(w, id).Creating? || Proc(w, id).Got? || Proc(w, id).Writing?
    requires Proc(w, id).Writing? ==> w.mapping.Some?
  {
    match Proc(w, id)
    case Creating(t) =>
      if !systemOk then Set(w, id, Out)
      else if w.mapping.Some? then Set(w, id, Got(true, t))
      else Set(w, id, Got(false, t)).(mapping := Some(BLANK), generation := w.generation + 1)
    case Got(existed, t) =>
      if existed || !systemOk then Release(w, id, Out) else Set(w, id, Writing(0, t))
    case Writing(k, t) =>
      var v := w.(mapping := Some(Store(w.mapping.value, k, t)));
      Set(v, id, if k + 1 < STORES then Writing(k + 1, t) else Ready(t))
  }

  ghost function AdvanceCamera(w: World, id: nat, systemOk: bool): World
    requires Proc(w, id).Handle? || Proc(w, id).Checking?
    requires Proc(w, id).Checking? ==> w.mapping.Some? && Proc(w, id).k < FIELDS
  {
    match Proc(w, id)
    case Handle => if systemOk then Set(w, id, Checking(0, BLANK)) else Release(w, id, Out)
    case Checking(k, seen) =>
      var now := Load(seen, k, w.mapping.value);
      if !FieldOk(now, k) then Release(w, id, Out)
      else Set(w, id, if k + 1 < FIELDS then Checking(k + 1, now) else Attached(now))
  }

  ghost function Move(w: World, e: Event): World
    requires Inv(w)
  {
    var p := Proc(w, e.id);
    match e
    case Create(id, width, height, fps) =>
      // `create` first closes what this ring holds, then looks at the size.
      if IsCamera(p) || !(p.Out? || p.Ready?) then w else
      Release(w, id, if Creatable(width, height, fps) then Creating(Created(width, height, fps)) else Out)
    case Open(id) => if p.Out? && w.mapping.Some? then Set(w, id, Handle) else w
    case Close(id) => if Holds(p) then Release(w, id, Out) else w  // or the process ends, at any point
    case Advance(id, systemOk) =>
      if p.Creating? || p.Got? || p.Writing? then AdvanceBroker(w, id, systemOk)
      else if p.Handle? || p.Checking? then AdvanceCamera(w, id, systemOk)
      else w
  }

  // ---------------------------------------------------------------- the invariant

  ghost predicate IsCreated(h: Header) {
    exists width: nat, height: nat, fps: nat ::
      Creatable(width, height, fps) && h == Created(width, height, fps)
  }

  /** What a header looks like after the first k stores. */
  function Partial(k: nat, t: Header): Header {
    if k == 0 then BLANK else Store(Partial(k - 1, t), k - 1, t)
  }

  ghost predicate ProcInv(w: World, p: Process) {
    && (Holds(p) ==> w.mapping.Some?)
    && match p
       case Out => true
       case Creating(t) => IsCreated(t)
       case Got(existed, t) => IsCreated(t) && (existed || w.mapping.value == BLANK)
       case Writing(k, t) => IsCreated(t) && k < STORES && w.mapping.value == Partial(k, t)
       case Ready(t) => IsCreated(t) && w.mapping.value == t
       case Handle => true
       case Checking(k, seen) =>
         && k < FIELDS
         && (0 < k ==> IsCreated(w.mapping.value))
         && (forall j :: 0 <= j < k ==> Load(seen, j, w.mapping.value) == seen && FieldOk(seen, j))
       case Attached(seen) => IsCreated(seen) && Accepts(seen) && w.mapping.value == seen
  }

  ghost predicate Inv(w: World) {
    && (forall id :: ProcInv(w, Proc(w, id)))
    && (w.mapping.Some? <==> Held(w))
    && (w.mapping.Some? && w.mapping.value.magic != 0 ==> IsCreated(w.mapping.value))
    && (forall i, j :: Owns(Proc(w, i)) && Owns(Proc(w, j)) ==> i == j)
  }

  lemma FieldsOf(t: Header, k: nat)
    requires k <= STORES && IsCreated(t)
    ensures k < STORES ==> Partial(k, t).magic == 0
    ensures Partial(STORES, t) == t
    ensures t.magic == MAGIC
  {
    assert Partial(0, t) == BLANK;
    assert Partial(1, t) == BLANK;
    assert Partial(2, t) == BLANK.(version := t.version);
    var p3 := Partial(3, t);
    var p4 := Partial(4, t);
    var p5 := Partial(5, t);
    var p6 := Partial(6, t);
    var p7 := Partial(7, t);
    var p8 := Partial(8, t);
    assert p8 == t.(magic := 0);
  }

  /** Changing what one process holds, with the mapping left alone, keeps everybody else. */
  lemma SetInv(w: World, id: nat, p: Process)
    requires Inv(w) && ProcInv(w, p) && Holds(p)
    requires Owns(p) ==> Owns(Proc(w, id))
    ensures Inv(Set(w, id, p))
  {
    var v := Set(w, id, p);
    assert Proc(v, id) == p;
    forall i ensures ProcInv(v, Proc(v, i)) {
      assert i != id ==> Proc(v, i) == Proc(w, i);
    }
    forall i, j | Owns(Proc(v, i)) && Owns(Proc(v, j)) ensures i == j {
      assert i != id ==> Proc(v, i) == Proc(w, i);
      assert j != id ==> Proc(v, j) == Proc(w, j);
    }
  }

  lemma ReleaseInv(w: World, id: nat, p: Process)
    requires Inv(w) && !Holds(p) && (p.Creating? ==> IsCreated(p.target))
    ensures Inv(Release(w, id, p))
  {
    var v := Release(w, id, p);
    var u := Set(w, id, p);
    assert forall i :: Proc(v, i) == Proc(u, i) == if i == id then p else Proc(w, i);
    assert Held(v) <==> Held(u) by {
      if Held(u) { var i :| Holds(Proc(u, i)); assert Holds(Proc(v, i)); }
      if Held(v) { var i :| Holds(Proc(v, i)); assert Holds(Proc(u, i)); }
    }
    if Held(u) { var i :| Holds(Proc(u, i)); assert Holds(Proc(w, i)); }
    forall i ensures ProcInv(v, Proc(v, i)) {
      assert ProcInv(w, Proc(w, i));
      if Holds(Proc(v, i)) { assert Holds(Proc(u, i)); }
    }
  }

  lemma CreateInv(w: World, id: nat)
    requires Inv(w) && Proc(w, id).Creating?
    ensures Inv(AdvanceBroker(w, id, true))
  {
    var v := AdvanceBroker(w, id, true);
    assert ProcInv(w, Proc(w, id));
    var t := Proc(w, id).target;
    if w.mapping.Some? {
      SetInv(w, id, Got(true, t));
    } else {
      assert Proc(v, id) == Got(false, t) && Holds(Proc(v, id));
      forall i ensures ProcInv(v, Proc(v, i)) && (i != id ==> !Holds(Proc(v, i))) {
        assert i != id ==> Proc(v, i) == Proc(w, i);
        assert ProcInv(w, Proc(w, i));
      }
    }
  }

  /** A store of `create`: it can hit no header that a camera already trusts. */
  lemma StoreInv(w: World, id: nat)
    requires Inv(w) && Proc(w, id).Writing?
    ensures Inv(AdvanceBroker(w, id, true))
  {
    var v := AdvanceBroker(w, id, true);
    var t, k := Proc(w, id).target, Proc(w, id).k;
    assert ProcInv(w, Proc(w, id));
    FieldsOf(t, k);
    assert v.mapping.value == Partial(k + 1, t);
    FieldsOf(t, k + 1);
    assert Holds(Proc(v, id));
    forall i ensures ProcInv(v, Proc(v, i)) {
      assert ProcInv(w, Proc(w, i));
      if i != id {
        assert Proc(v, i) == Proc(w, i);
        assert !Owns(Proc(w, i));
      }
    }
    forall i, j | Owns(Proc(v, i)) && Owns(Proc(v, j)) ensures i == j {
      assert i != id ==> Proc(v, i) == Proc(w, i);
      assert j != id ==> Proc(v, j) == Proc(w, j);
    }
  }

  lemma LoadInv(w: World, id: nat)
    requires Inv(w) && Proc(w, id).Checking?
    ensures Inv(AdvanceCamera(w, id, true))
  {
    var k, seen, h := Proc(w, id).k, Proc(w, id).seen, w.mapping.value;
    assert ProcInv(w, Proc(w, id));
    var now := Load(seen, k, h);
    if !FieldOk(now, k) {
      ReleaseInv(w, id, Out);
    } else {
      assert IsCreated(h);
      forall j | 0 <= j <= k ensures Load(now, j, h) == now && FieldOk(now, j) {
        if j < k { assert Load(seen, j, h) == seen && FieldOk(seen, j); }
      }
      if k + 1 < FIELDS {
        SetInv(w, id, Checking(k + 1, now));
      } else {
        assert Load(now, 0, h) == now && Load(now, 1, h) == now && Load(now, 2, h) == now && Load(now, 3, h) == now;
        assert Load(now, 4, h) == now && Load(now, 5, h) == now && Load(now, 6, h) == now && Load(now, 7, h) == now;
        assert now == h;
        SetInv(w, id, Attached(now));
      }
    }
  }

  lemma MoveInv(w: World, e: Event)
    requires Inv(w)
    ensures Inv(Move(w, e))
  {
    var p := Proc(w, e.id);
    assert ProcInv(w, p);
    match e
    case Create(id, width, height, fps) =>
      if p.Out? || p.Ready? {
        ReleaseInv(w, id, if Creatable(width, height, fps) then Creating(Created(width, height, fps)) else Out);
      }
    case Open(id) => if p.Out? && w.mapping.Some? { SetInv(w, id, Handle); }
    case Close(id) => if Holds(p) { ReleaseInv(w, id, Out); }
    case Advance(id, systemOk) =>
      match p {
        case Creating(_) => if systemOk { CreateInv(w, id); } else { SetOutInv(w, id); }
        case Got(existed, t) =>
          if existed || !systemOk { ReleaseInv(w, id, Out); } else { SetInv(w, id, Writing(0, t)); }
        case Writing(_, _) => StoreInv(w, id);
        case Handle => if systemOk { SetInv(w, id, Checking(0, BLANK)); } else { ReleaseInv(w, id, Out); }
        case Checking(_, _) => LoadInv(w, id);
        case _ =>
      }
  }

  lemma SetOutInv(w: World, id: nat)
    requires Inv(w) && Proc(w, id).Creating?
    ensures Inv(Set(w, id, Out))
  {
    var v := Set(w, id, Out);
    assert forall i :: i != id ==> Proc(v, i) == Proc(w, i);
    if Held(w) { var i :| Holds(Proc(w, i)); assert Holds(Proc(v, i)); }
    if Held(v) { var i :| Holds(Proc(v, i)); assert Holds(Proc(w, i)); }
    forall i ensures ProcInv(v, Proc(v, i)) {
      assert ProcInv(w, Proc(w, i));
    }
  }

  // ---------------------------------------------------------------- over whole runs

  ghost function Step(w: World, e: Event): (v: World)
    requires Inv(w)
    ensures Inv(v)
  {
    MoveInv(w, e);
    Move(w, e)
  }

  ghost function Run(w: World, events: seq<Event>): (v: World)
    requires Inv(w)
    ensures Inv(v)
    decreases |events|
  {
    if events == [] then w else Run(Step(w, events[0]), events[1..])
  }

  ghost function Reached(events: seq<Event>): World { Run(World(None, 0, map[]), events) }

  /** A camera that passed `open` saw every field of one finished `create`, and that is what the
      mapping still holds. */
  lemma AttachedSawWholeHeader(events: seq<Event>, id: nat)
    requires Proc(Reached(events), id).Attached?
    ensures var w := Reached(events);
            var seen := Proc(w, id).seen;
            && w.mapping == Some(seen)
            && seen == Created(seen.width, seen.height, 60)
            && Creatable(seen.width, seen.height, 60) && 160 <= seen.width && 120 <= seen.height
  {
    var w := Reached(events);
    var seen := Proc(w, id).seen;
    assert ProcInv(w, Proc(w, id));
    assert FieldOk(seen, 2) && FieldOk(seen, 3) && FieldOk(seen, 5);
  }

  /** No event of anybody else touches the header under an attached camera. */
  lemma AttachedKept(w: World, e: Event, id: nat)
    requires Inv(w) && Proc(w, id).Attached? && e != Close(id)
    ensures Proc(Step(w, e), id) == Proc(w, id)
    ensures Step(w, e).mapping == w.mapping && Step(w, e).generation == w.generation
  {
    var v, p := Step(w, e), Proc(w, e.id);
    assert ProcInv(w, Proc(w, id)) && ProcInv(w, p);
    if p.Writing? { FieldsOf(p.target, p.k); }
    if e.id != id {
      assert Proc(v, id) == Proc(w, id);
      assert Holds(Proc(Set(w, e.id, Proc(v, e.id)), id));
    }
  }

  /** Over the whole run, process `id` holds the object. */
  ghost predicate KeepsHold(w: World, events: seq<Event>, id: nat)
    requires Inv(w)
    decreases |events|
  {
    Holds(Proc(w, id)) && (events == [] || KeepsHold(Step(w, events[0]), events[1..], id))
  }

  /** One step under a holder: the object stays, and a finished header stays as it is. */
  lemma HeldKept(w: World, e: Event, id: nat)
    requires Inv(w) && Holds(Proc(w, id)) && Holds(Proc(Step(w, e), id))
    ensures var v := Step(w, e);
            && w.mapping.Some? && v.mapping.Some? && v.generation == w.generation
            && (w.mapping.value.magic != 0 ==> v.mapping == w.mapping)
  {
    var v, p := Step(w, e), Proc(w, e.id);
    assert ProcInv(w, Proc(w, id)) && ProcInv(w, p) && ProcInv(v, Proc(v, id));
    if p.Writing? { FieldsOf(p.target, p.k); }
    if e.id != id { assert Holds(Proc(Set(w, e.id, Proc(v, e.id)), id)); }
  }

  /** A mapping that anyone holds, with `open` finished or not, is never created anew while that
      process holds it, in any run; and once its magic is set, no byte of its header changes. */
  lemma {:induction false} HeldNeverReinitialised(w: World, events: seq<Event>, id: nat)
    requires Inv(w) && KeepsHold(w, events, id)
    ensures var v := Run(w, events);
            && w.mapping.Some? && v.mapping.Some? && v.generation == w.generation
            && (w.mapping.value.magic != 0 ==> v.mapping == w.mapping)
    decreases |events|
  {
    assert ProcInv(w, Proc(w, id));
    if events != [] {
      HeldKept(w, events[0], id);
      HeldNeverReinitialised(Step(w, events[0]), events[1..], id);
    }
  }

  /** A camera that passed `open` keeps holding until it closes, and what it saw stays true. */
  lemma {:induction false} AttachedNeverReinitialised(w: World, events: seq<Event>, id: nat)
    requires Inv(w) && Proc(w, id).Attached?
    requires Close(id) !in events
    ensures KeepsHold(w, events, id)
    ensures Proc(Run(w, events), id) == Proc(w, id) && Run(w, events).mapping == Some(Proc(w, id).seen)
    decreases |events|
  {
    assert ProcInv(w, Proc(w, id));
    if events != [] {
      assert events[0] in events;
      AttachedKept(w, events[0], id);
      AttachedNeverReinitialised(Step(w, events[0]), events[1..], id);
    }
  }

  /** At most one ring at a time has the mapping open for writing: the protocol's one broker. */
  lemma OneWriter(events: seq<Event>, i: nat, j: nat)
    requires Proc(Reached(events), i).Ready? && Proc(Reached(events), j).Ready?
    ensures i == j
  {
    assert Inv(Reached(events));
  }

  function Advances(id: nat, n: nat): seq<Event> { seq(n, _ => Advance(id, true)) }

  lemma AdvanceOne(w: World, id: nat, n: nat)
    requires Inv(w)
    ensures Run(w, Advances(id, n + 1)) == Run(Step(w, Advance(id, true)), Advances(id, n))
  {
    assert Advances(id, n + 1)[1..] == Advances(id, n);
  }

  lemma {:induction false} NothingLeftToDo(w: World, id: nat, n: nat)
    requires Inv(w) && (Proc(w, id).Out? || Proc(w, id).Ready?)
    ensures Run(w, Advances(id, n)) == w
  {
    if n != 0 {
      AdvanceOne(w, id, n - 1);
      NothingLeftToDo(w, id, n - 1);
    }
  }

  lemma WritesOne(w: World, id: nat)
    requires Inv(w) && Proc(w, id).Writing?
    ensures var k, t, v := Proc(w, id).k, Proc(w, id).target, Step(w, Advance(id, true));
            && v.generation == w.generation && v.mapping.Some?
            && Proc(v, id) == (if k + 1 < STORES then Writing(k + 1, t) else Ready(t))
            && (k + 1 == STORES ==> v.mapping == Some(t))
  {
    var v := Step(w, Advance(id, true));
    assert ProcInv(w, Proc(w, id)) && ProcInv(v, Proc(v, id));
  }

  lemma {:induction false} WritesHeader(w: World, id: nat)
    requires Inv(w) && Proc(w, id).Writing?
    ensures var v := Run(w, Advances(id, STORES - Proc(w, id).k));
            && Proc(v, id) == Ready(Proc(w, id).target) && v.mapping == Some(Proc(w, id).target)
            && v.generation == w.generation
    decreases STORES - Proc(w, id).k
  {
    var k := Proc(w, id).k;
    var v := Step(w, Advance(id, true));
    AdvanceOne(w, id, STORES - k - 1);
    WritesOne(w, id);
    if k + 1 < STORES { WritesHeader(v, id); } else { NothingLeftToDo(v, id, 0); }
  }

  /** `create`, run to its end with a willing system, succeeds exactly when nobody holds the
      mapping: a broker restarts its ring only after the last consumer is gone. */
  lemma CreateSucceedsIffFree(events: seq<Event>, id: nat)
    requires Proc(Reached(events), id).Creating?
    ensures var w := Reached(events);
            var t := Proc(w, id).target;
            var v := Run(w, Advances(id, STORES + 2));
            if Held(w) then Proc(v, id) == Out && v.mapping == w.mapping && v.generation == w.generation
            else Proc(v, id) == Ready(t) && v.mapping == Some(t) && v.generation == w.generation + 1
  {
    var w := Reached(events);
    CreateCalled(w, id);
    var u := Step(w, Advance(id, true));
    AdvanceOne(w, id, STORES + 1);
    AdvanceOne(u, id, STORES);
    if Held(w) {
      CreateRefused(u, id);
      NothingLeftToDo(Step(u, Advance(id, true)), id, STORES);
    } else {
      WritesHeader(Step(u, Advance(id, true)), id);
    }
  }

  /** The system's answer: the name was free exactly if nobody held the object. */
  lemma CreateCalled(w: World, id: nat)
    requires Inv(w) && Proc(w, id).Creating?
    ensures var u := Step(w, Advance(id, true));
            && Proc(u, id) == Got(Held(w), Proc(w, id).target)
            && (if Held(w) then u.mapping == w.mapping && u.generation == w.generation else u.generation == w.generation + 1)
            && (Held(w) ==> exists i :: i != id && Holds(Proc(u, i)))
  {
    if Held(w) {
      var i :| Holds(Proc(w, i));
      assert i != id && Holds(Proc(Step(w, Advance(id, true)), i));
    }
  }

  /** A broker that was told the object exists lets go of it, and the other holder keeps it. */
  lemma CreateRefused(u: World, id: nat)
    requires Inv(u) && Proc(u, id).Got? && Proc(u, id).existed
    requires exists i :: i != id && Holds(Proc(u, i))
    ensures var v := Step(u, Advance(id, true));
            Proc(v, id) == Out && v.mapping == u.mapping && v.generation == u.generation
  {
    var i :| i != id && Holds(Proc(u, i));
    assert Holds(Proc(Set(u, id, Out), i));
  }
}
