/** Every interleaving of the timer thread with callers that set timers up and remove them.
    One event is one critical section, or one read of the shared timer outside of it. A wake-up
    before the deadline is possible at any time while the thread waits, and never certain. */
module IttiRuns {
  import opened OnesComplement
  import opened IttiTimers

  /** Where the timer thread is: at the top of its loop; with a timer taken; about to wait;
      waiting; past the deadline; woken up early. */
  datatype Phase = Idle | Taken | ToWait | Waiting(until: nat) | Expired | Woken

  /** What became of a timer. Lost: it met another with the same deadline in the set. */
  datatype Mark = Built(id: u32, at: nat) | Removed(id: u32) | Lost(id: u32, to: u32)

  datatype World = World(st: Timers, idle: Timer, phase: Phase, now: nat,
                         inFlight: set<Timer>, setUps: seq<Timer>, log: seq<Mark>)

  datatype Event =
    | SetUp(intervalSec: u32, intervalUs: u32, task: nat, arg1: u64, arg2: u64)
    | Inserted(t: Timer)
    | Removing(id: u32)
    | Take
    | Check
    | StartWait
    | TimeOut
    | WakeUp
    | Return
    | Build
    | Passed(d: nat)

  predicate Enabled(w: World, e: Event) {
    match e
    case SetUp(_, _, _, _, _) => |w.setUps| < 0xFFFF_FFFF
    case Inserted(t) => t in w.inFlight
    case Take => w.phase.Idle? && w.st.queue != []
    case Check => w.phase.Taken?
    case StartWait => w.phase.ToWait?
    case TimeOut => w.phase.Waiting? && w.phase.until <= w.now
    case WakeUp => w.phase.Waiting?
    case Return => w.phase.Woken?
    case Build => w.phase.Expired?
    case _ => true
  }

  function FindDue(ts: seq<Timer>, d: nat): (i: nat)
    ensures i <= |ts| && (i < |ts| ==> ts[i].timeOut == d) && (forall j :: 0 <= j < i ==> ts[j].timeOut != d)
  {
    if ts == [] || ts[0].timeOut == d then 0 else 1 + FindDue(ts[1..], d)
  }

  /** The mark of a timer that the set does not take. */
  function Collision(ts: seq<Timer>, t: Timer): seq<Mark> {
    var i := FindDue(ts, t.timeOut);
    if i < |ts| then [Lost(t.id, ts[i].id)] else []
  }

  function NextSetUp(w: World, sec: u32, us: u32, task: nat, a1: u64, a2: u64): World {
    var id := (w.st.timerId + 1) % 0x1_0000_0000;
    var t := Timer(id, task, w.now + sec * 1_000_000 + us, a1, a2);
    w.(st := w.st.(timerId := id), inFlight := w.inFlight + {t}, setUps := w.setUps + [t])
  }

  function NextInserted(w: World, t: Timer): World {
    w.(st := w.st.(queue := Insert(w.st.queue, t)), inFlight := w.inFlight - {t}, log := w.log + Collision(w.st.queue, t))
  }

  function NextRemoving(w: World, id: u32): World {
    var (st, ok) := Removal(w.st, id, w.idle);
    w.(st := st, log := if ok then w.log + [Removed(id)] else w.log)
  }

  function NextReturn(w: World): World {
    w.(st := PutBack(w.st, w.idle), phase := Idle,
       log := if w.st.current.id != INVALID_TIMER_ID then w.log + Collision(w.st.queue, w.st.current) else w.log)
  }

  function Next(w: World, e: Event): World
    requires Enabled(w, e)
  {
    match e
    case SetUp(sec, us, task, a1, a2) => NextSetUp(w, sec, us, task, a1, a2)
    case Inserted(t) => NextInserted(w, t)
    case Removing(id) => NextRemoving(w, id)
    case Take => w.(st := TakeFirst(w.st), phase := Taken)
    case Check => w.(phase := if w.st.current.timeOut > w.now then ToWait else Expired)
    case StartWait => w.(phase := Waiting(w.st.current.timeOut))
    case TimeOut => w.(phase := Expired)
    case WakeUp => w.(phase := Woken)
    case Return => NextReturn(w)
    case Build => w.(phase := Idle, log := w.log + [Built(w.st.current.id, w.now)])
    case Passed(d) => w.(now := w.now + d)
  }

  function Start(startOfProcess: nat): World {
    var idle := NullTimer(startOfProcess);
    World(Timers(0, [], idle), idle, Idle, startOfProcess, {}, [], [])
  }

  // ---------------------------------------------------------------- what every step keeps

  ghost predicate Known(w: World, t: Timer) {
    1 <= t.id <= |w.setUps| && w.setUps[t.id - 1] == t
  }

  ghost predicate IdsRight(w: World) {
    && w.idle.id == INVALID_TIMER_ID && w.st.timerId == |w.setUps|
    && (forall k :: 0 <= k < |w.setUps| ==> w.setUps[k].id == k + 1)
  }

  /** A timer is in at most one place, and every place holds timers that were set up. */
  ghost predicate PlacesRight(w: World) {
    && Ordered(w.st.queue)
    && (forall t :: t in w.inFlight ==> Known(w, t) && t !in w.st.queue && t != w.st.current)
    && (forall t :: t in w.st.queue ==> Known(w, t) && t != w.st.current)
    && (w.st.current == w.idle || Known(w, w.st.current))
  }

  /** The timer in the thread's hands is past its deadline when the thread says so. */
  ghost predicate PhaseRight(w: World) {
    w.st.current.id != INVALID_TIMER_ID ==>
      && (w.phase.Waiting? ==> w.phase.until == w.st.current.timeOut)
      && (w.phase.Expired? ==> w.st.current.timeOut <= w.now)
  }

  ghost predicate Unmarked(log: seq<Mark>, id: nat) {
    forall i :: 0 <= i < |log| ==> log[i].id != id
  }

  ghost predicate InPlace(w: World, t: Timer) {
    t in w.inFlight || t in w.st.queue || (!w.phase.Idle? && t == w.st.current)
  }

  /** A time-out is built at or after the deadline; a timer is lost only to another one that is
      due at the very same time. */
  ghost predicate MarkRight(w: World, m: Mark) {
    m.id != INVALID_TIMER_ID ==>
      && 1 <= m.id <= |w.setUps|
      && (m.Built? ==> w.setUps[m.id - 1].timeOut <= m.at)
      && (m.Lost? ==> 1 <= m.to <= |w.setUps| && m.to != m.id && w.setUps[m.to - 1].timeOut == w.setUps[m.id - 1].timeOut)
  }

  /** At most two things happen to a timer, and two only if its time-out is built and it is then
      removed: never two time-outs, never a time-out after a removal. */
  ghost predicate LogRight(w: World) {
    && (forall i :: 0 <= i < |w.log| ==> MarkRight(w, w.log[i]))
    && (forall i, j :: 0 <= i < j < |w.log| && w.log[i].id == w.log[j].id != INVALID_TIMER_ID ==> w.log[i].Built? && w.log[j].Removed?)
  }

  /** No timer vanishes: one that was set up is still somewhere exactly as long as nothing
      happened to it. */
  ghost predicate Conserved(w: World) {
    && (forall k :: 0 <= k < |w.setUps| ==> (InPlace(w, w.setUps[k]) <==> Unmarked(w.log, k + 1)))
    && (w.phase.Idle? && w.st.current.id != INVALID_TIMER_ID ==>
          forall i :: 0 <= i < |w.log| && w.log[i].id == w.st.current.id ==> w.log[i].Built?)
  }

  ghost predicate Sound(w: World) {
    IdsRight(w) && PlacesRight(w) && PhaseRight(w) && LogRight(w) && Conserved(w)
  }

  lemma StartIsSound(startOfProcess: nat)
    ensures Sound(Start(startOfProcess))
  {}

  lemma SetUpIsSound(w: World, sec: u32, us: u32, task: nat, a1: u64, a2: u64)
    requires Sound(w) && |w.setUps| < 0xFFFF_FFFF
    ensures Sound(NextSetUp(w, sec, us, task, a1, a2))
  {
    hide NextSetUp, PlacesRight, LogRight, Conserved;
    var t := Timer(|w.setUps| + 1, task, w.now + sec * 1_000_000 + us, a1, a2);
    var y := NextSetUp(w, sec, us, task, a1, a2);
    assert y == w.(st := w.st.(timerId := t.id), inFlight := w.inFlight + {t}, setUps := w.setUps + [t]) by { SetUpShape(w, sec, us, task, a1, a2); }
    SetUpPlaces(w, y, t);
    SetUpLog(w, y, t);
    SetUpConserves(w, y, t);
  }

  lemma SetUpShape(w: World, sec: u32, us: u32, task: nat, a1: u64, a2: u64)
    requires IdsRight(w) && |w.setUps| < 0xFFFF_FFFF
    ensures var t := Timer(|w.setUps| + 1, task, w.now + sec * 1_000_000 + us, a1, a2);
      NextSetUp(w, sec, us, task, a1, a2) == w.(st := w.st.(timerId := t.id), inFlight := w.inFlight + {t}, setUps := w.setUps + [t])
  {}

  lemma SetUpPlaces(w: World, y: World, t: Timer)
    requires IdsRight(w) && PlacesRight(w) && t.id == |w.setUps| + 1
    requires y == w.(st := w.st.(timerId := t.id), inFlight := w.inFlight + {t}, setUps := w.setUps + [t])
    ensures PlacesRight(y)
  {
    assert forall u :: Known(w, u) ==> Known(y, u) && u != t;
    assert Known(y, t);
  }

  lemma SetUpLog(w: World, y: World, t: Timer)
    requires LogRight(w) && y.setUps == w.setUps + [t] && y.log == w.log
    ensures LogRight(y) && Unmarked(y.log, |w.setUps| + 1)
  {
    forall i | 0 <= i < |y.log| ensures MarkRight(y, y.log[i]) && y.log[i].id != |w.setUps| + 1 {
      assert MarkRight(w, w.log[i]);
    }
  }

  lemma SetUpConserves(w: World, y: World, t: Timer)
    requires IdsRight(w) && Conserved(w) && t.id == |w.setUps| + 1 && Unmarked(w.log, t.id)
    requires y == w.(st := w.st.(timerId := t.id), inFlight := w.inFlight + {t}, setUps := w.setUps + [t])
    ensures Conserved(y)
  {
    hide Unmarked;
    forall k | 0 <= k < |y.setUps| ensures InPlace(y, y.setUps[k]) <==> Unmarked(y.log, k + 1) {
      if k < |w.setUps| {
        assert w.setUps[k].id == k + 1 && y.setUps[k] == w.setUps[k] != t;
        assert InPlace(w, w.setUps[k]) <==> Unmarked(w.log, k + 1);
      }
    }
  }

  /** Two more marks never meet: a mark is added for a timer that has none, or a removal after time-outs. */
  lemma MarkAdded(w: World, y: World, m: Mark)
    requires LogRight(w) && y.setUps == w.setUps && y.log == w.log + [m] && MarkRight(w, m)
    requires m.id != INVALID_TIMER_ID && !Unmarked(w.log, m.id) ==>
      m.Removed? && forall i :: 0 <= i < |w.log| && w.log[i].id == m.id ==> w.log[i].Built?
    ensures LogRight(y)
    ensures forall k :: 1 <= k <= |w.setUps| ==> (Unmarked(y.log, k) <==> Unmarked(w.log, k) && k != m.id)
  {
    forall i | 0 <= i < |y.log| ensures MarkRight(y, y.log[i]) {
      assert i < |w.log| ==> MarkRight(w, w.log[i]);
    }
    forall k | 1 <= k <= |w.setUps| ensures Unmarked(y.log, k) <==> Unmarked(w.log, k) && k != m.id {
      if Unmarked(y.log, k) {
        assert y.log[|w.log|] == m;
        forall i | 0 <= i < |w.log| ensures w.log[i].id != k { assert y.log[i] == w.log[i]; }
      }
    }
  }

  /** t enters the set, or is marked lost. */
  lemma Entered(w: World, y: World, t: Timer)
    requires IdsRight(w) && LogRight(w) && Ordered(w.st.queue) && Known(w, t) && t !in w.st.queue && Unmarked(w.log, t.id)
    requires forall u :: u in w.st.queue ==> Known(w, u)
    requires y.setUps == w.setUps && y.log == w.log + Collision(w.st.queue, t) && y.st.queue == Insert(w.st.queue, t)
    ensures LogRight(y) && Ordered(y.st.queue)
    ensures forall u :: u in w.st.queue ==> u in y.st.queue
    ensures forall u :: u in y.st.queue ==> u in w.st.queue || u == t
    ensures t in y.st.queue <==> Unmarked(y.log, t.id)
    ensures forall k :: 1 <= k <= |w.setUps| && k != t.id ==> (Unmarked(y.log, k) <==> Unmarked(w.log, k))
  {
    hide MarkRight, LogRight;
    InsertElements(w.st.queue, t);
    var i := FindDue(w.st.queue, t.timeOut);
    if i < |w.st.queue| {
      LostIsRight(w, t, i);
      MarkAdded(w, y, Lost(t.id, w.st.queue[i].id));
    } else {
      assert y.log == w.log;
      SameLog(w, y);
    }
  }

  lemma LostIsRight(w: World, t: Timer, i: nat)
    requires Known(w, t) && t !in w.st.queue && i < |w.st.queue| && w.st.queue[i].timeOut == t.timeOut
    requires forall u :: u in w.st.queue ==> Known(w, u)
    ensures MarkRight(w, Lost(t.id, w.st.queue[i].id))
  {
    assert Known(w, w.st.queue[i]);
  }

  lemma SameLog(w: World, y: World)
    requires LogRight(w) && y.setUps == w.setUps && y.log == w.log
    ensures LogRight(y)
  {
    forall i | 0 <= i < |y.log| ensures MarkRight(y, y.log[i]) {
      assert MarkRight(w, w.log[i]);
    }
  }

  /** A timer in a place has no mark. */
  lemma HeldUnmarked(w: World, t: Timer)
    requires IdsRight(w) && Conserved(w) && Known(w, t)
    ensures InPlace(w, t) <==> Unmarked(w.log, t.id)
  {
    assert w.setUps[t.id - 1] == t;
  }

  lemma InsertedIsSound(w: World, t: Timer)
    requires Sound(w) && t in w.inFlight
    ensures Sound(NextInserted(w, t))
  {
    hide Insert, Collision, LogRight, MarkRight, Unmarked, Conserved, Ordered;
    var y := NextInserted(w, t);
    HeldUnmarked(w, t);
    Entered(w, y, t);
    assert IdsRight(y);
    assert forall u :: Known(w, u) ==> Known(y, u);
    InsertedConserved(w, t, y);
  }

  lemma InsertedConserved(w: World, t: Timer, y: World)
    requires IdsRight(w) && PlacesRight(w) && Conserved(w) && t in w.inFlight && y == NextInserted(w, t)
    requires forall u :: u in w.st.queue ==> u in y.st.queue
    requires forall u :: u in y.st.queue ==> u in w.st.queue || u == t
    requires t in y.st.queue <==> Unmarked(y.log, t.id)
    requires forall k :: 1 <= k <= |w.setUps| && k != t.id ==> (Unmarked(y.log, k) <==> Unmarked(w.log, k))
    ensures Conserved(y)
  {
    hide Insert, Unmarked, Ordered;
    forall k | 0 <= k < |y.setUps| ensures InPlace(y, y.setUps[k]) <==> Unmarked(y.log, k + 1) {
      assert InPlace(w, w.setUps[k]) <==> Unmarked(w.log, k + 1);
      assert k + 1 == t.id <==> w.setUps[k] == t;
    }
    assert forall i :: 0 <= i < |y.log| && i >= |w.log| ==> y.log[i].id == t.id;
  }

  lemma ReturnIsSound(w: World)
    requires Sound(w) && w.phase.Woken?
    ensures Sound(NextReturn(w))
  {
    hide Insert, Collision, LogRight, MarkRight, Unmarked, Conserved, Ordered;
    var y := NextReturn(w);
    assert forall u :: Known(w, u) ==> Known(y, u);
    if w.st.current.id == INVALID_TIMER_ID {
      SameLog(w, y);
      ReturnedNothing(w, y);
    } else {
      var t := w.st.current;
      HeldUnmarked(w, t);
      Entered(w, y, t);
      ReturnConserved(w, y);
    }
  }

  lemma ReturnedNothing(w: World, y: World)
    requires IdsRight(w) && Conserved(w) && w.st.current.id == INVALID_TIMER_ID && y == NextReturn(w)
    ensures Conserved(y)
  {
    hide Insert, Unmarked;
    forall k | 0 <= k < |y.setUps| ensures InPlace(y, y.setUps[k]) <==> Unmarked(y.log, k + 1) {
      assert InPlace(w, w.setUps[k]) <==> Unmarked(w.log, k + 1);
    }
  }

  lemma ReturnConserved(w: World, y: World)
    requires IdsRight(w) && PlacesRight(w) && Conserved(w) && w.phase.Woken? && y == NextReturn(w)
    requires w.st.current.id != INVALID_TIMER_ID
    requires forall u :: u in w.st.queue ==> u in y.st.queue
    requires forall u :: u in y.st.queue ==> u in w.st.queue || u == w.st.current
    requires w.st.current in y.st.queue <==> Unmarked(y.log, w.st.current.id)
    requires forall k :: 1 <= k <= |w.setUps| && k != w.st.current.id ==> (Unmarked(y.log, k) <==> Unmarked(w.log, k))
    ensures Conserved(y)
  {
    hide Insert, Unmarked, Ordered, Collision;
    forall k | 0 <= k < |y.setUps| ensures InPlace(y, y.setUps[k]) <==> Unmarked(y.log, k + 1) {
      assert InPlace(w, w.setUps[k]) <==> Unmarked(w.log, k + 1);
      assert k + 1 == w.st.current.id <==> w.setUps[k] == w.st.current;
    }
  }

  lemma RemovingIsSound(w: World, id: u32)
    requires Sound(w)
    ensures Sound(NextRemoving(w, id))
  {
    hide LogRight, MarkRight, Unmarked, Conserved, Ordered, PlacesRight, Known;
    if w.st.current.id == id {
      CurrentRemoved(w);
    } else {
      var i := Find(w.st.queue, id);
      if i < |w.st.queue| {
        QueuedRemoved(w, i);
      } else {
        assert NextRemoving(w, id) == w;
      }
    }
  }

  /** The thread's own timer is taken from its hands, or was already sent. */
  lemma CurrentRemoved(w: World)
    requires Sound(w)
    ensures Sound(NextRemoving(w, w.st.current.id))
  {
    hide LogRight, MarkRight, Ordered;
    var t := w.st.current;
    var y := NextRemoving(w, t.id);
    assert forall u :: Known(w, u) ==> Known(y, u);
    if Known(w, t) { HeldUnmarked(w, t); }
    RemovedIsRight(w, t.id);
    MarkAdded(w, y, Removed(t.id));
    forall k | 0 <= k < |y.setUps| ensures InPlace(y, y.setUps[k]) <==> Unmarked(y.log, k + 1) {
      assert InPlace(w, w.setUps[k]) <==> Unmarked(w.log, k + 1);
      assert k + 1 == t.id <==> w.setUps[k] == t;
    }
  }

  lemma RemovedIsRight(w: World, id: u32)
    requires id <= |w.setUps|
    ensures MarkRight(w, Removed(id))
  {}

  lemma QueuedRemoved(w: World, i: nat)
    requires Sound(w) && i < |w.st.queue| && w.st.current.id != w.st.queue[i].id && i == Find(w.st.queue, w.st.queue[i].id)
    ensures Sound(NextRemoving(w, w.st.queue[i].id))
  {
    hide LogRight, MarkRight, Ordered, Unmarked, Erase;
    var t := w.st.queue[i];
    var y := NextRemoving(w, t.id);
    assert Known(w, t) && forall u :: Known(w, u) ==> Known(y, u);
    EraseElements(w.st.queue, i);
    HeldUnmarked(w, t);
    RemovedIsRight(w, t.id);
    MarkAdded(w, y, Removed(t.id));
    forall k | 0 <= k < |y.setUps| ensures InPlace(y, y.setUps[k]) <==> Unmarked(y.log, k + 1) {
      assert InPlace(w, w.setUps[k]) <==> Unmarked(w.log, k + 1);
      assert k + 1 == t.id <==> w.setUps[k] == t;
    }
  }

  lemma BuildIsSound(w: World)
    requires Sound(w) && w.phase.Expired?
    ensures Sound(Next(w, Build))
  {
    hide LogRight, Ordered;
    var t := w.st.current;
    var y := Next(w, Build);
    assert forall u :: Known(w, u) ==> Known(y, u);
    if Known(w, t) { HeldUnmarked(w, t); }
    MarkAdded(w, y, Built(t.id, w.now));
    forall k | 0 <= k < |y.setUps| ensures InPlace(y, y.setUps[k]) <==> Unmarked(y.log, k + 1) {
      assert InPlace(w, w.setUps[k]) <==> Unmarked(w.log, k + 1);
      assert k + 1 == t.id <==> w.setUps[k] == t;
    }
  }

  lemma TakeIsSound(w: World)
    requires Sound(w) && w.phase.Idle? && w.st.queue != []
    ensures Sound(Next(w, Take))
  {
    hide LogRight, Unmarked;
    var t := w.st.queue[0];
    var y := Next(w, Take);
    assert Known(w, t) && forall u :: Known(w, u) ==> Known(y, u);
    SameLog(w, y);
    EraseElements(w.st.queue, 0);
    assert Erase(w.st.queue, 0) == w.st.queue[1..];
    forall k | 0 <= k < |y.setUps| ensures InPlace(y, y.setUps[k]) <==> Unmarked(y.log, k + 1) {
      assert InPlace(w, w.setUps[k]) <==> Unmarked(w.log, k + 1);
    }
  }

  /** The thread moves on without touching the timers. */
  lemma ThreadMoved(w: World, y: World)
    requires Sound(w) && y == w.(phase := y.phase, now := y.now) && w.now <= y.now
    requires y.phase.Idle? <==> w.phase.Idle?
    requires PhaseRight(y)
    ensures Sound(y)
  {
    hide LogRight, Unmarked;
    assert forall u :: Known(w, u) ==> Known(y, u);
    SameLog(w, y);
    forall k | 0 <= k < |y.setUps| ensures InPlace(y, y.setUps[k]) <==> Unmarked(y.log, k + 1) {
      assert InPlace(w, w.setUps[k]) <==> Unmarked(w.log, k + 1);
    }
  }

  lemma StepIsSound(w: World, e: Event)
    requires Sound(w) && Enabled(w, e)
    ensures Sound(Next(w, e))
  {
    hide NextSetUp, NextInserted, NextRemoving, NextReturn, IdsRight, PlacesRight, LogRight, Conserved;
    match e
    case SetUp(sec, us, task, a1, a2) => SetUpIsSound(w, sec, us, task, a1, a2);
    case Inserted(t) => InsertedIsSound(w, t);
    case Removing(id) => RemovingIsSound(w, id);
    case Take => TakeIsSound(w);
    case Return => ReturnIsSound(w);
    case Build => BuildIsSound(w);
    case _ => ThreadMoved(w, Next(w, e));
  }

  lemma StepAppends(w: World, e: Event)
    requires Enabled(w, e)
    ensures w.log <= Next(w, e).log
  {
    hide Insert, Removal;
  }

  ghost predicate Run(w: World, events: seq<Event>, y: World)
    decreases |events|
  {
    if |events| == 0 then y == w else Enabled(w, events[0]) && Run(Next(w, events[0]), events[1..], y)
  }

  /** In every interleaving each timer's time-out is built at most once, not before its deadline,
      and not after it has been removed; a timer disappears only by its time-out, by a removal or
      to another timer with the same deadline. */
  lemma {:induction false} EveryRunIsSound(w: World, events: seq<Event>, y: World)
    requires Sound(w) && Run(w, events, y)
    ensures Sound(y) && w.log <= y.log
    decreases |events|
  {
    hide Sound, Enabled, Next;
    if |events| > 0 {
      StepIsSound(w, events[0]);
      StepAppends(w, events[0]);
      EveryRunIsSound(Next(w, events[0]), events[1..], y);
    }
  }

  /** The thread is not at the top of its loop before, between and after the events. */
  ghost predicate Busy(w: World, events: seq<Event>)
    decreases |events|
  {
    !w.phase.Idle? && (|events| == 0 || (Enabled(w, events[0]) && Busy(Next(w, events[0]), events[1..])))
  }

  /** In every interleaving, from the moment the thread takes a timer until it is done with it, the
      timer in its hands is due before every other one that was in the set then and still is. */
  lemma EarliestInHand(w: World, events: seq<Event>, y: World)
    requires Sound(w) && Enabled(w, Take) && Run(Next(w, Take), events, y) && Busy(Next(w, Take), events)
    requires y.st.current.id != INVALID_TIMER_ID
    ensures y.st.current in w.st.queue
    ensures forall t :: t in w.st.queue && t in y.st.queue ==> y.st.current.timeOut < t.timeOut
  {
    hide Busy, Run, LogRight, Conserved, Ordered;
    TakesEarliest(w.st);
    StepIsSound(w, Take);
    EveryRunIsSound(Next(w, Take), events, y);
    StaysInHand(Next(w, Take), events, y);
  }

  lemma {:induction false} StaysInHand(w: World, events: seq<Event>, y: World)
    requires Run(w, events, y) && Busy(w, events) && w.idle.id == INVALID_TIMER_ID
    ensures y.st.current == w.st.current || y.st.current.id == INVALID_TIMER_ID
    decreases |events|
  {
    hide Insert, Erase, Find;
    if |events| > 0 { StaysInHand(Next(w, events[0]), events[1..], y); }
  }

  /** In every interleaving a time-out is built at the earliest when the interval its set-up was
      given, in seconds and microseconds, has passed. */
  lemma NeverEarly(w: World, sec: u32, us: u32, task: nat, a1: u64, a2: u64, events: seq<Event>, y: World, i: nat)
    requires Sound(w) && Enabled(w, SetUp(sec, us, task, a1, a2)) && Run(Next(w, SetUp(sec, us, task, a1, a2)), events, y)
    requires i < |y.log| && y.log[i].Built? && y.log[i].id as int == |w.setUps| + 1
    ensures y.log[i].at >= w.now + 1_000_000 * sec + us
  {
    hide Run, PlacesRight, PhaseRight, Conserved;
    var v := Next(w, SetUp(sec, us, task, a1, a2));
    StepIsSound(w, SetUp(sec, us, task, a1, a2));
    EveryRunIsSound(v, events, y);
    SetUpsStay(v, events, y);
    assert MarkRight(y, y.log[i]);
    assert y.setUps[|w.setUps|] == v.setUps[|w.setUps|];
  }

  lemma {:induction false} SetUpsStay(w: World, events: seq<Event>, y: World)
    requires Run(w, events, y)
    ensures w.setUps <= y.setUps
    decreases |events|
  {
    hide Insert, Removal, FindDue;
    if |events| > 0 { SetUpsStay(Next(w, events[0]), events[1..], y); }
  }

  /** Once timer_remove has succeeded on a timer whose time-out was not built, it never is. */
  lemma RemovedIsNeverSent(w: World, id: u32, events: seq<Event>, y: World)
    requires Sound(w) && id != INVALID_TIMER_ID && Removal(w.st, id, w.idle).1
    requires forall i :: 0 <= i < |w.log| && w.log[i].id == id ==> !w.log[i].Built?
    requires Run(NextRemoving(w, id), events, y)
    ensures forall i :: 0 <= i < |y.log| && y.log[i].id == id ==> !y.log[i].Built?
  {
    hide Sound, Run, Removal;
    var v := Next(w, Removing(id));
    StepIsSound(w, Removing(id));
    EveryRunIsSound(v, events, y);
    assert v.log[|w.log|] == Removed(id) == y.log[|w.log|];
    forall i | 0 <= i < |y.log| && y.log[i].id == id ensures !y.log[i].Built? {
      NotAfterRemoval(y, |w.log|, i);
      assert i < |w.log| ==> y.log[i] == w.log[i];
    }
  }

  lemma NotAfterRemoval(y: World, j: nat, i: nat)
    requires Sound(y) && j < |y.log| && i < |y.log| && y.log[i].id == y.log[j].id != INVALID_TIMER_ID && y.log[j].Removed?
    ensures i >= j ==> !y.log[i].Built?
  {}

  /** timer_remove succeeds on a timer in the set or in the thread's hands, and also, too late, on
      the one the thread sent last; it fails on one whose set-up is still under way. */
  lemma RemovalSucceedsIff(w: World, id: u32)
    requires Sound(w) && 1 <= id <= |w.setUps|
    ensures Removal(w.st, id, w.idle).1 <==> w.setUps[id - 1] in w.st.queue || w.setUps[id - 1] == w.st.current
    ensures Removal(w.st, id, w.idle).1 && !Unmarked(w.log, id) <==> w.phase.Idle? && w.st.current.id == id
  {
    hide LogRight, PhaseRight;
    var t := w.setUps[id - 1];
    assert InPlace(w, t) <==> Unmarked(w.log, id);
    var i := Find(w.st.queue, id);
    if i < |w.st.queue| {
      assert Known(w, w.st.queue[i]);
    }
  }

  // ---------------------------------------------------------------- one turn of the thread

  /** What the thread does with the timer in its hands: one that is due is built in the same turn, one
      that is not is waited for until exactly its deadline. */
  lemma OneTurn(w: World)
    requires w.phase.Taken?
    ensures var c := Next(w, Check);
      if w.st.current.timeOut <= w.now then Enabled(c, Build) && Next(c, Build).log == w.log + [Built(w.st.current.id, w.now)]
      else Enabled(c, StartWait) && Next(c, StartWait).phase == Waiting(w.st.current.timeOut)
  {}

  /** A timer that is removed between the take and the check leaves the thread waiting: until it is
      woken up, or 2^32 seconds and more after the start of the process have passed. */
  lemma RemovedBeforeCheck(start: nat, events: seq<Event>, w: World)
    requires Run(Start(start), events, w) && w.phase.Taken? && w.st.current.id == INVALID_TIMER_ID
    requires w.now < start + 4_294_967_295 * 1_000_000 + 4_294_967_295
    ensures var c := Next(w, Check);
      Enabled(c, StartWait) && Next(c, StartWait).phase == Waiting(start + 4_294_967_295 * 1_000_000 + 4_294_967_295)
  {
    hide Run;
    StartIsSound(start);
    EveryRunIsSound(Start(start), events, w);
    IdleStays(Start(start), events, w);
    assert w.st.current == w.idle || Known(w, w.st.current);
  }

  lemma {:induction false} IdleStays(w: World, events: seq<Event>, y: World)
    requires Run(w, events, y)
    ensures y.idle == w.idle
    decreases |events|
  {
    hide Insert, Removal, FindDue;
    if |events| > 0 { IdleStays(Next(w, events[0]), events[1..], y); }
  }

  /** A timer removed when its deadline has passed but its time-out is not built yet has a time-out
      built all the same, with the id of no timer. */
  lemma NullTimeOut(w: World, id: u32)
    requires Sound(w) && w.phase.Expired? && w.st.current.id == id != INVALID_TIMER_ID
    ensures var y := Next(w, Removing(id));
      Enabled(y, Build) && Next(y, Build).log == w.log + [Removed(id), Built(INVALID_TIMER_ID, w.now)]
  {}
}
