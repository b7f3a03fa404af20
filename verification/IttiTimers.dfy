/** The timers of the inter-task middleware, as the critical sections of its timer thread and of
    the callers that set timers up and remove them. Times are in microseconds. */
module IttiTimers {
  import opened OnesComplement

  const INVALID_TIMER_ID: u32 := 0
  const TASK_NONE: nat := 0

  datatype Timer = Timer(id: u32, task: nat, timeOut: nat, arg1: u64, arg2: u64)

  /** nullTimer is due at the end of time, as seen from the start of the process. */
  function NullTimer(startOfProcess: nat): Timer {
    Timer(INVALID_TIMER_ID, TASK_NONE, startOfProcess + 0xFFFF_FFFF * 1_000_000 + 0xFFFF_FFFF, 0, 0)
  }

  /** The set of timers in its order, by deadline alone. */
  ghost predicate Ordered(ts: seq<Timer>) {
    forall i, j :: 0 <= i < j < |ts| ==> ts[i].timeOut < ts[j].timeOut
  }

  /** Insertion into the set leaves an element with the same deadline alone. */
  function Insert(ts: seq<Timer>, t: Timer): (r: seq<Timer>) {
    if ts == [] || t.timeOut < ts[0].timeOut then [t] + ts
    else if t.timeOut == ts[0].timeOut then ts
    else [ts[0]] + Insert(ts[1..], t)
  }

  function Erase(ts: seq<Timer>, i: nat): seq<Timer>
    requires i < |ts|
  {
    ts[..i] + ts[i + 1..]
  }

  function Find(ts: seq<Timer>, id: u32): (i: nat)
    ensures i <= |ts| && (i < |ts| ==> ts[i].id == id) && (forall j :: 0 <= j < i ==> ts[j].id != id)
  {
    if ts == [] || ts[0].id == id then 0 else 1 + Find(ts[1..], id)
  }

  datatype Timers = Timers(timerId: u32, queue: seq<Timer>, current: Timer)

  function Removal(s: Timers, id: u32, idle: Timer): (Timers, bool) {
    if s.current.id == id then (s.(current := idle), true)
    else
      var i := Find(s.queue, id);
      if i < |s.queue| then (s.(queue := Erase(s.queue, i)), true) else (s, false)
  }

  function TakeFirst(s: Timers): Timers
    requires s.queue != []
  {
    s.(queue := s.queue[1..], current := s.queue[0])
  }

  function PutBack(s: Timers, idle: Timer): Timers {
    s.(queue := if s.current.id != INVALID_TIMER_ID then Insert(s.queue, s.current) else s.queue, current := idle)
  }

  /** A new timer goes behind those that are due earlier. */
  lemma {:induction false} InsertAt(ts: seq<Timer>, t: Timer, i: nat)
    requires i <= |ts| && forall j :: 0 <= j < i ==> ts[j].timeOut < t.timeOut
    ensures i == |ts| || t.timeOut < ts[i].timeOut ==> Insert(ts, t) == ts[..i] + [t] + ts[i..]
    ensures i < |ts| && t.timeOut == ts[i].timeOut ==> Insert(ts, t) == ts
  {
    if i > 0 {
      InsertAt(ts[1..], t, i - 1);
      assert ts == [ts[0]] + ts[1..] && ts[..i] == [ts[0]] + ts[1..][..i - 1] && ts[1..][i - 1..] == ts[i..];
    }
  }

  lemma InsertElements(ts: seq<Timer>, t: Timer)
    requires Ordered(ts)
    ensures Ordered(Insert(ts, t))
    ensures forall u :: u in Insert(ts, t) <==> u in ts || (u == t && forall v :: v in ts ==> v.timeOut != t.timeOut)
  {
    hide Insert, Ordered;
    forall u ensures u in Insert(ts, t) <==> u in ts || (u == t && Free(ts, t)) {
      InsertMembers(ts, t, u);
    }
    InsertOrdered(ts, t);
  }

  /** No timer of the list has the deadline of t. */
  ghost predicate Free(ts: seq<Timer>, t: Timer) {
    forall v :: v in ts ==> v.timeOut != t.timeOut
  }

  lemma FreeFirst(ts: seq<Timer>, t: Timer)
    requires ts != [] && Ordered(ts)
    ensures Free(ts, t) <==> ts[0].timeOut != t.timeOut && Free(ts[1..], t)
    ensures t.timeOut < ts[0].timeOut ==> Free(ts, t)
    ensures Ordered(ts[1..]) && forall u :: u in ts <==> u == ts[0] || u in ts[1..]
  {
    assert forall u :: u in ts <==> u == ts[0] || u in ts[1..];
  }

  lemma {:induction false} InsertMembers(ts: seq<Timer>, t: Timer, u: Timer)
    requires Ordered(ts)
    ensures u in Insert(ts, t) <==> u in ts || (u == t && Free(ts, t))
  {
    hide Ordered, Free;
    if ts == [] {
      NoneFree(t);
    } else {
      FreeFirst(ts, t);
      if t.timeOut > ts[0].timeOut { InsertMembers(ts[1..], t, u); }
    }
  }

  lemma NoneFree(t: Timer)
    ensures Free([], t)
  {}

  lemma {:induction false} InsertOrdered(ts: seq<Timer>, t: Timer)
    requires Ordered(ts)
    ensures Ordered(Insert(ts, t)) && Insert(ts, t) != [] && Insert(ts, t)[0].timeOut == if ts == [] || t.timeOut < ts[0].timeOut then t.timeOut else ts[0].timeOut
  {
    hide Ordered;
    if ts == [] {
      OrderedInFront(t, []);
    } else {
      FreeFirst(ts, t);
      if t.timeOut < ts[0].timeOut {
        OrderedInFront(t, ts);
      } else if t.timeOut > ts[0].timeOut {
        InsertOrdered(ts[1..], t);
        if |ts| > 1 { FirstBeforeSecond(ts); }
        OrderedInFront(ts[0], Insert(ts[1..], t));
      }
    }
  }

  lemma FirstBeforeSecond(ts: seq<Timer>)
    requires Ordered(ts) && |ts| > 1
    ensures ts[0].timeOut < ts[1..][0].timeOut
  {}

  lemma OrderedInFront(t: Timer, ts: seq<Timer>)
    requires (ts != [] ==> Ordered(ts) && t.timeOut < ts[0].timeOut)
    ensures Ordered([t] + ts)
  {}

  lemma EraseElements(ts: seq<Timer>, i: nat)
    requires Ordered(ts) && i < |ts|
    ensures Ordered(Erase(ts, i))
    ensures forall u :: u in Erase(ts, i) <==> u in ts && u != ts[i]
  {
    forall u ensures u in Erase(ts, i) <==> u in ts && u != ts[i] {
      if u in ts && u != ts[i] {
        var k :| 0 <= k < |ts| && ts[k] == u;
        assert u == Erase(ts, i)[if k < i then k else k - 1];
      }
    }
  }

  /** The timer taken is due before every timer left. */
  lemma TakesEarliest(s: Timers)
    requires Ordered(s.queue) && s.queue != []
    ensures var y := TakeFirst(s);
      && y.current in s.queue && Ordered(y.queue) && (forall t :: t in y.queue ==> y.current.timeOut < t.timeOut)
      && (forall t :: t in s.queue <==> t == y.current || t in y.queue)
  {
    assert s.queue == [s.queue[0]] + s.queue[1..];
  }

  class IttiMw {
    var timerId: u32
    var timers: seq<Timer>
    var currentTimer: Timer
    const nullTimer: Timer

    ghost function State(): Timers
      reads this
    {
      Timers(timerId, timers, currentTimer)
    }

    constructor (startOfProcess: nat)
      ensures nullTimer == NullTimer(startOfProcess) && State() == Timers(0, [], nullTimer)
    {
      nullTimer := NullTimer(startOfProcess);
      timerId, timers, currentTimer := 0, [], NullTimer(startOfProcess);
    }

    method NewTimer(now: nat, intervalSec: u32, intervalUs: u32, task: nat, arg1: u64, arg2: u64) returns (t: Timer)
      modifies `timerId
      ensures timerId == (old(timerId) + 1) % 0x1_0000_0000
      ensures t == Timer(timerId, task, now + intervalSec * 1_000_000 + intervalUs, arg1, arg2)
    {
      timerId := (timerId + 1) % 0x1_0000_0000;
      t := Timer(timerId, task, now + intervalSec * 1_000_000 + intervalUs, arg1, arg2);
    }

    method InsertTimer(t: Timer)
      modifies `timers
      ensures State() == old(State()).(queue := Insert(old(timers), t))
    {
      var i := 0;
      while i < |timers| && timers[i].timeOut < t.timeOut
        invariant 0 <= i <= |timers| && timers == old(timers)
        invariant forall j :: 0 <= j < i ==> timers[j].timeOut < t.timeOut
      {
        i := i + 1;
      }
      InsertAt(timers, t, i);
      if i == |timers| || t.timeOut < timers[i].timeOut {
        timers := timers[..i] + [t] + timers[i..];
      }
    }

    method TimerRemove(id: u32) returns (ok: bool)
      modifies `timers, `currentTimer
      ensures (State(), ok) == Removal(old(State()), id, nullTimer)
    {
      if currentTimer.id == id {
        currentTimer := nullTimer;
        return true;
      }
      var i := 0;
      ghost var was := timers;
      while i < |timers|
        invariant 0 <= i <= |timers| && timers == was && State() == old(State())
        invariant Find(was, id) == i + Find(was[i..], id)
      {
        if timers[i].id == id {
          timers := timers[..i] + timers[i + 1..];
          return true;
        }
        assert was[i..][1..] == was[i + 1..];
        i := i + 1;
      }
      return false;
    }

    /** The timer thread, with the set of timers locked and not empty. */
    method TakeNext()
      requires timers != []
      modifies `timers, `currentTimer
      ensures State() == TakeFirst(old(State()))
      ensures old(Ordered(timers)) ==> forall t :: t in timers ==> currentTimer.timeOut < t.timeOut
    {
      if Ordered(timers) { TakesEarliest(State()); }
      currentTimer := timers[0];
      timers := timers[1..];
    }

    /** The timer thread, woken before the deadline. */
    method Reinsert()
      modifies `timers, `currentTimer
      ensures State() == PutBack(old(State()), nullTimer)
    {
      if currentTimer.id != INVALID_TIMER_ID {
        InsertTimer(currentTimer);
      }
      currentTimer := nullTimer;
    }
  }
}
