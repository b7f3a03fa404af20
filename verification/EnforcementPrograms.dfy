/** The per-session QER programs: traffic classes whose ids derive from the SEID and the QFI, so
    that two programs of one session must never be set up at the same time. */
module EnforcementPrograms {
  import opened OnesComplement
  import opened Options
  import opened PfcpRules

  /** A program, by what it was set up with. */
  datatype Program = Program(qersDownlink: seq<Qer>, pdrsDownlink: seq<Pdr>)

  datatype Op = SetUp(seid: nat, program: Program) | TornDown(seid: nat, program: Program)

  /** One bit each in session_rules_enabled_map. */
  datatype RulesEnabled = RulesEnabled(qer: bool, urr: bool, bar: bool, mar: bool)

  function Done(alive: map<nat, Program>, op: Op): map<nat, Program> {
    if op.SetUp? then alive[op.seid := op.program] else alive - {op.seid}
  }

  /** A program is set up only where there is none, and torn down only where it is. */
  predicate Fits(alive: map<nat, Program>, op: Op) {
    if op.SetUp? then op.seid !in alive else op.seid in alive && alive[op.seid] == op.program
  }

  /** The programs in place after the operations in log. */
  function Alive(log: seq<Op>): map<nat, Program> {
    if log == [] then map[] else Done(Alive(log[..|log| - 1]), log[|log| - 1])
  }

  ghost predicate NeverCollides(log: seq<Op>) {
    forall n :: 0 <= n < |log| ==> Fits(Alive(log[..n]), log[n])
  }

  lemma Logged(log: seq<Op>, op: Op)
    requires NeverCollides(log) && Fits(Alive(log), op)
    ensures NeverCollides(log + [op]) && Alive(log + [op]) == Done(Alive(log), op)
  {
    hide Fits;
    var more := log + [op];
    assert more[..|log|] == log;
    forall n | 0 <= n < |more| ensures Fits(Alive(more[..n]), more[n]) {
      if n < |log| { assert more[..n] == log[..n]; }
    }
  }

  /** Between two set-ups of a session its first program is torn down. */
  lemma {:induction false} TornDownBetween(log: seq<Op>, i: nat, j: nat)
    requires NeverCollides(log) && i < j < |log| && log[i].SetUp? && log[j].SetUp? && log[i].seid == log[j].seid
    ensures exists k :: i < k < j && log[k].TornDown? && log[k].seid == log[i].seid
  {
    if forall k :: i < k < j ==> !(log[k].TornDown? && log[k].seid == log[i].seid) {
      StaysAlive(log, i, j);
    }
  }

  lemma {:induction false} StaysAlive(log: seq<Op>, i: nat, j: nat)
    requires i < j <= |log| && log[i].SetUp?
    requires forall k :: i < k < j ==> !(log[k].TornDown? && log[k].seid == log[i].seid)
    ensures log[i].seid in Alive(log[..j])
    decreases j
  {
    assert log[..j][..j - 1] == log[..j - 1] && log[..j][j - 1] == log[j - 1];
    if i < j - 1 {
      StaysAlive(log, i, j - 1);
    }
  }

  // ---------------------------------------------------------------- the sections, and how calls overlap

  /** The programs by session, and what has been done to the traffic classes so far. */
  datatype Tracked = Tracked(programs: map<nat, Program>, log: seq<Op>)

  /** A locked section: the program of the session, if there is one, goes. */
  function Cleared(st: Tracked, seid: nat): Tracked {
    if seid in st.programs
    then Tracked(st.programs - {seid}, st.log + [TornDown(seid, st.programs[seid])])
    else st
  }

  /** Outside the lock. */
  function SetUpIn(st: Tracked, seid: nat, program: Program): Tracked {
    st.(log := st.log + [SetUp(seid, program)])
  }

  /** The other locked section. */
  function Stored(st: Tracked, seid: nat, program: Program): Tracked {
    st.(programs := st.programs[seid := program])
  }

  /** A call between its two locked sections; ready once its program is set up. */
  datatype Call = Call(seid: nat, program: Program, ready: bool)

  datatype World = World(st: Tracked, calls: map<nat, Call>)

  /** A call enters with the program it will set up, if any. */
  datatype Event =
    | Enter(call: nat, seid: nat, wanted: Option<Program>)
    | Prepare(call: nat)
    | Leave(call: nat)
    | Remove(seid: nat)

  predicate Possible(w: World, e: Event) {
    match e
    case Enter(c, _, _) => c !in w.calls
    case Prepare(c) => c in w.calls && !w.calls[c].ready
    case Leave(c) => c in w.calls && w.calls[c].ready
    case Remove(_) => true
  }

  function Next(w: World, e: Event): World
    requires Possible(w, e)
  {
    match e
    case Enter(c, seid, wanted) =>
      World(Cleared(w.st, seid), if wanted.Some? then w.calls[c := Call(seid, wanted.value, false)] else w.calls)
    case Prepare(c) =>
      var call := w.calls[c];
      World(SetUpIn(w.st, call.seid, call.program), w.calls[c := call.(ready := true)])
    case Leave(c) =>
      var call := w.calls[c];
      World(Stored(w.st, call.seid, call.program), w.calls - {c})
    case Remove(seid) => w.(st := Cleared(w.st, seid))
  }

  /** No call with a program to set up enters while another call of its session is between its sections. */
  ghost predicate Serial(w: World, e: Event) {
    e.Enter? && e.wanted.Some? ==> Idle(w, e.seid)
  }

  ghost predicate Idle(w: World, seid: nat) {
    forall c :: c in w.calls ==> w.calls[c].seid != seid
  }

  /** The traffic classes in place are those of the programs stored and of the calls that are ready. */
  ghost predicate InPlace(w: World) {
    var alive := Alive(w.st.log);
    && (forall k :: k in w.st.programs ==> k in alive && alive[k] == w.st.programs[k] && Idle(w, k))
    && (forall c :: c in w.calls ==> CallInPlace(alive, w.calls[c]))
    && (forall c, d :: c in w.calls && d in w.calls && c != d ==> w.calls[c].seid != w.calls[d].seid)
    && (forall k :: k in alive ==> k in w.st.programs || !Idle(w, k))
  }

  predicate CallInPlace(alive: map<nat, Program>, c: Call) {
    if c.ready then c.seid in alive && alive[c.seid] == c.program else c.seid !in alive
  }

  ghost predicate Sound(w: World) {
    NeverCollides(w.st.log) && InPlace(w)
  }

  /** That guard, no more and no less, keeps the traffic classes right from one step to the next. */
  lemma StepIsSoundIff(w: World, e: Event)
    requires Sound(w) && Possible(w, e)
    ensures Sound(Next(w, e)) <==> Serial(w, e)
  {
    hide Alive, NeverCollides, InPlace;
    match e
    case Enter(c, seid, wanted) =>
      ClearedIsSound(w, seid);
      if wanted.Some? {
        if Idle(w, seid) {
          Entered(w.(st := Cleared(w.st, seid)), c, Call(seid, wanted.value, false));
        } else {
          NotInPlace(w, c, seid, wanted.value);
        }
      }
    case Prepare(c) => Prepared(w, c);
    case Leave(c) => Left(w, c);
    case Remove(seid) => ClearedIsSound(w, seid);
  }

  lemma NotInPlace(w: World, c: nat, seid: nat, program: Program)
    requires c !in w.calls && !Idle(w, seid)
    ensures !InPlace(Next(w, Enter(c, seid, Some(program))))
  {
    hide Alive;
    var d :| d in w.calls && w.calls[d].seid == seid;
    var y := Next(w, Enter(c, seid, Some(program)));
    assert d in y.calls && c in y.calls && y.calls[c].seid == y.calls[d].seid;
  }

  lemma ClearedIsSound(w: World, seid: nat)
    requires Sound(w)
    ensures var y := w.(st := Cleared(w.st, seid));
      Sound(y) && seid !in y.st.programs && (Idle(w, seid) ==> seid !in Alive(y.st.log))
  {
    hide Alive, NeverCollides;
    if seid in w.st.programs {
      Logged(w.st.log, TornDown(seid, w.st.programs[seid]));
    }
  }

  lemma Entered(w: World, c: nat, call: Call)
    requires Sound(w) && c !in w.calls && Idle(w, call.seid) && !call.ready && call.seid !in w.st.programs && call.seid !in Alive(w.st.log)
    ensures Sound(w.(calls := w.calls[c := call]))
  {
    hide Alive, NeverCollides;
    var y := w.(calls := w.calls[c := call]);
    forall k | !Idle(w, k) ensures !Idle(y, k) {
      var d :| d in w.calls && w.calls[d].seid == k;
      assert d in y.calls && y.calls[d].seid == k;
    }
  }

  lemma Prepared(w: World, c: nat)
    requires Sound(w) && c in w.calls && !w.calls[c].ready
    ensures Sound(Next(w, Prepare(c)))
  {
    hide Alive, NeverCollides;
    var call := w.calls[c];
    var y := Next(w, Prepare(c));
    Logged(w.st.log, SetUp(call.seid, call.program));
    forall k ensures Idle(w, k) <==> Idle(y, k) {
      assert forall d :: d in w.calls ==> d in y.calls && w.calls[d].seid == y.calls[d].seid;
    }
  }

  lemma Left(w: World, c: nat)
    requires Sound(w) && c in w.calls && w.calls[c].ready
    ensures Sound(Next(w, Leave(c)))
  {
    hide Alive, NeverCollides;
    var y := Next(w, Leave(c));
    forall k | k != w.calls[c].seid ensures Idle(w, k) <==> Idle(y, k) {
      assert forall d :: d in w.calls && d != c ==> d in y.calls && w.calls[d].seid == y.calls[d].seid;
    }
  }

  /** events lead from w to y, whatever overlaps. */
  ghost predicate Run(w: World, events: seq<Event>, y: World)
    decreases |events|
  {
    if events == [] then y == w else Possible(w, events[0]) && Run(Next(w, events[0]), events[1..], y)
  }

  /** Each event keeps the guard, in the world it meets. */
  ghost predicate AllSerial(w: World, events: seq<Event>)
    decreases |events|
  {
    events == [] || (Possible(w, events[0]) && Serial(w, events[0]) && AllSerial(Next(w, events[0]), events[1..]))
  }

  /** Every world on the way is sound. */
  ghost predicate AllSound(w: World, events: seq<Event>)
    decreases |events|
  {
    Sound(w) && (events == [] || (Possible(w, events[0]) && AllSound(Next(w, events[0]), events[1..])))
  }

  /** Calls of different sessions, removals and calls with nothing to set up may overlap as they like:
      the traffic classes stay right all along a run exactly when every event keeps the guard. With
      no call under way they are then those of the programs in the map, and no program has been set
      up while its session had one. */
  lemma {:induction false} EveryRunIsSoundIff(w: World, events: seq<Event>, y: World)
    requires Sound(w) && Run(w, events, y)
    ensures AllSound(w, events) <==> AllSerial(w, events)
    ensures AllSerial(w, events) ==> Sound(y) && (y.calls == map[] ==> Alive(y.st.log) == y.st.programs)
    decreases |events|
  {
    hide Next, Serial, Sound;
    if events == [] {
      if y.calls == map[] { NothingUnderWay(y); }
    } else {
      StepIsSoundIff(w, events[0]);
      if Serial(w, events[0]) {
        EveryRunIsSoundIff(Next(w, events[0]), events[1..], y);
      }
    }
  }

  lemma NothingUnderWay(w: World)
    requires Sound(w) && w.calls == map[]
    ensures Alive(w.st.log) == w.st.programs
  {
    hide Alive;
    assert forall k :: Idle(w, k);
  }

  /** Every breach of the guard can end in a collision: the calls only have to go on. */
  lemma BreachCollides(w: World, e: Event)
    requires Sound(w) && Possible(w, e) && !Serial(w, e)
    ensures exists events, y :: Run(Next(w, e), events, y) && !NeverCollides(y.st.log)
  {
    hide Alive, NeverCollides;
    var c :| c in w.calls && w.calls[c].seid == e.seid;
    var x := Next(w, e);
    OverlapCollides(w, c, e.call, e.wanted.value);
    if w.calls[c].ready {
      var y := Next(x, Prepare(e.call));
      assert Run(y, [], y);
      RunFirst(x, Prepare(e.call), [], y);
    } else {
      var z := Next(x, Prepare(c));
      var y := Next(z, Prepare(e.call));
      assert Run(y, [], y);
      RunFirst(z, Prepare(e.call), [], y);
      RunFirst(x, Prepare(c), [Prepare(e.call)] + [], y);
    }
  }

  lemma RunFirst(w: World, e: Event, rest: seq<Event>, y: World)
    requires Possible(w, e) && Run(Next(w, e), rest, y)
    ensures Run(w, [e] + rest, y)
  {
    assert ([e] + rest)[1..] == rest;
  }

  /** When two calls of a session overlap, each with a program to set up, and no section of a third
      comes between, the later set-up meets the program of the earlier. */
  lemma OverlapCollides(w: World, c: nat, d: nat, program: Program)
    requires Sound(w) && c in w.calls && d !in w.calls
    ensures var x := Next(w, Enter(d, w.calls[c].seid, Some(program)));
      if w.calls[c].ready then !NeverCollides(Next(x, Prepare(d)).st.log)
      else !NeverCollides(Next(Next(x, Prepare(c)), Prepare(d)).st.log) && !NeverCollides(Next(Next(x, Prepare(d)), Prepare(c)).st.log)
  {
    hide Alive, NeverCollides;
    var call := w.calls[c];
    var x := Next(w, Enter(d, call.seid, Some(program)));
    assert x.st == w.st;
    if call.ready {
      Collides(w.st.log, SetUp(call.seid, program));
    } else {
      Twice(w.st.log, SetUp(call.seid, call.program), SetUp(call.seid, program));
      Twice(w.st.log, SetUp(call.seid, program), SetUp(call.seid, call.program));
    }
  }

  lemma Collides(log: seq<Op>, op: Op)
    requires !Fits(Alive(log), op)
    ensures !NeverCollides(log + [op])
  {
    var more := log + [op];
    assert more[..|log|] == log && more[|log|] == op;
  }

  lemma Twice(log: seq<Op>, first: Op, second: Op)
    requires first.SetUp? && second.SetUp? && first.seid == second.seid
    ensures !NeverCollides(log + [first] + [second])
  {
    var more := log + [first];
    assert more[..|more| - 1] == log && more[|more| - 1] == first;
    Collides(more, second);
  }

  const Start := World(Tracked(map[], []), map[])

  /** A removal between the two set-ups can avert the collision. */
  lemma RemovalBetween(seid: nat, p: Program, q: Program)
    ensures var w := Next(Next(Start, Enter(0, seid, Some(p))), Enter(1, seid, Some(q)));
            var x := Next(Next(Next(w, Prepare(0)), Leave(0)), Remove(seid));
            var y := Next(Next(x, Prepare(1)), Leave(1));
      !Serial(Next(Start, Enter(0, seid, Some(p))), Enter(1, seid, Some(q))) && Sound(Start)
      && NeverCollides(y.st.log) && y.st.programs == map[seid := q] == Alive(y.st.log)
  {
    hide NeverCollides, Alive;
    StartIsSound();
    var w := Next(Start, Enter(0, seid, Some(p)));
    assert w.calls[0].seid == seid;
    var l1 := Start.st.log + [SetUp(seid, p)];
    var l2 := l1 + [TornDown(seid, p)];
    Logged(Start.st.log, SetUp(seid, p));
    Logged(l1, TornDown(seid, p));
    Logged(l2, SetUp(seid, q));
    var x := Next(Next(Next(Next(w, Enter(1, seid, Some(q))), Prepare(0)), Leave(0)), Remove(seid));
    assert x.st == Tracked(map[], l2) && x.calls == map[1 := Call(seid, q, false)];
  }

  lemma StartIsSound()
    ensures Sound(Start) && NeverCollides(Start.st.log) && Alive(Start.st.log) == map[]
  {}

  /** The session is left without a program: by a removal, or by a call with nothing to set up. */
  predicate Clears(e: Event, seid: nat) {
    e == Remove(seid) || (e.Enter? && e.seid == seid && e.wanted.None?)
  }

  predicate NoneEnters(events: seq<Event>, seid: nat) {
    forall i :: 0 <= i < |events| && events[i].Enter? ==> events[i].seid != seid
  }

  /** A session that has been left without a program can have one again, though no call of it enters
      any more, exactly when a call of it was between its sections. */
  lemma ComesBackIff(w: World, e: Event, seid: nat)
    requires Sound(w) && Possible(w, e) && Clears(e, seid)
    ensures (exists events, y :: Run(Next(w, e), events, y) && NoneEnters(events, seid) && seid in y.st.programs) <==> !Idle(w, seid)
  {
    hide Sound, NoneEnters;
    var x := Next(w, e);
    if Idle(w, seid) {
      forall events, y | Run(x, events, y) && NoneEnters(events, seid) ensures seid !in y.st.programs {
        StaysGone(x, events, y, seid);
      }
    } else {
      var c :| c in w.calls && w.calls[c].seid == seid;
      GoesOn(x, c);
    }
  }

  lemma {:induction false} StaysGone(w: World, events: seq<Event>, y: World, seid: nat)
    requires Run(w, events, y) && NoneEnters(events, seid) && Idle(w, seid) && seid !in w.st.programs
    ensures seid !in y.st.programs
    decreases |events|
  {
    if events != [] {
      var x := Next(w, events[0]);
      assert Idle(x, seid) && seid !in x.st.programs;
      StaysGone(x, events[1..], y, seid);
    }
  }

  lemma GoesOn(w: World, c: nat)
    requires c in w.calls
    ensures exists events, y :: Run(w, events, y) && NoneEnters(events, w.calls[c].seid) && w.calls[c].seid in y.st.programs
  {
    var x := if w.calls[c].ready then w else Next(w, Prepare(c));
    var y := Next(x, Leave(c));
    assert Run(y, [], y);
    RunFirst(x, Leave(c), [], y);
    if w.calls[c].ready {
      assert NoneEnters([Leave(c)] + [], w.calls[c].seid);
    } else {
      RunFirst(w, Prepare(c), [Leave(c)] + [], y);
      assert NoneEnters([Prepare(c)] + ([Leave(c)] + []), w.calls[c].seid);
    }
  }

  /** Such a run: the removed session keeps its program. */
  lemma RemovedComesBack(seid: nat, p: Program)
    ensures var w := Next(Next(Start, Enter(0, seid, Some(p))), Remove(seid));
      Next(Next(w, Prepare(0)), Leave(0)).st.programs == map[seid := p]
  {}

  // ---------------------------------------------------------------- the methods

  class EnforcementPrograms {
    var qerPrograms: map<nat, Program>
    ghost var log: seq<Op>

    ghost function State(): Tracked
      reads this
    {
      Tracked(qerPrograms, log)
    }

    /** No call is between its sections. */
    ghost predicate Valid()
      reads this
    {
      NeverCollides(log) && Alive(log) == qerPrograms
    }

    constructor ()
      ensures Valid() && qerPrograms == map[]
    {
      qerPrograms, log := map[], [];
    }

    /** Tears down what is there even if nothing new is set up. */
    method SetupSessionEnforcementPrograms(seid: nat, flags: RulesEnabled, qersDownlink: seq<Qer>, pdrsDownlink: seq<Pdr>)
      requires Valid()
      modifies this
      ensures Valid()
      ensures qerPrograms == if flags.qer && qersDownlink != [] then old(qerPrograms)[seid := Program(qersDownlink, pdrsDownlink)]
                             else old(qerPrograms) - {seid}
      ensures var cleared := Cleared(old(State()), seid);
              var program := Program(qersDownlink, pdrsDownlink);
        State() == if flags.qer && qersDownlink != [] then Stored(SetUpIn(cleared, seid, program), seid, program) else cleared
    {
      TearDown(seid);
      if flags.qer && qersDownlink != [] {
        var program := Program(qersDownlink, pdrsDownlink);
        Logged(log, SetUp(seid, program));
        log := log + [SetUp(seid, program)];
        qerPrograms := qerPrograms[seid := program];
      }
    }

    method TearDown(seid: nat)
      requires Valid()
      modifies this
      ensures Valid() && qerPrograms == old(qerPrograms) - {seid} && State() == Cleared(old(State()), seid)
    {
      if seid in qerPrograms {
        Logged(log, TornDown(seid, qerPrograms[seid]));
        log := log + [TornDown(seid, qerPrograms[seid])];
        qerPrograms := qerPrograms - {seid};
      } else {
        assert qerPrograms - {seid} == qerPrograms;
      }
    }

    method RemoveSession(seid: nat)
      requires Valid()
      modifies this
      ensures Valid() && qerPrograms == old(qerPrograms) - {seid} && State() == Cleared(old(State()), seid)
    {
      TearDown(seid);
    }

    method RemoveAllSessions()
      requires Valid()
      modifies this
      ensures Valid() && qerPrograms == map[] && old(log) <= log
    {
      while qerPrograms != map[]
        invariant Valid() && old(log) <= log
        decreases |qerPrograms|
      {
        var seid :| seid in qerPrograms;
        ghost var was := qerPrograms;
        TearDown(seid);
        assert was.Keys == qerPrograms.Keys + {seid} && |was.Keys| == |qerPrograms.Keys| + 1;
      }
    }
  }

  /** A stage is enabled when the configuration has it and some rule of the session asks for it. */
  method ComputeRulesEnabledFlags(s: Session, config: RulesEnabled) returns (flags: RulesEnabled)
    ensures flags.qer <==> config.qer && exists i :: 0 <= i < |s.pdrs| && s.pdrs[i].qerId.Some?
    ensures flags.urr <==> config.urr && exists i :: 0 <= i < |s.pdrs| && s.pdrs[i].urrId.Some?
    ensures flags.bar <==> config.bar && exists i :: 0 <= i < |s.fars| && s.fars[i].barId.Some?
    ensures flags.mar <==> config.mar && exists i :: 0 <= i < |s.pdrs| && s.pdrs[i].marId.Some?
  {
    var qer := AnyHas(s.pdrs, (p: Pdr) => p.qerId);
    var urr := AnyHas(s.pdrs, (p: Pdr) => p.urrId);
    var bar := AnyHas(s.fars, (f: Far) => f.barId);
    var mar := AnyHas(s.pdrs, (p: Pdr) => p.marId);
    flags := RulesEnabled(qer, urr, bar, mar);
    if !config.qer { flags := flags.(qer := false); }
    if !config.urr { flags := flags.(urr := false); }
    if !config.bar { flags := flags.(bar := false); }
    if !config.mar { flags := flags.(mar := false); }
  }

  method AnyHas<T>(rules: seq<T>, idOf: T -> Option<nat>) returns (any: bool)
    ensures any <==> exists i :: 0 <= i < |rules| && idOf(rules[i]).Some?
  {
    for i := 0 to |rules|
      invariant forall k :: 0 <= k < i ==> idOf(rules[k]).None?
    {
      if idOf(rules[i]).Some? { return true; }
    }
    any := false;
  }
}
