/** Derived lists that go wrong, and stay wrong. */
module StaleLists {
  import opened OnesComplement
  import opened Options
  import opened PfcpRules
  import opened RuleLists
  import opened SharedRules
  import opened SessionLists
  import opened SessionProgramManager
  import opened SessionManager
  import R = RuleIndex
  import M = SessionModification

  const OnlyFar := Far(1, None, 0, 0)
  const NoPdi := Pdi(None, None, None, None, None)

  /** Moves PDR 1 to the downlink. */
  const Mover := M.Request([M.PdrUpdate(Some(1), None, Some(NoPdi.(source := Some(Core))), None, None, None)], [], [], [], None, [], [], [], [], [], None)
  const Moved := M.AccessPdr(1, 1).(pdi := Some(NoPdi.(source := Some(Core))))

  /** m has one session, s, of one PDR object, which it lists as uplink. */
  ghost predicate Listed(m: SessionManager, s: PfcpSession, pdr: PdrObject)
    reads m, m.program, s, s.fars
  {
    && m.Valid() && m.seidToSession == map[5 := s] && s.seid == 5 && s.pdrs == [pdr] && pdr in s.pdrsUplink
    && Values(s.fars) == [OnlyFar]
  }

  /** A copy without FARs shares a PDR with the registered session. Its modification moves the PDR
      to the downlink and throws. The registered session still lists it as uplink, and goes on
      doing so after RemovePdr has returned normally. */
  method RemovePdrKeepsStaleLists() returns (modified: bool, removed: bool, s: PfcpSession)
    ensures !modified && removed && s.Sorted() && !s.Derived()
  {
    hide *;
    var m, pdr;
    m, s, pdr := Establish();
    modified := Move(m, s, pdr);
    Stale(m, s, pdr);
    removed := m.RemovePdr(5, 2);
    BareIsRules(s);
    StillResolves(s.Rules(), s.Value());
  }

  lemma Stale(m: SessionManager, s: PfcpSession, pdr: PdrObject)
    requires Listed(m, s, pdr) && pdr.value == Moved
    ensures m.Valid() && m.seidToSession == map[5 := s] && !s.DerivedBut(2)
    ensures M.After(s.Rules(), M.Remove(M.PdrKind, 2)).pdrs == [Moved] && M.After(s.Rules(), M.Remove(M.PdrKind, 2)).fars == [OnlyFar]
  {
    hide SessionManager.Valid;
    assert !ListedBut(s.pdrsUplink, s.pdrs, Access, 2) by {
      assert pdr in s.pdrsUplink + s.pdrs;
    }
    assert Values(s.pdrs) == [Moved];
    assert Without(PdrId, [Moved], 2) == [Moved];
  }

  lemma StillResolves(b: Session, s: Session)
    requires M.Bare(s) == b && b.pdrs == [Moved] && b.fars == [OnlyFar]
    ensures R.ModifyReturns(s)
  {}

  /** The session is established, and its one PDR is listed as uplink. */
  method Establish() returns (m: SessionManager, s: PfcpSession, pdr: PdrObject)
    ensures Listed(m, s, pdr) && pdr.value == M.AccessPdr(1, 1)
    ensures fresh(m) && fresh(m.program) && fresh(s) && fresh(pdr)
  {
    hide *;
    var program := new SessionProgramManager();
    m := new SessionManager(program);
    pdr := new Shared<Pdr, ()>(M.AccessPdr(1, 1));
    var far := new Shared<Far, ()>(OnlyFar);
    s := new PfcpSession(5);
    s.pdrs, s.fars := [pdr], [far];
    var _ := m.CreateSession(s);
    IsListed(m, s, pdr, far);
  }

  lemma IsListed(m: SessionManager, s: PfcpSession, pdr: PdrObject, far: Shared<Far, ()>)
    requires m.Valid() && m.seidToSession == map[][5 := s] && s.seid == 5 && s.Derived()
    requires s.pdrs == [pdr] && s.fars == [far] && pdr.value == M.AccessPdr(1, 1) && far.value == OnlyFar
    ensures Listed(m, s, pdr)
  {
    hide SessionManager.Valid, From;
    FromCount(s.pdrs, Access, pdr);
    assert pdr in multiset(s.pdrsUplink);
  }

  /** The modification through the copy throws, and leaves the registered lists as they were. */
  method Move(m: SessionManager, s: PfcpSession, pdr: PdrObject) returns (ok: bool)
    requires Listed(m, s, pdr) && pdr.value == M.AccessPdr(1, 1)
    modifies m, m.program, pdr, s
    ensures !ok && Listed(m, s, pdr) && pdr.value == Moved
  {
    hide *;
    var copy := new PfcpSession(5);
    IsBlank(copy);
    copy.pdrs := [pdr];
    CopyFound(m, s, pdr, copy);
    ghost var f, was, bySeid := m.Found(copy), m.calls, m.seidToSession;
    ok := m.ModifySession(copy, Mover);
    MoverThrew(f, copy, bySeid, was, m.calls, ok);
    StillListed(m, s, pdr, copy);
  }

  lemma IsBlank(s: PfcpSession)
    requires s.Value() == Session(5, [], [], [], [], [], [], [], [])
    ensures s.seid == 5 && s.pdrs == [] && s.fars == [] && s.qers == [] && s.urrs == [] && s.bars == [] && s.mars == []
  {}

  const Uplink := Session(5, [M.AccessPdr(1, 1)], [], [], [], [], [], [], [])

  lemma CopyFound(m: SessionManager, s: PfcpSession, pdr: PdrObject, copy: PfcpSession)
    requires Listed(m, s, pdr) && pdr.value == M.AccessPdr(1, 1) && copy != s
    requires copy.seid == 5 && copy.pdrs == [pdr] && copy.fars == [] && copy.qers == [] && copy.urrs == [] && copy.bars == [] && copy.mars == []
    ensures m.Valid() && m.seidToSession == map[5 := s] && copy.Whole() && m.Found(copy).Both? && m.Found(copy).b == Uplink
    ensures s.seid == 5 && s.pdrs == [pdr] && pdr in s.pdrsUplink && Values(s.fars) == [OnlyFar]
  {
    hide SessionManager.Valid, Share;
    assert Values(copy.pdrs) == [M.AccessPdr(1, 1)];
  }

  lemma StillListed(m: SessionManager, s: PfcpSession, pdr: PdrObject, copy: PfcpSession)
    requires m.Valid() && m.seidToSession == map[5 := s] && s.seid == 5 && s.pdrs == [pdr] && pdr in s.pdrsUplink && Values(s.fars) == [OnlyFar]
    requires copy.pdrs == [pdr] && copy.Rules().pdrs == [Moved]
    ensures Listed(m, s, pdr) && pdr.value == Moved
  {
    hide SessionManager.Valid;
    assert Values(copy.pdrs)[0] == pdr.value;
  }

  lemma MoverThrew(f: Situation, copy: PfcpSession, bySeid: map<nat, PfcpSession>, was: seq<R.Call>, calls: seq<R.Call>, ok: bool)
    requires f.Both? && f.b == Uplink && Modified(f, Mover, copy.Value(), was, calls, ok)
    ensures !ok && Registered(f, Mover, copy, bySeid) == bySeid && copy.Rules().pdrs == [Moved]
  {
    hide M.Trace, M.AfterAll, M.Taken, M.Updates, M.Bare, M.AllReturn, Called, PfcpSession.Value, PfcpSession.Rules;
    MoverThrows();
    BareIsRules(copy);
  }

  /** The first update leaves the PDR without a FAR. */
  lemma MoverThrows()
    ensures !UpdatesReturn(Uplink, Mover)
    ensures M.AfterAll(Uplink, M.Updates(Mover)[..M.Taken(Uplink, M.Updates(Mover))]).pdrs == [Moved]
  {
    hide M.Trace, M.AfterAll, M.Taken, M.AllReturn, M.After, M.CallsPipeline, M.LaterUpdates;
    var first, later := [M.UpdatePdrs(Mover.updatePdrs)], M.LaterUpdates(Mover);
    FirstThrows(first[0]);
    M.OnlyStep(Uplink, first[0]);
    M.TraceSplit(Uplink, first, later);
    M.TakenSplit(Uplink, first, later);
    M.OneTaken(Uplink, first[0]);
    M.AllReturnConcat(M.Trace(Uplink, first), M.Trace(M.AfterAll(Uplink, first), later));
    assert (first + later)[..1] == first;
  }

  lemma FirstThrows(step: M.Step)
    requires step == M.UpdatePdrs(Mover.updatePdrs)
    ensures M.After(Uplink, step).pdrs == [Moved] && !M.AllReturn(M.Passed(Uplink, step))
  {
    var us, pdrs := Mover.updatePdrs, Uplink.pdrs;
    assert us[..0] == [] && Updated(M.Pdrs, pdrs, []) == pdrs && At(PdrId, pdrs, Some(1)) == 0;
    assert Names(M.Pdrs, pdrs, us[0]);
    var t := M.After(Uplink, step);
    assert FarOf(t.fars, t.pdrs[0]) == None;
    assert M.Passed(Uplink, step)[0] == t;
  }
}
