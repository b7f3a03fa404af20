/** The session manager: the registry of sessions, their derived lists, and the pipeline calls
    every N4 request leads to. */
module SessionManager {
  import opened OnesComplement
  import opened Options
  import opened PfcpRules
  import opened RuleLists
  import opened SharedRules
  import opened SessionLists
  import opened SessionProgramManager
  import R = RuleIndex
  import M = SessionModification

  datatype UrrTag = UrrTag
  datatype BarTag = BarTag
  datatype MarTag = MarTag

  class PfcpSession {
    const seid: nat
    var pdrs: seq<PdrObject>
    var pdrsUplink: seq<PdrObject>
    var pdrsDownlink: seq<PdrObject>
    var fars: seq<Shared<Far, ()>>
    var qers: seq<QerObject>
    var qersUplink: seq<QerObject>
    var qersDownlink: seq<QerObject>
    var urrs: seq<Shared<Rule, UrrTag>>
    var bars: seq<Shared<Rule, BarTag>>
    var mars: seq<Shared<Rule, MarTag>>

    /** The rules of the session, as they are now; derived lists aside. */
    function Rules(): Session
      reads this`pdrs, this`fars, this`qers, this`urrs, this`bars, this`mars, pdrs, fars, qers, urrs, bars, mars
    {
      Session(seid, Values(pdrs), [], [], Values(fars), Values(qers), Values(urrs), Values(bars), Values(mars))
    }

    function Value(): Session
      reads this`pdrs, this`fars, this`qers, this`urrs, this`bars, this`mars, pdrs, fars, qers, urrs, bars, mars
      reads this`pdrsUplink, this`pdrsDownlink, pdrsUplink, pdrsDownlink
    {
      Rules().(pdrsUplink := Values(pdrsUplink), pdrsDownlink := Values(pdrsDownlink))
    }

    /** No rule object stands twice in a list. */
    ghost predicate Whole()
      reads this
    {
      Once(pdrs) && Once(fars) && Once(qers) && Once(urrs) && Once(bars) && Once(mars)
    }

    /** The derived lists hold the PDR objects of their interface, in whatever order. */
    ghost predicate Derived()
      reads this`pdrs, this`pdrsUplink, this`pdrsDownlink, pdrs
    {
      multiset(pdrsUplink) == multiset(From(pdrs, Access)) && multiset(pdrsDownlink) == multiset(From(pdrs, Core))
    }

    /** The same, PDRs called id aside. */
    ghost predicate DerivedBut(id: nat)
      reads this`pdrs, this`pdrsUplink, this`pdrsDownlink, pdrs, pdrsUplink, pdrsDownlink
    {
      ListedBut(pdrsUplink, pdrs, Access, id) && ListedBut(pdrsDownlink, pdrs, Core, id)
    }

    ghost predicate Sorted()
      reads this`pdrsUplink, this`pdrsDownlink, pdrsUplink, pdrsDownlink
    {
      ByPrecedence(Values(pdrsUplink)) && ByPrecedence(Values(pdrsDownlink))
    }

    constructor (seid: nat)
      ensures this.seid == seid && Value() == Session(seid, [], [], [], [], [], [], [], []) && Whole()
    {
      this.seid := seid;
      pdrs, pdrsUplink, pdrsDownlink, fars, qers, qersUplink, qersDownlink := [], [], [], [], [], [], [];
      urrs, bars, mars := [], [], [];
    }
  }

  /** Where the rule objects of r stand in s. */
  ghost function SharingOf(r: PfcpSession, s: PfcpSession): M.Sharing
    reads r`pdrs, r`fars, r`qers, r`urrs, r`bars, r`mars, s`pdrs, s`fars, s`qers, s`urrs, s`bars, s`mars
  {
    M.Sharing(Share(r.pdrs, s.pdrs), Share(r.fars, s.fars), Share(r.qers, s.qers), Share(r.urrs, s.urrs), Share(r.bars, s.bars), Share(r.mars, s.mars))
  }

  lemma BareIsRules(s: PfcpSession)
    ensures M.Bare(s.Value()) == s.Rules() && s.Value().seid == s.seid
  {}

  /** A session's lists are right once they are derived and sorted. */
  lemma DerivedAndSorted(s: PfcpSession)
    requires s.Derived()
    ensures s.Sorted() <==> ListsRight(s.Value())
  {
    hide ByPrecedence, From, FromSource;
    FromValues(s.pdrs, Access);
    FromValues(s.pdrs, Core);
    SameObjects(s.pdrsUplink, From(s.pdrs, Access));
    SameObjects(s.pdrsDownlink, From(s.pdrs, Core));
  }

  // ---------------------------------------------------------------- the log of pipeline calls

  /** A session is created only while it is not alive. */
  ghost predicate CreatesFresh(calls: seq<R.Call>) {
    forall n :: 0 <= n < |calls| && calls[n].CallCreate? ==> R.SeidOf(calls[n]) !in R.LiveOf(calls[..n])
  }

  lemma LoggedCreate(calls: seq<R.Call>, s: Session)
    requires s.seid !in R.LiveOf(calls) && CreatesFresh(calls)
    ensures R.IndexAfter(calls + [R.CallCreate(s)]) == R.After(R.IndexAfter(calls), R.CallCreate(s))
    ensures R.LiveOf(calls + [R.CallCreate(s)]).Keys == R.LiveOf(calls).Keys + {s.seid} && CreatesFresh(calls + [R.CallCreate(s)])
  {
    hide R.After;
    Logged(calls, R.CallCreate(s));
  }

  lemma LoggedRemove(calls: seq<R.Call>, seid: nat)
    requires CreatesFresh(calls)
    ensures R.IndexAfter(calls + [R.CallRemove(seid)]) == R.Remove(R.IndexAfter(calls), seid)
    ensures R.LiveOf(calls + [R.CallRemove(seid)]).Keys == R.LiveOf(calls).Keys - {seid} && CreatesFresh(calls + [R.CallRemove(seid)])
  {
    hide R.Remove;
    Logged(calls, R.CallRemove(seid));
  }

  lemma Logged(calls: seq<R.Call>, c: R.Call)
    ensures R.IndexAfter(calls + [c]) == R.After(R.IndexAfter(calls), c)
    ensures R.LiveOf(calls + [c]) == R.LiveAfter(R.LiveOf(calls), c)
    ensures CreatesFresh(calls + [c]) <==> CreatesFresh(calls) && (c.CallCreate? ==> R.SeidOf(c) !in R.LiveOf(calls))
  {
    hide R.After, R.LiveAfter;
    var more := calls + [c];
    assert more[..|calls|] == calls && more[|calls|] == c;
    forall n | 0 <= n < |calls| ensures more[n] == calls[n] && more[..n] == calls[..n] {}
  }

  /** calls is was, followed by modifications with the sessions ts, derived lists aside. */
  ghost predicate Called(was: seq<R.Call>, calls: seq<R.Call>, ts: seq<Session>) {
    && |calls| == |was| + |ts| && was == calls[..|was|]
    && forall k :: 0 <= k < |ts| ==> ModifiedWith(calls[|was| + k], ts[k])
  }

  ghost predicate ModifiedWith(c: R.Call, t: Session) {
    c.CallModify? && M.Bare(c.s) == t
  }

  lemma CalledThen(a: seq<R.Call>, b: seq<R.Call>, c: seq<R.Call>, ts: seq<Session>, us: seq<Session>)
    requires Called(a, b, ts) && Called(b, c, us)
    ensures Called(a, c, ts + us)
  {
    hide ModifiedWith;
    assert c[..|b|] == b && c[..|b|][..|a|] == c[..|a|];
    forall k | 0 <= k < |ts + us| ensures ModifiedWith(c[|a| + k], (ts + us)[k]) {
      if k < |ts| {
        assert ModifiedWith(b[|a| + k], ts[k]) && c[..|b|][|a| + k] == c[|a| + k];
      } else {
        assert ModifiedWith(c[|b| + (k - |ts|)], us[k - |ts|]);
      }
    }
  }

  /** The vector and the map hold the same SEIDs, each once. */
  ghost predicate Registry(sessions: seq<PfcpSession>, bySeid: map<nat, PfcpSession>) {
    && (forall i :: 0 <= i < |sessions| ==> sessions[i].seid in bySeid)
    && (forall k :: k in bySeid ==> bySeid[k].seid == k && exists i :: 0 <= i < |sessions| && sessions[i].seid == k)
    && Distinct(sessions)
  }

  function WithoutSeid(sessions: seq<PfcpSession>, seid: nat): (r: seq<PfcpSession>)
    ensures forall i :: 0 <= i < |r| ==> r[i] in sessions && r[i].seid != seid
    ensures forall i :: 0 <= i < |sessions| && sessions[i].seid != seid ==> sessions[i] in r
  {
    if sessions == [] then [] else (if sessions[0].seid == seid then [] else [sessions[0]]) + WithoutSeid(sessions[1..], seid)
  }

  predicate Distinct(sessions: seq<PfcpSession>) {
    forall i, j :: 0 <= i < j < |sessions| ==> sessions[i].seid != sessions[j].seid
  }

  lemma DistinctFirst(x: PfcpSession, rest: seq<PfcpSession>)
    ensures Distinct([x] + rest) <==> Distinct(rest) && forall i :: 0 <= i < |rest| ==> x.seid != rest[i].seid
  {
    var xs := [x] + rest;
    assert forall i :: 0 <= i < |rest| ==> xs[i + 1] == rest[i];
    if Distinct(xs) {
      forall i | 0 <= i < |rest| ensures x.seid != rest[i].seid {
        assert xs[0].seid != xs[i + 1].seid;
      }
      forall i, j | 0 <= i < j < |rest| ensures rest[i].seid != rest[j].seid {
        assert xs[i + 1].seid != xs[j + 1].seid;
      }
    }
  }

  lemma {:induction false} WithoutSeidDistinct(sessions: seq<PfcpSession>, seid: nat)
    requires Distinct(sessions)
    ensures Distinct(WithoutSeid(sessions, seid))
  {
    hide Distinct;
    if sessions == [] {
      assert WithoutSeid(sessions, seid) == sessions;
    } else {
      var first, others := sessions[0], sessions[1..];
      assert sessions == [first] + others;
      DistinctFirst(first, others);
      WithoutSeidDistinct(others, seid);
      var rest := WithoutSeid(others, seid);
      if first.seid == seid {
        assert WithoutSeid(sessions, seid) == rest;
      } else {
        forall i | 0 <= i < |rest| ensures first.seid != rest[i].seid {
          assert rest[i] in others;
        }
        DistinctFirst(first, rest);
      }
    }
  }

  lemma Replaced(sessions: seq<PfcpSession>, bySeid: map<nat, PfcpSession>, s: PfcpSession)
    requires Registry(sessions, bySeid) && s.seid in bySeid
    ensures Registry(sessions, bySeid[s.seid := s])
  {}

  lemma Added(sessions: seq<PfcpSession>, bySeid: map<nat, PfcpSession>, s: PfcpSession)
    requires Registry(sessions, bySeid) && s.seid !in bySeid
    ensures Registry(sessions + [s], bySeid[s.seid := s])
  {
    var m := bySeid[s.seid := s];
    forall k | k in m ensures m[k].seid == k && exists i :: 0 <= i < |sessions + [s]| && (sessions + [s])[i].seid == k {
      if k == s.seid {
        assert (sessions + [s])[|sessions|].seid == k;
      } else {
        var i :| 0 <= i < |sessions| && sessions[i].seid == k;
        assert (sessions + [s])[i].seid == k;
      }
    }
  }

  lemma Deleted(sessions: seq<PfcpSession>, bySeid: map<nat, PfcpSession>, seid: nat)
    requires Registry(sessions, bySeid)
    ensures Registry(WithoutSeid(sessions, seid), bySeid - {seid})
  {
    var r := WithoutSeid(sessions, seid);
    WithoutSeidDistinct(sessions, seid);
    forall i | 0 <= i < |r| ensures r[i].seid in bySeid - {seid} {
      assert r[i] in sessions;
    }
    forall k | k in bySeid - {seid} ensures exists i :: 0 <= i < |r| && r[i].seid == k {
      var i :| 0 <= i < |sessions| && sessions[i].seid == k;
      assert sessions[i] in r;
      var j :| 0 <= j < |r| && r[j] == sessions[i];
    }
  }

  /** The vector's SEIDs are the map's keys. */
  lemma SameSeids(sessions: seq<PfcpSession>, bySeid: map<nat, PfcpSession>)
    requires Registry(sessions, bySeid)
    ensures bySeid.Keys == (set s | s in sessions :: s.seid) && |sessions| == |bySeid|
  {
    var seids := set s | s in sessions :: s.seid;
    forall k ensures k in bySeid.Keys <==> k in seids {
      if k in bySeid {
        var i :| 0 <= i < |sessions| && sessions[i].seid == k;
        assert sessions[i] in sessions;
      }
    }
    Count(sessions);
    assert |bySeid.Keys| == |bySeid|;
  }

  lemma {:induction false} Count(sessions: seq<PfcpSession>)
    requires Distinct(sessions)
    ensures |(set s | s in sessions :: s.seid)| == |sessions|
  {
    if sessions != [] {
      var rest := sessions[1..];
      Count(rest);
      var seids := set s | s in rest :: s.seid;
      assert forall s :: s in sessions <==> s == sessions[0] || s in rest;
      assert (set s | s in sessions :: s.seid) == seids + {sessions[0].seid};
    }
  }

  class SessionManager {
    var sessions: seq<PfcpSession>
    var seidToSession: map<nat, PfcpSession>
    const program: SessionProgramManager
    ghost var calls: seq<R.Call>

    /** The index is what the calls made of it, those that threw included, and the sessions alive are the registered ones. */
    ghost predicate Traced()
      reads this`calls, this`seidToSession, program
    {
      program.IndexState() == R.IndexAfter(calls) && R.LiveOf(calls).Keys == seidToSession.Keys && CreatesFresh(calls)
    }

    ghost predicate Valid()
      reads this, program
    {
      Traced() && Registry(sessions, seidToSession)
    }

    /** Every registered session has its lists derived. */
    ghost predicate Settled()
      reads *
    {
      forall k :: k in seidToSession ==> seidToSession[k].Derived()
    }

    constructor (program: SessionProgramManager)
      requires program.IndexState() == R.Empty
      ensures Valid() && Settled() && this.program == program && sessions == [] && seidToSession == map[] && calls == []
    {
      this.program := program;
      sessions, seidToSession, calls := [], map[], [];
    }

    method ModifyPipeline(session: PfcpSession) returns (ok: bool)
      requires Valid() && session.seid in seidToSession
      modifies `calls, program
      ensures Valid() && calls == old(calls) + [R.CallModify(session.Value())]
      ensures ok <==> R.ModifyReturns(session.Value())
    {
      hide R.After, R.ModifyReturns, CreatesFresh, Registry, PfcpSession.Value, PfcpSession.Rules;
      BareIsRules(session);
      var s := session.Value();
      ok := program.ModifyPipeline(s);
      calls := calls + [R.CallModify(s)];
      Logged(old(calls), R.CallModify(s));
    }

    method CategorizePdrs(session: PfcpSession)
      modifies session`pdrsUplink, session`pdrsDownlink, session`qersUplink, session`qersDownlink
      ensures session.pdrsUplink == From(session.pdrs, Access) && session.pdrsDownlink == From(session.pdrs, Core)
      ensures session.qersUplink == QersFrom(session.pdrs, session.qers, Access)
      ensures session.qersDownlink == QersFrom(session.pdrs, session.qers, Core)
    {
      hide *;
      session.pdrsUplink, session.pdrsDownlink := [], [];
      session.qersUplink, session.qersDownlink := [], [];
      FromNone();
      for i := 0 to |session.pdrs|
        invariant session.pdrsUplink == From(session.pdrs[..i], Access)
        invariant session.pdrsDownlink == From(session.pdrs[..i], Core)
        invariant session.qersUplink == QersFrom(session.pdrs[..i], session.qers, Access)
        invariant session.qersDownlink == QersFrom(session.pdrs[..i], session.qers, Core)
      {
        var pdr := session.pdrs[i];
        FromMore(session.pdrs, session.qers, i);
        var source := SourceOf(pdr.value);
        if source.None? { continue; }
        var qer := QerOfObject(session.qers, pdr.value);
        match source.value {
          case Access =>
            session.pdrsUplink := session.pdrsUplink + [pdr];
            session.qersUplink := session.qersUplink + qer;
          case Core =>
            session.pdrsDownlink := session.pdrsDownlink + [pdr];
            session.qersDownlink := session.qersDownlink + qer;
          case OtherInterface(_) =>
        }
      }
      assert session.pdrs[..|session.pdrs|] == session.pdrs;
    }

    method CategorizeAndSort(session: PfcpSession)
      modifies session`pdrsUplink, session`pdrsDownlink, session`qersUplink, session`qersDownlink
      ensures session.Derived() && session.Sorted() && ListsRight(session.Value())
    {
      hide *;
      CategorizePdrs(session);
      AreDerived(session);
      var uplink, downlink := SortBoth(session.pdrsUplink, session.pdrsDownlink);
      session.pdrsUplink, session.pdrsDownlink := uplink, downlink;
      AreSorted(session, multiset(uplink), multiset(downlink));
      DerivedAndSorted(session);
    }

    lemma AreDerived(session: PfcpSession)
      requires session.pdrsUplink == From(session.pdrs, Access) && session.pdrsDownlink == From(session.pdrs, Core)
      ensures ListsAre(session, multiset(session.pdrsUplink), multiset(session.pdrsDownlink))
    {}

    /** The derived lists should hold the objects of uplink and downlink. */
    ghost predicate ListsAre(session: PfcpSession, uplink: multiset<PdrObject>, downlink: multiset<PdrObject>)
      reads session`pdrs, session.pdrs
    {
      uplink == multiset(From(session.pdrs, Access)) && downlink == multiset(From(session.pdrs, Core))
    }

    lemma AreSorted(session: PfcpSession, uplink: multiset<PdrObject>, downlink: multiset<PdrObject>)
      requires multiset(session.pdrsUplink) == uplink && multiset(session.pdrsDownlink) == downlink
      requires ByPrecedence(Values(session.pdrsUplink)) && ByPrecedence(Values(session.pdrsDownlink))
      ensures session.Sorted() && (session.Derived() <==> ListsAre(session, uplink, downlink))
    {}

    method SortBoth(uplink: seq<PdrObject>, downlink: seq<PdrObject>) returns (u: seq<PdrObject>, d: seq<PdrObject>)
      ensures multiset(u) == multiset(uplink) && ByPrecedence(Values(u))
      ensures multiset(d) == multiset(downlink) && ByPrecedence(Values(d))
    {
      hide *;
      u := SortPdrs(uplink);
      d := SortPdrs(downlink);
    }

    /** Establishment. A session whose pipeline cannot be built stays in the registry. */
    method CreateSession(session: PfcpSession) returns (ok: bool)
      requires Valid()
      modifies this, program, session`pdrsUplink, session`pdrsDownlink, session`qersUplink, session`qersDownlink
      ensures Valid() && (old(Settled()) ==> Settled())
      ensures ok <==> session.seid !in old(seidToSession) && R.CreateReturns(session.Value())
      ensures session.seid in old(seidToSession) ==>
        (seidToSession == old(seidToSession) && sessions == old(sessions) && calls == old(calls) && session.Value() == old(session.Value()))
      ensures session.seid !in old(seidToSession) ==>
        (sessions == old(sessions) + [session] && seidToSession == old(seidToSession)[session.seid := session]
         && calls == old(calls) + [R.CallCreate(session.Value())] && ListsRight(session.Value()) && session.Derived())
    {
      hide Traced, Valid, Registry, ListsRight, R.CreateReturns, PfcpSession.Value, PfcpSession.Rules, PfcpSession.Derived;
      OthersApart();
      if session.seid in seidToSession {
        return false;
      }
      ok := Register(session);
    }

    /** The registration of a session with a new SEID, and the pipeline call. */
    method Register(session: PfcpSession) returns (ok: bool)
      requires Valid() && session.seid !in seidToSession
      modifies this, program, session`pdrsUplink, session`pdrsDownlink, session`qersUplink, session`qersDownlink
      ensures Valid() && (ok <==> R.CreateReturns(session.Value()))
      ensures sessions == old(sessions) + [session] && seidToSession == old(seidToSession)[session.seid := session]
      ensures calls == old(calls) + [R.CallCreate(session.Value())] && ListsRight(session.Value()) && session.Derived()
    {
      hide *;
      NewEntry(session);
      sessions := sessions + [session];
      seidToSession := seidToSession[session.seid := session];
      CategorizeAndSort(session);
      BareIsRules(session);
      var s := session.Value();
      ok := program.CreatePipeline(s);
      calls := calls + [R.CallCreate(s)];
      LoggedCreate(old(calls), s);
      IsValid(R.LiveOf(old(calls)).Keys + {session.seid});
    }

    lemma NewEntry(session: PfcpSession)
      requires Valid() && session.seid !in seidToSession
      ensures Registry(sessions + [session], seidToSession[session.seid := session])
      ensures program.IndexState() == R.IndexAfter(calls) && R.LiveOf(calls).Keys == seidToSession.Keys && CreatesFresh(calls)
    {
      hide Registry;
      Added(sessions, seidToSession, session);
    }

    lemma IsValid(live: set<nat>)
      requires program.IndexState() == R.IndexAfter(calls) && R.LiveOf(calls).Keys == live == seidToSession.Keys && CreatesFresh(calls)
      requires Registry(sessions, seidToSession)
      ensures Valid()
    {}

    method UpdateSession(session: PfcpSession) returns (ok: bool)
      requires Valid()
      modifies `seidToSession, `calls, program, session`pdrsUplink, session`pdrsDownlink, session`qersUplink, session`qersDownlink
      ensures Valid() && (old(Settled()) ==> Settled())
      ensures ok <==> session.seid in old(seidToSession) && R.ModifyReturns(session.Value())
      ensures session.seid !in old(seidToSession) ==> calls == old(calls) && seidToSession == old(seidToSession)
      ensures session.seid in old(seidToSession) ==>
        (ListsRight(session.Value()) && session.Derived() && calls == old(calls) + [R.CallModify(session.Value())]
         && seidToSession == old(seidToSession)[session.seid := session])
    {
      hide Traced, Valid, Registry, ListsRight, R.ModifyReturns, PfcpSession.Value, PfcpSession.Rules, PfcpSession.Derived;
      OthersApart();
      if session.seid !in seidToSession {
        return false;
      }
      ok := Reregister(session);
    }

    /** The object registered under a SEID changes, and the pipeline is called for the new one. */
    method Reregister(session: PfcpSession) returns (ok: bool)
      requires Valid() && session.seid in seidToSession
      modifies `seidToSession, `calls, program, session`pdrsUplink, session`pdrsDownlink, session`qersUplink, session`qersDownlink
      ensures Valid() && (ok <==> R.ModifyReturns(session.Value())) && ListsRight(session.Value()) && session.Derived()
      ensures calls == old(calls) + [R.CallModify(session.Value())] && seidToSession == old(seidToSession)[session.seid := session]
    {
      hide *;
      OtherEntry(session);
      seidToSession := seidToSession[session.seid := session];
      IsValid(R.LiveOf(calls).Keys);
      CategorizeAndSort(session);
      ok := ModifyPipeline(session);
    }

    lemma OtherEntry(session: PfcpSession)
      requires Valid() && session.seid in seidToSession
      ensures Registry(sessions, seidToSession[session.seid := session])
      ensures program.IndexState() == R.IndexAfter(calls) && R.LiveOf(calls).Keys == seidToSession.Keys && CreatesFresh(calls)
    {
      hide Registry;
      Replaced(sessions, seidToSession, session);
    }

    method DeleteSession(seid: nat) returns (ok: bool)
      requires Valid()
      modifies this, program
      ensures Valid() && (ok <==> seid in old(seidToSession)) && (old(Settled()) ==> Settled())
      ensures seidToSession == old(seidToSession) - {seid}
      ensures sessions == if ok then WithoutSeid(old(sessions), seid) else old(sessions)
      ensures calls == if ok then old(calls) + [R.CallRemove(seid)] else old(calls)
    {
      hide Traced, Valid, Registry, PfcpSession.Derived, WithoutSeid;
      if seid !in seidToSession {
        return false;
      }
      Unregister(seid);
      ok := true;
    }

    /** The pipeline call, and the removal from both containers. */
    method Unregister(seid: nat)
      requires Valid() && seid in seidToSession
      modifies this, program
      ensures Valid() && seidToSession == old(seidToSession) - {seid} && sessions == WithoutSeid(old(sessions), seid)
      ensures calls == old(calls) + [R.CallRemove(seid)]
    {
      hide *;
      OldEntry(seid);
      program.RemoveSession(seid);
      calls := calls + [R.CallRemove(seid)];
      LoggedRemove(old(calls), seid);
      seidToSession := seidToSession - {seid};
      sessions := WithoutSeid(sessions, seid);
      IsValid(R.LiveOf(old(calls)).Keys - {seid});
    }

    lemma OldEntry(seid: nat)
      requires Valid() && seid in seidToSession
      ensures Registry(WithoutSeid(sessions, seid), seidToSession - {seid})
      ensures program.IndexState() == R.IndexAfter(calls) && R.LiveOf(calls).Keys == seidToSession.Keys && CreatesFresh(calls)
    {
      hide Registry, WithoutSeid;
      Deleted(sessions, seidToSession, seid);
    }

    // ---------------------------------------------------------------- removals, on the registered object

    /** Takes a PDR out of the session and its derived lists, and sorts them. */
    method ErasePdr(session: PfcpSession, pdrId: nat)
      modifies session`pdrs, session`pdrsUplink, session`pdrsDownlink
      ensures session.Rules() == M.After(old(session.Rules()), M.Remove(M.PdrKind, pdrId))
      ensures session.Sorted() && (session.Derived() <==> old(session.DerivedBut(pdrId)))
    {
      hide From, Erased, ListedBut, ByPrecedence, Values, Without, M.After, PfcpSession.Rules, PfcpSession.Derived, PfcpSession.DerivedBut, PfcpSession.Sorted, PfcpSession.Value;
      var uplink, downlink := SortBoth(Erased(PdrId, session.pdrsUplink, pdrId), Erased(PdrId, session.pdrsDownlink, pdrId));
      var pdrs := Erased(PdrId, session.pdrs, pdrId);
      ErasedRules(session, pdrId, pdrs);
      ErasedLists(session, pdrId, pdrs, multiset(uplink), multiset(downlink));
      assert session.Rules() == old(session.Rules()) && session.DerivedBut(pdrId) == old(session.DerivedBut(pdrId));
      ghost var vs, access, core := Values(pdrs), From(pdrs, Access), From(pdrs, Core);
      PutLists(session, pdrs, uplink, downlink);
      assert vs == Values(pdrs) && access == From(pdrs, Access) && core == From(pdrs, Core);
      AreSorted(session, multiset(uplink), multiset(downlink));
    }

    method PutLists(session: PfcpSession, pdrs: seq<PdrObject>, uplink: seq<PdrObject>, downlink: seq<PdrObject>)
      modifies session`pdrs, session`pdrsUplink, session`pdrsDownlink
      ensures session.pdrs == pdrs && session.pdrsUplink == uplink && session.pdrsDownlink == downlink
      ensures session.Rules() == old(session.Rules()).(pdrs := Values(pdrs))
    {
      hide Values;
      session.pdrs, session.pdrsUplink, session.pdrsDownlink := pdrs, uplink, downlink;
    }

    lemma ErasedRules(session: PfcpSession, id: nat, pdrs: seq<PdrObject>)
      requires pdrs == Erased(PdrId, session.pdrs, id)
      ensures session.Rules().(pdrs := Values(pdrs)) == M.After(session.Rules(), M.Remove(M.PdrKind, id))
    {
      hide Erased, Values, Without;
      ErasedValues(PdrId, session.pdrs, id);
    }

    lemma ErasedLists(session: PfcpSession, id: nat, pdrs: seq<PdrObject>, uplink: multiset<PdrObject>, downlink: multiset<PdrObject>)
      requires pdrs == Erased(PdrId, session.pdrs, id)
      requires uplink == multiset(Erased(PdrId, session.pdrsUplink, id)) && downlink == multiset(Erased(PdrId, session.pdrsDownlink, id))
      ensures session.DerivedBut(id) <==> uplink == multiset(From(pdrs, Access)) && downlink == multiset(From(pdrs, Core))
    {
      hide Erased, From, ListedBut;
      ErasedListIff(session.pdrsUplink, session.pdrs, Access, id);
      ErasedListIff(session.pdrsDownlink, session.pdrs, Core, id);
    }

    method EraseFar(session: PfcpSession, id: nat)
      modifies session`fars
      ensures session.Rules() == M.After(old(session.Rules()), M.Remove(M.FarKind, id))
    {
      hide Erased, Values, Without;
      ErasedValues(FarId, session.fars, id);
      session.fars := Erased(FarId, session.fars, id);
    }

    method EraseQer(session: PfcpSession, id: nat)
      modifies session`qers, session`qersUplink, session`qersDownlink
      ensures session.Rules() == M.After(old(session.Rules()), M.Remove(M.QerKind, id))
      ensures session.qersUplink == old(Erased(QerId, session.qersUplink, id))
      ensures session.qersDownlink == old(Erased(QerId, session.qersDownlink, id))
    {
      hide Erased, Values, Without;
      ErasedValues(QerId, session.qers, id);
      session.qers, session.qersUplink, session.qersDownlink :=
        Erased(QerId, session.qers, id), Erased(QerId, session.qersUplink, id), Erased(QerId, session.qersDownlink, id);
    }

    method EraseUrr(session: PfcpSession, id: nat)
      modifies session`urrs
      ensures session.Rules() == M.After(old(session.Rules()), M.Remove(M.UrrKind, id))
    {
      hide Erased, Values, Without;
      ErasedValues(RuleId, session.urrs, id);
      session.urrs := Erased(RuleId, session.urrs, id);
    }

    method EraseBar(session: PfcpSession, id: nat)
      modifies session`bars
      ensures session.Rules() == M.After(old(session.Rules()), M.Remove(M.BarKind, id))
    {
      hide Erased, Values, Without;
      ErasedValues(RuleId, session.bars, id);
      session.bars := Erased(RuleId, session.bars, id);
    }

    method EraseMar(session: PfcpSession, id: nat)
      modifies session`mars
      ensures session.Rules() == M.After(old(session.Rules()), M.Remove(M.MarKind, id))
    {
      hide Erased, Values, Without;
      ErasedValues(RuleId, session.mars, id);
      session.mars := Erased(RuleId, session.mars, id);
    }

    /** Removal of one rule from the session registered under seid; a call that throws leaves it removed. */
    method RemoveUnlocked(seid: nat, kind: M.Kind, id: nat) returns (ok: bool)
      requires Valid()
      modifies `calls, program, if seid in seidToSession then {seidToSession[seid]} else {}
      ensures Valid()
      ensures seid !in seidToSession ==> !ok && calls == old(calls)
      ensures seid in seidToSession ==>
        var s := seidToSession[seid];
        && s.Rules() == M.After(old(s.Rules()), M.Remove(kind, id))
        && calls == old(calls) + [R.CallModify(s.Value())] && (ok <==> R.ModifyReturns(s.Value()))
        && (kind == M.PdrKind ==> s.Sorted() && (s.Derived() <==> old(s.DerivedBut(id))))
        && (kind != M.PdrKind ==> (s.Derived() <==> old(s.Derived())))
        && (kind == M.QerKind ==> s.qersUplink == old(Erased(QerId, s.qersUplink, id)) && s.qersDownlink == old(Erased(QerId, s.qersDownlink, id)))
    {
      hide *;
      if seid !in seidToSession {
        return false;
      }
      var session := seidToSession[seid];
      SeidOfRegistered(seid);
      match kind {
        case PdrKind => ErasePdr(session, id);
        case FarKind => EraseFar(session, id);
        case QerKind => EraseQer(session, id);
        case UrrKind => EraseUrr(session, id);
        case BarKind => EraseBar(session, id);
        case MarKind => EraseMar(session, id);
      }
      ok := ModifyPipeline(session);
    }

    lemma SeidOfRegistered(seid: nat)
      requires Valid() && seid in seidToSession
      ensures seidToSession[seid].seid == seid
    {}

    /** RemovePdr. When it returns normally the lists are in order of precedence, and hold the PDRs
        they should exactly if the PDRs that stay were listed right. */
    method RemovePdr(seid: nat, pdrId: nat) returns (ok: bool)
      requires Valid()
      modifies `calls, program, if seid in seidToSession then {seidToSession[seid]} else {}
      ensures Valid() && (old(Settled()) ==> Settled())
      ensures ok <==> seid in seidToSession && R.ModifyReturns(seidToSession[seid].Value())
      ensures seid in seidToSession ==>
        seidToSession[seid].Rules() == M.After(old(seidToSession[seid].Rules()), M.Remove(M.PdrKind, pdrId)) && seidToSession[seid].Sorted()
      ensures seid in seidToSession ==> (seidToSession[seid].Derived() <==> old(seidToSession[seid].DerivedBut(pdrId)))
      ensures ok && old(Settled()) ==> ListsRight(seidToSession[seid].Value())
    {
      hide Traced, Valid, Registry, ListsRight, PfcpSession.Value, PfcpSession.Rules, PfcpSession.Derived, PfcpSession.DerivedBut, PfcpSession.Sorted, M.After, R.ModifyReturns;
      OthersApart();
      if seid in seidToSession {
        DerivedIsDerivedBut(seidToSession[seid], pdrId);
      }
      ok := RemoveUnlocked(seid, M.PdrKind, pdrId);
      if seid in seidToSession && seidToSession[seid].Derived() {
        DerivedAndSorted(seidToSession[seid]);
      }
    }

    // ---------------------------------------------------------------- updates, on the object passed

    /** What follows the updates of one kind: one pipeline call if some of them hit. */
    method CallOnce(session: PfcpSession, updated: nat, ghost b: Session, ghost step: M.Step) returns (thrown: bool)
      requires Valid() && session.seid in seidToSession && session.Rules() == M.After(b, step)
      requires updated > 0 <==> M.CallsPipeline(b, step)
      modifies `calls, program
      ensures Valid() && Took(b, step, session.Rules(), old(calls), calls, thrown)
      ensures updated > 0 ==> calls == old(calls) + [R.CallModify(session.Value())]
    {
      hide *;
      thrown := false;
      if updated > 0 {
        var ok := ModifyPipeline(session);
        thrown := !ok;
        BareIsRules(session);
        TookCall(b, step, old(calls), session.Value(), thrown);
      } else {
        M.UnhitStep(b, step);
        TookNone(b, step, calls);
      }
    }

    method PatchPdrs(session: PfcpSession, us: seq<M.PdrUpdate>) returns (updated: nat)
      requires Once(session.pdrs)
      modifies session.pdrs
      ensures session.Rules() == M.After(old(session.Rules()), M.UpdatePdrs(us))
      ensures updated > 0 <==> M.CallsPipeline(old(session.Rules()), M.UpdatePdrs(us))
      ensures updated == 0 ==> unchanged(session.pdrs)
    {
      hide Updated, Hit, Values, KeepsIds, Once;
      M.IdsStay();
      updated := Patch(M.Pdrs, session.pdrs, us);
    }

    method PatchFars(session: PfcpSession, us: seq<M.FarUpdate>) returns (updated: nat)
      requires Once(session.fars)
      modifies session.fars
      ensures session.Rules() == M.After(old(session.Rules()), M.UpdateFars(us))
      ensures updated > 0 <==> M.CallsPipeline(old(session.Rules()), M.UpdateFars(us))
    {
      hide Updated, Hit, Values, KeepsIds, Once;
      M.IdsStay();
      updated := Patch(M.Fars, session.fars, us);
    }

    method PatchQers(session: PfcpSession, us: seq<M.QerUpdate>) returns (updated: nat)
      requires Once(session.qers)
      modifies session.qers
      ensures session.Rules() == M.After(old(session.Rules()), M.UpdateQers(us))
      ensures updated > 0 <==> M.CallsPipeline(old(session.Rules()), M.UpdateQers(us))
    {
      hide Updated, Hit, Values, KeepsIds, Once;
      M.IdsStay();
      updated := Patch(M.Qers, session.qers, us);
    }

    method PatchUrrs(session: PfcpSession, us: seq<M.RuleUpdate>) returns (updated: nat)
      requires Once(session.urrs)
      modifies session.urrs
      ensures session.Rules() == M.After(old(session.Rules()), M.UpdateUrrs(us))
      ensures updated > 0 <==> M.CallsPipeline(old(session.Rules()), M.UpdateUrrs(us))
    {
      hide Updated, Hit, Values, KeepsIds, Once;
      M.IdsStay();
      updated := Patch(M.Rules, session.urrs, us);
    }

    method PatchBars(session: PfcpSession, us: seq<M.RuleUpdate>) returns (updated: nat)
      requires Once(session.bars)
      modifies session.bars
      ensures session.Rules() == M.After(old(session.Rules()), M.UpdateBars(us))
      ensures updated > 0 <==> M.CallsPipeline(old(session.Rules()), M.UpdateBars(us))
    {
      hide Updated, Hit, Values, KeepsIds, Once;
      M.IdsStay();
      updated := Patch(M.Rules, session.bars, us);
    }

    method PatchMars(session: PfcpSession, us: seq<M.RuleUpdate>) returns (updated: nat)
      requires Once(session.mars)
      modifies session.mars
      ensures session.Rules() == M.After(old(session.Rules()), M.UpdateMars(us))
      ensures updated > 0 <==> M.CallsPipeline(old(session.Rules()), M.UpdateMars(us))
    {
      hide Updated, Hit, Values, KeepsIds, Once;
      M.IdsStay();
      updated := Patch(M.Rules, session.mars, us);
    }

    /** The lists are derived again and sorted before the pipeline is called. */
    method HandlePdrUpdates(session: PfcpSession, us: seq<M.PdrUpdate>) returns (thrown: bool)
      requires Valid() && session.seid in seidToSession && Once(session.pdrs)
      modifies session`pdrsUplink, session`pdrsDownlink, session`qersUplink, session`qersDownlink, session.pdrs, `calls, program
      ensures Valid() && Took(old(session.Rules()), M.UpdatePdrs(us), session.Rules(), old(calls), calls, thrown)
      ensures old(session.Derived()) ==> session.Derived()
      ensures M.CallsPipeline(old(session.Rules()), M.UpdatePdrs(us)) ==>
        session.Derived() && calls == old(calls) + [R.CallModify(session.Value())] && ListsRight(session.Value())
    {
      hide *;
      ghost var b := session.Rules();
      var updated := PatchPdrs(session, us);
      if updated > 0 {
        CategorizeAndSort(session);
      }
      thrown := CallOnce(session, updated, b, M.UpdatePdrs(us));
    }

    /** A FAR update leaves the lists alone. */
    method HandleFarUpdates(session: PfcpSession, us: seq<M.FarUpdate>) returns (thrown: bool)
      requires Valid() && session.seid in seidToSession && Once(session.fars)
      modifies session.fars, `calls, program
      ensures Valid() && Took(old(session.Rules()), M.UpdateFars(us), session.Rules(), old(calls), calls, thrown)
      ensures old(session.Derived()) ==> session.Derived()
    {
      hide *;
      ghost var b := session.Rules();
      var updated := PatchFars(session, us);
      thrown := CallOnce(session, updated, b, M.UpdateFars(us));
    }

    /** The lists are derived again, but not sorted, before the pipeline is called. */
    method HandleQerUpdates(session: PfcpSession, us: seq<M.QerUpdate>) returns (thrown: bool)
      requires Valid() && session.seid in seidToSession && Once(session.qers)
      modifies session`pdrsUplink, session`pdrsDownlink, session`qersUplink, session`qersDownlink, session.qers, `calls, program
      ensures Valid() && Took(old(session.Rules()), M.UpdateQers(us), session.Rules(), old(calls), calls, thrown)
      ensures old(session.Derived()) ==> session.Derived()
      ensures M.CallsPipeline(old(session.Rules()), M.UpdateQers(us)) ==>
        session.Derived() && calls == old(calls) + [R.CallModify(session.Value())] && JustDerived(session.Value())
    {
      hide *;
      ghost var b := session.Rules();
      var updated := PatchQers(session, us);
      if updated > 0 {
        CategorizePdrs(session);
        JustCategorized(session);
      }
      thrown := CallOnce(session, updated, b, M.UpdateQers(us));
    }

    /** As for FARs. */
    method HandleUrrUpdates(session: PfcpSession, us: seq<M.RuleUpdate>) returns (thrown: bool)
      requires Valid() && session.seid in seidToSession && Once(session.urrs)
      modifies session.urrs, `calls, program
      ensures Valid() && Took(old(session.Rules()), M.UpdateUrrs(us), session.Rules(), old(calls), calls, thrown)
      ensures old(session.Derived()) ==> session.Derived()
    {
      hide *;
      ghost var b := session.Rules();
      var updated := PatchUrrs(session, us);
      thrown := CallOnce(session, updated, b, M.UpdateUrrs(us));
    }

    /** At most one BAR. */
    method HandleBarUpdates(session: PfcpSession, us: seq<M.RuleUpdate>) returns (thrown: bool)
      requires Valid() && session.seid in seidToSession && Once(session.bars)
      modifies session.bars, `calls, program
      ensures Valid() && Took(old(session.Rules()), M.UpdateBars(us), session.Rules(), old(calls), calls, thrown)
      ensures old(session.Derived()) ==> session.Derived()
    {
      hide *;
      ghost var b := session.Rules();
      var updated := PatchBars(session, us);
      thrown := CallOnce(session, updated, b, M.UpdateBars(us));
    }

    /** As for FARs. */
    method HandleMarUpdates(session: PfcpSession, us: seq<M.RuleUpdate>) returns (thrown: bool)
      requires Valid() && session.seid in seidToSession && Once(session.mars)
      modifies session.mars, `calls, program
      ensures Valid() && Took(old(session.Rules()), M.UpdateMars(us), session.Rules(), old(calls), calls, thrown)
      ensures old(session.Derived()) ==> session.Derived()
    {
      hide *;
      ghost var b := session.Rules();
      var updated := PatchMars(session, us);
      thrown := CallOnce(session, updated, b, M.UpdateMars(us));
    }

    /** PDRs, FARs and QERs, up to the first pipeline call that throws. */
    method HandleTrafficUpdates(session: PfcpSession, q: M.Request) returns (thrown: bool)
      requires Valid() && session.seid in seidToSession && Once(session.pdrs) && Once(session.fars) && Once(session.qers)
      modifies session`pdrsUplink, session`pdrsDownlink, session`qersUplink, session`qersDownlink
      modifies session.pdrs, session.fars, session.qers, `calls, program
      ensures Valid() && Reached(old(session.Rules()), M.Updates(q)[..3], session.Rules(), old(calls), calls, thrown)
      ensures old(session.Derived()) ==> session.Derived()
    {
      hide *;
      ghost var b, was := session.Rules(), calls;
      ghost var steps := M.Updates(q)[..3];
      UpdateSteps(q);
      ReachedNothing(b, steps, was);
      thrown := HandlePdrUpdates(session, q.updatePdrs);
      ReachedNext(b, steps, 0, b, was, was, session.Rules(), calls, thrown);
      if thrown { return; }
      ghost var b1, was1 := session.Rules(), calls;
      thrown := HandleFarUpdates(session, q.updateFars);
      ReachedNext(b, steps, 1, b1, was, was1, session.Rules(), calls, thrown);
      if thrown { return; }
      b1, was1 := session.Rules(), calls;
      thrown := HandleQerUpdates(session, q.updateQers);
      ReachedNext(b, steps, 2, b1, was, was1, session.Rules(), calls, thrown);
    }

    /** URRs, the BAR and MARs, up to the first pipeline call that throws. */
    method HandleReportingUpdates(session: PfcpSession, q: M.Request) returns (thrown: bool)
      requires Valid() && session.seid in seidToSession && Once(session.urrs) && Once(session.bars) && Once(session.mars)
      modifies session.urrs, session.bars, session.mars, `calls, program
      ensures Valid() && Reached(old(session.Rules()), M.Updates(q)[3..], session.Rules(), old(calls), calls, thrown)
      ensures old(session.Derived()) ==> session.Derived()
    {
      hide *;
      ghost var b, was := session.Rules(), calls;
      ghost var steps := M.Updates(q)[3..];
      UpdateSteps(q);
      ReachedNothing(b, steps, was);
      thrown := HandleUrrUpdates(session, q.updateUrrs);
      ReachedNext(b, steps, 0, b, was, was, session.Rules(), calls, thrown);
      if thrown { return; }
      ghost var b1, was1 := session.Rules(), calls;
      thrown := HandleBarUpdates(session, M.AsSeq(q.updateBar));
      ReachedNext(b, steps, 1, b1, was, was1, session.Rules(), calls, thrown);
      if thrown { return; }
      b1, was1 := session.Rules(), calls;
      thrown := HandleMarUpdates(session, q.updateMars);
      ReachedNext(b, steps, 2, b1, was, was1, session.Rules(), calls, thrown);
    }

    /** The update half of ModifySession, up to the first pipeline call that throws. */
    method HandleUpdates(session: PfcpSession, q: M.Request) returns (thrown: bool)
      requires Valid() && session.seid in seidToSession && session.Whole()
      modifies session`pdrsUplink, session`pdrsDownlink, session`qersUplink, session`qersDownlink
      modifies session.pdrs, session.fars, session.qers, session.urrs, session.bars, session.mars, `calls, program
      ensures Valid() && Reached(old(session.Rules()), M.Updates(q), session.Rules(), old(calls), calls, thrown)
      ensures old(session.Derived()) ==> session.Derived()
    {
      hide *;
      AllOnce(session);
      ghost var b, was := session.Rules(), calls;
      thrown := HandleTrafficUpdates(session, q);
      if thrown {
        ReachedStop(b, M.Updates(q), 3, session.Rules(), was, calls);
        return;
      }
      ghost var b1, was1 := session.Rules(), calls;
      thrown := HandleReportingUpdates(session, q);
      ReachedThen(b, M.Updates(q)[..3], b1, was, was1, M.Updates(q)[3..], session.Rules(), calls, thrown);
      assert M.Updates(q)[..3] + M.Updates(q)[3..] == M.Updates(q);
    }

    /** HandlePdrRemoval and the others of its kind: one removal for each id, failed calls passed over. */
    method HandleRemoval(seid: nat, kind: M.Kind, ids: seq<Option<nat>>)
      requires Valid() && seid in seidToSession
      modifies seidToSession[seid], `calls, program
      ensures Valid() && Removed(old(seidToSession[seid].Rules()), M.RemovalsOf(kind, ids), seidToSession[seid].Rules(), old(calls), calls)
    {
      hide *;
      ghost var s := seidToSession[seid];
      ghost var b, was := s.Rules(), calls;
      RemovedNone(b, was);
      M.NoRemovals(kind);
      for i := 0 to |ids|
        invariant Valid() && seidToSession == old(seidToSession)
        invariant Removed(b, M.RemovalsOf(kind, ids[..i]), s.Rules(), was, calls)
      {
        M.RemovalTurn(kind, ids, i);
        if ids[i].Some? {
          ghost var b1, was1 := s.Rules(), calls;
          var ok := RemoveUnlocked(seid, kind, ids[i].value);
          BareIsRules(s);
          RemoveCalls(b1, kind, ids[i].value);
          RemovedOne(b, M.RemovalsOf(kind, ids[..i]), b1, was, was1, M.Remove(kind, ids[i].value), s.Value());
        }
      }
      assert ids[..|ids|] == ids;
    }

    /** The removal half of ModifySession, on the registered object. */
    method HandleRemovals(seid: nat, q: M.Request)
      requires Valid() && seid in seidToSession
      modifies seidToSession[seid], `calls, program
      ensures Valid() && Removed(old(seidToSession[seid].Rules()), M.Removals(q), seidToSession[seid].Rules(), old(calls), calls)
    {
      hide *;
      ghost var s := seidToSession[seid];
      ghost var b, was := s.Rules(), calls;
      ghost var done := M.RemovalsOf(M.PdrKind, q.removePdrs);
      HandleRemoval(seid, M.PdrKind, q.removePdrs);
      ghost var b1, was1 := s.Rules(), calls;
      HandleRemoval(seid, M.FarKind, q.removeFars);
      RemovedThen(b, done, b1, M.RemovalsOf(M.FarKind, q.removeFars), s.Rules(), was, was1, calls);
      done, b1, was1 := done + M.RemovalsOf(M.FarKind, q.removeFars), s.Rules(), calls;
      HandleRemoval(seid, M.QerKind, q.removeQers);
      RemovedThen(b, done, b1, M.RemovalsOf(M.QerKind, q.removeQers), s.Rules(), was, was1, calls);
      done, b1, was1 := done + M.RemovalsOf(M.QerKind, q.removeQers), s.Rules(), calls;
      HandleRemoval(seid, M.UrrKind, q.removeUrrs);
      RemovedThen(b, done, b1, M.RemovalsOf(M.UrrKind, q.removeUrrs), s.Rules(), was, was1, calls);
      done, b1, was1 := done + M.RemovalsOf(M.UrrKind, q.removeUrrs), s.Rules(), calls;
      HandleRemoval(seid, M.BarKind, M.AsSeq(q.removeBar));
      RemovedThen(b, done, b1, M.RemovalsOf(M.BarKind, M.AsSeq(q.removeBar)), s.Rules(), was, was1, calls);
      M.RemovalParts(q);
    }

    /** What a modification finds: nothing registered, or the session passed and the registered one. */
    ghost function Found(session: PfcpSession): Situation
      reads *
    {
      if session.seid !in seidToSession then NotFound
      else
        var r := seidToSession[session.seid];
        Both(session.Rules(), r.Rules(), SharingOf(r, session), r == session)
    }

    /** Modification. session may be the registered object or, as when the switch passes a copy,
        another one that shares rule objects with it: updates reach the rule objects through session,
        removals the lists of the registered object, and session is registered in the end. */
    method ModifySession(session: PfcpSession, q: M.Request) returns (ok: bool)
      requires Valid() && session.Whole()
      modifies `seidToSession, `calls, program, session`pdrsUplink, session`pdrsDownlink, session`qersUplink, session`qersDownlink
      modifies session.pdrs, session.fars, session.qers, session.urrs, session.bars, session.mars
      modifies if session.seid in seidToSession then {seidToSession[session.seid]} else {}
      ensures Valid() && Modified(old(Found(session)), q, session.Value(), old(calls), calls, ok)
      ensures seidToSession == Registered(old(Found(session)), q, session, old(seidToSession))
      ensures session.seid in seidToSession && seidToSession[session.seid] != session ==>
        unchanged(seidToSession[session.seid]) && M.Fits(old(Found(session)).rb, old(Found(session)).sh)
        && seidToSession[session.seid].Rules() == M.SeenSession(old(Found(session)).rb, old(Found(session)).sh, session.Rules())
      ensures old(Settled()) ==> (Settled() <==> session.seid !in seidToSession || old(KeepsSides(session, q)))
    {
      hide *;
      OthersApart();
      ghost var was := Pdrs();
      PdrsAre();
      if session.seid !in seidToSession {
        NothingFound(session, q, calls);
        ok := false;
      } else {
        FoundIs(session);
        ghost var f, log, bySeid := Found(session), calls, seidToSession;
        ok := ModifySides(session, q);
        DoneIs(f, q, session, log, bySeid, ok);
        OthersApart();
        if old(Settled()) { SettledIff(session, was); }
      }
    }

    /** The body of ModifySession for a SEID that is registered, and what it does to the sides of PDRs. */
    method ModifySides(session: PfcpSession, q: M.Request) returns (ok: bool)
      requires Valid() && session.Whole() && session.seid in seidToSession
      modifies `seidToSession, `calls, program, session`pdrsUplink, session`pdrsDownlink, session`qersUplink, session`qersDownlink
      modifies session.pdrs, session.fars, session.qers, session.urrs, session.bars, session.mars
      modifies seidToSession[session.seid]
      ensures Valid() && Done(old(Found(session)), q, session, old(calls), old(seidToSession), ok)
      ensures seidToSession.Keys == old(seidToSession.Keys)
      ensures forall k :: k in seidToSession && seidToSession[k] != session ==> k in old(seidToSession) && seidToSession[k] == old(seidToSession[k])
      ensures seidToSession[session.seid] != session ==> unchanged(seidToSession[session.seid])
      ensures seidToSession[session.seid] == session && old(seidToSession[session.seid].Derived()) ==> session.Derived()
      ensures SidesKept(session, old(Pdrs())) <==> old(KeepsSides(session, q))
    {
      hide *;
      OthersApart();
      ghost var was, list, snap, stay := Pdrs(), session.pdrs, Snap(), Staying(session, q);
      ghost var patched := Updated(M.Pdrs, session.Rules().pdrs, q.updatePdrs);
      KeepsSidesAre(session, q);
      FoundIs(session);
      StayingAre(session, q, Found(session));
      ok := ModifyCells(session, q, snap.values);
      SidesKeptIff(session, list, stay, was, snap, patched);
    }

    /** No PDR object but those of the session passed is touched. */
    method ModifyCells(session: PfcpSession, q: M.Request, ghost values: map<PdrObject, Pdr>) returns (ok: bool)
      requires Valid() && session.Whole() && session.seid in seidToSession && forall c :: c in values ==> c.value == values[c]
      modifies `seidToSession, `calls, program, session`pdrsUplink, session`pdrsDownlink, session`qersUplink, session`qersDownlink
      modifies session.pdrs, session.fars, session.qers, session.urrs, session.bars, session.mars
      modifies seidToSession[session.seid]
      ensures Valid() && Done(old(Found(session)), q, session, old(calls), old(seidToSession), ok)
      ensures seidToSession == Registered(old(Found(session)), q, session, old(seidToSession))
      ensures seidToSession.Keys == old(seidToSession.Keys)
      ensures forall k :: k in seidToSession && seidToSession[k] != session ==>
        k in old(seidToSession) && seidToSession[k] == old(seidToSession[k]) && seidToSession[k].pdrs == old(seidToSession[k].pdrs)
      ensures seidToSession[session.seid] != session ==> unchanged(seidToSession[session.seid])
      ensures seidToSession[session.seid] == session && old(seidToSession[session.seid].Derived()) ==> session.Derived()
      ensures Values(old(session.pdrs)) == Updated(M.Pdrs, old(session.Rules()).pdrs, q.updatePdrs)
      ensures forall c :: c in values && c !in old(session.pdrs) ==> c.value == values[c]
    {
      hide *;
      OthersApart();
      ok := Modify(session, q);
    }

    /** The outcome of a modification, told from what was before. */
    ghost predicate Done(f: Situation, q: M.Request, session: PfcpSession, was: seq<R.Call>, bySeid: map<nat, PfcpSession>, ok: bool)
      reads *
    {
      && f.Both? && Modified(f, q, session.Value(), was, calls, ok) && seidToSession == Registered(f, q, session, bySeid)
      && (session.seid in seidToSession && seidToSession[session.seid] != session ==>
            M.Fits(f.rb, f.sh) && seidToSession[session.seid].Rules() == M.SeenSession(f.rb, f.sh, session.Rules()))
    }

    lemma DoneIs(f: Situation, q: M.Request, session: PfcpSession, was: seq<R.Call>, bySeid: map<nat, PfcpSession>, ok: bool)
      ensures Done(f, q, session, was, bySeid, ok) <==>
        && f.Both? && Modified(f, q, session.Value(), was, calls, ok) && seidToSession == Registered(f, q, session, bySeid)
        && (session.seid in seidToSession && seidToSession[session.seid] != session ==>
              M.Fits(f.rb, f.sh) && seidToSession[session.seid].Rules() == M.SeenSession(f.rb, f.sh, session.Rules()))
    {
      hide Modified, Registered, M.Fits, M.SeenSession;
    }

    /** The sessions that stay registered beside the one passed: all but itself and, if the updates
        all return, the one it then replaces. */
    ghost function Staying(session: PfcpSession, q: M.Request): set<nat>
      reads *
    {
      set k | k in seidToSession && seidToSession[k] != session && !(k == session.seid && UpdatesReturn(session.Rules(), q))
    }

    /** No update of the request moves a PDR to another interface that a session staying registered shares. */
    ghost predicate KeepsSides(session: PfcpSession, q: M.Request)
      reads *
    {
      forall k :: k in Staying(session, q) ==> AllSameSide(Values(seidToSession[k].pdrs), SeenUpdated(seidToSession[k], session, q))
    }

    /** The PDRs of own, as it will see them once those of session are updated. */
    ghost function SeenUpdated(own: PfcpSession, session: PfcpSession, q: M.Request): (r: seq<Pdr>)
      reads own`pdrs, own.pdrs, session`pdrs, session.pdrs
      ensures |r| == |own.pdrs|
    {
      Seen(Values(own.pdrs), Share(own.pdrs, session.pdrs), Updated(M.Pdrs, Values(session.pdrs), q.updatePdrs))
    }

    /** The PDR lists of the registered sessions, and what their objects hold. */
    ghost function Snap(): Snapshot
      reads *
    {
      var lists := map k | k in seidToSession :: seidToSession[k].pdrs;
      Snapshot(lists, map k, i | k in lists && 0 <= i < |lists[k]| :: lists[k][i] := lists[k][i].value)
    }

    lemma KeepsSidesAre(session: PfcpSession, q: M.Request)
      ensures Snap().Full() && Snap().lists.Keys == seidToSession.Keys == Pdrs().Keys
      ensures forall k :: k in seidToSession ==> Snap().lists[k] == seidToSession[k].pdrs && Pdrs()[k] == Snap().PdrsOf(k)
      ensures forall c :: c in Snap().values ==> c.value == Snap().values[c]
      ensures KeepsSides(session, q) <==>
        forall k :: k in Staying(session, q) ==> Snap().Keeps(k, session.pdrs, Updated(M.Pdrs, session.Rules().pdrs, q.updatePdrs))
    {
      hide Share, Seen, Updated, AllSameSide, UpdatesReturn;
      RulesAre(session);
      forall k | k in seidToSession ensures Pdrs()[k] == Snap().PdrsOf(k) {}
    }

    lemma StayingAre(session: PfcpSession, q: M.Request, f: Situation)
      requires f.Both? && f.b == session.Rules() && session.seid in seidToSession
      requires forall k :: k in seidToSession ==> seidToSession[k].seid == k
      ensures var after := Registered(f, q, session, seidToSession);
        forall k :: k in Staying(session, q) <==> k in after && after[k] != session
    {
      hide UpdatesReturn;
    }

    /** What has become of the sides, told from what was before. */
    lemma SidesKeptIff(session: PfcpSession, list: seq<PdrObject>, stay: set<nat>, was: map<nat, seq<Pdr>>, snap: Snapshot, patched: seq<Pdr>)
      requires forall k :: k in stay <==> k in seidToSession && seidToSession[k] != session
      requires snap.Full() && snap.lists.Keys == was.Keys && forall k :: k in was ==> was[k] == snap.PdrsOf(k)
      requires forall k :: k in stay ==> k in was && seidToSession[k].pdrs == snap.lists[k]
      requires forall c :: c in snap.values && c !in list ==> c.value == snap.values[c]
      requires Values(list) == patched
      ensures SidesKept(session, was) <==> forall k :: k in stay ==> snap.Keeps(k, list, patched)
    {
      hide Values, Share, Seen, AllSameSide;
      forall k | k in stay
        ensures snap.Full() && k in snap.lists && Values(seidToSession[k].pdrs) == Seen(was[k], Share(snap.lists[k], list), patched)
      {
        SeenChanged(snap.lists[k], list, was[k]);
      }
    }

    /** The PDRs of every registered session, as they are now. */
    ghost function Pdrs(): map<nat, seq<Pdr>>
      reads *
    {
      map k | k in seidToSession :: Values(seidToSession[k].pdrs)
    }

    /** No PDR object of a registered session but session has changed sides since was. */
    ghost predicate SidesKept(session: PfcpSession, was: map<nat, seq<Pdr>>)
      reads *
    {
      forall k :: k in seidToSession && seidToSession[k] != session ==>
        k in was && |was[k]| == |seidToSession[k].pdrs| && AllSameSide(was[k], Values(seidToSession[k].pdrs))
    }

    lemma PdrsAre()
      ensures Pdrs().Keys == seidToSession.Keys
      ensures forall k :: k in seidToSession ==> |Pdrs()[k]| == |seidToSession[k].pdrs| && OneValueEach(seidToSession[k].pdrs, Pdrs()[k])
      ensures forall k, i :: k in seidToSession && 0 <= i < |seidToSession[k].pdrs| ==> Pdrs()[k][i] == seidToSession[k].pdrs[i].value
      ensures Settled() ==> forall k :: k in seidToSession ==> DerivedBy(seidToSession[k], Pdrs()[k]) && seidToSession[k].Derived()
    {
      hide OneValueEach, DerivedBy, Values, PfcpSession.Derived;
      forall k | k in seidToSession
        ensures OneValueEach(seidToSession[k].pdrs, Values(seidToSession[k].pdrs))
        ensures seidToSession[k].Derived() <==> DerivedBy(seidToSession[k], Values(seidToSession[k].pdrs))
      {
        OneValueNow(seidToSession[k].pdrs);
        DerivedNow(seidToSession[k]);
      }
    }

    lemma SettledIff(session: PfcpSession, was: map<nat, seq<Pdr>>)
      requires session.seid in seidToSession && seidToSession[session.seid] == session ==> session.Derived()
      requires forall k :: k in seidToSession ==> seidToSession[k].seid == k
      requires forall k :: k in seidToSession && seidToSession[k] != session ==>
        k in was && |was[k]| == |seidToSession[k].pdrs| && DerivedBy(seidToSession[k], was[k]) && OneValueEach(seidToSession[k].pdrs, was[k])
      ensures Settled() <==> SidesKept(session, was)
    {
      hide OneValueEach, DerivedBy, Values, PfcpSession.Derived, AllSameSide;
      forall k | k in seidToSession && seidToSession[k] != session
        ensures seidToSession[k].Derived() <==> AllSameSide(was[k], Values(seidToSession[k].pdrs))
      {
        DerivedKeptIff(seidToSession[k], was[k]);
      }
    }

    lemma NothingFound(session: PfcpSession, q: M.Request, log: seq<R.Call>)
      requires session.seid !in seidToSession
      ensures Modified(Found(session), q, session.Value(), log, log, false) && Registered(Found(session), q, session, seidToSession) == seidToSession
    {}

    /** The updates, the removals and the registration. */
    method Modify(session: PfcpSession, q: M.Request) returns (ok: bool)
      requires Valid() && session.Whole() && session.seid in seidToSession
      modifies `seidToSession, `calls, program, session`pdrsUplink, session`pdrsDownlink, session`qersUplink, session`qersDownlink
      modifies session.pdrs, session.fars, session.qers, session.urrs, session.bars, session.mars
      modifies seidToSession[session.seid]
      ensures Valid() && Done(old(Found(session)), q, session, old(calls), old(seidToSession), ok)
      ensures seidToSession == Registered(old(Found(session)), q, session, old(seidToSession))
      ensures seidToSession.Keys == old(seidToSession.Keys)
      ensures forall k :: k in seidToSession && seidToSession[k] != session ==> k in old(seidToSession) && seidToSession[k] == old(seidToSession[k])
      ensures seidToSession[session.seid] != session ==> unchanged(seidToSession[session.seid])
      ensures seidToSession[session.seid] == session && old(seidToSession[session.seid].Derived()) ==> session.Derived()
      ensures Values(old(session.pdrs)) == Updated(M.Pdrs, old(session.Rules()).pdrs, q.updatePdrs)
    {
      hide *;
      ghost var f, was := Found(session), calls;
      FoundIs(session);
      ghost var r := seidToSession[session.seid];
      var thrown := HandleUpdatesSeen(session, q, r);
      BareIsRules(session);
      if thrown {
        UpdatesThrew(f, q, session, seidToSession, session.Value(), was, calls);
        DoneIs(f, q, session, was, old(seidToSession), false);
        return false;
      }
      UpdatesDone(f.b, q, session.Rules(), was, calls);
      ok := RemoveAndRegister(session, q, f, was);
      NowRegistered(f, q, session, old(seidToSession));
      DoneIs(f, q, session, was, old(seidToSession), ok);
    }

    /** The rest of it, once all updates have returned. */
    method RemoveAndRegister(session: PfcpSession, q: M.Request, ghost f: Situation, ghost was: seq<R.Call>) returns (ok: bool)
      requires Valid() && session.seid in seidToSession && f.Both? && UpdatesReturn(f.b, q) && M.Fits(f.rb, f.sh)
      requires Removed(f.b, M.Updates(q), session.Rules(), was, calls) && (f.same <==> seidToSession[session.seid] == session)
      requires seidToSession[session.seid].Rules() == M.SeenSession(f.rb, f.sh, session.Rules())
      modifies `seidToSession, `calls, program, session`pdrsUplink, session`pdrsDownlink, session`qersUplink, session`qersDownlink
      modifies seidToSession[session.seid]
      ensures Valid() && Modified(f, q, session.Value(), was, calls, ok)
      ensures seidToSession == old(seidToSession)[session.seid := session] && session.Derived()
    {
      hide *;
      ghost var r := seidToSession[session.seid];
      ghost var s1, r1, c1 := session.Rules(), r.Rules(), calls;
      HandleRemovals(session.seid, q);
      ghost var s2, r2, c2 := session.Rules(), r.Rules(), calls;
      ok := UpdateSession(session);
      BareIsRules(session);
      AllTaken(f, q, s1, r1, r2, s2, session.Value(), was, c1, c2, ok);
    }

    /** The updates, and what the registered object sees of them. */
    method HandleUpdatesSeen(session: PfcpSession, q: M.Request, ghost r: PfcpSession) returns (thrown: bool)
      requires Valid() && session.seid in seidToSession && session.Whole()
      modifies session`pdrsUplink, session`pdrsDownlink, session`qersUplink, session`qersDownlink
      modifies session.pdrs, session.fars, session.qers, session.urrs, session.bars, session.mars, `calls, program
      ensures Valid() && Reached(old(session.Rules()), M.Updates(q), session.Rules(), old(calls), calls, thrown)
      ensures old(session.Derived()) ==> session.Derived()
      ensures M.Fits(old(r.Rules()), old(SharingOf(r, session)))
      ensures r.Rules() == M.SeenSession(old(r.Rules()), old(SharingOf(r, session)), session.Rules())
      ensures Values(session.pdrs) == Updated(M.Pdrs, old(session.Rules()).pdrs, q.updatePdrs)
    {
      hide *;
      ghost var b, log := session.Rules(), calls;
      ghost var was, sh := r.Rules(), SharingOf(r, session);
      RulesAre(r);
      thrown := HandleUpdates(session, q);
      PdrsUpdated(session, b, q, log, calls, thrown);
      SeenThrough(r, session, was, sh);
    }

    lemma FoundIs(session: PfcpSession)
      requires session.seid in seidToSession
      ensures var r := seidToSession[session.seid]; Found(session) == Both(session.Rules(), r.Rules(), SharingOf(r, session), r == session)
    {}

    /** Over every run of the operations above, the maps say of each session without a failed call
        exactly what the session, as last passed, says, whatever happened to other sessions. */
    lemma EveryRunAgreesAt(seid: nat)
      requires Valid()
      requires forall n :: 0 <= n < |calls| && R.SeidOf(calls[n]) == seid ==>
        R.Returns(calls[n]) && (!calls[n].CallRemove? ==> R.DistinctIds(calls[n].s))
      ensures R.AgreesAt(program.IndexState(), R.LiveOf(calls), seid) && (seid in R.LiveOf(calls) <==> seid in seidToSession)
    {
      hide R.AgreesAt, R.LiveOf, R.IndexAfter, R.Returns, R.DistinctIds, Registry;
      R.HistoryAgreesAt(calls, seid);
    }

    /** Sessions of different SEIDs are different objects. */
    lemma OthersApart()
      requires Valid()
      ensures forall k, l :: k in seidToSession && l in seidToSession && k != l ==> seidToSession[k] != seidToSession[l]
      ensures forall k :: k in seidToSession ==> seidToSession[k].seid == k
    {}
  }

  lemma DerivedIsDerivedBut(s: PfcpSession, id: nat)
    ensures s.Derived() ==> s.DerivedBut(id)
  {
    if s.Derived() {
      ListedAll(s.pdrsUplink, s.pdrs, Access, id);
      ListedAll(s.pdrsDownlink, s.pdrs, Core, id);
    }
  }

  /** What one step of a modification does: the session after it, the call it makes if any, and
      whether that call threw. */
  ghost predicate Took(b: Session, step: M.Step, b': Session, was: seq<R.Call>, calls: seq<R.Call>, thrown: bool) {
    b' == M.After(b, step) && Called(was, calls, M.Passed(b, step)) && (thrown <==> !M.AllReturn(M.Passed(b, step)))
  }

  lemma TookCall(b: Session, step: M.Step, was: seq<R.Call>, s: Session, thrown: bool)
    requires M.CallsPipeline(b, step) && M.Bare(s) == M.After(b, step) && (thrown <==> !R.ModifyReturns(s))
    ensures Took(b, step, M.Bare(s), was, was + [R.CallModify(s)], thrown)
  {
    hide M.CallsPipeline, M.After;
    M.OneReturns(M.Bare(s));
    assert ModifiedWith((was + [R.CallModify(s)])[|was| + 0], M.Bare(s));
  }

  lemma TookNone(b: Session, step: M.Step, was: seq<R.Call>)
    requires !M.CallsPipeline(b, step) && M.After(b, step) == b
    ensures Took(b, step, b, was, was, false)
  {
    M.NoneReturn();
  }

  lemma RemoveCalls(b: Session, kind: M.Kind, id: nat)
    ensures M.CallsPipeline(b, M.Remove(kind, id))
  {}

  lemma JustCategorized(s: PfcpSession)
    requires s.pdrsUplink == From(s.pdrs, Access) && s.pdrsDownlink == From(s.pdrs, Core)
    ensures s.Derived() && JustDerived(s.Value())
  {
    hide From, FromSource;
    FromValues(s.pdrs, Access);
    FromValues(s.pdrs, Core);
  }

  lemma AllOnce(s: PfcpSession)
    requires s.Whole()
    ensures Once(s.pdrs) && Once(s.fars) && Once(s.qers) && Once(s.urrs) && Once(s.bars) && Once(s.mars)
  {}

  lemma UpdateSteps(q: M.Request)
    ensures var us := M.Updates(q);
      |us| == 6 && us[0] == M.UpdatePdrs(q.updatePdrs) && us[1] == M.UpdateFars(q.updateFars) && us[2] == M.UpdateQers(q.updateQers)
      && us[3] == M.UpdateUrrs(q.updateUrrs) && us[4] == M.UpdateBars(M.AsSeq(q.updateBar)) && us[5] == M.UpdateMars(q.updateMars)
  {}

  /** Removals, whatever their calls did. */
  ghost predicate Removed(b: Session, steps: seq<M.Step>, b': Session, was: seq<R.Call>, calls: seq<R.Call>) {
    b' == M.AfterAll(b, steps) && Called(was, calls, M.Trace(b, steps))
  }

  lemma RemovedNone(b: Session, was: seq<R.Call>)
    ensures Removed(b, [], b, was, was)
  {}

  lemma RemovedThen(b0: Session, a: seq<M.Step>, b1: Session, c: seq<M.Step>, b2: Session, c0: seq<R.Call>, c1: seq<R.Call>, c2: seq<R.Call>)
    requires Removed(b0, a, b1, c0, c1) && Removed(b1, c, b2, c1, c2)
    ensures Removed(b0, a + c, b2, c0, c2)
  {
    hide M.AfterAll, M.Trace, Called;
    M.TraceSplit(b0, a, c);
    CalledThen(c0, c1, c2, M.Trace(b0, a), M.Trace(b1, c));
  }

  lemma RemovedOne(b0: Session, a: seq<M.Step>, b1: Session, c0: seq<R.Call>, c1: seq<R.Call>, step: M.Step, s: Session)
    requires Removed(b0, a, b1, c0, c1) && M.Bare(s) == M.After(b1, step) && M.CallsPipeline(b1, step)
    ensures Removed(b0, a + [step], M.Bare(s), c0, c1 + [R.CallModify(s)])
  {
    hide M.CallsPipeline, M.After;
    M.OnlyStep(b1, step);
    assert ModifiedWith((c1 + [R.CallModify(s)])[|c1| + 0], M.Bare(s));
    assert Called(c1, c1 + [R.CallModify(s)], [M.Bare(s)]);
    RemovedThen(b0, a, b1, [step], M.Bare(s), c0, c1, c1 + [R.CallModify(s)]);
  }

  /** Updates, up to the first call that throws. */
  ghost predicate Reached(b: Session, steps: seq<M.Step>, b': Session, was: seq<R.Call>, calls: seq<R.Call>, thrown: bool) {
    && Called(was, calls, M.Cut(M.Trace(b, steps))) && (thrown <==> !M.AllReturn(M.Trace(b, steps)))
    && b' == M.AfterAll(b, steps[..M.Taken(b, steps)])
  }

  lemma ReachedNothing(b: Session, steps: seq<M.Step>, was: seq<R.Call>)
    ensures Reached(b, steps[..0], b, was, was, false)
  {}

  lemma ReachedThen(b0: Session, done: seq<M.Step>, b1: Session, c0: seq<R.Call>, c1: seq<R.Call>, more: seq<M.Step>,
                    b2: Session, c2: seq<R.Call>, thrown: bool)
    requires Reached(b0, done, b1, c0, c1, false) && Reached(b1, more, b2, c1, c2, thrown)
    ensures Reached(b0, done + more, b2, c0, c2, thrown)
  {
    hide M.CallsPipeline, M.After, M.Passed, M.AllReturn, M.Cut, M.Trace, M.AfterAll, M.Taken, Called;
    WholeTaken(b0, done);
    M.TraceSplit(b0, done, more);
    var t, u := M.Trace(b0, done), M.Trace(b1, more);
    M.CutAll(t, u);
    M.CutWhole(t);
    M.AllReturnConcat(t, u);
    M.TakenSplit(b0, done, more);
    var n := M.Taken(b1, more);
    M.TraceSplit(b0, done, more[..n]);
    assert (done + more)[..|done| + n] == done + more[..n];
    CalledThen(c0, c1, c2, t, M.Cut(u));
  }

  /** One step more, the n-th. */
  lemma ReachedNext(b0: Session, steps: seq<M.Step>, n: nat, b1: Session, c0: seq<R.Call>, c1: seq<R.Call>,
                    b2: Session, c2: seq<R.Call>, thrown: bool)
    requires n < |steps| && Reached(b0, steps[..n], b1, c0, c1, false) && Took(b1, steps[n], b2, c1, c2, thrown)
    ensures Reached(b0, steps[..n + 1], b2, c0, c2, thrown)
    ensures thrown || n + 1 == |steps| ==> Reached(b0, steps, b2, c0, c2, thrown)
  {
    hide Reached, Took;
    TookIsReached(b1, steps[n], b2, c1, c2, thrown);
    ReachedThen(b0, steps[..n], b1, c0, c1, [steps[n]], b2, c2, thrown);
    assert steps[..n] + [steps[n]] == steps[..n + 1];
    if thrown {
      ReachedStop(b0, steps, n + 1, b2, c0, c2);
    } else if n + 1 == |steps| {
      assert steps[..n + 1] == steps;
    }
  }

  lemma TookIsReached(b: Session, step: M.Step, b': Session, was: seq<R.Call>, calls: seq<R.Call>, thrown: bool)
    requires Took(b, step, b', was, calls, thrown)
    ensures Reached(b, [step], b', was, calls, thrown)
  {
    hide M.CallsPipeline, M.After, M.Passed, M.AllReturn, M.Cut, M.Trace, M.AfterAll, M.Taken, Called;
    M.OnlyStep(b, step);
    M.CutPassed(b, step);
    M.OneTaken(b, step);
    assert [step][..1] == [step];
  }

  /** When no call throws every step is taken. */
  lemma WholeTaken(b: Session, steps: seq<M.Step>)
    requires M.AllReturn(M.Trace(b, steps))
    ensures M.Taken(b, steps) == |steps| && steps[..M.Taken(b, steps)] == steps
  {
    hide M.AllReturn, M.Trace, M.Taken, M.AfterAll;
    M.TakenSplit(b, steps, []);
    assert steps + [] == steps;
  }

  lemma ReachedStop(b: Session, steps: seq<M.Step>, n: nat, b': Session, was: seq<R.Call>, calls: seq<R.Call>)
    requires n <= |steps| && Reached(b, steps[..n], b', was, calls, true)
    ensures Reached(b, steps, b', was, calls, true)
  {
    hide M.AllReturn, M.Cut, M.Trace, M.AfterAll, M.Taken, Called;
    var done, more := steps[..n], steps[n..];
    assert steps == done + more;
    M.TraceSplit(b, done, more);
    M.CutAll(M.Trace(b, done), M.Trace(M.AfterAll(b, done), more));
    M.AllReturnConcat(M.Trace(b, done), M.Trace(M.AfterAll(b, done), more));
    M.TakenSplit(b, done, more);
    assert (done + more)[..M.Taken(b, done)] == done[..M.Taken(b, done)];
  }

  /** A PDR stays on the uplink side, on the downlink side, or off both. */
  predicate SameSide(p: Pdr, q: Pdr) {
    (SourceOf(p) == Some(Access) <==> SourceOf(q) == Some(Access)) && (SourceOf(p) == Some(Core) <==> SourceOf(q) == Some(Core))
  }

  predicate AllSameSide(vs: seq<Pdr>, us: seq<Pdr>)
    requires |us| == |vs|
  {
    forall i :: 0 <= i < |vs| ==> SameSide(vs[i], us[i])
  }

  /** The PDR lists of sessions, by SEID, and what their objects hold. */
  datatype Snapshot = Snapshot(lists: map<nat, seq<PdrObject>>, values: map<PdrObject, Pdr>) {
    ghost predicate Full() {
      forall k, i :: k in lists && 0 <= i < |lists[k]| ==> lists[k][i] in values
    }

    ghost function PdrsOf(k: nat): seq<Pdr>
      requires Full() && k in lists
    {
      seq(|lists[k]|, i requires 0 <= i < |lists[k]| => values[lists[k][i]])
    }

    /** The PDRs of session k stay on their sides once those of list hold patched. */
    ghost predicate Keeps(k: nat, list: seq<PdrObject>, patched: seq<Pdr>)
      requires Full()
    {
      k in lists && AllSameSide(PdrsOf(k), Seen(PdrsOf(k), Share(lists[k], list), patched))
    }
  }

  /** The lists hold the objects that were of their interface when the PDRs were was. */
  ghost predicate DerivedBy(s: PfcpSession, was: seq<Pdr>)
    requires |was| == |s.pdrs|
    reads s`pdrs, s`pdrsUplink, s`pdrsDownlink
  {
    multiset(s.pdrsUplink) == multiset(FromBy(s.pdrs, was, Access)) && multiset(s.pdrsDownlink) == multiset(FromBy(s.pdrs, was, Core))
  }

  lemma DerivedNow(s: PfcpSession)
    ensures s.Derived() <==> DerivedBy(s, Values(s.pdrs))
  {
    FromIsBy(s.pdrs, Access);
    FromIsBy(s.pdrs, Core);
  }

  /** Lists that are not derived again stay right exactly if no PDR object changes sides. */
  lemma DerivedKeptIff(s: PfcpSession, was: seq<Pdr>)
    requires |was| == |s.pdrs| && DerivedBy(s, was) && OneValueEach(s.pdrs, was)
    ensures s.Derived() <==> AllSameSide(was, Values(s.pdrs))
  {
    hide FromBy, OneValueEach;
    DerivedNow(s);
    var now := Values(s.pdrs);
    OneValueNow(s.pdrs);
    if forall i :: 0 <= i < |was| ==> SameSide(was[i], now[i]) {
      SameSidesBy(s.pdrs, was, now, Access);
      SameSidesBy(s.pdrs, was, now, Core);
    }
    if s.Derived() {
      forall i | 0 <= i < |was| ensures SameSide(was[i], now[i]) {
        CountBy(s.pdrs, was, Access, i);
        CountBy(s.pdrs, now, Access, i);
        CountBy(s.pdrs, was, Core, i);
        CountBy(s.pdrs, now, Core, i);
      }
    }
  }

  /** b is the session passed, rb the registered one, same if they are one object. */
  datatype Situation = NotFound | Both(b: Session, rb: Session, sh: M.Sharing, same: bool)

  /** If an update throws nothing else is done. Otherwise every step is taken, and the request
      succeeds if the last call returns. s is the session passed as it is afterwards. */
  ghost predicate Modified(f: Situation, q: M.Request, s: Session, was: seq<R.Call>, calls: seq<R.Call>, ok: bool) {
    match f
    case NotFound => !ok && calls == was
    case Both(b, rb, sh, same) =>
      if !UpdatesReturn(b, q) then
        !ok && Called(was, calls, M.Cut(M.Trace(b, M.Updates(q)))) && M.Bare(s) == M.AfterAll(b, M.Updates(q)[..M.Taken(b, M.Updates(q))])
      else M.Fits(rb, sh) && AllSteps(f, q, s, was, calls, ok)
  }

  ghost predicate AllSteps(f: Situation, q: M.Request, s: Session, was: seq<R.Call>, calls: seq<R.Call>, ok: bool)
    requires f.Both? && M.Fits(f.rb, f.sh)
  {
    var u := M.AfterAll(f.b, M.Updates(q));
    var r := M.SeenSession(f.rb, f.sh, u);
    var last := if f.same then M.AfterAll(u, M.Removals(q)) else u;
    && (f.same ==> r == u) && Called(was, calls, M.Trace(f.b, M.Updates(q)) + M.Trace(r, M.Removals(q)) + [last])
    && M.Bare(s) == last && ListsRight(s) && |calls| > 0 && calls[|calls| - 1] == R.CallModify(s) && (ok <==> R.ModifyReturns(s))
  }

  ghost predicate UpdatesReturn(b: Session, q: M.Request) {
    M.AllReturn(M.Trace(b, M.Updates(q)))
  }

  /** The session passed is registered unless an update threw. */
  ghost function Registered(f: Situation, q: M.Request, s: PfcpSession, bySeid: map<nat, PfcpSession>): map<nat, PfcpSession> {
    if f.Both? && UpdatesReturn(f.b, q) then bySeid[s.seid := s] else bySeid
  }

  lemma NowRegistered(f: Situation, q: M.Request, s: PfcpSession, bySeid: map<nat, PfcpSession>)
    requires f.Both? && UpdatesReturn(f.b, q)
    ensures Registered(f, q, s, bySeid) == bySeid[s.seid := s]
  {}

  lemma UpdatesThrew(f: Situation, q: M.Request, p: PfcpSession, bySeid: map<nat, PfcpSession>, s: Session, was: seq<R.Call>, calls: seq<R.Call>)
    requires f.Both? && Reached(f.b, M.Updates(q), M.Bare(s), was, calls, true)
    ensures Modified(f, q, s, was, calls, false) && Registered(f, q, p, bySeid) == bySeid
  {
    hide M.Trace, M.Updates, M.Cut, M.AllReturn, M.Taken, M.AfterAll, Called;
  }

  lemma UpdatesDone(b: Session, q: M.Request, u: Session, was: seq<R.Call>, calls: seq<R.Call>)
    requires Reached(b, M.Updates(q), u, was, calls, false)
    ensures Removed(b, M.Updates(q), u, was, calls) && UpdatesReturn(b, q)
  {
    hide M.Trace, M.Updates, M.AllReturn, M.Taken, M.AfterAll, Called;
    M.CutWhole(M.Trace(b, M.Updates(q)));
    WholeTaken(b, M.Updates(q));
  }

  lemma AllTaken(f: Situation, q: M.Request, u: Session, r: Session, left: Session, last: Session, s: Session,
                 was: seq<R.Call>, c1: seq<R.Call>, c2: seq<R.Call>, ok: bool)
    requires f.Both? && UpdatesReturn(f.b, q) && Removed(f.b, M.Updates(q), u, was, c1) && M.Fits(f.rb, f.sh) && r == M.SeenSession(f.rb, f.sh, u)
    requires Removed(r, M.Removals(q), left, c1, c2)
    requires if f.same then r == u && last == left else last == u
    requires M.Bare(s) == last && ListsRight(s) && (ok <==> R.ModifyReturns(s))
    ensures Modified(f, q, s, was, c2 + [R.CallModify(s)], ok)
  {
    hide M.Trace, M.Updates, M.Removals, M.AllReturn, M.AfterAll, M.Bare, M.SeenSession, ListsRight, R.ModifyReturns, Called, UpdatesReturn;
    var us, rs := M.Trace(f.b, M.Updates(q)), M.Trace(r, M.Removals(q));
    CalledThen(was, c1, c2, us, rs);
    OneMoreCall(c2, s);
    CalledThen(was, c2, c2 + [R.CallModify(s)], us + rs, [M.Bare(s)]);
  }

  lemma OneMoreCall(calls: seq<R.Call>, s: Session)
    ensures Called(calls, calls + [R.CallModify(s)], [M.Bare(s)])
  {
    hide M.Bare;
    assert ModifiedWith((calls + [R.CallModify(s)])[|calls| + 0], M.Bare(s));
  }

  lemma RulesAre(r: PfcpSession)
    ensures var s := r.Rules();
      && s.pdrs == Values(r.pdrs) && s.fars == Values(r.fars) && s.qers == Values(r.qers)
      && s.urrs == Values(r.urrs) && s.bars == Values(r.bars) && s.mars == Values(r.mars)
      && s == s.(seid := r.seid, pdrsUplink := [], pdrsDownlink := [])
  {}

  /** Whether or not a call threw, the PDRs have been updated and nothing else has become of them. */
  lemma PdrsUpdated(s: PfcpSession, b: Session, q: M.Request, was: seq<R.Call>, calls: seq<R.Call>, thrown: bool)
    requires Reached(b, M.Updates(q), s.Rules(), was, calls, thrown)
    ensures Values(s.pdrs) == Updated(M.Pdrs, b.pdrs, q.updatePdrs)
  {
    hide M.AllReturn, M.Cut, M.Trace, M.AfterAll, M.Updates, Called, Updated, Values;
    RulesAre(s);
    M.UpdatesOfPdrs(b, q, M.Taken(b, M.Updates(q)));
    M.SomeTaken(b, M.Updates(q));
  }

  /** The registered object, once rule objects have been patched through another, or through itself;
      was is the registered object before. */
  lemma SeenThrough(r: PfcpSession, s: PfcpSession, was: Session, sh: M.Sharing)
    requires sh == SharingOf(r, s) && was == was.(seid := r.seid, pdrsUplink := [], pdrsDownlink := [])
    requires |was.pdrs| == |r.pdrs| && forall i :: 0 <= i < |r.pdrs| && r.pdrs[i] !in s.pdrs ==> r.pdrs[i].value == was.pdrs[i]
    requires |was.fars| == |r.fars| && forall i :: 0 <= i < |r.fars| && r.fars[i] !in s.fars ==> r.fars[i].value == was.fars[i]
    requires |was.qers| == |r.qers| && forall i :: 0 <= i < |r.qers| && r.qers[i] !in s.qers ==> r.qers[i].value == was.qers[i]
    requires |was.urrs| == |r.urrs| && forall i :: 0 <= i < |r.urrs| && r.urrs[i] !in s.urrs ==> r.urrs[i].value == was.urrs[i]
    requires |was.bars| == |r.bars| && forall i :: 0 <= i < |r.bars| && r.bars[i] !in s.bars ==> r.bars[i].value == was.bars[i]
    requires |was.mars| == |r.mars| && forall i :: 0 <= i < |r.mars| && r.mars[i] !in s.mars ==> r.mars[i].value == was.mars[i]
    ensures M.Fits(was, sh) && r.Rules() == M.SeenSession(was, sh, s.Rules())
  {
    hide Seen, Share, Values;
    SeenChanged(r.pdrs, s.pdrs, was.pdrs);
    SeenChanged(r.fars, s.fars, was.fars);
    SeenChanged(r.qers, s.qers, was.qers);
    SeenChanged(r.urrs, s.urrs, was.urrs);
    SeenChanged(r.bars, s.bars, was.bars);
    SeenChanged(r.mars, s.mars, was.mars);
  }

  /** One object has one value, seen from either session. */
  predicate Consistent(b: Session, rb: Session, sh: M.Sharing)
    requires M.Fits(rb, sh)
  {
    forall i :: 0 <= i < |rb.pdrs| && sh.pdrs[i] < |b.pdrs| ==> b.pdrs[sh.pdrs[i]] == rb.pdrs[i]
  }

  lemma FoundConsistent(r: PfcpSession, s: PfcpSession)
    ensures M.Fits(r.Rules(), SharingOf(r, s)) && Consistent(s.Rules(), r.Rules(), SharingOf(r, s))
  {}

  /** A modification all of whose calls return leaves an index that agrees with the session as
      modified; r is the registered session as the updates leave it. */
  lemma ModifiedAgrees(f: Situation, q: M.Request, s: Session, was: seq<R.Call>, calls: seq<R.Call>)
    requires f.Both? && M.Fits(f.rb, f.sh) && Consistent(f.b, f.rb, f.sh) && f.rb.seid == f.b.seid
    requires R.DistinctIds(f.b) && R.DistinctIds(f.rb) && R.CleanAt(was, f.b.seid)
    requires Modified(f, q, s, was, calls, true)
    requires var r := M.SeenSession(f.rb, f.sh, M.AfterAll(f.b, M.Updates(q))); M.AllReturn(M.Trace(f.b, M.Updates(q))) && M.AllReturn(M.Trace(r, M.Removals(q)))
    ensures R.CleanAt(calls, f.b.seid) && R.AgreesAt(R.IndexAfter(calls), R.LiveOf(calls), f.b.seid)
    ensures f.b.seid in R.LiveOf(calls) && R.LiveOf(calls)[f.b.seid] == s
  {
    hide M.Trace, M.AfterAll, M.Updates, M.Removals, M.SeenSession, M.AllReturn, R.AgreesAt, R.DistinctIds, R.ModifyReturns, R.IndexAfter, R.LiveOf, R.CleanAt, Called, ListsRight;
    var u := M.AfterAll(f.b, M.Updates(q));
    var r := M.SeenSession(f.rb, f.sh, u);
    SeenDistinct(f, q, u);
    M.DistinctTrace(f.b, M.Updates(q));
    M.DistinctTrace(r, M.Removals(q));
    var last := if f.same then M.AfterAll(u, M.Removals(q)) else u;
    LastDistinct(f.b, q, f.same);
    PassedAreClean(f.b.seid, s, last, M.Trace(f.b, M.Updates(q)), M.Trace(r, M.Removals(q)));
    CalledClean(was, calls, M.Trace(f.b, M.Updates(q)) + M.Trace(r, M.Removals(q)) + [last], f.b.seid);
    R.HistoryAgreesAt(calls, f.b.seid);
    LastIsLive(calls, s);
  }

  /** Through another object a request removes nothing in the end: the PDRs with rules in the maps are
      those the session passed had, whichever of them the request removes. */
  lemma RemovedStays(f: Situation, q: M.Request, s: Session, was: seq<R.Call>, calls: seq<R.Call>, id: nat)
    requires f.Both? && !f.same && M.Fits(f.rb, f.sh) && Consistent(f.b, f.rb, f.sh) && f.rb.seid == f.b.seid
    requires R.DistinctIds(f.b) && R.DistinctIds(f.rb) && R.CleanAt(was, f.b.seid)
    requires Modified(f, q, s, was, calls, true)
    requires var r := M.SeenSession(f.rb, f.sh, M.AfterAll(f.b, M.Updates(q))); M.AllReturn(M.Trace(f.b, M.Updates(q))) && M.AllReturn(M.Trace(r, M.Removals(q)))
    ensures var x := R.IndexAfter(calls);
      f.b.seid in x.pduTypes
      && (R.RuleKey(x.pduTypes[f.b.seid], f.b.seid, id) in x.rules <==> exists i :: 0 <= i < |f.b.pdrs| && f.b.pdrs[i].id == id)
  {
    hide M.Trace, M.AfterAll, M.Updates, M.Removals, M.SeenSession, M.AllReturn, R.DistinctIds, R.ModifyReturns, R.IndexAfter, R.LiveOf, R.CleanAt, Called, ListsRight, R.AgreesAt, Modified, Consistent;
    ModifiedAgrees(f, q, s, was, calls);
    LastIsUpdated(f, q, s, was, calls);
    M.DistinctAfterAll(f.b, M.Updates(q));
    M.UpdatesKeepPdrIds(f.b, q);
    KeysAre(R.IndexAfter(calls), R.LiveOf(calls), s, f.b.pdrs, id);
  }

  lemma LastIsUpdated(f: Situation, q: M.Request, s: Session, was: seq<R.Call>, calls: seq<R.Call>)
    requires f.Both? && !f.same && Modified(f, q, s, was, calls, true)
    ensures s.pdrs == M.AfterAll(f.b, M.Updates(q)).pdrs && s.seid == M.AfterAll(f.b, M.Updates(q)).seid
  {
    hide M.Trace, M.AfterAll, M.Updates, M.Removals, M.SeenSession, M.AllReturn, R.ModifyReturns, Called, ListsRight;
  }

  lemma KeysAre(x: R.Index, live: map<nat, Session>, s: Session, was: seq<Pdr>, id: nat)
    requires s.seid in live && live[s.seid] == s && R.AgreesAt(x, live, s.seid)
    requires |was| == |s.pdrs| && forall i :: 0 <= i < |was| ==> s.pdrs[i].id == was[i].id
    ensures s.seid in x.pduTypes
    ensures R.RuleKey(x.pduTypes[s.seid], s.seid, id) in x.rules <==> exists i :: 0 <= i < |was| && was[i].id == id
  {
    hide R.SdfAgrees, R.ArrayAgrees, R.RulesOf, R.ModifyReturns, R.DistinctIds;
    var k := R.RuleKey(x.pduTypes[s.seid], s.seid, id);
    assert k in x.rules ==> id in R.PdrIds(s);
    if i :| 0 <= i < |was| && was[i].id == id {
      assert R.RuleStored(x, k.pdu, s, i);
    }
  }

  lemma LastIsLive(calls: seq<R.Call>, s: Session)
    requires |calls| > 0 && calls[|calls| - 1] == R.CallModify(s)
    ensures s.seid in R.LiveOf(calls) && R.LiveOf(calls)[s.seid] == s
  {}

  lemma LastDistinct(b: Session, q: M.Request, same: bool)
    requires R.DistinctIds(b)
    ensures var u := M.AfterAll(b, M.Updates(q));
            var last := if same then M.AfterAll(u, M.Removals(q)) else u;
      R.DistinctIds(last) && last.seid == b.seid
  {
    hide R.DistinctIds, M.Updates, M.Removals, M.AfterAll;
    M.DistinctAfterAll(b, M.Updates(q));
    M.DistinctAfterAll(M.AfterAll(b, M.Updates(q)), M.Removals(q));
  }

  /** Patching a shared PDR does not change its id. */
  lemma SeenDistinct(f: Situation, q: M.Request, u: Session)
    requires f.Both? && M.Fits(f.rb, f.sh) && Consistent(f.b, f.rb, f.sh) && R.DistinctIds(f.rb) && u == M.AfterAll(f.b, M.Updates(q))
    ensures var r := M.SeenSession(f.rb, f.sh, u); R.DistinctIds(r) && r.seid == f.rb.seid
  {
    hide M.AfterAll, M.Updates;
    M.UpdatesKeepPdrIds(f.b, q);
    var r := M.SeenSession(f.rb, f.sh, u);
    forall i | 0 <= i < |f.rb.pdrs| ensures r.pdrs[i].id == f.rb.pdrs[i].id {
      if f.sh.pdrs[i] < |u.pdrs| { assert u.pdrs[f.sh.pdrs[i]].id == f.b.pdrs[f.sh.pdrs[i]].id; }
    }
  }

  lemma PassedAreClean(seid: nat, s: Session, last: Session, us: seq<Session>, rs: seq<Session>)
    requires M.AllReturn(us) && M.AllReturn(rs) && M.Bare(s) == last && R.ModifyReturns(s) && R.DistinctIds(last) && last.seid == seid
    requires forall t :: t in us ==> R.DistinctIds(t) && t.seid == seid
    requires forall t :: t in rs ==> R.DistinctIds(t) && t.seid == seid
    ensures forall k :: 0 <= k < |us + rs + [last]| ==> CleanSession((us + rs + [last])[k], seid)
  {
    hide R.DistinctIds, R.ModifyReturns;
    SameReturns(s, last);
    forall k | 0 <= k < |us + rs + [last]| ensures CleanSession((us + rs + [last])[k], seid) {
      var t := (us + rs + [last])[k];
      if k < |us| { assert t == us[k] && t in us; } else if k < |us| + |rs| { assert t == rs[k - |us|] && t in rs; }
    }
  }

  predicate CleanSession(t: Session, seid: nat) {
    R.ModifyReturns(t) && R.DistinctIds(t) && t.seid == seid
  }

  lemma SameReturns(s: Session, t: Session)
    requires M.Bare(s) == t
    ensures (R.ModifyReturns(s) <==> R.ModifyReturns(t)) && (R.DistinctIds(s) <==> R.DistinctIds(t)) && s.seid == t.seid
  {}

  lemma CalledClean(was: seq<R.Call>, calls: seq<R.Call>, ts: seq<Session>, seid: nat)
    requires Called(was, calls, ts) && R.CleanAt(was, seid) && forall k :: 0 <= k < |ts| ==> CleanSession(ts[k], seid)
    ensures R.CleanAt(calls, seid)
  {
    hide R.DistinctIds, R.ModifyReturns, R.CreateReturns, R.LiveOf, M.Bare;
    forall n | 0 <= n < |calls| && R.SeidOf(calls[n]) == seid
      ensures R.Returns(calls[n]) && (!calls[n].CallRemove? ==> R.DistinctIds(calls[n].s)) && (calls[n].CallCreate? ==> seid !in R.LiveOf(calls[..n]))
    {
      if n < |was| {
        assert was[n] == calls[..|was|][n] == calls[n] && was[..n] == calls[..|was|][..n] == calls[..n];
      } else {
        var k := n - |was|;
        assert ModifiedWith(calls[|was| + k], ts[k]) && CleanSession(ts[k], seid);
        SameReturns(calls[n].s, ts[k]);
      }
    }
  }
}
