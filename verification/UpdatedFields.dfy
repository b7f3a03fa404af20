/** What the updates of a modification make of each field of the rules they name. */
module UpdatedFields {
  import opened OnesComplement
  import opened Options
  import opened PfcpRules
  import opened RuleLists
  import opened SessionModification
  import N4 = SessionManager
  import R = RuleIndex

  // The fields of a rule, and what an update gives for them.

  function Precedence(p: Pdr): nat { p.precedence }
  function PdiOf(p: Pdr): Option<Pdi> { p.pdi }
  function FarOfPdr(p: Pdr): Option<nat> { p.farId }
  function QerOfPdr(p: Pdr): Option<nat> { p.qerId }
  function UrrOfPdr(p: Pdr): Option<nat> { p.urrId }
  function MarOfPdr(p: Pdr): Option<nat> { p.marId }
  function GivenPrecedence(u: PdrUpdate): Option<nat> { u.precedence }
  function GivenPdi(u: PdrUpdate): Option<Option<Pdi>> { Set(u.pdi) }
  function GivenFar(u: PdrUpdate): Option<Option<nat>> { Set(u.farId) }
  function GivenQer(u: PdrUpdate): Option<Option<nat>> { Set(u.qerId) }
  function GivenUrr(u: PdrUpdate): Option<Option<nat>> { Set(u.urrId) }
  function NoMar(u: PdrUpdate): Option<Option<nat>> { None }

  function BarOf(f: Far): Option<nat> { f.barId }
  function DlTeidOf(f: Far): u32 { f.dlTeid }
  function FarBody(f: Far): int { f.body }
  function GivenBar(u: FarUpdate): Option<Option<nat>> { Set(u.barId) }
  function GivenDlTeid(u: FarUpdate): Option<u32> { u.dlTeid }
  function GivenFarBody(u: FarUpdate): Option<int> { u.body }

  function Qfi(q: Qer): nat { q.qfi }
  function QerBody(q: Qer): int { q.body }
  function GivenQfi(u: QerUpdate): Option<nat> { u.qfi }
  function GivenQerBody(u: QerUpdate): Option<int> { u.body }

  function Body(r: Rule): int { r.body }
  function GivenBody(u: RuleUpdate): Option<int> { u.body }

  function PdrNamed(u: PdrUpdate): Option<nat> { u.id }
  function FarNamed(u: FarUpdate): Option<nat> { u.id }
  function QerNamed(u: QerUpdate): Option<nat> { u.id }
  function RuleNamed(u: RuleUpdate): Option<nat> { u.id }

  /** An IE that is there sets the field to its value, never to none. */
  function Set<X>(x: Option<X>): Option<Option<X>> {
    if x.Some? then Some(x) else None
  }

  /** The rule at i is the first of its id, which is the one updates of that id find. */
  predicate First<T>(idOf: T -> nat, xs: seq<T>, i: nat)
    requires i < |xs|
  {
    forall j :: 0 <= j < i ==> idOf(xs[j]) != idOf(xs[i])
  }

  /** Each field of a PDR is what the last update of its id that carries the IE says, or what it was. */
  ghost predicate PdrSettled(p: Pdr, us: seq<PdrUpdate>, now: Pdr) {
    && now.id == p.id && now.marId == p.marId
    && LastGivenIs(PdrNamed, p.id, us, GivenPrecedence, p.precedence, now.precedence)
    && LastGivenIs(PdrNamed, p.id, us, GivenPdi, p.pdi, now.pdi)
    && LastGivenIs(PdrNamed, p.id, us, GivenFar, p.farId, now.farId)
    && LastGivenIs(PdrNamed, p.id, us, GivenQer, p.qerId, now.qerId)
    && LastGivenIs(PdrNamed, p.id, us, GivenUrr, p.urrId, now.urrId)
  }

  ghost predicate FarSettled(f: Far, us: seq<FarUpdate>, now: Far) {
    && now.id == f.id
    && LastGivenIs(FarNamed, f.id, us, GivenBar, f.barId, now.barId)
    && LastGivenIs(FarNamed, f.id, us, GivenDlTeid, f.dlTeid, now.dlTeid)
    && LastGivenIs(FarNamed, f.id, us, GivenFarBody, f.body, now.body)
  }

  ghost predicate QerSettled(q: Qer, us: seq<QerUpdate>, now: Qer) {
    && now.id == q.id
    && LastGivenIs(QerNamed, q.id, us, GivenQfi, q.qfi, now.qfi)
    && LastGivenIs(QerNamed, q.id, us, GivenQerBody, q.body, now.body)
  }

  ghost predicate RuleSettled(r: Rule, us: seq<RuleUpdate>, now: Rule) {
    now.id == r.id && LastGivenIs(RuleNamed, r.id, us, GivenBody, r.body, now.body)
  }

  lemma FieldSettles<T(!new), U(!new), X(!new)>(f: Family<T, U>, named: U -> Option<nat>, xs: seq<T>, us: seq<U>, i: nat,
                                                field: T -> X, given: U -> Option<X>)
    requires KeepsIds(f) && i < |xs| && First(f.idOf, xs, i) && forall u :: f.target(u) == named(u)
    requires forall x, u :: field(f.patch(x, u)) == if given(u).Some? then given(u).value else field(x)
    ensures LastGivenIs(named, f.idOf(xs[i]), us, given, field(xs[i]), field(Updated(f, xs, us)[i]))
  {
    hide KeepsIds, Updated;
    LastGivenStays(f, xs, us, i, field, given);
    assert forall n :: 0 <= n < |us| ==> (Gives(f.target, f.idOf(xs[i]), us[n], given) <==> Gives(named, f.idOf(xs[i]), us[n], given));
  }

  lemma PdrFields(xs: seq<Pdr>, us: seq<PdrUpdate>, i: nat)
    requires i < |xs| && First(PdrId, xs, i)
    ensures PdrSettled(xs[i], us, Updated(Pdrs, xs, us)[i])
  {
    hide Updated, LastGivenIs, KeepsIds;
    IdsStay();
    UpdatedIds(Pdrs, xs, us);
    FieldSettles(Pdrs, PdrNamed, xs, us, i, Precedence, GivenPrecedence);
    FieldSettles(Pdrs, PdrNamed, xs, us, i, PdiOf, GivenPdi);
    FieldSettles(Pdrs, PdrNamed, xs, us, i, FarOfPdr, GivenFar);
    FieldSettles(Pdrs, PdrNamed, xs, us, i, QerOfPdr, GivenQer);
    FieldSettles(Pdrs, PdrNamed, xs, us, i, UrrOfPdr, GivenUrr);
    FieldSettles(Pdrs, PdrNamed, xs, us, i, MarOfPdr, NoMar);
    NeverGiven(PdrNamed, xs[i].id, us, NoMar, xs[i].marId, Updated(Pdrs, xs, us)[i].marId);
  }

  lemma NeverGiven<U(!new), X(!new)>(target: U -> Option<nat>, id: nat, us: seq<U>, given: U -> Option<X>, was: X, now: X)
    requires LastGivenIs(target, id, us, given, was, now) && forall u :: given(u).None?
    ensures now == was
  {}

  lemma FarFields(xs: seq<Far>, us: seq<FarUpdate>, i: nat)
    requires i < |xs| && First(FarId, xs, i)
    ensures FarSettled(xs[i], us, Updated(Fars, xs, us)[i])
  {
    hide Updated, LastGivenIs, KeepsIds;
    IdsStay();
    UpdatedIds(Fars, xs, us);
    FieldSettles(Fars, FarNamed, xs, us, i, BarOf, GivenBar);
    FieldSettles(Fars, FarNamed, xs, us, i, DlTeidOf, GivenDlTeid);
    FieldSettles(Fars, FarNamed, xs, us, i, FarBody, GivenFarBody);
  }

  lemma QerFields(xs: seq<Qer>, us: seq<QerUpdate>, i: nat)
    requires i < |xs| && First(QerId, xs, i)
    ensures QerSettled(xs[i], us, Updated(Qers, xs, us)[i])
  {
    hide Updated, LastGivenIs, KeepsIds;
    IdsStay();
    UpdatedIds(Qers, xs, us);
    FieldSettles(Qers, QerNamed, xs, us, i, Qfi, GivenQfi);
    FieldSettles(Qers, QerNamed, xs, us, i, QerBody, GivenQerBody);
  }

  lemma RuleFields(xs: seq<Rule>, us: seq<RuleUpdate>, i: nat)
    requires i < |xs| && First(RuleId, xs, i)
    ensures RuleSettled(xs[i], us, Updated(Rules, xs, us)[i])
  {
    hide Updated, LastGivenIs, KeepsIds;
    IdsStay();
    UpdatedIds(Rules, xs, us);
    FieldSettles(Rules, RuleNamed, xs, us, i, Body, GivenBody);
  }

  /** The session as the updates of a request, if none throws, leave it: every first rule of its id is
      settled, and any other is as it was. */
  ghost predicate Settled(s: Session, q: Request, now: Session) {
    && now.seid == s.seid && |now.pdrs| == |s.pdrs| && |now.fars| == |s.fars| && |now.qers| == |s.qers|
    && |now.urrs| == |s.urrs| && |now.bars| == |s.bars| && |now.mars| == |s.mars|
    && (forall i :: 0 <= i < |s.pdrs| ==> if First(PdrId, s.pdrs, i) then PdrSettled(s.pdrs[i], q.updatePdrs, now.pdrs[i]) else now.pdrs[i] == s.pdrs[i])
    && (forall i :: 0 <= i < |s.fars| ==> if First(FarId, s.fars, i) then FarSettled(s.fars[i], q.updateFars, now.fars[i]) else now.fars[i] == s.fars[i])
    && (forall i :: 0 <= i < |s.qers| ==> if First(QerId, s.qers, i) then QerSettled(s.qers[i], q.updateQers, now.qers[i]) else now.qers[i] == s.qers[i])
    && (forall i :: 0 <= i < |s.urrs| ==> if First(RuleId, s.urrs, i) then RuleSettled(s.urrs[i], q.updateUrrs, now.urrs[i]) else now.urrs[i] == s.urrs[i])
    && (forall i :: 0 <= i < |s.bars| ==>
          if First(RuleId, s.bars, i) then RuleSettled(s.bars[i], if q.updateBar.Some? then [q.updateBar.value] else [], now.bars[i]) else now.bars[i] == s.bars[i])
    && (forall i :: 0 <= i < |s.mars| ==> if First(RuleId, s.mars, i) then RuleSettled(s.mars[i], q.updateMars, now.mars[i]) else now.mars[i] == s.mars[i])
  }

  /** What ModifySession makes of the session passed before any removal. */
  lemma UpdatesSettle(s: Session, q: Request)
    ensures Settled(s, q, AfterAll(s, Updates(q)))
  {
    hide Updated, PdrSettled, FarSettled, QerSettled, RuleSettled, First;
    UpdatedLists(s, q);
    forall i | 0 <= i < |s.pdrs|
      ensures if First(PdrId, s.pdrs, i) then PdrSettled(s.pdrs[i], q.updatePdrs, Updated(Pdrs, s.pdrs, q.updatePdrs)[i])
              else Updated(Pdrs, s.pdrs, q.updatePdrs)[i] == s.pdrs[i]
    {
      if First(PdrId, s.pdrs, i) { PdrFields(s.pdrs, q.updatePdrs, i); } else { NotFirst(Pdrs, s.pdrs, q.updatePdrs, i); }
    }
    forall i | 0 <= i < |s.fars|
      ensures if First(FarId, s.fars, i) then FarSettled(s.fars[i], q.updateFars, Updated(Fars, s.fars, q.updateFars)[i])
              else Updated(Fars, s.fars, q.updateFars)[i] == s.fars[i]
    {
      if First(FarId, s.fars, i) { FarFields(s.fars, q.updateFars, i); } else { NotFirst(Fars, s.fars, q.updateFars, i); }
    }
    forall i | 0 <= i < |s.qers|
      ensures if First(QerId, s.qers, i) then QerSettled(s.qers[i], q.updateQers, Updated(Qers, s.qers, q.updateQers)[i])
              else Updated(Qers, s.qers, q.updateQers)[i] == s.qers[i]
    {
      if First(QerId, s.qers, i) { QerFields(s.qers, q.updateQers, i); } else { NotFirst(Qers, s.qers, q.updateQers, i); }
    }
    RulesSettle(s.urrs, q.updateUrrs);
    RulesSettle(s.bars, AsSeq(q.updateBar));
    RulesSettle(s.mars, q.updateMars);
  }

  lemma RulesSettle(xs: seq<Rule>, us: seq<RuleUpdate>)
    ensures forall i :: 0 <= i < |xs| ==>
      if First(RuleId, xs, i) then RuleSettled(xs[i], us, Updated(Rules, xs, us)[i]) else Updated(Rules, xs, us)[i] == xs[i]
  {
    hide Updated, RuleSettled, First;
    forall i | 0 <= i < |xs|
      ensures if First(RuleId, xs, i) then RuleSettled(xs[i], us, Updated(Rules, xs, us)[i]) else Updated(Rules, xs, us)[i] == xs[i]
    {
      if First(RuleId, xs, i) { RuleFields(xs, us, i); } else { NotFirst(Rules, xs, us, i); }
    }
  }

  lemma {:induction false} NotFirst<T, U>(f: Family<T, U>, xs: seq<T>, us: seq<U>, i: nat)
    requires i < |xs| && !First(f.idOf, xs, i)
    ensures Updated(f, xs, us)[i] == xs[i]
    decreases |us|
  {
    if us != [] { NotFirst(f, xs, us[..|us| - 1], i); }
  }

  lemma UpdatedLists(s: Session, q: Request)
    ensures var now := AfterAll(s, Updates(q));
      && now.seid == s.seid && now.pdrs == Updated(Pdrs, s.pdrs, q.updatePdrs) && now.fars == Updated(Fars, s.fars, q.updateFars)
      && now.qers == Updated(Qers, s.qers, q.updateQers) && now.urrs == Updated(Rules, s.urrs, q.updateUrrs)
      && now.bars == Updated(Rules, s.bars, if q.updateBar.Some? then [q.updateBar.value] else []) && now.mars == Updated(Rules, s.mars, q.updateMars)
  {
    hide Updated;
    var us := Updates(q);
    assert us[1..] == LaterUpdates(q);
    var later := LaterUpdates(q);
    assert later[1..][1..][1..][1..] == [UpdateMars(q.updateMars)] && later[1..][1..][1..] == [UpdateBars(AsSeq(q.updateBar)), UpdateMars(q.updateMars)];
    assert later[1..][1..][1..][1..][1..] == [];
    var s1 := After(s, us[0]);
    var s2 := After(s1, later[0]);
    var s3 := After(s2, later[1]);
    var s4 := After(s3, later[2]);
    var s5 := After(s4, later[3]);
    var s6 := After(s5, later[4]);
    assert AfterAll(s5, later[1..][1..][1..][1..]) == s6;
    assert AfterAll(s4, later[1..][1..][1..]) == s6;
    assert AfterAll(s3, later[1..][1..]) == s6;
    assert AfterAll(s2, later[1..]) == s6;
    assert AfterAll(s1, later) == s6;
  }

  /** The calls of the updates when there are updates of every kind that hit: PDRs, FARs, QERs, URRs, the
      BAR and MARs in this order, each call with everything updated so far. */
  lemma CallsInOrder(s: Session, q: Request)
    requires Hit(Pdrs, s.pdrs, q.updatePdrs) && Hit(Fars, s.fars, q.updateFars) && Hit(Qers, s.qers, q.updateQers)
    requires Hit(Rules, s.urrs, q.updateUrrs) && q.updateBar.Some? && Hit(Rules, s.bars, [q.updateBar.value]) && Hit(Rules, s.mars, q.updateMars)
    ensures var t := Trace(s, Updates(q));
      && |t| == 6 && t[0] == s.(pdrs := Updated(Pdrs, s.pdrs, q.updatePdrs))
      && t[1] == t[0].(fars := Updated(Fars, s.fars, q.updateFars)) && t[2] == t[1].(qers := Updated(Qers, s.qers, q.updateQers))
      && t[3] == t[2].(urrs := Updated(Rules, s.urrs, q.updateUrrs)) && t[4] == t[3].(bars := Updated(Rules, s.bars, [q.updateBar.value]))
      && t[5] == t[4].(mars := Updated(Rules, s.mars, q.updateMars))
  {
    hide Updated, Hit, AfterAll, Updates, Trace;
    var us := Updates(q);
    UpdatesAre(q);
    var s1 := After(s, us[0]);
    Stage(s, us, 0, s1);
    var s2 := After(s1, us[1]);
    Stage(s1, us, 1, s2);
    var s3 := After(s2, us[2]);
    Stage(s2, us, 2, s3);
    var s4 := After(s3, us[3]);
    Stage(s3, us, 3, s4);
    var s5 := After(s4, us[4]);
    Stage(s4, us, 4, s5);
    var s6 := After(s5, us[5]);
    Stage(s5, us, 5, s6);
    SixStages(s, us, s1, s2, s3, s4, s5, s6);
  }

  lemma SixStages(s: Session, us: seq<Step>, s1: Session, s2: Session, s3: Session, s4: Session, s5: Session, s6: Session)
    requires |us| == 6 && Trace(s, us[0..]) == [s1] + Trace(s1, us[1..]) && Trace(s1, us[1..]) == [s2] + Trace(s2, us[2..])
    requires Trace(s2, us[2..]) == [s3] + Trace(s3, us[3..]) && Trace(s3, us[3..]) == [s4] + Trace(s4, us[4..])
    requires Trace(s4, us[4..]) == [s5] + Trace(s5, us[5..]) && Trace(s5, us[5..]) == [s6] + Trace(s6, us[6..]) && Trace(s6, us[6..]) == []
    ensures Trace(s, us) == [s1, s2, s3, s4, s5, s6]
  {
    hide Trace;
    assert us[0..] == us;
  }

  lemma UpdatesAre(q: Request)
    ensures var us := Updates(q);
      us[0] == UpdatePdrs(q.updatePdrs) && us[1] == UpdateFars(q.updateFars) && us[2] == UpdateQers(q.updateQers)
      && us[3] == UpdateUrrs(q.updateUrrs) && us[4] == UpdateBars(AsSeq(q.updateBar)) && us[5] == UpdateMars(q.updateMars)
  {}

  /** One step of the trace. */
  lemma Stage(s: Session, steps: seq<Step>, k: nat, t: Session)
    requires k < |steps| && t == After(s, steps[k])
    ensures Trace(s, steps[k..]) == (if CallsPipeline(s, steps[k]) then [t] else []) + Trace(t, steps[k + 1..])
    ensures k + 1 == |steps| ==> Trace(t, steps[k + 1..]) == []
  {
    hide After, CallsPipeline;
    assert steps[k..][1..] == steps[k + 1..];
  }

  // ---------------------------------------------------------------- removals

  /** The rules whose id is named are gone, the others all there. */
  ghost predicate Left<T(!new)>(idOf: T -> nat, xs: seq<T>, ids: seq<Option<nat>>, now: seq<T>) {
    forall x :: multiset(now)[x] == if Some(idOf(x)) in ids then 0 else multiset(xs)[x]
  }

  /** What the removals of a request leave of the session they act on. MARs stay. */
  ghost predicate Reduced(s: Session, q: Request, now: Session) {
    && now.seid == s.seid && now.mars == s.mars
    && Left(PdrId, s.pdrs, q.removePdrs, now.pdrs) && Left(FarId, s.fars, q.removeFars, now.fars)
    && Left(QerId, s.qers, q.removeQers, now.qers) && Left(RuleId, s.urrs, q.removeUrrs, now.urrs)
    && Left(RuleId, s.bars, if q.removeBar.Some? then [q.removeBar.value] else [], now.bars)
  }

  function WithoutAll<T>(idOf: T -> nat, xs: seq<T>, ids: seq<Option<nat>>): seq<T>
    decreases |ids|
  {
    if ids == [] then xs else WithoutAll(idOf, if ids[0].Some? then Without(idOf, xs, ids[0].value) else xs, ids[1..])
  }

  lemma {:induction false} WithoutCounts<T(!new)>(idOf: T -> nat, xs: seq<T>, id: nat)
    ensures forall x :: multiset(Without(idOf, xs, id))[x] == if idOf(x) == id then 0 else multiset(xs)[x]
  {
    if xs != [] {
      WithoutCounts(idOf, xs[1..], id);
      assert xs == [xs[0]] + xs[1..];
    }
  }

  lemma {:induction false} WithoutAllLeaves<T(!new)>(idOf: T -> nat, xs: seq<T>, ids: seq<Option<nat>>)
    ensures Left(idOf, xs, ids, WithoutAll(idOf, xs, ids))
    decreases |ids|
  {
    hide Without;
    if ids != [] {
      var ys := if ids[0].Some? then Without(idOf, xs, ids[0].value) else xs;
      WithoutAllLeaves(idOf, ys, ids[1..]);
      if ids[0].Some? { WithoutCounts(idOf, xs, ids[0].value); }
      assert forall x :: Some(idOf(x)) in ids <==> Some(idOf(x)) == ids[0] || Some(idOf(x)) in ids[1..];
    }
  }

  function RemovedAll(s: Session, k: Kind, ids: seq<Option<nat>>): Session {
    match k
    case PdrKind => s.(pdrs := WithoutAll(PdrId, s.pdrs, ids))
    case FarKind => s.(fars := WithoutAll(FarId, s.fars, ids))
    case QerKind => s.(qers := WithoutAll(QerId, s.qers, ids))
    case UrrKind => s.(urrs := WithoutAll(RuleId, s.urrs, ids))
    case BarKind => s.(bars := WithoutAll(RuleId, s.bars, ids))
    case MarKind => s.(mars := WithoutAll(RuleId, s.mars, ids))
  }

  lemma {:induction false} RemovalsOfKind(s: Session, k: Kind, ids: seq<Option<nat>>)
    ensures AfterAll(s, RemovalsOf(k, ids)) == RemovedAll(s, k, ids)
    decreases |ids|
  {
    hide Without;
    if ids != [] {
      if ids[0].Some? {
        assert ([Remove(k, ids[0].value)] + RemovalsOf(k, ids[1..]))[1..] == RemovalsOf(k, ids[1..]);
        RemovalsOfKind(After(s, Remove(k, ids[0].value)), k, ids[1..]);
      } else {
        assert RemovalsOf(k, ids) == RemovalsOf(k, ids[1..]);
        RemovalsOfKind(s, k, ids[1..]);
      }
    }
  }

  lemma RemovalsReduce(s: Session, q: Request)
    ensures Reduced(s, q, AfterAll(s, Removals(q)))
  {
    hide Left, WithoutAll, AfterAll, RemovalsOf;
    var a := RemovedAll(s, PdrKind, q.removePdrs);
    var b := RemovedAll(a, FarKind, q.removeFars);
    var c := RemovedAll(b, QerKind, q.removeQers);
    var d := RemovedAll(c, UrrKind, q.removeUrrs);
    RemovalsInTurn(s, q, a, b, c, d);
    WithoutAllLeaves(PdrId, s.pdrs, q.removePdrs);
    WithoutAllLeaves(FarId, s.fars, q.removeFars);
    WithoutAllLeaves(QerId, s.qers, q.removeQers);
    WithoutAllLeaves(RuleId, s.urrs, q.removeUrrs);
    WithoutAllLeaves(RuleId, s.bars, AsSeq(q.removeBar));
  }

  lemma RemovalsInTurn(s: Session, q: Request, a: Session, b: Session, c: Session, d: Session)
    requires a == RemovedAll(s, PdrKind, q.removePdrs) && b == RemovedAll(a, FarKind, q.removeFars)
    requires c == RemovedAll(b, QerKind, q.removeQers) && d == RemovedAll(c, UrrKind, q.removeUrrs)
    ensures AfterAll(s, Removals(q)) == RemovedAll(d, BarKind, AsSeq(q.removeBar))
  {
    hide WithoutAll, AfterAll, RemovalsOf, RemovedAll;
    RemovalsOfKind(s, PdrKind, q.removePdrs);
    RemovalsOfKind(a, FarKind, q.removeFars);
    RemovalsOfKind(b, QerKind, q.removeQers);
    RemovalsOfKind(c, UrrKind, q.removeUrrs);
    RemovalsOfKind(d, BarKind, AsSeq(q.removeBar));
    TraceSplit(s, RemovalsOf(PdrKind, q.removePdrs), RemovalsAfterPdrs(q));
    var rest := RemovalsOf(FarKind, q.removeFars) + RemovalsOf(QerKind, q.removeQers);
    TraceSplit(a, RemovalsOf(FarKind, q.removeFars), RemovalsOf(QerKind, q.removeQers));
    TraceSplit(a, rest, RemovalsOf(UrrKind, q.removeUrrs));
    TraceSplit(a, rest + RemovalsOf(UrrKind, q.removeUrrs), RemovalsOf(BarKind, AsSeq(q.removeBar)));
  }

  /** The session a modification registers, if no update throws: its fields are settled by the updates,
      and if it is the registered object itself, it is reduced by the removals. */
  lemma ModifiedIsSettled(f: N4.Situation, q: Request, s: Session, was: seq<R.Call>, calls: seq<R.Call>, ok: bool)
    requires f.Both? && N4.UpdatesReturn(f.b, q) && N4.Modified(f, q, s, was, calls, ok)
    ensures exists u :: Settled(f.b, q, u) && if f.same then Reduced(u, q, Bare(s)) else Bare(s) == u
  {
    hide Settled, Reduced, N4.Called, Updates, Removals, AfterAll, Trace, SeenSession, Cut;
    UpdatesSettle(f.b, q);
    RemovalsReduce(AfterAll(f.b, Updates(q)), q);
  }

  /** One removal of each kind: PDR, FAR, QER, URR and BAR in this order, each call with everything
      removed so far. */
  lemma RemovalsInOrder(s: Session, pdr: nat, far: nat, qer: nat, urr: nat, bar: nat, q: Request)
    requires q.removePdrs == [Some(pdr)] && q.removeFars == [Some(far)] && q.removeQers == [Some(qer)] && q.removeUrrs == [Some(urr)]
    requires q.removeBar == Some(Some(bar))
    ensures var t := Trace(s, Removals(q));
      && |t| == 5 && t[0] == Removed(s, PdrKind, pdr) && t[1] == Removed(t[0], FarKind, far) && t[2] == Removed(t[1], QerKind, qer)
      && t[3] == Removed(t[2], UrrKind, urr) && t[4] == Removed(t[3], BarKind, bar)
  {
    hide Removed, AfterAll, RemovalsOf, Removals, Trace;
    var rs := [Remove(PdrKind, pdr), Remove(FarKind, far), Remove(QerKind, qer), Remove(UrrKind, urr), Remove(BarKind, bar)];
    RemovalsAre(q, pdr, far, qer, urr, bar);
    var s1 := Removed(s, PdrKind, pdr);
    Stage(s, rs, 0, s1);
    var s2 := Removed(s1, FarKind, far);
    Stage(s1, rs, 1, s2);
    var s3 := Removed(s2, QerKind, qer);
    Stage(s2, rs, 2, s3);
    var s4 := Removed(s3, UrrKind, urr);
    Stage(s3, rs, 3, s4);
    var s5 := Removed(s4, BarKind, bar);
    Stage(s4, rs, 4, s5);
    FiveStages(s, rs, s1, s2, s3, s4, s5);
  }

  lemma FiveStages(s: Session, rs: seq<Step>, s1: Session, s2: Session, s3: Session, s4: Session, s5: Session)
    requires |rs| == 5 && Trace(s, rs[0..]) == [s1] + Trace(s1, rs[1..]) && Trace(s1, rs[1..]) == [s2] + Trace(s2, rs[2..])
    requires Trace(s2, rs[2..]) == [s3] + Trace(s3, rs[3..]) && Trace(s3, rs[3..]) == [s4] + Trace(s4, rs[4..])
    requires Trace(s4, rs[4..]) == [s5] + Trace(s5, rs[5..]) && Trace(s5, rs[5..]) == []
    ensures Trace(s, rs) == [s1, s2, s3, s4, s5]
  {
    hide Trace;
    assert rs[0..] == rs;
  }

  lemma RemovalsAre(q: Request, pdr: nat, far: nat, qer: nat, urr: nat, bar: nat)
    requires q.removePdrs == [Some(pdr)] && q.removeFars == [Some(far)] && q.removeQers == [Some(qer)] && q.removeUrrs == [Some(urr)]
    requires q.removeBar == Some(Some(bar))
    ensures Removals(q) == [Remove(PdrKind, pdr), Remove(FarKind, far), Remove(QerKind, qer), Remove(UrrKind, urr), Remove(BarKind, bar)]
  {
    hide RemovalsOf;
    OneRemoval(PdrKind, pdr);
    OneRemoval(FarKind, far);
    OneRemoval(QerKind, qer);
    OneRemoval(UrrKind, urr);
    OneRemoval(BarKind, bar);
  }

  lemma OneRemoval(k: Kind, id: nat)
    ensures RemovalsOf(k, [Some(id)]) == [Remove(k, id)]
  {
    assert [Some(id)][1..] == [];
  }
}
