/** A session modification request, as the sequence of steps the session manager takes and of
    the pipeline calls it makes on the way. */
module SessionModification {
  import opened OnesComplement
  import opened Options
  import opened PfcpRules
  import opened RuleLists
  import opened RuleIndex

  /** What an Update IE carries; the rules' remaining fields are replaced as a whole. An F-TEID
      the UPF was asked to choose appears in pdi as chosen. */
  datatype PdrUpdate = PdrUpdate(id: Option<nat>, precedence: Option<nat>, pdi: Option<Pdi>, farId: Option<nat>,
                                 urrId: Option<nat>, qerId: Option<nat>)
  datatype FarUpdate = FarUpdate(id: Option<nat>, barId: Option<nat>, dlTeid: Option<u32>, body: Option<int>)
  datatype QerUpdate = QerUpdate(id: Option<nat>, qfi: Option<nat>, body: Option<int>)
  datatype RuleUpdate = RuleUpdate(id: Option<nat>, body: Option<int>)

  datatype Kind = PdrKind | FarKind | QerKind | UrrKind | BarKind | MarKind

  datatype Step =
    | UpdatePdrs(pdrs: seq<PdrUpdate>)
    | UpdateFars(fars: seq<FarUpdate>)
    | UpdateQers(qers: seq<QerUpdate>)
    | UpdateUrrs(urrs: seq<RuleUpdate>)
    | UpdateBars(bars: seq<RuleUpdate>)
    | UpdateMars(mars: seq<RuleUpdate>)
    | Remove(kind: Kind, id: nat)
    | Finish

  /** A removal whose IE carries no id is passed over. */
  datatype Request = Request(updatePdrs: seq<PdrUpdate>, updateFars: seq<FarUpdate>, updateQers: seq<QerUpdate>,
                             updateUrrs: seq<RuleUpdate>, updateBar: Option<RuleUpdate>, updateMars: seq<RuleUpdate>,
                             removePdrs: seq<Option<nat>>, removeFars: seq<Option<nat>>, removeQers: seq<Option<nat>>,
                             removeUrrs: seq<Option<nat>>, removeBar: Option<Option<nat>>)

  // ---------------------------------------------------------------- the kinds of rule

  function Keep<T>(id: Option<T>, otherwise: Option<T>): Option<T> {
    if id.Some? then id else otherwise
  }

  function Given<T>(x: Option<T>, otherwise: T): T {
    if x.Some? then x.value else otherwise
  }

  function PatchedPdr(p: Pdr, u: PdrUpdate): Pdr {
    p.(precedence := Given(u.precedence, p.precedence), pdi := Keep(u.pdi, p.pdi),
       farId := Keep(u.farId, p.farId), urrId := Keep(u.urrId, p.urrId), qerId := Keep(u.qerId, p.qerId))
  }

  function PatchedFar(f: Far, u: FarUpdate): Far {
    f.(barId := Keep(u.barId, f.barId), dlTeid := Given(u.dlTeid, f.dlTeid), body := Given(u.body, f.body))
  }

  function PatchedQer(q: Qer, u: QerUpdate): Qer {
    q.(qfi := Given(u.qfi, q.qfi), body := Given(u.body, q.body))
  }

  function PatchedRule(r: Rule, u: RuleUpdate): Rule {
    r.(body := Given(u.body, r.body))
  }

  function PdrTarget(u: PdrUpdate): Option<nat> { u.id }
  function FarTarget(u: FarUpdate): Option<nat> { u.id }
  function QerTarget(u: QerUpdate): Option<nat> { u.id }
  function RuleTarget(u: RuleUpdate): Option<nat> { u.id }

  const Pdrs: Family<Pdr, PdrUpdate> := Family(PdrId, PdrTarget, PatchedPdr)
  const Fars: Family<Far, FarUpdate> := Family(FarId, FarTarget, PatchedFar)
  const Qers: Family<Qer, QerUpdate> := Family(QerId, QerTarget, PatchedQer)
  const Rules: Family<Rule, RuleUpdate> := Family(RuleId, RuleTarget, PatchedRule)

  /** No update changes the id of a rule. */
  lemma IdsStay()
    ensures KeepsIds(Pdrs) && KeepsIds(Fars) && KeepsIds(Qers) && KeepsIds(Rules)
  {}

  // ---------------------------------------------------------------- the whole request

  /** The session without its derived lists. */
  function Bare(s: Session): Session {
    s.(pdrsUplink := [], pdrsDownlink := [])
  }

  function After(s: Session, step: Step): Session {
    match step
    case UpdatePdrs(us) => s.(pdrs := Updated(Pdrs, s.pdrs, us))
    case UpdateFars(us) => s.(fars := Updated(Fars, s.fars, us))
    case UpdateQers(us) => s.(qers := Updated(Qers, s.qers, us))
    case UpdateUrrs(us) => s.(urrs := Updated(Rules, s.urrs, us))
    case UpdateBars(us) => s.(bars := Updated(Rules, s.bars, us))
    case UpdateMars(us) => s.(mars := Updated(Rules, s.mars, us))
    case Remove(k, id) => Removed(s, k, id)
    case Finish => s
  }

  function Removed(s: Session, k: Kind, id: nat): Session {
    match k
    case PdrKind => s.(pdrs := Without(PdrId, s.pdrs, id))
    case FarKind => s.(fars := Without(FarId, s.fars, id))
    case QerKind => s.(qers := Without(QerId, s.qers, id))
    case UrrKind => s.(urrs := Without(RuleId, s.urrs, id))
    case BarKind => s.(bars := Without(RuleId, s.bars, id))
    case MarKind => s.(mars := Without(RuleId, s.mars, id))
  }

  /** Updates call the pipeline once if they hit a rule; a removal calls it in any case. */
  predicate CallsPipeline(s: Session, step: Step) {
    match step
    case UpdatePdrs(us) => Hit(Pdrs, s.pdrs, us)
    case UpdateFars(us) => Hit(Fars, s.fars, us)
    case UpdateQers(us) => Hit(Qers, s.qers, us)
    case UpdateUrrs(us) => Hit(Rules, s.urrs, us)
    case UpdateBars(us) => Hit(Rules, s.bars, us)
    case UpdateMars(us) => Hit(Rules, s.mars, us)
    case _ => true
  }

  /** Updates that hit nothing change nothing. */
  lemma UnhitStep(s: Session, step: Step)
    requires !CallsPipeline(s, step)
    ensures After(s, step) == s
  {
    hide Updated, Hit;
    match step
    case UpdatePdrs(us) => UnhitStays(Pdrs, s.pdrs, us);
    case UpdateFars(us) => UnhitStays(Fars, s.fars, us);
    case UpdateQers(us) => UnhitStays(Qers, s.qers, us);
    case UpdateUrrs(us) => UnhitStays(Rules, s.urrs, us);
    case UpdateBars(us) => UnhitStays(Rules, s.bars, us);
    case UpdateMars(us) => UnhitStays(Rules, s.mars, us);
    case _ =>
  }

  function AfterAll(s: Session, steps: seq<Step>): Session
    decreases |steps|
  {
    if steps == [] then s else AfterAll(After(s, steps[0]), steps[1..])
  }

  /** The sessions passed to the pipeline, in order, if no call puts an end to the request. */
  function Trace(s: Session, steps: seq<Step>): seq<Session>
    decreases |steps|
  {
    if steps == [] then []
    else Passed(s, steps[0]) + Trace(After(s, steps[0]), steps[1..])
  }

  function Passed(s: Session, step: Step): seq<Session> {
    if CallsPipeline(s, step) then [After(s, step)] else []
  }

  /** Only the calls up to the first one that throws. */
  function Cut(ts: seq<Session>): seq<Session> {
    if ts == [] then [] else if ModifyReturns(ts[0]) then [ts[0]] + Cut(ts[1..]) else [ts[0]]
  }

  predicate AllReturn(ts: seq<Session>) {
    forall k :: 0 <= k < |ts| ==> ModifyReturns(ts[k])
  }

  function RemovalsOf(k: Kind, ids: seq<Option<nat>>): seq<Step> {
    if ids == [] then [] else (if ids[0].Some? then [Remove(k, ids[0].value)] else []) + RemovalsOf(k, ids[1..])
  }

  function AsSeq<T>(x: Option<T>): seq<T> {
    if x.Some? then [x.value] else []
  }

  function Updates(q: Request): (us: seq<Step>)
    ensures |us| == 6
  {
    [UpdatePdrs(q.updatePdrs)] + LaterUpdates(q)
  }

  function LaterUpdates(q: Request): seq<Step> {
    [UpdateFars(q.updateFars), UpdateQers(q.updateQers), UpdateUrrs(q.updateUrrs), UpdateBars(AsSeq(q.updateBar)), UpdateMars(q.updateMars)]
  }

  function RemovalsAfterPdrs(q: Request): seq<Step> {
    RemovalsOf(FarKind, q.removeFars) + RemovalsOf(QerKind, q.removeQers) + RemovalsOf(UrrKind, q.removeUrrs)
    + RemovalsOf(BarKind, AsSeq(q.removeBar))
  }

  function Removals(q: Request): seq<Step> {
    RemovalsOf(PdrKind, q.removePdrs) + RemovalsAfterPdrs(q)
  }

  function Steps(q: Request): seq<Step> {
    Updates(q) + Removals(q) + [Finish]
  }

  // A removal loop, before its first turn and at each one.

  lemma NoRemovals(k: Kind)
    ensures RemovalsOf(k, []) == []
  {}

  lemma {:induction false} RemovalTurn(k: Kind, ids: seq<Option<nat>>, i: nat)
    requires i < |ids|
    ensures var before := RemovalsOf(k, ids[..i]);
      RemovalsOf(k, ids[..i + 1]) == if ids[i].Some? then before + [Remove(k, ids[i].value)] else before
  {
    if i == 0 {
      assert ids[..1] == [ids[0]] && ids[..1][1..] == [];
    } else {
      RemovalTurn(k, ids[1..], i - 1);
      assert ids[1..][..i] == ids[..i + 1][1..] && ids[1..][..i - 1] == ids[..i][1..];
    }
  }

  lemma RemovalParts(q: Request)
    ensures RemovalsOf(PdrKind, q.removePdrs) + RemovalsOf(FarKind, q.removeFars) + RemovalsOf(QerKind, q.removeQers)
            + RemovalsOf(UrrKind, q.removeUrrs) + RemovalsOf(BarKind, AsSeq(q.removeBar)) == Removals(q)
  {
    hide RemovalsOf;
  }

  // ---------------------------------------------------------------- which calls meet a PDR without a FAR

  function FarIds(fars: seq<Far>): set<nat> {
    set i | 0 <= i < |fars| :: fars[i].id
  }

  /** Steps that may take PDRs away and leave the FAR ids alone. */
  predicate TakesPdrs(step: Step) {
    step.UpdateFars? || step.UpdateQers? || step.UpdateUrrs? || step.UpdateBars? || step.UpdateMars?
    || (step.Remove? && step.kind == PdrKind)
  }

  /** Steps that may take FARs away and leave the PDRs alone. */
  predicate TakesFars(step: Step) {
    step.Finish? || (step.Remove? && step.kind != PdrKind)
  }

  predicate FewerPdrs(s: Session, t: Session) {
    (forall p :: p in t.pdrs ==> p in s.pdrs) && |t.pdrs| <= |s.pdrs| && FarIds(t.fars) == FarIds(s.fars)
  }

  predicate FewerFars(s: Session, t: Session) {
    t.pdrs == s.pdrs && FarIds(t.fars) <= FarIds(s.fars)
  }

  lemma ResolvesIff(s: Session)
    ensures Resolves(s.pdrs, s.fars) <==> forall p :: p in s.pdrs ==> p.farId.Some? && p.farId.value in FarIds(s.fars)
  {
    forall p | p in s.pdrs ensures FarOf(s.fars, p).Some? <==> p.farId.Some? && p.farId.value in FarIds(s.fars) {
      if p.farId.Some? { FindFarIff(s.fars, p.farId.value); }
    }
  }

  lemma FewerPdrsReturns(s: Session, t: Session)
    requires FewerPdrs(s, t) && ModifyReturns(s)
    ensures ModifyReturns(t)
  {
    hide FarIds;
    ResolvesIff(s);
    ResolvesIff(t);
  }

  lemma FewerFarsReturns(s: Session, t: Session)
    requires FewerFars(s, t) && ModifyReturns(t)
    ensures ModifyReturns(s)
  {
    hide FarIds;
    ResolvesIff(s);
    ResolvesIff(t);
  }

  lemma UpdatedFarIds(fars: seq<Far>, us: seq<FarUpdate>)
    ensures FarIds(Updated(Fars, fars, us)) == FarIds(fars)
  {
    hide Updated, KeepsIds;
    IdsStay();
    UpdatedIds(Fars, fars, us);
    var t := Updated(Fars, fars, us);
    forall i | 0 <= i < |fars| ensures t[i].id == fars[i].id {
      assert Fars.idOf(t[i]) == Fars.idOf(fars[i]);
    }
    forall id ensures id in FarIds(t) <==> id in FarIds(fars) {
      if i :| 0 <= i < |t| && t[i].id == id { assert fars[i].id == id; }
      if i :| 0 <= i < |fars| && fars[i].id == id { assert t[i].id == id; }
    }
  }

  lemma TakesPdrsStep(s: Session, step: Step)
    requires TakesPdrs(step)
    ensures FewerPdrs(s, After(s, step))
    ensures !CallsPipeline(s, step) ==> After(s, step).pdrs == s.pdrs
  {
    hide Updated, Without, FarIds, Hit;
    if step.Remove? { WithoutElements(PdrId, s.pdrs, step.id); }
    if step.UpdateFars? { UpdatedFarIds(s.fars, step.fars); }
  }

  lemma TakesFarsStep(s: Session, step: Step)
    requires TakesFars(step)
    ensures FewerFars(s, After(s, step))
  {
    hide Without;
    var t := After(s, step);
    if step.Remove? && step.kind == FarKind {
      WithoutElements(FarId, s.fars, step.id);
      forall id | id in FarIds(t.fars) ensures id in FarIds(s.fars) {
        var i :| 0 <= i < |t.fars| && t.fars[i].id == id;
        assert t.fars[i] in s.fars;
      }
    }
  }

  lemma {:induction false} TraceTakesPdrs(s: Session, steps: seq<Step>)
    requires forall i :: 0 <= i < |steps| ==> TakesPdrs(steps[i])
    ensures FewerPdrs(s, AfterAll(s, steps))
    ensures forall t :: t in Trace(s, steps) ==> FewerPdrs(s, t)
    ensures Trace(s, steps) == [] ==> AfterAll(s, steps).pdrs == s.pdrs
    decreases |steps|
  {
    hide After, CallsPipeline, FarIds, TakesPdrs;
    if steps != [] {
      TakesPdrsStep(s, steps[0]);
      TraceTakesPdrs(After(s, steps[0]), steps[1..]);
    }
  }

  /** While PDRs are being removed the first call decides. */
  lemma {:induction false} FirstDecides(s: Session, steps: seq<Step>)
    requires forall i :: 0 <= i < |steps| ==> TakesPdrs(steps[i])
    requires Trace(s, steps) != [] && ModifyReturns(Trace(s, steps)[0])
    ensures forall t :: t in Trace(s, steps) ==> ModifyReturns(t)
    decreases |steps|
  {
    hide After, CallsPipeline, FewerPdrs, TakesPdrs, ModifyReturns;
    var t := After(s, steps[0]);
    if CallsPipeline(s, steps[0]) {
      TraceTakesPdrs(t, steps[1..]);
      forall u | u in Trace(t, steps[1..]) ensures ModifyReturns(u) {
        FewerPdrsReturns(t, u);
      }
    } else {
      FirstDecides(t, steps[1..]);
    }
  }

  /** While FARs are being removed the last call decides. */
  lemma {:induction false} LastDecides(s: Session, steps: seq<Step>)
    requires forall i :: 0 <= i < |steps| ==> TakesFars(steps[i])
    requires ModifyReturns(AfterAll(s, steps))
    ensures ModifyReturns(s) && forall t :: t in Trace(s, steps) ==> ModifyReturns(t)
    decreases |steps|
  {
    hide After, CallsPipeline, FewerFars, TakesFars, ModifyReturns;
    if steps != [] {
      LastDecides(After(s, steps[0]), steps[1..]);
      TakesFarsStep(s, steps[0]);
      FewerFarsReturns(s, After(s, steps[0]));
    }
  }

  lemma {:induction false} TraceSplit(s: Session, a: seq<Step>, b: seq<Step>)
    ensures Trace(s, a + b) == Trace(s, a) + Trace(AfterAll(s, a), b)
    ensures AfterAll(s, a + b) == AfterAll(AfterAll(s, a), b)
    decreases |a|
  {
    hide After, CallsPipeline;
    if a == [] {
      assert a + b == b;
    } else {
      assert (a + b)[1..] == a[1..] + b;
      TraceSplit(After(s, a[0]), a[1..], b);
    }
  }

  lemma LastTrace(s: Session, steps: seq<Step>)
    ensures Trace(s, steps + [Finish]) == Trace(s, steps) + [AfterAll(s, steps)]
    ensures AfterAll(s, steps + [Finish]) == AfterAll(s, steps)
  {
    TraceSplit(s, steps, [Finish]);
    OnlyFinish(AfterAll(s, steps));
  }

  lemma OnlyStep(s: Session, step: Step)
    ensures Trace(s, [step]) == Passed(s, step) && AfterAll(s, [step]) == After(s, step)
  {
    hide After, CallsPipeline;
    assert [step][1..] == [];
    assert Trace(After(s, step), []) == [];
  }

  lemma OnlyFinish(t: Session)
    ensures Trace(t, [Finish]) == [t] && AfterAll(t, [Finish]) == t
  {
    assert [Finish][1..] == [] && After(t, Finish) == t && CallsPipeline(t, Finish);
  }

  lemma {:induction false} RemovalSteps(k: Kind, ids: seq<Option<nat>>)
    ensures forall st :: st in RemovalsOf(k, ids) ==> st.Remove? && st.kind == k
  {
    if ids != [] { RemovalSteps(k, ids[1..]); }
  }

  /** The request in two parts after the PDR updates: one that takes no FAR, one that takes no PDR. */
  function FirstPart(q: Request): seq<Step> {
    LaterUpdates(q) + RemovalsOf(PdrKind, q.removePdrs)
  }

  function SecondPart(q: Request): seq<Step> {
    RemovalsAfterPdrs(q) + [Finish]
  }

  lemma Parts(q: Request)
    ensures Steps(q) == [UpdatePdrs(q.updatePdrs)] + (FirstPart(q) + SecondPart(q))
    ensures forall i :: 0 <= i < |FirstPart(q)| ==> TakesPdrs(FirstPart(q)[i])
    ensures forall i :: 0 <= i < |SecondPart(q)| ==> TakesFars(SecondPart(q)[i])
    ensures forall i :: 0 <= i < |RemovalsAfterPdrs(q)| ==> TakesFars(RemovalsAfterPdrs(q)[i])
  {
    RemovalSteps(PdrKind, q.removePdrs);
    RemovalSteps(FarKind, q.removeFars);
    RemovalSteps(QerKind, q.removeQers);
    RemovalSteps(UrrKind, q.removeUrrs);
    RemovalSteps(BarKind, AsSeq(q.removeBar));
    forall i | 0 <= i < |FirstPart(q)| ensures TakesPdrs(FirstPart(q)[i]) {
      assert FirstPart(q)[i] in LaterUpdates(q) || FirstPart(q)[i] in RemovalsOf(PdrKind, q.removePdrs);
    }
    forall i | 0 <= i < |RemovalsAfterPdrs(q)| ensures TakesFars(RemovalsAfterPdrs(q)[i]) {
      var st := RemovalsAfterPdrs(q)[i];
      assert st in RemovalsOf(FarKind, q.removeFars) || st in RemovalsOf(QerKind, q.removeQers)
          || st in RemovalsOf(UrrKind, q.removeUrrs) || st in RemovalsOf(BarKind, AsSeq(q.removeBar));
    }
  }

  lemma TraceOfRequest(s: Session, q: Request)
    ensures var u := After(s, UpdatePdrs(q.updatePdrs));
            var v := AfterAll(u, FirstPart(q));
      && Trace(s, Steps(q)) == (if CallsPipeline(s, UpdatePdrs(q.updatePdrs)) then [u] else []) + Trace(u, FirstPart(q)) + Trace(v, SecondPart(q))
      && AfterAll(s, Steps(q)) == AfterAll(v, SecondPart(q))
      && Trace(s, Steps(q)) != [] && Trace(s, Steps(q))[|Trace(s, Steps(q))| - 1] == AfterAll(s, Steps(q))
  {
    hide After, CallsPipeline, FirstPart, SecondPart;
    Parts(q);
    var u := After(s, UpdatePdrs(q.updatePdrs));
    assert Steps(q)[1..] == FirstPart(q) + SecondPart(q);
    TraceSplit(u, FirstPart(q), SecondPart(q));
    LastTrace(s, Updates(q) + Removals(q));
  }

  /** None of the many pipeline calls of a modification meets a PDR without a FAR exactly when
      neither the first nor the last one does. */
  lemma CallsReturnIff(s: Session, q: Request)
    ensures var t := Trace(s, Steps(q));
      AllReturn(t) <==> t != [] && ModifyReturns(t[0]) && ModifyReturns(t[|t| - 1])
  {
    hide After, CallsPipeline, ModifyReturns, Steps, FirstPart, SecondPart, AfterAll, Trace;
    var t := Trace(s, Steps(q));
    var u := After(s, UpdatePdrs(q.updatePdrs));
    TraceOfRequest(s, q);
    if ModifyReturns(t[0]) && ModifyReturns(t[|t| - 1]) {
      FirstPartReturns(s, q, u, AfterAll(u, FirstPart(q)));
      EveryCallIsInAPart(s, q, u, AfterAll(u, FirstPart(q)));
    }
  }

  lemma FirstPartReturns(s: Session, q: Request, u: Session, v: Session)
    requires u == After(s, UpdatePdrs(q.updatePdrs)) && v == AfterAll(u, FirstPart(q))
    requires Trace(s, Steps(q)) != [] && ModifyReturns(Trace(s, Steps(q))[0])
    ensures CallsPipeline(s, UpdatePdrs(q.updatePdrs)) ==> ModifyReturns(u)
    ensures forall t :: t in Trace(u, FirstPart(q)) ==> ModifyReturns(t)
  {
    hide After, CallsPipeline, ModifyReturns, Steps, FirstPart, SecondPart, AfterAll, Trace, TakesPdrs;
    TraceOfRequest(s, q);
    Parts(q);
    if CallsPipeline(s, UpdatePdrs(q.updatePdrs)) {
      assert Trace(s, Steps(q))[0] == u;
      UpdatedReturns(u, q);
    } else if Trace(u, FirstPart(q)) != [] {
      assert Trace(s, Steps(q))[0] == Trace(u, FirstPart(q))[0];
      FirstDecides(u, FirstPart(q));
    }
  }

  lemma UpdatedReturns(u: Session, q: Request)
    requires ModifyReturns(u)
    ensures forall t :: t in Trace(u, FirstPart(q)) ==> ModifyReturns(t)
  {
    hide After, CallsPipeline, ModifyReturns, Steps, FirstPart, TakesPdrs, FewerPdrs;
    Parts(q);
    TraceTakesPdrs(u, FirstPart(q));
    forall t | t in Trace(u, FirstPart(q)) ensures ModifyReturns(t) {
      FewerPdrsReturns(u, t);
    }
  }

  /** If every PDR resolves after the PDR updates, and every surviving PDR among the surviving
      FARs, then every call returns. */
  lemma ResolvedCallsReturn(s: Session, q: Request)
    requires |s.pdrs| <= MAX_PDRS_PER_PDU_SESSION
    requires Resolves(After(s, UpdatePdrs(q.updatePdrs)).pdrs, s.fars)
    requires Resolves(AfterAll(s, Steps(q)).pdrs, AfterAll(s, Steps(q)).fars)
    ensures AllReturn(Trace(s, Steps(q)))
  {
    hide CallsPipeline, FirstPart, SecondPart, Steps, TakesPdrs, TakesFars, FewerPdrs, Resolves, AfterAll;
    var t := Trace(s, Steps(q));
    var u := After(s, UpdatePdrs(q.updatePdrs));
    var v := AfterAll(u, FirstPart(q));
    TraceOfRequest(s, q);
    SurvivorsFit(s, q);
    UpdatedReturns(u, q);
    EveryCallIsInAPart(s, q, u, v);
  }

  lemma EveryCallIsInAPart(s: Session, q: Request, u: Session, v: Session)
    requires u == After(s, UpdatePdrs(q.updatePdrs)) && v == AfterAll(u, FirstPart(q))
    requires CallsPipeline(s, UpdatePdrs(q.updatePdrs)) ==> ModifyReturns(u)
    requires forall t :: t in Trace(u, FirstPart(q)) ==> ModifyReturns(t)
    requires ModifyReturns(AfterAll(s, Steps(q)))
    ensures AllReturn(Trace(s, Steps(q)))
  {
    hide After, CallsPipeline, FirstPart, SecondPart, Steps, TakesPdrs, TakesFars, FewerPdrs, ModifyReturns, AfterAll, Trace;
    var t := Trace(s, Steps(q));
    TraceOfRequest(s, q);
    Parts(q);
    LastDecides(v, SecondPart(q));
    forall k | 0 <= k < |t| ensures ModifyReturns(t[k]) {
      assert t[k] in (if CallsPipeline(s, UpdatePdrs(q.updatePdrs)) then [u] else []) || t[k] in Trace(u, FirstPart(q)) || t[k] in Trace(v, SecondPart(q));
    }
  }

  lemma AllReturnConcat(a: seq<Session>, b: seq<Session>)
    ensures AllReturn(a + b) <==> AllReturn(a) && AllReturn(b)
  {
    hide ModifyReturns;
    if AllReturn(a + b) {
      assert forall k :: 0 <= k < |a| ==> a[k] == (a + b)[k];
      assert forall k :: 0 <= k < |b| ==> b[k] == (a + b)[|a| + k];
    }
  }

  lemma CutFirst(x: Session, rest: seq<Session>)
    ensures Cut([x] + rest) == if ModifyReturns(x) then [x] + Cut(rest) else [x]
    ensures AllReturn([x] + rest) <==> ModifyReturns(x) && AllReturn(rest)
  {
    hide ModifyReturns, AllReturn;
    assert ([x] + rest)[1..] == rest && ([x] + rest)[0] == x;
    AllReturnConcat([x], rest);
    OneReturns(x);
  }

  lemma {:induction false} CutAll(a: seq<Session>, b: seq<Session>)
    ensures Cut(a + b) == if AllReturn(a) then a + Cut(b) else Cut(a)
  {
    hide ModifyReturns, AllReturn, Cut;
    if a == [] {
      assert a + b == b && a + Cut(b) == Cut(b);
      NoneReturn();
    } else {
      var x, rest := a[0], a[1..];
      assert a == [x] + rest;
      CutFirst(x, rest);
      CutFirst(x, rest + b);
      CutAll(rest, b);
      assert [x] + (rest + b) == a + b && [x] + (rest + Cut(b)) == a + Cut(b);
    }
  }

  lemma CutWhole(a: seq<Session>)
    requires AllReturn(a)
    ensures Cut(a) == a
  {
    hide ModifyReturns, AllReturn;
    CutAll(a, []);
    assert a + [] == a;
  }

  lemma CutPassed(s: Session, step: Step)
    ensures Cut(Passed(s, step)) == Passed(s, step)
  {
    hide After, CallsPipeline, ModifyReturns;
    assert [After(s, step)][1..] == [];
  }

  lemma NoneReturn()
    ensures AllReturn([])
  {}

  lemma OneReturns(s: Session)
    ensures AllReturn([s]) <==> ModifyReturns(s)
  {
    if AllReturn([s]) { assert [s][0] == s; }
  }

  /** How many steps are taken if a call that throws is the end. */
  function Taken(s: Session, steps: seq<Step>): (n: nat)
    ensures n <= |steps|
    decreases |steps|
  {
    if steps == [] then 0 else if AllReturn(Passed(s, steps[0])) then 1 + Taken(After(s, steps[0]), steps[1..]) else 1
  }

  lemma {:induction false} TakenSplit(s: Session, a: seq<Step>, b: seq<Step>)
    ensures Taken(s, a + b) == if AllReturn(Trace(s, a)) then |a| + Taken(AfterAll(s, a), b) else Taken(s, a)
    decreases |a|
  {
    hide After, CallsPipeline, Passed, AllReturn;
    if a == [] {
      assert a + b == b;
      NoneReturn();
    } else {
      assert (a + b)[1..] == a[1..] + b;
      TakenSplit(After(s, a[0]), a[1..], b);
      AllReturnConcat(Passed(s, a[0]), Trace(After(s, a[0]), a[1..]));
    }
  }

  lemma SomeTaken(s: Session, steps: seq<Step>)
    requires steps != []
    ensures 0 < Taken(s, steps) <= |steps|
  {
    hide AllReturn, Passed, After;
  }

  /** Only the first of the updates concerns PDRs. */
  lemma UpdatesOfPdrs(s: Session, q: Request, n: nat)
    requires 0 < n <= |Updates(q)|
    ensures AfterAll(s, Updates(q)[..n]).pdrs == Updated(Pdrs, s.pdrs, q.updatePdrs)
  {
    hide Updated;
    var u := After(s, UpdatePdrs(q.updatePdrs));
    assert Updates(q)[..n][1..] == LaterUpdates(q)[..n - 1];
    LaterKeepPdrs(u, LaterUpdates(q)[..n - 1]);
  }

  lemma {:induction false} LaterKeepPdrs(s: Session, steps: seq<Step>)
    requires forall i :: 0 <= i < |steps| ==> !steps[i].UpdatePdrs? && !steps[i].Remove?
    ensures AfterAll(s, steps).pdrs == s.pdrs
    decreases |steps|
  {
    hide Updated;
    if steps != [] { LaterKeepPdrs(After(s, steps[0]), steps[1..]); }
  }

  lemma OneTaken(s: Session, step: Step)
    ensures Taken(s, [step]) == 1
  {
    hide Passed, After;
    assert [step][1..] == [];
  }

  // ---------------------------------------------------------------- ids stay told apart

  lemma DistinctAfter(s: Session, step: Step)
    requires DistinctIds(s)
    ensures DistinctIds(After(s, step)) && After(s, step).seid == s.seid
  {
    hide Updated, Without, KeepsIds;
    if step.Remove? && step.kind == PdrKind {
      assert ToldApart(PdrId, s.pdrs);
      WithoutToldApart(PdrId, s.pdrs, step.id);
      var r := Without(PdrId, s.pdrs, step.id);
      assert forall i, j :: 0 <= i < j < |r| ==> PdrId(r[i]) != PdrId(r[j]);
      forall i | 0 <= i < |r| ensures r[i].id != 0 {
        assert r[i] in s.pdrs;
      }
    }
    if step.UpdatePdrs? {
      IdsStay();
      UpdatedIds(Pdrs, s.pdrs, step.pdrs);
      var r := Updated(Pdrs, s.pdrs, step.pdrs);
      forall i | 0 <= i < |r| ensures r[i].id == s.pdrs[i].id {
        assert Pdrs.idOf(r[i]) == Pdrs.idOf(s.pdrs[i]);
      }
    }
  }

  lemma {:induction false} DistinctTrace(s: Session, steps: seq<Step>)
    requires DistinctIds(s)
    ensures forall t :: t in Trace(s, steps) ==> DistinctIds(t) && t.seid == s.seid
    decreases |steps|
  {
    hide After, CallsPipeline, DistinctIds;
    if steps != [] {
      DistinctAfter(s, steps[0]);
      DistinctTrace(After(s, steps[0]), steps[1..]);
    }
  }

  lemma SurvivorsFit(s: Session, q: Request)
    ensures |AfterAll(s, Steps(q)).pdrs| <= |s.pdrs|
  {
    hide CallsPipeline, FirstPart, SecondPart, Steps, TakesPdrs, TakesFars;
    TraceOfRequest(s, q);
    Parts(q);
    var u := After(s, UpdatePdrs(q.updatePdrs));
    TraceTakesPdrs(u, FirstPart(q));
    KeepsPdrs(AfterAll(u, FirstPart(q)), SecondPart(q));
  }

  lemma {:induction false} KeepsPdrs(s: Session, steps: seq<Step>)
    requires forall i :: 0 <= i < |steps| ==> TakesFars(steps[i])
    ensures AfterAll(s, steps).pdrs == s.pdrs && forall t :: t in Trace(s, steps) ==> t.pdrs == s.pdrs
    decreases |steps|
  {
    hide After, CallsPipeline, TakesFars, FarIds;
    if steps != [] {
      TakesFarsStep(s, steps[0]);
      KeepsPdrs(After(s, steps[0]), steps[1..]);
    }
  }

  // ---------------------------------------------------------------- two session objects

  /** Where the rule objects of a session stand in the lists of another, or those lists' lengths. */
  datatype Sharing = Sharing(pdrs: seq<nat>, fars: seq<nat>, qers: seq<nat>, urrs: seq<nat>, bars: seq<nat>, mars: seq<nat>)

  predicate Fits(r: Session, sh: Sharing) {
    |sh.pdrs| == |r.pdrs| && |sh.fars| == |r.fars| && |sh.qers| == |r.qers|
    && |sh.urrs| == |r.urrs| && |sh.bars| == |r.bars| && |sh.mars| == |r.mars|
  }

  /** r once the rule objects it shares with s have been patched through s, which is s now. */
  function SeenSession(r: Session, sh: Sharing, s: Session): Session
    requires Fits(r, sh)
  {
    r.(pdrs := Seen(r.pdrs, sh.pdrs, s.pdrs), fars := Seen(r.fars, sh.fars, s.fars), qers := Seen(r.qers, sh.qers, s.qers),
       urrs := Seen(r.urrs, sh.urrs, s.urrs), bars := Seen(r.bars, sh.bars, s.bars), mars := Seen(r.mars, sh.mars, s.mars))
  }

  /** The sessions passed to the pipeline when s is not the registered object: updates reach s,
      removals the registered one, which is r once the updates are done, and s comes last. */
  function ApartTrace(s: Session, r: Session, q: Request): seq<Session> {
    Trace(s, Updates(q)) + Trace(r, Removals(q)) + [AfterAll(s, Updates(q))]
  }

  /** Steps that leave the PDRs and the FAR ids alone. */
  predicate KeepsChains(step: Step) {
    step.UpdateFars? || step.UpdateQers? || step.UpdateUrrs? || step.UpdateBars? || step.UpdateMars?
  }

  predicate SameChains(s: Session, t: Session) {
    t.pdrs == s.pdrs && FarIds(t.fars) == FarIds(s.fars)
  }

  lemma SameChainsReturn(s: Session, t: Session)
    requires SameChains(s, t)
    ensures ModifyReturns(s) <==> ModifyReturns(t)
  {
    hide FarIds;
    ResolvesIff(s);
    ResolvesIff(t);
  }

  lemma KeepsChainsStep(s: Session, step: Step)
    requires KeepsChains(step)
    ensures SameChains(s, After(s, step))
  {
    hide Updated, FarIds;
    if step.UpdateFars? { UpdatedFarIds(s.fars, step.fars); }
  }

  lemma {:induction false} TraceKeepsChains(s: Session, steps: seq<Step>)
    requires forall i :: 0 <= i < |steps| ==> KeepsChains(steps[i])
    ensures SameChains(s, AfterAll(s, steps)) && forall t :: t in Trace(s, steps) ==> SameChains(s, t)
    decreases |steps|
  {
    hide After, CallsPipeline, FarIds, KeepsChains;
    if steps != [] {
      KeepsChainsStep(s, steps[0]);
      TraceKeepsChains(After(s, steps[0]), steps[1..]);
    }
  }

  /** The calls of the updates return, all of them, if a call with the updated session does. */
  lemma UpdateCallsReturn(s: Session, q: Request)
    requires ModifyReturns(AfterAll(s, Updates(q)))
    ensures AllReturn(Trace(s, Updates(q)))
  {
    hide After, CallsPipeline, ModifyReturns, FarIds, SameChains, LaterUpdates;
    var u := After(s, UpdatePdrs(q.updatePdrs));
    assert Updates(q)[1..] == LaterUpdates(q) && Updates(q)[0] == UpdatePdrs(q.updatePdrs);
    LaterKeepChains(q);
    TraceKeepsChains(u, LaterUpdates(q));
    SameChainsReturn(u, AfterAll(u, LaterUpdates(q)));
    forall k | 0 <= k < |Trace(s, Updates(q))| ensures ModifyReturns(Trace(s, Updates(q))[k]) {
      var t := Trace(s, Updates(q))[k];
      assert t == u || t in Trace(u, LaterUpdates(q));
      if t != u { SameChainsReturn(u, t); }
    }
  }

  lemma LaterKeepChains(q: Request)
    ensures forall i :: 0 <= i < |LaterUpdates(q)| ==> KeepsChains(LaterUpdates(q)[i])
  {}

  /** Every removal calls the pipeline, so the last call passes what the removals leave. */
  lemma {:induction false} RemovalsTrace(s: Session, steps: seq<Step>)
    requires forall i :: 0 <= i < |steps| ==> steps[i].Remove?
    ensures |Trace(s, steps)| == |steps| && (steps != [] ==> Trace(s, steps)[|steps| - 1] == AfterAll(s, steps))
    decreases |steps|
  {
    hide After;
    if steps != [] { RemovalsTrace(After(s, steps[0]), steps[1..]); }
  }

  lemma AreRemovals(q: Request)
    ensures forall i :: 0 <= i < |RemovalsOf(PdrKind, q.removePdrs)| ==> RemovalsOf(PdrKind, q.removePdrs)[i].Remove? && TakesPdrs(RemovalsOf(PdrKind, q.removePdrs)[i])
    ensures forall i :: 0 <= i < |RemovalsAfterPdrs(q)| ==> RemovalsAfterPdrs(q)[i].Remove?
  {
    RemovalSteps(PdrKind, q.removePdrs);
    RemovalSteps(FarKind, q.removeFars);
    RemovalSteps(QerKind, q.removeQers);
    RemovalSteps(UrrKind, q.removeUrrs);
    RemovalSteps(BarKind, AsSeq(q.removeBar));
    forall i | 0 <= i < |RemovalsAfterPdrs(q)| ensures RemovalsAfterPdrs(q)[i].Remove? {
      var st := RemovalsAfterPdrs(q)[i];
      assert st in RemovalsOf(FarKind, q.removeFars) || st in RemovalsOf(QerKind, q.removeQers)
          || st in RemovalsOf(UrrKind, q.removeUrrs) || st in RemovalsOf(BarKind, AsSeq(q.removeBar));
    }
  }

  /** The calls of the removals return, all of them, exactly if the first and the last do. */
  lemma RemovalCallsReturnIff(r: Session, q: Request)
    ensures var t := Trace(r, Removals(q));
      AllReturn(t) <==> t == [] || (ModifyReturns(t[0]) && ModifyReturns(t[|t| - 1]))
  {
    hide After, CallsPipeline, ModifyReturns, TakesPdrs, TakesFars, RemovalsOf, RemovalsAfterPdrs, AfterAll, Trace;
    var a, b := RemovalsOf(PdrKind, q.removePdrs), RemovalsAfterPdrs(q);
    var v := AfterAll(r, a);
    var t := Trace(r, Removals(q));
    TraceSplit(r, a, b);
    AreRemovals(q);
    Parts(q);
    RemovalsTrace(r, a);
    RemovalsTrace(v, b);
    if t != [] && ModifyReturns(t[0]) && ModifyReturns(t[|t| - 1]) {
      if b != [] {
        assert t[|t| - 1] == Trace(v, b)[|b| - 1];
        LastDecides(v, b);
      }
      if a != [] {
        assert t[0] == Trace(r, a)[0];
        FirstDecides(r, a);
      }
      forall k | 0 <= k < |t| ensures ModifyReturns(t[k]) {
        assert t[k] in Trace(r, a) || t[k] in Trace(v, b);
      }
    }
  }

  /** With two objects, none of the calls meets a PDR without a FAR exactly when every updated PDR
      of the object passed has one there, and the first and the last removal leave the registered
      object, as patched through the other, with FARs for all its PDRs. */
  lemma ApartReturnsIff(s: Session, r: Session, q: Request)
    ensures var t := Trace(r, Removals(q));
      AllReturn(ApartTrace(s, r, q)) <==>
        ModifyReturns(AfterAll(s, Updates(q))) && (t == [] || (ModifyReturns(t[0]) && ModifyReturns(t[|t| - 1])))
  {
    hide After, CallsPipeline, ModifyReturns, Updates, Removals, AfterAll, Trace, AllReturn;
    var u := AfterAll(s, Updates(q));
    AllReturnConcat(Trace(s, Updates(q)), Trace(r, Removals(q)));
    AllReturnConcat(Trace(s, Updates(q)) + Trace(r, Removals(q)), [u]);
    OneReturns(u);
    RemovalCallsReturnIff(r, q);
    if ModifyReturns(u) { UpdateCallsReturn(s, q); }
  }

  /** One object is updated and then loses rules: the trace of the whole request. */
  lemma OneTrace(s: Session, q: Request)
    ensures var u := AfterAll(s, Updates(q));
      Trace(s, Steps(q)) == Trace(s, Updates(q)) + Trace(u, Removals(q)) + [AfterAll(u, Removals(q))]
      && AfterAll(s, Steps(q)) == AfterAll(u, Removals(q))
  {
    hide Updates, Removals, AfterAll, Trace;
    LastTrace(s, Updates(q) + Removals(q));
    TraceSplit(s, Updates(q), Removals(q));
  }

  // ---------------------------------------------------------------- a request that fails on a copy

  function AccessPdr(id: nat, farId: nat): Pdr {
    Pdr(id, 0, Some(Pdi(Some(Access), None, None, None, None)), Some(farId), None, None, None)
  }

  const NewFarRequest := Request([PdrUpdate(Some(1), None, None, Some(9), None, None)], [], [], [], None, [], [Some(2)], [], [], [], None)

  /** The session passed has FAR 9 already and PDR 2 no longer; the registered one still has PDR 2
      and never had FAR 9, but shares the object of PDR 1. */
  const PassedCopy := Session(5, [AccessPdr(1, 9)], [], [], [Far(1, None, 0, 0), Far(9, None, 0, 0)], [], [], [], [])
  const RegisteredOne := Session(5, [AccessPdr(1, 1), AccessPdr(2, 1)], [], [], [Far(1, None, 0, 0)], [], [], [], [])
  const SharedPdr := Sharing([0, 1], [0], [], [], [], [])

  /** Every PDR of the session passed resolves after the updates, and after the removals, and yet
      the removal meets a PDR without a FAR: the updated one, in the registered session. */
  lemma CopyFails()
    ensures Resolves(After(PassedCopy, UpdatePdrs(NewFarRequest.updatePdrs)).pdrs, PassedCopy.fars)
    ensures Resolves(AfterAll(PassedCopy, Steps(NewFarRequest)).pdrs, AfterAll(PassedCopy, Steps(NewFarRequest)).fars)
    ensures Resolves(RegisteredOne.pdrs, RegisteredOne.fars) && Fits(RegisteredOne, SharedPdr)
    ensures var r := SeenSession(RegisteredOne, SharedPdr, AfterAll(PassedCopy, Updates(NewFarRequest)));
      !AllReturn(ApartTrace(PassedCopy, r, NewFarRequest)) && !ModifyReturns(Trace(r, Removals(NewFarRequest))[0])
  {
    hide Trace, AfterAll, After, Updates, Removals, Steps, ModifyReturns, AllReturn, ApartTrace, SeenSession, Resolves;
    var q, s := NewFarRequest, PassedCopy;
    CopyUpdated();
    CopySeen();
    CopyRemoved(SeenSession(RegisteredOne, SharedPdr, s));
    OneTrace(s, q);
    ApartReturnsIff(s, SeenSession(RegisteredOne, SharedPdr, s), q);
  }

  lemma CopySeen()
    ensures Fits(RegisteredOne, SharedPdr)
    ensures SeenSession(RegisteredOne, SharedPdr, PassedCopy) == RegisteredOne.(pdrs := [AccessPdr(1, 9), AccessPdr(2, 1)])
  {}

  lemma CopyUpdated()
    ensures AfterAll(PassedCopy, Updates(NewFarRequest)) == PassedCopy == After(PassedCopy, UpdatePdrs(NewFarRequest.updatePdrs))
    ensures Resolves(PassedCopy.pdrs, PassedCopy.fars) && Resolves(RegisteredOne.pdrs, RegisteredOne.fars)
    ensures AfterAll(PassedCopy, Removals(NewFarRequest)) == PassedCopy
  {
    var q, s := NewFarRequest, PassedCopy;
    PdrPatched();
    NothingElse(s);
    assert FindFar(s.fars[1..], 9) == Some(s.fars[1]);
    OnlyPdr2Goes(q);
    assert [Remove(PdrKind, 2)][1..] == [];
    assert Without(PdrId, s.pdrs[1..], 2) == [] && Without(PdrId, s.pdrs, 2) == s.pdrs;
  }

  lemma PdrPatched()
    ensures Updated(Pdrs, PassedCopy.pdrs, NewFarRequest.updatePdrs) == PassedCopy.pdrs
  {
    var us, pdrs := NewFarRequest.updatePdrs, PassedCopy.pdrs;
    assert us[..0] == [] && Updated(Pdrs, pdrs, []) == pdrs && At(PdrId, pdrs, Some(1)) == 0;
    assert PatchedPdr(pdrs[0], us[0]) == pdrs[0];
  }

  lemma OnlyPdr2Goes(q: Request)
    requires q == NewFarRequest
    ensures Removals(q) == [Remove(PdrKind, 2)]
  {}

  /** Empty updates change nothing. */
  lemma NothingElse(s: Session)
    requires After(s, UpdatePdrs(NewFarRequest.updatePdrs)) == s
    ensures AfterAll(s, Updates(NewFarRequest)) == s
  {
    var later := LaterUpdates(NewFarRequest);
    assert Updates(NewFarRequest)[1..] == later;
    assert later[1..][1..][1..][1..][1..] == [];
    assert AfterAll(s, later[1..][1..][1..][1..]) == s;
    assert AfterAll(s, later[1..][1..][1..]) == s;
    assert AfterAll(s, later[1..][1..]) == s;
    assert AfterAll(s, later[1..]) == s;
  }

  lemma CopyRemoved(r: Session)
    requires r == RegisteredOne.(pdrs := [AccessPdr(1, 9), AccessPdr(2, 1)])
    ensures |Trace(r, Removals(NewFarRequest))| == 1 && !ModifyReturns(Trace(r, Removals(NewFarRequest))[0])
  {
    var q := NewFarRequest;
    OnlyPdr2Goes(q);
    assert [Remove(PdrKind, 2)][1..] == [];
    var t := After(r, Remove(PdrKind, 2));
    assert r.pdrs[1..] == [AccessPdr(2, 1)] && Without(PdrId, [AccessPdr(2, 1)], 2) == [];
    assert t.pdrs == [AccessPdr(1, 9)];
    assert FindFar(t.fars[1..], 9) == None;
    assert FarOf(t.fars, t.pdrs[0]) == None;
    OnlyStep(r, Remove(PdrKind, 2));
  }

  lemma {:induction false} DistinctAfterAll(s: Session, steps: seq<Step>)
    requires DistinctIds(s)
    ensures DistinctIds(AfterAll(s, steps)) && AfterAll(s, steps).seid == s.seid
    decreases |steps|
  {
    hide After, DistinctIds;
    if steps != [] {
      DistinctAfter(s, steps[0]);
      DistinctAfterAll(After(s, steps[0]), steps[1..]);
    }
  }

  /** Updates leave every PDR its place and its id. */
  lemma UpdatesKeepPdrIds(s: Session, q: Request)
    ensures var u := AfterAll(s, Updates(q));
      |u.pdrs| == |s.pdrs| && forall i :: 0 <= i < |s.pdrs| ==> u.pdrs[i].id == s.pdrs[i].id
  {
    hide Updated, KeepsIds, LaterUpdates, AfterAll, KeepsChains, FarIds;
    var v := After(s, UpdatePdrs(q.updatePdrs));
    IdsStay();
    UpdatedIds(Pdrs, s.pdrs, q.updatePdrs);
    forall i | 0 <= i < |s.pdrs| ensures v.pdrs[i].id == s.pdrs[i].id {
      assert Pdrs.idOf(v.pdrs[i]) == Pdrs.idOf(s.pdrs[i]);
    }
    LaterKeepChains(q);
    TraceKeepsChains(v, LaterUpdates(q));
    FirstThenLater(s, q);
  }

  lemma FirstThenLater(s: Session, q: Request)
    ensures AfterAll(s, Updates(q)) == AfterAll(After(s, UpdatePdrs(q.updatePdrs)), LaterUpdates(q))
  {
    hide LaterUpdates, After;
    assert Updates(q)[1..] == LaterUpdates(q);
  }
}
