/** The BPF maps that index the rules of the PFCP sessions, as pure functions of the
    session handed to each pipeline call. The IP and the Ethernet variant of a map are one
    Dafny map whose key starts with the PDU session type. */
module RuleIndex {
  import opened Options
  import opened PfcpRules

  const MAX_PDRS_PER_PDU_SESSION := 16

  datatype PduType = Ip | Ethernet
  datatype RuleKey = RuleKey(pdu: PduType, seid: nat, pdrId: nat)
  datatype ArrayKey = ArrayKey(pdu: PduType, seid: nat)
  datatype SdfKey = SdfKey(seid: nat, qfi: nat)

  /** What rules_match_pdr_map holds for a PDR: every rule it references. */
  datatype Rules = Rules(far: Far, qer: Option<Qer>, urr: Option<Rule>, bar: Option<Rule>, mar: Option<Rule>)

  /** A slot of the per-session PDR array; rule id 0 marks a free one. */
  datatype BpfPdr = BpfPdr(ruleId: nat, qfi: nat)

  datatype Index = Index(rules: map<RuleKey, Rules>, sdf: map<SdfKey, SdfFilter>,
                         arrays: map<ArrayKey, seq<BpfPdr>>, pduTypes: map<nat, PduType>)

  const Empty := Index(map[], map[], map[], map[])

  function DetectPduType(pdrs: seq<Pdr>): PduType {
    if |pdrs| == 0 || exists i :: 0 <= i < |pdrs| && HasUeIp(pdrs[i]) then Ip else Ethernet
  }

  predicate HasUeIp(pdr: Pdr) {
    pdr.pdi.Some? && pdr.pdi.value.ueIp.Some? && pdr.pdi.value.ueIp.value != 0
  }

  /** The QFI the datapath matches: the PDI's own, or else that of the QER. */
  function QfiOf(s: Session, pdr: Pdr): nat {
    var own := if pdr.pdi.Some? && pdr.pdi.value.qfi.Some? then pdr.pdi.value.qfi.value else 0;
    var qer := QerOf(s.qers, pdr);
    if own == 0 && qer.Some? then qer.value.qfi else own
  }

  function RulesOf(s: Session, pdr: Pdr): Rules
    requires FarOf(s.fars, pdr).Some?
  {
    var far := FarOf(s.fars, pdr).value;
    Rules(far, QerOf(s.qers, pdr), FindRule(s.urrs, pdr.urrId), FindRule(s.bars, far.barId), FindRule(s.mars, pdr.marId))
  }

  /** The SDF filter a pipeline call stores for pdr, if any. */
  function SdfOf(pdr: Pdr): Option<SdfFilter> {
    if pdr.qerId.Some? && pdr.pdi.Some? && pdr.pdi.value.sdf.Some? then pdr.pdi.value.sdf.value else None
  }

  // Effect of a pipeline call on the rule and SDF maps: one PDR, then the first n of them.

  function WritePdr(x: Index, t: PduType, s: Session, pdr: Pdr): Index
    requires FarOf(s.fars, pdr).Some?
  {
    var sdf := SdfOf(pdr);
    x.(rules := x.rules[RuleKey(t, s.seid, pdr.id) := RulesOf(s, pdr)],
       sdf := if sdf.Some? then x.sdf[SdfKey(s.seid, QfiOf(s, pdr)) := sdf.value] else x.sdf)
  }

  function WritePdrs(x: Index, t: PduType, s: Session, n: nat): Index
    requires n <= |s.pdrs| && Resolves(s.pdrs[..n], s.fars)
  {
    if n == 0 then x
    else
      assert s.pdrs[..n][n - 1] == s.pdrs[n - 1];
      assert forall i :: 0 <= i < n - 1 ==> s.pdrs[..n - 1][i] == s.pdrs[..n][i];
      WritePdr(WritePdrs(x, t, s, n - 1), t, s, s.pdrs[n - 1])
  }

  function ArrayOf(s: Session): (a: seq<BpfPdr>)
    requires |s.pdrs| <= MAX_PDRS_PER_PDU_SESSION
    ensures |a| == MAX_PDRS_PER_PDU_SESSION
  {
    seq(MAX_PDRS_PER_PDU_SESSION, i requires 0 <= i =>
      if i < |s.pdrs| then BpfPdr(s.pdrs[i].id, QfiOf(s, s.pdrs[i])) else BpfPdr(0, 0))
  }

  /** PDR ids, and non-zero QFIs, recorded in a per-session array. */
  function IdsIn(a: seq<BpfPdr>): set<nat> {
    set i | 0 <= i < |a| && a[i].ruleId != 0 :: a[i].ruleId
  }

  function QfisIn(a: seq<BpfPdr>): set<nat> {
    set i | 0 <= i < |a| && a[i].ruleId != 0 && a[i].qfi != 0 && LastOfItsId(a, i) :: a[i].qfi
  }

  /** A later slot with the same rule id replaces this one in the snapshot. */
  predicate LastOfItsId(a: seq<BpfPdr>, i: nat)
    requires i < |a|
  {
    forall j :: i < j < |a| ==> a[j].ruleId != a[i].ruleId
  }

  function Tracked(x: Index, t: PduType, seid: nat): seq<BpfPdr> {
    var k := ArrayKey(t, seid);
    if k in x.arrays then x.arrays[k] else []
  }

  function Prune(x: Index, t: PduType, seid: nat, staleIds: set<nat>, staleQfis: set<nat>): Index {
    x.(rules := x.rules - (set id | id in staleIds :: RuleKey(t, seid, id)),
       sdf := x.sdf - (set q | q in staleQfis :: SdfKey(seid, q)))
  }

  // The three pipeline calls, when they return normally.

  predicate CreateReturns(s: Session) {
    |s.pdrs| <= MAX_PDRS_PER_PDU_SESSION && Resolves(s.pdrs, s.fars)
    && forall i :: 0 <= i < |s.pdrs| ==> SourceOf(s.pdrs[i]).Some?
  }

  predicate ModifyReturns(s: Session) {
    |s.pdrs| <= MAX_PDRS_PER_PDU_SESSION && Resolves(s.pdrs, s.fars)
  }

  function PduTypeFor(x: Index, s: Session): PduType {
    if s.seid in x.pduTypes then x.pduTypes[s.seid] else DetectPduType(s.pdrs)
  }

  function Written(x: Index, t: PduType, s: Session): Index
    requires ModifyReturns(s)
  {
    assert s.pdrs[..|s.pdrs|] == s.pdrs;
    var w := WritePdrs(x, t, s, |s.pdrs|);
    w.(arrays := w.arrays[ArrayKey(t, s.seid) := ArrayOf(s)], pduTypes := w.pduTypes[s.seid := t])
  }

  function Create(x: Index, s: Session): Index
    requires CreateReturns(s)
  {
    Written(x, DetectPduType(s.pdrs), s)
  }

  function Modify(x: Index, s: Session): Index
    requires ModifyReturns(s)
  {
    var t := PduTypeFor(x, s);
    var before := Tracked(x, t, s.seid);
    Prune(Written(x, t, s), t, s.seid, IdsIn(before) - PdrIds(s), QfisIn(before) - QfisInUse(s))
  }

  function Remove(x: Index, seid: nat): Index {
    var t := if seid in x.pduTypes then x.pduTypes[seid] else Ip;
    var before := Tracked(x, t, seid);
    var p := Prune(x, t, seid, IdsIn(before), QfisIn(before));
    p.(arrays := p.arrays - {ArrayKey(t, seid)}, pduTypes := p.pduTypes - {seid})
  }

  // A call that throws leaves the PDRs it has already installed.

  /** The loop installs PDR i: it has a FAR, and on creation a source interface. */
  predicate Goes(s: Session, create: bool, i: nat)
    requires i < |s.pdrs|
  {
    FarOf(s.fars, s.pdrs[i]).Some? && (create ==> SourceOf(s.pdrs[i]).Some?)
  }

  function ReachFrom(s: Session, create: bool, i: nat): (n: nat)
    requires i <= |s.pdrs|
    ensures i <= n <= |s.pdrs| && (forall j :: i <= j < n ==> Goes(s, create, j)) && (n < |s.pdrs| ==> !Goes(s, create, n))
    decreases |s.pdrs| - i
  {
    if i < |s.pdrs| && Goes(s, create, i) then ReachFrom(s, create, i + 1) else i
  }

  /** How many PDRs a pipeline call installs. */
  function Reach(s: Session, create: bool): (n: nat)
    ensures n <= |s.pdrs| && Resolves(s.pdrs[..n], s.fars)
  {
    if |s.pdrs| > MAX_PDRS_PER_PDU_SESSION then 0
    else
      var n := ReachFrom(s, create, 0);
      assert forall j :: 0 <= j < n ==> s.pdrs[..n][j] == s.pdrs[j] && Goes(s, create, j);
      n
  }

  function Typed(x: Index, t: PduType, s: Session): Index {
    x.(pduTypes := x.pduTypes[s.seid := t])
  }

  function Partial(x: Index, t: PduType, s: Session, create: bool): Index {
    if |s.pdrs| > MAX_PDRS_PER_PDU_SESSION then x else WritePdrs(Typed(x, t, s), t, s, Reach(s, create))
  }

  function PdrIds(s: Session): set<nat> {
    set i | 0 <= i < |s.pdrs| :: s.pdrs[i].id
  }

  function QfisInUse(s: Session): set<nat> {
    set i | 0 <= i < |s.pdrs| && QfiOf(s, s.pdrs[i]) != 0 :: QfiOf(s, s.pdrs[i])
  }

  // What the index should say about the sessions that are alive.

  predicate WellFormed(s: Session) {
    DistinctIds(s) && ModifyReturns(s)
  }

  /** PDR ids identify a PDR within its session and are never 0. */
  predicate DistinctIds(s: Session) {
    && (forall i, j :: 0 <= i < j < |s.pdrs| ==> s.pdrs[i].id != s.pdrs[j].id)
    && (forall i :: 0 <= i < |s.pdrs| ==> s.pdrs[i].id != 0)
  }

  ghost predicate AgreesOn(x: Index, t: PduType, s: Session)
    requires WellFormed(s)
  {
    && s.seid in x.pduTypes && x.pduTypes[s.seid] == t
    && RulesAgree(x, t, s) && SdfAgrees(x, s) && ArrayAgrees(x, t, s)
  }

  /** The rule keys of the session are exactly its PDR ids, each bound to the rules that PDR references. */
  ghost predicate RulesAgree(x: Index, t: PduType, s: Session)
    requires WellFormed(s)
  {
    && (forall k :: k in x.rules && k.seid == s.seid ==> k.pdu == t && k.pdrId in PdrIds(s))
    && (forall i :: 0 <= i < |s.pdrs| ==> RuleStored(x, t, s, i))
  }

  predicate RuleStored(x: Index, t: PduType, s: Session, i: nat)
    requires i < |s.pdrs| && WellFormed(s)
  {
    var k := RuleKey(t, s.seid, s.pdrs[i].id);
    k in x.rules && x.rules[k] == RulesOf(s, s.pdrs[i])
  }

  /** Every filter key carries the QFI of a current PDR, and every PDR's filter is there
      unless a later PDR of the same QFI replaced it. */
  ghost predicate SdfAgrees(x: Index, s: Session) {
    && (forall k :: k in x.sdf && k.seid == s.seid && k.qfi != 0 ==> k.qfi in QfisInUse(s))
    && (forall i :: 0 <= i < |s.pdrs| && LastSdfBefore(s, i, |s.pdrs|) ==> SdfStored(x, s, i))
  }

  predicate SdfStored(x: Index, s: Session, i: nat)
    requires i < |s.pdrs| && SdfOf(s.pdrs[i]).Some?
  {
    var k := SdfKey(s.seid, QfiOf(s, s.pdrs[i]));
    k in x.sdf && x.sdf[k] == SdfOf(s.pdrs[i]).value
  }

  ghost predicate ArrayAgrees(x: Index, t: PduType, s: Session)
    requires WellFormed(s)
  {
    && (forall k :: k in x.arrays && k.seid == s.seid ==> k.pdu == t)
    && ArrayKey(t, s.seid) in x.arrays && x.arrays[ArrayKey(t, s.seid)] == ArrayOf(s)
  }

  /** PDR i is the last of the first n to store a filter under its QFI. */
  predicate LastSdfBefore(s: Session, i: nat, n: nat)
    requires i < n <= |s.pdrs|
  {
    SdfOf(s.pdrs[i]).Some? &&
    forall j :: i < j < n && SdfOf(s.pdrs[j]).Some? ==> QfiOf(s, s.pdrs[j]) != QfiOf(s, s.pdrs[i])
  }

  /** Nothing in the index names seid, QFI 0 aside. */
  ghost predicate Absent(x: Index, seid: nat) {
    && seid !in x.pduTypes
    && (forall k :: k in x.rules ==> k.seid != seid)
    && (forall k :: k in x.sdf && k.qfi != 0 ==> k.seid != seid)
    && (forall k :: k in x.arrays ==> k.seid != seid)
  }

  ghost predicate AgreesAt(x: Index, live: map<nat, Session>, seid: nat) {
    if seid in live
    then WellFormed(live[seid]) && live[seid].seid == seid && seid in x.pduTypes && AgreesOn(x, x.pduTypes[seid], live[seid])
    else Absent(x, seid)
  }

  ghost predicate Agrees(x: Index, live: map<nat, Session>) {
    forall seid :: AgreesAt(x, live, seid)
  }

  /** No entry of another session differs between x and y. */
  ghost predicate SameElsewhere(x: Index, y: Index, seid: nat) {
    && (forall k: RuleKey :: k.seid != seid ==> ((k in x.rules <==> k in y.rules) && (k in x.rules ==> x.rules[k] == y.rules[k])))
    && (forall k: SdfKey :: k.seid != seid ==> ((k in x.sdf <==> k in y.sdf) && (k in x.sdf ==> x.sdf[k] == y.sdf[k])))
    && (forall k: ArrayKey :: k.seid != seid ==> ((k in x.arrays <==> k in y.arrays) && (k in x.arrays ==> x.arrays[k] == y.arrays[k])))
    && (forall k :: k != seid ==> ((k in x.pduTypes <==> k in y.pduTypes) && (k in x.pduTypes ==> x.pduTypes[k] == y.pduTypes[k])))
  }

  // ---------------------------------------------------------------- proofs

  predicate WritesRule(t: PduType, s: Session, n: nat, k: RuleKey)
    requires n <= |s.pdrs|
  {
    k.pdu == t && k.seid == s.seid && exists i :: 0 <= i < n && s.pdrs[i].id == k.pdrId
  }

  predicate WritesSdf(s: Session, n: nat, k: SdfKey)
    requires n <= |s.pdrs|
  {
    k.seid == s.seid && exists i :: 0 <= i < n && SdfOf(s.pdrs[i]).Some? && QfiOf(s, s.pdrs[i]) == k.qfi
  }

  lemma {:induction false} WritePdrsKeys(x: Index, t: PduType, s: Session, n: nat)
    requires n <= |s.pdrs| && Resolves(s.pdrs[..n], s.fars)
    ensures var y := WritePdrs(x, t, s, n);
      && y.arrays == x.arrays && y.pduTypes == x.pduTypes
      && (forall k :: k in y.rules <==> k in x.rules || WritesRule(t, s, n, k))
      && (forall k :: k in x.rules && !WritesRule(t, s, n, k) ==> y.rules[k] == x.rules[k])
  {
    hide RulesOf, SdfOf, QfiOf, FarOf, WritesRule;
    NoRuleYet(t, s);
    if n > 0 {
      ResolvesPrefix(s, n - 1, n);
      WritePdrsKeys(x, t, s, n - 1);
      OneMoreRule(t, s, n);
    }
  }

  lemma {:induction false} WritePdrsRules(x: Index, t: PduType, s: Session, n: nat)
    requires WellFormed(s) && n <= |s.pdrs| && Resolves(s.pdrs[..n], s.fars)
    ensures forall i :: 0 <= i < n ==> RuleStored(WritePdrs(x, t, s, n), t, s, i)
  {
    hide RulesOf, SdfOf, QfiOf, FarOf, DistinctIds, RuleStored;
    if n > 0 {
      ResolvesPrefix(s, n - 1, n);
      WritePdrsRules(x, t, s, n - 1);
      OneMoreStored(WritePdrs(x, t, s, n - 1), WritePdrs(x, t, s, n), t, s, n);
    }
  }

  lemma NoRuleYet(t: PduType, s: Session)
    ensures forall k :: !WritesRule(t, s, 0, k)
  {}

  lemma OneMoreRule(t: PduType, s: Session, n: nat)
    requires 0 < n <= |s.pdrs|
    ensures forall k :: WritesRule(t, s, n, k) <==> WritesRule(t, s, n - 1, k) || k == RuleKey(t, s.seid, s.pdrs[n - 1].id)
  {
    var last := RuleKey(t, s.seid, s.pdrs[n - 1].id);
    forall k ensures WritesRule(t, s, n, k) <==> WritesRule(t, s, n - 1, k) || k == last {
      if k == last { assert s.pdrs[n - 1].id == k.pdrId; }
    }
  }

  lemma OneMoreStored(y: Index, z: Index, t: PduType, s: Session, n: nat)
    requires WellFormed(s) && 0 < n <= |s.pdrs| && FarOf(s.fars, s.pdrs[n - 1]).Some?
    requires z.rules == y.rules[RuleKey(t, s.seid, s.pdrs[n - 1].id) := RulesOf(s, s.pdrs[n - 1])]
    requires forall i :: 0 <= i < n - 1 ==> RuleStored(y, t, s, i)
    ensures forall i :: 0 <= i < n ==> RuleStored(z, t, s, i)
  {
    hide RulesOf, FarOf;
    forall i | 0 <= i < n ensures RuleStored(z, t, s, i) {
      if i < n - 1 { assert RuleStored(y, t, s, i); }
    }
  }

  lemma {:induction false} WritePdrsSdf(x: Index, t: PduType, s: Session, n: nat)
    requires n <= |s.pdrs| && Resolves(s.pdrs[..n], s.fars)
    ensures var y := WritePdrs(x, t, s, n);
      && (forall k :: k in y.sdf <==> k in x.sdf || WritesSdf(s, n, k))
      && (forall k :: k in x.sdf && !WritesSdf(s, n, k) ==> y.sdf[k] == x.sdf[k])
      && (forall i :: 0 <= i < n && LastSdfBefore(s, i, n) ==> SdfStored(y, s, i))
  {
    hide RulesOf, SdfOf, QfiOf, FarOf;
    if n > 0 {
      ResolvesPrefix(s, n - 1, n);
      WritePdrsSdf(x, t, s, n - 1);
      var pdr := s.pdrs[n - 1];
      forall k ensures WritesSdf(s, n, k) <==> WritesSdf(s, n - 1, k) || (SdfOf(pdr).Some? && k == SdfKey(s.seid, QfiOf(s, pdr))) {
        if SdfOf(pdr).Some? && k == SdfKey(s.seid, QfiOf(s, pdr)) { assert QfiOf(s, s.pdrs[n - 1]) == k.qfi; }
      }
      forall i | 0 <= i < n && LastSdfBefore(s, i, n)
        ensures SdfStored(WritePdrs(x, t, s, n), s, i)
      {
        if i < n - 1 {
          assert LastSdfBefore(s, i, n - 1);
          assert SdfStored(WritePdrs(x, t, s, n - 1), s, i);
        }
      }
    }
  }

  lemma ResolvesPrefix(s: Session, m: nat, n: nat)
    requires m <= n <= |s.pdrs| && Resolves(s.pdrs[..n], s.fars)
    ensures Resolves(s.pdrs[..m], s.fars)
    ensures forall i :: 0 <= i < n ==> FarOf(s.fars, s.pdrs[i]).Some?
  {
    forall i | 0 <= i < n ensures FarOf(s.fars, s.pdrs[i]).Some? {
      assert s.pdrs[..n][i] == s.pdrs[i];
    }
  }

  /** No entry of s.seid is left over from rules that s does not have. */
  ghost predicate NoStale(x: Index, t: PduType, s: Session) {
    && (forall k :: k in x.rules && k.seid == s.seid ==> k.pdu == t && k.pdrId in PdrIds(s))
    && (forall k :: k in x.sdf && k.seid == s.seid && k.qfi != 0 ==> k.qfi in QfisInUse(s))
    && (forall k :: k in x.arrays && k.seid == s.seid ==> k.pdu == t)
  }

  lemma WrittenRules(x: Index, t: PduType, s: Session)
    requires WellFormed(s)
    ensures var y := Written(x, t, s);
      && (forall k :: k in y.rules <==> k in x.rules || WritesRule(t, s, |s.pdrs|, k))
      && (forall k :: k in x.rules && !WritesRule(t, s, |s.pdrs|, k) ==> y.rules[k] == x.rules[k])
      && (forall i :: 0 <= i < |s.pdrs| ==> RuleStored(y, t, s, i))
      && y.arrays == x.arrays[ArrayKey(t, s.seid) := ArrayOf(s)] && y.pduTypes == x.pduTypes[s.seid := t]
  {
    hide RulesOf, SdfOf, QfiOf, FarOf, WritePdrs;
    assert s.pdrs[..|s.pdrs|] == s.pdrs;
    WritePdrsKeys(x, t, s, |s.pdrs|);
    WritePdrsRules(x, t, s, |s.pdrs|);
    forall i | 0 <= i < |s.pdrs| ensures RuleStored(Written(x, t, s), t, s, i) {
      assert RuleStored(WritePdrs(x, t, s, |s.pdrs|), t, s, i);
    }
  }

  lemma WrittenSdf(x: Index, t: PduType, s: Session)
    requires WellFormed(s)
    ensures var y := Written(x, t, s);
      && (forall k :: k in y.sdf <==> k in x.sdf || WritesSdf(s, |s.pdrs|, k))
      && (forall k :: k in x.sdf && !WritesSdf(s, |s.pdrs|, k) ==> y.sdf[k] == x.sdf[k])
      && (forall i :: 0 <= i < |s.pdrs| && LastSdfBefore(s, i, |s.pdrs|) ==> SdfStored(y, s, i))
  {
    hide RulesOf, SdfOf, QfiOf, FarOf, WritePdrs;
    assert s.pdrs[..|s.pdrs|] == s.pdrs;
    WritePdrsSdf(x, t, s, |s.pdrs|);
    forall i | 0 <= i < |s.pdrs| && LastSdfBefore(s, i, |s.pdrs|) ensures SdfStored(Written(x, t, s), s, i) {
      assert SdfStored(WritePdrs(x, t, s, |s.pdrs|), s, i);
    }
  }

  lemma WritesAreInUse(t: PduType, s: Session)
    ensures forall k :: WritesRule(t, s, |s.pdrs|, k) <==> k.pdu == t && k.seid == s.seid && k.pdrId in PdrIds(s)
    ensures forall k :: WritesSdf(s, |s.pdrs|, k) && k.qfi != 0 ==> k.qfi in QfisInUse(s)
  {
    hide SdfOf, QfiOf;
  }

  /** Writing alone agrees with the session exactly when nothing stale was there before. */
  lemma WrittenAgreesIff(x: Index, t: PduType, s: Session)
    requires WellFormed(s)
    ensures AgreesOn(Written(x, t, s), t, s) <==> NoStale(x, t, s)
    ensures SameElsewhere(x, Written(x, t, s), s.seid)
  {
    hide RulesOf, SdfOf, QfiOf, FarOf, Written, ArrayOf, PdrIds, QfisInUse;
    WrittenRules(x, t, s);
    WrittenSdf(x, t, s);
    WritesAreInUse(t, s);
  }

  /** Every leftover of the session is either still wanted or about to be pruned. */
  ghost predicate LeftoversAre(y: Index, t: PduType, s: Session, staleIds: set<nat>, staleQfis: set<nat>) {
    && (forall k :: k in y.rules && k.seid == s.seid ==> k.pdu == t && (k.pdrId in PdrIds(s) || k.pdrId in staleIds))
    && (forall k :: k in y.sdf && k.seid == s.seid && k.qfi != 0 ==> k.qfi in QfisInUse(s) || k.qfi in staleQfis)
    && (forall k :: k in y.arrays && k.seid == s.seid ==> k.pdu == t)
  }

  lemma WrittenThenPruned(x: Index, t: PduType, s: Session, staleIds: set<nat>, staleQfis: set<nat>)
    requires WellFormed(s) && LeftoversAre(x, t, s, staleIds, staleQfis)
    requires staleIds !! PdrIds(s) && staleQfis !! QfisInUse(s) && 0 !in staleQfis
    ensures AgreesOn(Prune(Written(x, t, s), t, s.seid, staleIds, staleQfis), t, s)
    ensures SameElsewhere(x, Prune(Written(x, t, s), t, s.seid, staleIds, staleQfis), s.seid)
  {
    hide RulesOf, SdfOf, QfiOf, FarOf, Written, ArrayOf, PdrIds, QfisInUse, DistinctIds, RulesAgree, SdfAgrees, SameElsewhere;
    WrittenElsewhere(x, t, s);
    PruneElsewhere(x, Written(x, t, s), t, s.seid, staleIds, staleQfis);
    PrunedRules(x, t, s, staleIds, staleQfis);
    PrunedSdf(x, t, s, staleIds, staleQfis);
    WrittenRules(x, t, s);
  }

  lemma PrunedRules(x: Index, t: PduType, s: Session, staleIds: set<nat>, staleQfis: set<nat>)
    requires WellFormed(s) && LeftoversAre(x, t, s, staleIds, staleQfis) && staleIds !! PdrIds(s)
    ensures RulesAgree(Prune(Written(x, t, s), t, s.seid, staleIds, staleQfis), t, s)
  {
    hide RulesOf, SdfOf, QfiOf, FarOf, Written, ArrayOf, PdrIds, QfisInUse, DistinctIds, WritesRule, WritesSdf;
    WrittenRules(x, t, s);
    WritesAreInUse(t, s);
    var y := Written(x, t, s);
    var z := Prune(y, t, s.seid, staleIds, staleQfis);
    forall i | 0 <= i < |s.pdrs|
      ensures RuleStored(z, t, s, i)
    {
      assert RuleStored(y, t, s, i);
      IdInPdrIds(s, i);
    }
  }

  lemma PrunedSdf(x: Index, t: PduType, s: Session, staleIds: set<nat>, staleQfis: set<nat>)
    requires WellFormed(s) && LeftoversAre(x, t, s, staleIds, staleQfis) && staleQfis !! QfisInUse(s) && 0 !in staleQfis
    ensures SdfAgrees(Prune(Written(x, t, s), t, s.seid, staleIds, staleQfis), s)
  {
    hide RulesOf, SdfOf, QfiOf, FarOf, Written, ArrayOf, PdrIds, QfisInUse, DistinctIds, WritesRule;
    WrittenSdf(x, t, s);
    WritesAreInUse(t, s);
    var y := Written(x, t, s);
    var z := Prune(y, t, s.seid, staleIds, staleQfis);
    forall i | 0 <= i < |s.pdrs| && LastSdfBefore(s, i, |s.pdrs|)
      ensures SdfStored(z, s, i)
    {
      assert SdfStored(y, s, i);
      assert WritesSdf(s, |s.pdrs|, SdfKey(s.seid, QfiOf(s, s.pdrs[i])));
    }
  }

  lemma IdInPdrIds(s: Session, i: nat)
    requires i < |s.pdrs|
    ensures s.pdrs[i].id in PdrIds(s)
  {}

  /** The array written for a session records its PDR ids and its QFIs, no more and no less. */
  lemma ArrayRecords(s: Session)
    requires WellFormed(s)
    ensures IdsIn(ArrayOf(s)) == PdrIds(s) && QfisIn(ArrayOf(s)) == QfisInUse(s)
  {
    hide QfiOf, FarOf;
    var a := ArrayOf(s);
    forall i | 0 <= i < |s.pdrs|
      ensures a[i].ruleId in IdsIn(a) && (a[i].qfi != 0 ==> a[i].qfi in QfisIn(a))
    {
      assert LastOfItsId(a, i);
    }
    forall id | id in IdsIn(a) ensures id in PdrIds(s) {
      var i :| 0 <= i < |a| && a[i].ruleId != 0 && a[i].ruleId == id;
      assert s.pdrs[i].id == id;
    }
    forall id | id in PdrIds(s) ensures id in IdsIn(a) {
      var i :| 0 <= i < |s.pdrs| && s.pdrs[i].id == id;
      assert a[i].ruleId == id;
    }
    forall q | q in QfisInUse(s) ensures q in QfisIn(a) {
      var i :| 0 <= i < |s.pdrs| && QfiOf(s, s.pdrs[i]) != 0 && QfiOf(s, s.pdrs[i]) == q;
      assert a[i].qfi == q;
    }
  }

  lemma ZeroNotTracked(a: seq<BpfPdr>)
    ensures 0 !in QfisIn(a)
  {}

  /** Agreement about another session carries over when its entries do not move. */
  lemma AgreesAtElsewhere(x: Index, live: map<nat, Session>, y: Index, after: map<nat, Session>, seid: nat, other: nat)
    requires AgreesAt(x, live, other) && SameElsewhere(x, y, seid) && other != seid
    requires (other in after <==> other in live) && (other in live ==> after[other] == live[other])
    ensures AgreesAt(y, after, other)
  {
    hide WellFormed, AgreesOn;
    if other in live {
      SameAgreement(x, y, seid, x.pduTypes[other], live[other]);
    }
  }

  lemma AgreesElsewhere(x: Index, live: map<nat, Session>, y: Index, after: map<nat, Session>, seid: nat)
    requires Agrees(x, live) && SameElsewhere(x, y, seid)
    requires forall other :: other != seid ==>
      ((other in after <==> other in live) && (other in live ==> after[other] == live[other]))
    ensures Agrees(y, after) <==> AgreesAt(y, after, seid)
  {
    hide AgreesAt, SameElsewhere;
    forall other | other != seid
      ensures AgreesAt(y, after, other)
    {
      assert AgreesAt(x, live, other);
      AgreesAtElsewhere(x, live, y, after, seid, other);
    }
  }

  lemma SameAgreement(x: Index, y: Index, seid: nat, t: PduType, s: Session)
    requires WellFormed(s) && s.seid != seid && AgreesOn(x, t, s) && SameElsewhere(x, y, seid)
    ensures AgreesOn(y, t, s)
  {
    hide RulesOf, SdfOf, QfiOf, FarOf, ArrayOf, PdrIds, QfisInUse, DistinctIds;
    forall i | 0 <= i < |s.pdrs|
      ensures RuleStored(y, t, s, i)
    {
      assert RuleStored(x, t, s, i);
    }
    forall i | 0 <= i < |s.pdrs| && LastSdfBefore(s, i, |s.pdrs|)
      ensures SdfStored(y, s, i)
    {
      assert SdfStored(x, s, i);
    }
  }

  /** A pipeline modification brings the index in step with the session just passed,
      whatever the session was before, and touches no other session. */
  lemma ModifyAgreesAt(x: Index, live: map<nat, Session>, s: Session)
    requires AgreesAt(x, live, s.seid) && WellFormed(s)
    ensures AgreesAt(Modify(x, s), live[s.seid := s], s.seid) && SameElsewhere(x, Modify(x, s), s.seid)
  {
    hide AgreesOn, Written, ArrayOf, PdrIds, QfisInUse, DistinctIds, Prune, IdsIn, QfisIn, DetectPduType, SameElsewhere, LeftoversAre;
    var t := PduTypeFor(x, s);
    var before := Tracked(x, t, s.seid);
    ZeroNotTracked(before);
    LeftoversAreTracked(x, live, s);
    WrittenThenPruned(x, t, s, IdsIn(before) - PdrIds(s), QfisIn(before) - QfisInUse(s));
    TypeAfterModify(x, s);
  }

  lemma ModifyAgrees(x: Index, live: map<nat, Session>, s: Session)
    requires Agrees(x, live) && WellFormed(s)
    ensures Agrees(Modify(x, s), live[s.seid := s]) && SameElsewhere(x, Modify(x, s), s.seid)
  {
    hide AgreesAt, SameElsewhere, Modify;
    assert AgreesAt(x, live, s.seid);
    ModifyAgreesAt(x, live, s);
    AgreesElsewhere(x, live, Modify(x, s), live[s.seid := s], s.seid);
  }

  lemma TypeAfterModify(x: Index, s: Session)
    requires ModifyReturns(s)
    ensures s.seid in Modify(x, s).pduTypes && Modify(x, s).pduTypes[s.seid] == PduTypeFor(x, s)
  {}

  /** The snapshot taken from the array names every entry the session may leave behind. */
  lemma LeftoversAreTracked(x: Index, live: map<nat, Session>, s: Session)
    requires AgreesAt(x, live, s.seid) && WellFormed(s)
    ensures var t := PduTypeFor(x, s);
            var before := Tracked(x, t, s.seid);
            LeftoversAre(x, t, s, IdsIn(before) - PdrIds(s), QfisIn(before) - QfisInUse(s))
  {
    hide ArrayOf, PdrIds, QfisInUse, DistinctIds, IdsIn, QfisIn, DetectPduType, QfiOf, SdfOf, RulesOf;
    if s.seid in live {
      ArrayRecords(live[s.seid]);
    }
  }

  /** A pipeline creation never prunes, so it leaves the index in step exactly when the
      session has nothing stale there: always for a new SEID. */
  lemma CreateAgreesAtIff(x: Index, live: map<nat, Session>, s: Session)
    requires AgreesAt(x, live, s.seid) && WellFormed(s) && CreateReturns(s)
    ensures AgreesAt(Create(x, s), live[s.seid := s], s.seid) <==> NoStale(x, DetectPduType(s.pdrs), s)
    ensures s.seid !in live ==> NoStale(x, DetectPduType(s.pdrs), s)
    ensures SameElsewhere(x, Create(x, s), s.seid)
  {
    hide AgreesOn, Written, PdrIds, QfisInUse, DistinctIds, DetectPduType, SameElsewhere, CreateReturns;
    var t := DetectPduType(s.pdrs);
    WrittenAgreesIff(x, t, s);
    TypeAfterWrite(x, t, s);
  }

  lemma CreateAgreesIff(x: Index, live: map<nat, Session>, s: Session)
    requires Agrees(x, live) && WellFormed(s) && CreateReturns(s)
    ensures Agrees(Create(x, s), live[s.seid := s]) <==> NoStale(x, DetectPduType(s.pdrs), s)
    ensures s.seid !in live ==> NoStale(x, DetectPduType(s.pdrs), s)
    ensures SameElsewhere(x, Create(x, s), s.seid)
  {
    hide AgreesAt, SameElsewhere, Create, NoStale, CreateReturns, WellFormed;
    assert AgreesAt(x, live, s.seid);
    CreateAgreesAtIff(x, live, s);
    AgreesElsewhere(x, live, Create(x, s), live[s.seid := s], s.seid);
  }

  lemma TypeAfterWrite(x: Index, t: PduType, s: Session)
    requires ModifyReturns(s)
    ensures s.seid in Written(x, t, s).pduTypes && Written(x, t, s).pduTypes[s.seid] == t
  {}

  /** A removal leaves no entry of the session, and touches no other session. */
  lemma RemoveAgreesAt(x: Index, live: map<nat, Session>, seid: nat)
    requires AgreesAt(x, live, seid)
    ensures AgreesAt(Remove(x, seid), live - {seid}, seid)
  {
    hide RulesOf, SdfOf, QfiOf, FarOf, ArrayOf, PdrIds, QfisInUse, DistinctIds, IdsIn, QfisIn;
    if seid in live {
      ArrayRecords(live[seid]);
    }
  }

  lemma RemoveElsewhere(x: Index, seid: nat)
    ensures SameElsewhere(x, Remove(x, seid), seid)
  {
    hide IdsIn, QfisIn;
  }

  lemma RemoveAgrees(x: Index, live: map<nat, Session>, seid: nat)
    requires Agrees(x, live)
    ensures Agrees(Remove(x, seid), live - {seid}) && SameElsewhere(x, Remove(x, seid), seid)
  {
    hide AgreesAt, SameElsewhere, Remove;
    assert AgreesAt(x, live, seid);
    RemoveAgreesAt(x, live, seid);
    RemoveElsewhere(x, seid);
    AgreesElsewhere(x, live, Remove(x, seid), live - {seid}, seid);
  }

  /** A filter stored under QFI 0 is never taken for stale: removing a session clears all its
      filters exactly when none of them was stored under QFI 0. */
  lemma FiltersClearedIff(x: Index, live: map<nat, Session>, seid: nat)
    requires AgreesAt(x, live, seid)
    ensures (forall k :: k in Remove(x, seid).sdf ==> k.seid != seid) <==> SdfKey(seid, 0) !in x.sdf
  {
    hide RulesOf, SdfOf, QfiOf, FarOf, ArrayOf, PdrIds, QfisInUse, WellFormed, IdsIn, QfisIn;
    var t := if seid in x.pduTypes then x.pduTypes[seid] else Ip;
    ZeroNotTracked(Tracked(x, t, seid));
    RemoveAgreesAt(x, live, seid);
    if SdfKey(seid, 0) in x.sdf {
      assert SdfKey(seid, 0) in Remove(x, seid).sdf;
    }
  }

  // ---------------------------------------------------------------- runs

  datatype Call = CallCreate(s: Session) | CallModify(s: Session) | CallRemove(seid: nat)

  /** What the caller of a pipeline call owes: well-formed sessions whose PDRs resolve, and
      on creation a SEID that is new or a session that only grows. */
  ghost predicate MayCall(x: Index, live: map<nat, Session>, c: Call) {
    match c
    case CallCreate(s) => WellFormed(s) && CreateReturns(s) && (s.seid in live ==> Grows(x, live[s.seid], s))
    case CallModify(s) => WellFormed(s)
    case CallRemove(seid) => true
  }

  predicate Grows(x: Index, was: Session, s: Session) {
    && s.seid in x.pduTypes && DetectPduType(s.pdrs) == x.pduTypes[s.seid]
    && PdrIds(was) <= PdrIds(s) && QfisInUse(was) <= QfisInUse(s)
  }

  /** What a call makes of the index, whether it returns or throws. */
  function After(x: Index, c: Call): Index {
    match c
    case CallCreate(s) => if CreateReturns(s) then Create(x, s) else Partial(x, DetectPduType(s.pdrs), s, true)
    case CallModify(s) => if ModifyReturns(s) then Modify(x, s) else Partial(x, PduTypeFor(x, s), s, false)
    case CallRemove(seid) => Remove(x, seid)
  }

  function LiveAfter(live: map<nat, Session>, c: Call): map<nat, Session> {
    match c
    case CallCreate(s) => live[s.seid := s]
    case CallModify(s) => live[s.seid := s]
    case CallRemove(seid) => live - {seid}
  }

  function SeidOf(c: Call): nat {
    if c.CallRemove? then c.seid else c.s.seid
  }

  /** calls is a run from x and live that ends in y and after. */
  ghost predicate Runs(x: Index, live: map<nat, Session>, calls: seq<Call>, y: Index, after: map<nat, Session>)
    decreases |calls|
  {
    if |calls| == 0 then y == x && after == live
    else MayCall(x, live, calls[0]) && Runs(After(x, calls[0]), LiveAfter(live, calls[0]), calls[1..], y, after)
  }

  lemma CallAgrees(x: Index, live: map<nat, Session>, c: Call)
    requires Agrees(x, live) && MayCall(x, live, c)
    ensures Agrees(After(x, c), LiveAfter(live, c)) && SameElsewhere(x, After(x, c), SeidOf(c))
  {
    hide Create, Modify, Remove, SameElsewhere, DistinctIds, CreateReturns, ModifyReturns, Partial, Agrees, Grows, NoStale;
    match c
    case CallCreate(s) =>
      CreateAgreesIff(x, live, s);
      if s.seid in live {
        GrownHasNothingStale(x, live, s);
      }
    case CallModify(s) => ModifyAgrees(x, live, s);
    case CallRemove(seid) => RemoveAgrees(x, live, seid);
  }

  lemma GrownHasNothingStale(x: Index, live: map<nat, Session>, s: Session)
    requires Agrees(x, live) && s.seid in live && Grows(x, live[s.seid], s)
    ensures NoStale(x, DetectPduType(s.pdrs), s)
  {
    hide RulesOf, SdfOf, QfiOf, FarOf, ArrayOf, PdrIds, QfisInUse, WellFormed, DetectPduType;
    assert AgreesAt(x, live, s.seid);
  }

  /** Over every run of pipeline calls the index says exactly what the live sessions, as last
      passed, say. */
  lemma {:induction false} RunAgrees(x: Index, live: map<nat, Session>, calls: seq<Call>, y: Index, after: map<nat, Session>)
    requires Agrees(x, live) && Runs(x, live, calls, y, after)
    ensures Agrees(y, after)
    decreases |calls|
  {
    hide Agrees, DistinctIds, After, LiveAfter;
    if |calls| > 0 {
      CallAgrees(x, live, calls[0]);
      RunAgrees(After(x, calls[0]), LiveAfter(live, calls[0]), calls[1..], y, after);
    }
  }

  // ---------------------------------------------------------------- histories with calls that throw

  /** The index, and the sessions as last passed, after a history of calls from the start. */
  function IndexAfter(calls: seq<Call>): Index {
    if calls == [] then Empty else After(IndexAfter(calls[..|calls| - 1]), calls[|calls| - 1])
  }

  function LiveOf(calls: seq<Call>): map<nat, Session> {
    if calls == [] then map[] else LiveAfter(LiveOf(calls[..|calls| - 1]), calls[|calls| - 1])
  }

  predicate Returns(c: Call) {
    match c
    case CallCreate(s) => CreateReturns(s)
    case CallModify(s) => ModifyReturns(s)
    case CallRemove(_) => true
  }

  /** No call for seid has thrown, its sessions tell their PDRs apart, and it was created only while it was not alive. */
  ghost predicate CleanAt(calls: seq<Call>, seid: nat) {
    forall n :: 0 <= n < |calls| && SeidOf(calls[n]) == seid ==>
      Returns(calls[n]) && (!calls[n].CallRemove? ==> DistinctIds(calls[n].s)) && (calls[n].CallCreate? ==> seid !in LiveOf(calls[..n]))
  }

  lemma {:induction false} WritePdrsElsewhere(x: Index, t: PduType, s: Session, n: nat)
    requires n <= |s.pdrs| && Resolves(s.pdrs[..n], s.fars)
    ensures SameElsewhere(x, WritePdrs(x, t, s, n), s.seid)
  {
    hide FarOf, WritePdr, SameElsewhere, Resolves;
    if n == 0 {
      SameEverywhere(x, s.seid);
    } else {
      ResolvesPrefix(s, n - 1, n);
      WritePdrsElsewhere(x, t, s, n - 1);
      WritePdrElsewhere(x, WritePdrs(x, t, s, n - 1), t, s, s.pdrs[n - 1]);
    }
  }

  lemma SameEverywhere(x: Index, seid: nat)
    ensures SameElsewhere(x, x, seid)
  {}

  lemma WritePdrElsewhere(x: Index, y: Index, t: PduType, s: Session, pdr: Pdr)
    requires SameElsewhere(x, y, s.seid) && FarOf(s.fars, pdr).Some?
    ensures SameElsewhere(x, WritePdr(y, t, s, pdr), s.seid)
  {
    hide QfiOf, RulesOf, SdfOf, FarOf;
  }

  /** No call, thrown or returned, touches another session. */
  lemma AfterElsewhere(x: Index, c: Call)
    ensures SameElsewhere(x, After(x, c), SeidOf(c))
  {
    hide SameElsewhere, Written, Partial, Prune, Remove, CreateReturns, ModifyReturns, IdsIn, QfisIn, PdrIds, QfisInUse, DetectPduType;
    match c
    case CallCreate(s) =>
      PartialElsewhere(x, DetectPduType(s.pdrs), s, true);
      if CreateReturns(s) { CreateElsewhere(x, s); }
    case CallModify(s) =>
      PartialElsewhere(x, PduTypeFor(x, s), s, false);
      if ModifyReturns(s) { ModifyElsewhere(x, s); }
    case CallRemove(seid) => RemoveElsewhere(x, seid);
  }

  lemma PartialElsewhere(x: Index, t: PduType, s: Session, create: bool)
    ensures SameElsewhere(x, Partial(x, t, s, create), s.seid)
  {
    hide QfiOf, RulesOf, SdfOf, FarOf, WritePdrs, Resolves;
    if |s.pdrs| <= MAX_PDRS_PER_PDU_SESSION {
      WritePdrsElsewhere(Typed(x, t, s), t, s, Reach(s, create));
    }
  }

  lemma WrittenElsewhere(x: Index, t: PduType, s: Session)
    requires ModifyReturns(s)
    ensures SameElsewhere(x, Written(x, t, s), s.seid)
  {
    hide QfiOf, RulesOf, SdfOf, FarOf, WritePdrs, ArrayOf, Resolves;
    assert s.pdrs[..|s.pdrs|] == s.pdrs;
    WritePdrsElsewhere(x, t, s, |s.pdrs|);
  }

  lemma CreateElsewhere(x: Index, s: Session)
    requires CreateReturns(s)
    ensures SameElsewhere(x, Create(x, s), s.seid)
  {
    hide Written, SameElsewhere, DetectPduType;
    WrittenElsewhere(x, DetectPduType(s.pdrs), s);
  }

  lemma ModifyElsewhere(x: Index, s: Session)
    requires ModifyReturns(s)
    ensures SameElsewhere(x, Modify(x, s), s.seid)
  {
    hide Written, SameElsewhere, DetectPduType, IdsIn, QfisIn, PdrIds, QfisInUse, Prune, PduTypeFor;
    var t := PduTypeFor(x, s);
    WrittenElsewhere(x, t, s);
    PruneElsewhere(x, Written(x, t, s), t, s.seid, IdsIn(Tracked(x, t, s.seid)) - PdrIds(s), QfisIn(Tracked(x, t, s.seid)) - QfisInUse(s));
  }

  lemma PruneElsewhere(x: Index, y: Index, t: PduType, seid: nat, ids: set<nat>, qfis: set<nat>)
    requires SameElsewhere(x, y, seid)
    ensures SameElsewhere(x, Prune(y, t, seid, ids, qfis), seid)
  {}

  /** Whatever calls for other sessions have thrown, the index says of a session without such a
      call exactly what the session, as last passed, says. */
  lemma {:induction false} HistoryAgreesAt(calls: seq<Call>, seid: nat)
    requires CleanAt(calls, seid)
    ensures AgreesAt(IndexAfter(calls), LiveOf(calls), seid)
    decreases |calls|
  {
    hide AgreesAt, SameElsewhere, Create, Modify, Remove, Partial, NoStale, DistinctIds, CreateReturns, ModifyReturns;
    if calls == [] {
      EmptyAgrees();
      assert AgreesAt(Empty, map[], seid);
    } else {
      var before, c := calls[..|calls| - 1], calls[|calls| - 1];
      CleanBefore(calls, seid);
      HistoryAgreesAt(before, seid);
      if SeidOf(c) == seid {
        LastAgreesAt(IndexAfter(before), LiveOf(before), c);
      } else {
        AfterElsewhere(IndexAfter(before), c);
        AgreesAtElsewhere(IndexAfter(before), LiveOf(before), IndexAfter(calls), LiveOf(calls), SeidOf(c), seid);
      }
    }
  }

  lemma CleanBefore(calls: seq<Call>, seid: nat)
    requires CleanAt(calls, seid) && calls != []
    ensures CleanAt(calls[..|calls| - 1], seid)
  {
    hide Returns, DistinctIds, LiveOf;
    var before := calls[..|calls| - 1];
    forall n | 0 <= n < |before| ensures before[n] == calls[n] && before[..n] == calls[..n] {}
  }

  lemma LastAgreesAt(x: Index, live: map<nat, Session>, c: Call)
    requires AgreesAt(x, live, SeidOf(c)) && Returns(c) && (!c.CallRemove? ==> DistinctIds(c.s)) && (c.CallCreate? ==> SeidOf(c) !in live)
    ensures AgreesAt(After(x, c), LiveAfter(live, c), SeidOf(c))
  {
    hide AgreesAt, SameElsewhere, Create, Modify, Remove, Partial, NoStale, DistinctIds;
    match c
    case CallCreate(s) => assert WellFormed(s); CreateAgreesAtIff(x, live, s);
    case CallModify(s) => assert WellFormed(s); ModifyAgreesAt(x, live, s);
    case CallRemove(seid) => RemoveAgreesAt(x, live, seid);
  }

  /** What a modification leaves agrees with its session exactly when every leftover, of whatever
      origin, is recorded in the session's array. */
  lemma ModifyHealsIff(x: Index, s: Session)
    requires WellFormed(s)
    ensures var t := PduTypeFor(x, s);
            var before := Tracked(x, t, s.seid);
      AgreesOn(Modify(x, s), t, s) <==> LeftoversAre(x, t, s, IdsIn(before) - PdrIds(s), QfisIn(before) - QfisInUse(s))
  {
    hide AgreesOn, Written, ArrayOf, PdrIds, QfisInUse, DistinctIds, Prune, IdsIn, QfisIn, DetectPduType, SameElsewhere, LeftoversAre, PduTypeFor;
    var t := PduTypeFor(x, s);
    var before := Tracked(x, t, s.seid);
    var ids, qfis := IdsIn(before) - PdrIds(s), QfisIn(before) - QfisInUse(s);
    ZeroNotTracked(before);
    assert Modify(x, s) == Prune(Written(x, t, s), t, s.seid, ids, qfis);
    if LeftoversAre(x, t, s, ids, qfis) {
      WrittenThenPruned(x, t, s, ids, qfis);
    } else {
      LeftoverStays(x, t, s, ids, qfis);
    }
  }

  lemma LeftoverStays(x: Index, t: PduType, s: Session, ids: set<nat>, qfis: set<nat>)
    requires WellFormed(s) && !LeftoversAre(x, t, s, ids, qfis)
    ensures !AgreesOn(Prune(Written(x, t, s), t, s.seid, ids, qfis), t, s)
  {
    hide RulesOf, SdfOf, QfiOf, FarOf, Written, ArrayOf, PdrIds, QfisInUse, DistinctIds, WritesRule, WritesSdf;
    WrittenRules(x, t, s);
    WrittenSdf(x, t, s);
  }

  /** A failed modification with r leaves the index to a later successful one with s, which sets
      it right exactly when what the failed one installed is known to s or to the session before. */
  lemma HealedIff(x: Index, live: map<nat, Session>, r: Session, s: Session)
    requires r.seid == s.seid && s.seid in live && AgreesAt(x, live, s.seid)
    requires WellFormed(s) && !ModifyReturns(r)
    ensures var y := After(x, CallModify(r));
            var was := live[s.seid];
      AgreesAt(After(y, CallModify(s)), live[s.seid := s], s.seid) <==>
        (forall i :: 0 <= i < Reach(r, false) ==> r.pdrs[i].id in PdrIds(s) + PdrIds(was))
        && (forall i :: 0 <= i < Reach(r, false) && SdfOf(r.pdrs[i]).Some? ==> QfiOf(r, r.pdrs[i]) in QfisInUse(s) + QfisInUse(was) + {0})
  {
    hide AgreesOn, DistinctIds, ModifyReturns, IdsIn, QfisIn, PdrIds, QfisInUse, LeftoversAre, Modify, Partial, SdfOf, QfiOf, Reach;
    var t := x.pduTypes[s.seid];
    var was := live[s.seid];
    var y := After(x, CallModify(r));
    assert PduTypeFor(x, r) == t && y == Partial(x, t, r, false);
    if |r.pdrs| > MAX_PDRS_PER_PDU_SESSION {
      NothingInstalled(x, t, r);
      ModifyAgreesAt(x, live, s);
    } else {
      TrackedStays(x, live, r, t);
      ModifyHealsIff(y, s);
      TypeAfterModify(y, s);
      LeftoversOfFailure(x, live, r, s, t);
    }
  }

  lemma NothingInstalled(x: Index, t: PduType, r: Session)
    requires |r.pdrs| > MAX_PDRS_PER_PDU_SESSION
    ensures Partial(x, t, r, false) == x && Reach(r, false) == 0
  {}

  lemma TrackedStays(x: Index, live: map<nat, Session>, r: Session, t: PduType)
    requires r.seid in live && AgreesAt(x, live, r.seid) && t == x.pduTypes[r.seid] && |r.pdrs| <= MAX_PDRS_PER_PDU_SESSION
    ensures var y := Partial(x, t, r, false);
      && r.seid in y.pduTypes && y.pduTypes[r.seid] == t && Tracked(y, t, r.seid) == Tracked(x, t, r.seid)
      && IdsIn(Tracked(x, t, r.seid)) == PdrIds(live[r.seid]) && QfisIn(Tracked(x, t, r.seid)) == QfisInUse(live[r.seid])
  {
    hide RulesAgree, SdfAgrees, IdsIn, QfisIn, PdrIds, QfisInUse, ArrayOf, SdfOf, QfiOf, RulesOf, FarOf, WritePdrs, Reach;
    ArrayRecords(live[r.seid]);
    WritePdrsKeys(Typed(x, t, r), t, r, Reach(r, false));
  }

  lemma LeftoversOfFailure(x: Index, live: map<nat, Session>, r: Session, s: Session, t: PduType)
    requires r.seid == s.seid && s.seid in live && AgreesAt(x, live, s.seid) && t == x.pduTypes[s.seid] && |r.pdrs| <= MAX_PDRS_PER_PDU_SESSION
    ensures var was := live[s.seid];
      LeftoversAre(Partial(x, t, r, false), t, s, PdrIds(was) - PdrIds(s), QfisInUse(was) - QfisInUse(s)) <==>
        (forall i :: 0 <= i < Reach(r, false) ==> r.pdrs[i].id in PdrIds(s) + PdrIds(was))
        && (forall i :: 0 <= i < Reach(r, false) && SdfOf(r.pdrs[i]).Some? ==> QfiOf(r, r.pdrs[i]) in QfisInUse(s) + QfisInUse(was) + {0})
  {
    hide IdsIn, QfisIn, PdrIds, QfisInUse, ArrayOf, SdfOf, QfiOf, RulesOf, FarOf, WritePdrs, Reach, RuleStored, SdfStored, DistinctIds, ModifyReturns;
    var n := Reach(r, false);
    WritePdrsKeys(Typed(x, t, r), t, r, n);
    WritePdrsSdf(Typed(x, t, r), t, r, n);
    WrittenByPrefix(t, r, n);
    BeforeIsKnown(x, live, s.seid, t);
  }

  lemma BeforeIsKnown(x: Index, live: map<nat, Session>, seid: nat, t: PduType)
    requires seid in live && AgreesAt(x, live, seid) && t == x.pduTypes[seid]
    ensures forall k :: k in x.rules && k.seid == seid ==> k.pdu == t && k.pdrId in PdrIds(live[seid])
    ensures forall k :: k in x.sdf && k.seid == seid && k.qfi != 0 ==> k.qfi in QfisInUse(live[seid])
    ensures forall k :: k in x.arrays && k.seid == seid ==> k.pdu == t
  {
    hide PdrIds, QfisInUse, RuleStored, SdfStored, DistinctIds, ModifyReturns;
  }

  lemma WrittenByPrefix(t: PduType, r: Session, n: nat)
    requires n <= |r.pdrs|
    ensures forall i :: 0 <= i < n ==> WritesRule(t, r, n, RuleKey(t, r.seid, r.pdrs[i].id))
    ensures forall i :: 0 <= i < n && SdfOf(r.pdrs[i]).Some? ==> WritesSdf(r, n, SdfKey(r.seid, QfiOf(r, r.pdrs[i])))
  {
    hide SdfOf, QfiOf;
  }

  // ---------------------------------------------------------------- filters under QFI 0

  /** Among the PDRs the call installs, one has a filter and QFI 0. */
  predicate StoresUnderZero(c: Call) {
    !c.CallRemove? && WritesSdf(c.s, if Returns(c) then |c.s.pdrs| else Reach(c.s, c.CallCreate?), SdfKey(c.s.seid, 0))
  }

  /** A filter is there under QFI 0 exactly when some call has ever stored one. */
  lemma {:induction false} ZeroFilterIff(calls: seq<Call>, seid: nat)
    ensures SdfKey(seid, 0) in IndexAfter(calls).sdf <==> exists n :: 0 <= n < |calls| && SeidOf(calls[n]) == seid && StoresUnderZero(calls[n])
    decreases |calls|
  {
    hide StoresUnderZero, After;
    if calls != [] {
      var before, c := calls[..|calls| - 1], calls[|calls| - 1];
      ZeroFilterIff(before, seid);
      ZeroFilterStep(IndexAfter(before), c, seid);
      assert forall n :: 0 <= n < |before| ==> before[n] == calls[n];
    }
  }

  lemma ZeroFilterStep(x: Index, c: Call, seid: nat)
    ensures SdfKey(seid, 0) in After(x, c).sdf <==> SdfKey(seid, 0) in x.sdf || (SeidOf(c) == seid && StoresUnderZero(c))
  {
    hide QfiOf, RulesOf, SdfOf, FarOf, WritePdrs, IdsIn, QfisIn, PdrIds, QfisInUse, ArrayOf, DetectPduType, PduTypeFor, Resolves;
    match c
    case CallCreate(s) => StoredSdf(x, DetectPduType(s.pdrs), s, seid);
    case CallModify(s) =>
      StoredSdf(x, PduTypeFor(x, s), s, seid);
      ZeroNotTracked(Tracked(x, PduTypeFor(x, s), s.seid));
    case CallRemove(k) => ZeroNotTracked(Tracked(x, if k in x.pduTypes then x.pduTypes[k] else Ip, k));
  }

  lemma StoredSdf(x: Index, t: PduType, s: Session, seid: nat)
    ensures ModifyReturns(s) ==> (SdfKey(seid, 0) in Written(x, t, s).sdf <==> SdfKey(seid, 0) in x.sdf || WritesSdf(s, |s.pdrs|, SdfKey(seid, 0)))
    ensures forall create :: SdfKey(seid, 0) in Partial(x, t, s, create).sdf
              <==> SdfKey(seid, 0) in x.sdf || WritesSdf(s, Reach(s, create), SdfKey(seid, 0))
  {
    hide QfiOf, RulesOf, SdfOf, FarOf, WritePdrs, ArrayOf, WritesSdf;
    if ModifyReturns(s) {
      assert s.pdrs[..|s.pdrs|] == s.pdrs;
      WritePdrsSdf(x, t, s, |s.pdrs|);
    }
    forall create ensures SdfKey(seid, 0) in Partial(x, t, s, create).sdf <==> SdfKey(seid, 0) in x.sdf || WritesSdf(s, Reach(s, create), SdfKey(seid, 0)) {
      WritePdrsSdf(Typed(x, t, s), t, s, Reach(s, create));
      NoneWritten(s, SdfKey(seid, 0));
    }
  }

  lemma NoneWritten(s: Session, k: SdfKey)
    ensures !WritesSdf(s, 0, k)
  {}

  /** Hence a removal clears all filters of a session exactly when none was ever stored under QFI 0. */
  lemma NeverUnderZeroIff(calls: seq<Call>, seid: nat)
    requires CleanAt(calls, seid)
    ensures (forall k :: k in Remove(IndexAfter(calls), seid).sdf ==> k.seid != seid)
      <==> forall n :: 0 <= n < |calls| && SeidOf(calls[n]) == seid ==> !StoresUnderZero(calls[n])
  {
    hide IndexAfter, LiveOf, StoresUnderZero, Remove, CleanAt, AgreesAt;
    HistoryAgreesAt(calls, seid);
    FiltersClearedIff(IndexAfter(calls), LiveOf(calls), seid);
    ZeroFilterIff(calls, seid);
  }

  const ZeroQfiPdr := Pdr(1, 0, Some(Pdi(Some(Access), None, Some(7), Some(Some(SdfFilter("permit out ip from any to any"))), None)), Some(1), Some(1), None, None)

  /** Such a history: one session with one PDR, whose filter has no QFI of its own nor from its QER. */
  lemma ZeroFilterStays()
    ensures var s := Session(5, [ZeroQfiPdr], [], [], [Far(1, None, 0, 0)], [Qer(1, 0, 0)], [], [], []);
      && CleanAt([CallCreate(s)], 5) && CleanAt([CallCreate(s), CallRemove(5)], 5)
      && SdfKey(5, 0) in IndexAfter([CallCreate(s), CallRemove(5)]).sdf && 5 !in LiveOf([CallCreate(s), CallRemove(5)])
  {
    var s := Session(5, [ZeroQfiPdr], [], [], [Far(1, None, 0, 0)], [Qer(1, 0, 0)], [], [], []);
    var calls := [CallCreate(s), CallRemove(5)];
    OneCreated(s);
    assert calls[..1] == [CallCreate(s)] && calls[..0] == [];
    ZeroFilterIff(calls, 5);
    assert SeidOf(calls[0]) == 5 && StoresUnderZero(calls[0]);
  }

  lemma OneCreated(s: Session)
    requires s == Session(5, [ZeroQfiPdr], [], [], [Far(1, None, 0, 0)], [Qer(1, 0, 0)], [], [], [])
    ensures CreateReturns(s) && DistinctIds(s) && StoresUnderZero(CallCreate(s))
  {
    assert FarOf(s.fars, s.pdrs[0]) == Some(s.fars[0]) && QerOf(s.qers, s.pdrs[0]) == Some(s.qers[0]);
    assert SdfOf(s.pdrs[0]).Some? && QfiOf(s, s.pdrs[0]) == 0;
  }

  lemma EmptyAgrees()
    ensures Agrees(Empty, map[])
  {
    forall seid ensures AgreesAt(Empty, map[], seid) {}
  }
}
