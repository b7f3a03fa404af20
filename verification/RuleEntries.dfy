/** What the index holds of a session, read off the session itself: which rules, QFIs, filters and
    PDU session type, however they were looked up. */
module RuleEntries {
  import opened Options
  import opened PfcpRules
  import opened RuleIndex

  /** The rules of the session that a PDR names: those of the ids it carries, and the BAR its FAR names. */
  ghost predicate EntryOf(s: Session, pdr: Pdr, e: Rules) {
    && IsFirst(FarId, s.fars, pdr.farId, Some(e.far)) && IsFirst(QerId, s.qers, pdr.qerId, e.qer)
    && IsFirst(RuleId, s.urrs, pdr.urrId, e.urr) && IsFirst(RuleId, s.bars, e.far.barId, e.bar)
    && IsFirst(RuleId, s.mars, pdr.marId, e.mar)
  }

  /** The QFI of the PDR's own PDI unless that is absent or 0, then the one of its QER, then 0. */
  ghost predicate QfiIs(s: Session, pdr: Pdr, q: nat) {
    if pdr.pdi.Some? && pdr.pdi.value.qfi.Some? && pdr.pdi.value.qfi.value != 0 then q == pdr.pdi.value.qfi.value
    else exists qer :: IsFirst(QerId, s.qers, pdr.qerId, qer) && q == if qer.Some? then qer.value.qfi else 0
  }

  /** The PDR names a QER and carries a filter that parses as f. */
  predicate FilterIs(pdr: Pdr, f: SdfFilter) {
    pdr.qerId.Some? && pdr.pdi.Some? && pdr.pdi.value.sdf == Some(Some(f))
  }

  predicate HasFilter(pdr: Pdr) {
    pdr.qerId.Some? && pdr.pdi.Some? && pdr.pdi.value.sdf.Some? && pdr.pdi.value.sdf.value.Some?
  }

  /** No PDR behind the i-th has a filter under QFI q. */
  ghost predicate LastUnder(s: Session, i: nat, q: nat) {
    forall j :: i < j < |s.pdrs| && HasFilter(s.pdrs[j]) ==> !QfiIs(s, s.pdrs[j], q)
  }

  ghost predicate RulesRead(x: Index, t: PduType, s: Session) {
    && (forall k :: k in x.rules && k.seid == s.seid ==> k.pdu == t && exists i :: 0 <= i < |s.pdrs| && s.pdrs[i].id == k.pdrId)
    && (forall i :: 0 <= i < |s.pdrs| ==>
          RuleKey(t, s.seid, s.pdrs[i].id) in x.rules && EntryOf(s, s.pdrs[i], x.rules[RuleKey(t, s.seid, s.pdrs[i].id)]))
  }

  ghost predicate FiltersRead(x: Index, s: Session) {
    && (forall k :: k in x.sdf && k.seid == s.seid && k.qfi != 0 ==> exists i :: 0 <= i < |s.pdrs| && QfiIs(s, s.pdrs[i], k.qfi))
    && (forall i, f, q :: 0 <= i < |s.pdrs| && FilterIs(s.pdrs[i], f) && QfiIs(s, s.pdrs[i], q) && LastUnder(s, i, q) ==>
          SdfKey(s.seid, q) in x.sdf && x.sdf[SdfKey(s.seid, q)] == f)
  }

  ghost predicate ArrayRead(x: Index, t: PduType, s: Session) {
    && (forall k :: k in x.arrays && k.seid == s.seid ==> k.pdu == t)
    && ArrayKey(t, s.seid) in x.arrays && |x.arrays[ArrayKey(t, s.seid)]| == 16
    && forall i :: 0 <= i < 16 ==>
         if i < |s.pdrs| then x.arrays[ArrayKey(t, s.seid)][i].ruleId == s.pdrs[i].id && QfiIs(s, s.pdrs[i], x.arrays[ArrayKey(t, s.seid)][i].qfi)
         else x.arrays[ArrayKey(t, s.seid)][i] == BpfPdr(0, 0)
  }

  ghost predicate Reads(x: Index, s: Session) {
    s.seid in x.pduTypes && RulesRead(x, x.pduTypes[s.seid], s) && FiltersRead(x, s) && ArrayRead(x, x.pduTypes[s.seid], s)
  }

  lemma EntryIs(s: Session, pdr: Pdr)
    requires FarOf(s.fars, pdr).Some?
    ensures EntryOf(s, pdr, RulesOf(s, pdr))
  {
    hide IsFirst, FindFar, FindQer, FindRule;
    var far := FarOf(s.fars, pdr).value;
    FarIsFirst(s.fars, pdr.farId.value);
    QerOfIsFirst(s, pdr);
    RuleIsFirst(s.urrs, pdr.urrId);
    RuleIsFirst(s.bars, far.barId);
    RuleIsFirst(s.mars, pdr.marId);
  }

  lemma QerOfIsFirst(s: Session, pdr: Pdr)
    ensures IsFirst(QerId, s.qers, pdr.qerId, QerOf(s.qers, pdr))
  {
    hide FindQer;
    if pdr.qerId.Some? { QerIsFirst(s.qers, pdr.qerId.value); }
  }

  lemma QfiIff(s: Session, pdr: Pdr, q: nat)
    ensures QfiIs(s, pdr, q) <==> q == QfiOf(s, pdr)
  {
    hide IsFirst, QerOf;
    QerOfIsFirst(s, pdr);
    forall qer | IsFirst(QerId, s.qers, pdr.qerId, qer) ensures qer == QerOf(s.qers, pdr) {
      OneFirst(QerId, s.qers, pdr.qerId, qer, QerOf(s.qers, pdr));
    }
  }

  lemma RulesAreRead(x: Index, t: PduType, s: Session)
    requires WellFormed(s) && RulesAgree(x, t, s)
    ensures RulesRead(x, t, s)
  {
    hide EntryOf, FarOf, RulesOf, DistinctIds;
    forall i | 0 <= i < |s.pdrs|
      ensures RuleKey(t, s.seid, s.pdrs[i].id) in x.rules && EntryOf(s, s.pdrs[i], x.rules[RuleKey(t, s.seid, s.pdrs[i].id)])
    {
      assert RuleStored(x, t, s, i);
      EntryIs(s, s.pdrs[i]);
    }
  }

  lemma FiltersAreRead(x: Index, s: Session)
    requires SdfAgrees(x, s)
    ensures FiltersRead(x, s)
  {
    hide QfiOf, QfiIs;
    forall i, q | 0 <= i < |s.pdrs| ensures QfiIs(s, s.pdrs[i], q) <==> q == QfiOf(s, s.pdrs[i]) {
      QfiIff(s, s.pdrs[i], q);
    }
    forall i, f, q | 0 <= i < |s.pdrs| && FilterIs(s.pdrs[i], f) && QfiIs(s, s.pdrs[i], q) && LastUnder(s, i, q)
      ensures SdfKey(s.seid, q) in x.sdf && x.sdf[SdfKey(s.seid, q)] == f
    {
      forall j | i < j < |s.pdrs| && SdfOf(s.pdrs[j]).Some? ensures QfiOf(s, s.pdrs[j]) != QfiOf(s, s.pdrs[i]) {
        assert HasFilter(s.pdrs[j]);
      }
      assert LastSdfBefore(s, i, |s.pdrs|) && SdfStored(x, s, i);
    }
  }

  lemma ArrayIsRead(x: Index, t: PduType, s: Session)
    requires WellFormed(s) && ArrayAgrees(x, t, s)
    ensures ArrayRead(x, t, s)
  {
    hide QfiOf, QfiIs, DistinctIds, Resolves;
    forall i | 0 <= i < |s.pdrs| ensures QfiIs(s, s.pdrs[i], QfiOf(s, s.pdrs[i])) {
      QfiIff(s, s.pdrs[i], QfiOf(s, s.pdrs[i]));
    }
  }

  /** An index that agrees with a session reads as the session says. */
  lemma AgreedReads(x: Index, live: map<nat, Session>, seid: nat)
    requires AgreesAt(x, live, seid) && seid in live
    ensures live[seid].seid == seid && Reads(x, live[seid])
  {
    hide WellFormed, RulesAgree, SdfAgrees, ArrayAgrees, RulesRead, FiltersRead, ArrayRead;
    RulesAreRead(x, x.pduTypes[seid], live[seid]);
    FiltersAreRead(x, live[seid]);
    ArrayIsRead(x, x.pduTypes[seid], live[seid]);
  }

  /** Over every run of pipeline calls the index reads, for each live session, as the session says. */
  lemma RunReads(x: Index, live: map<nat, Session>, calls: seq<Call>, y: Index, after: map<nat, Session>, seid: nat)
    requires Agrees(x, live) && Runs(x, live, calls, y, after) && seid in after
    ensures after[seid].seid == seid && Reads(y, after[seid])
  {
    hide Runs, AgreesAt, Reads;
    RunAgrees(x, live, calls, y, after);
    assert AgreesAt(y, after, seid);
    AgreedReads(y, after, seid);
  }

  /** The PDU session type of a session with these PDRs. */
  predicate TypeIs(s: Session, t: PduType) {
    t == Ip <==> s.pdrs == [] || exists i :: 0 <= i < |s.pdrs| && UsesAddress(s.pdrs[i])
  }

  predicate UsesAddress(pdr: Pdr) {
    pdr.pdi.Some? && pdr.pdi.value.ueIp.Some? && pdr.pdi.value.ueIp != Some(0)
  }

  /** Each live session as it was when it came alive. */
  function Established(calls: seq<Call>): map<nat, Session> {
    if calls == [] then map[]
    else
      var before, c := Established(calls[..|calls| - 1]), calls[|calls| - 1];
      if c.CallRemove? then before - {c.seid} else if c.s.seid in before then before else before[c.s.seid := c.s]
  }

  /** In every history the index reads, for each live session without a failed call, as the session
      last passed says, and holds it under the type it had when it came alive. */
  lemma HistoryReads(calls: seq<Call>, seid: nat)
    requires CleanAt(calls, seid) && seid in LiveOf(calls)
    ensures LiveOf(calls)[seid].seid == seid && Reads(IndexAfter(calls), LiveOf(calls)[seid])
    ensures seid in Established(calls) && seid in IndexAfter(calls).pduTypes
    ensures TypeIs(Established(calls)[seid], IndexAfter(calls).pduTypes[seid])
  {
    hide CleanAt, LiveOf, IndexAfter, AgreesAt, Established, TypeIs;
    HistoryAgreesAt(calls, seid);
    AgreedReads(IndexAfter(calls), LiveOf(calls), seid);
    TypeStays(calls, seid);
  }

  lemma {:induction false} TypeStays(calls: seq<Call>, seid: nat)
    requires CleanAt(calls, seid)
    ensures (seid in LiveOf(calls) <==> seid in Established(calls)) && (seid in LiveOf(calls) <==> seid in IndexAfter(calls).pduTypes)
    ensures seid in LiveOf(calls) ==> TypeIs(Established(calls)[seid], IndexAfter(calls).pduTypes[seid])
    decreases |calls|
  {
    hide TypeIs, Returns, DistinctIds, After, SameElsewhere;
    if calls != [] {
      var before, c := calls[..|calls| - 1], calls[|calls| - 1];
      CleanBefore(calls, seid);
      TypeStays(before, seid);
      if SeidOf(c) == seid {
        assert Returns(calls[|calls| - 1]);
        TypeAfter(IndexAfter(before), c);
      } else {
        AfterElsewhere(IndexAfter(before), c);
        SameType(IndexAfter(before), IndexAfter(calls), SeidOf(c), seid);
      }
    }
  }

  lemma SameType(x: Index, y: Index, other: nat, seid: nat)
    requires SameElsewhere(x, y, other) && seid != other
    ensures (seid in x.pduTypes <==> seid in y.pduTypes) && (seid in x.pduTypes ==> x.pduTypes[seid] == y.pduTypes[seid])
  {}

  lemma TypeAfter(x: Index, c: Call)
    requires Returns(c)
    ensures var y := After(x, c);
            var seid := SeidOf(c);
      if c.CallRemove? then seid !in y.pduTypes
      else seid in y.pduTypes && if c.CallModify? && seid in x.pduTypes then y.pduTypes[seid] == x.pduTypes[seid] else TypeIs(c.s, y.pduTypes[seid])
  {
    hide CreateReturns, ModifyReturns, DetectPduType, TypeIs, IdsIn, QfisIn, PdrIds, QfisInUse;
    if !c.CallRemove? { Detected(c.s); }
  }

  lemma Detected(s: Session)
    ensures TypeIs(s, DetectPduType(s.pdrs))
  {
    assert forall i :: 0 <= i < |s.pdrs| ==> (HasUeIp(s.pdrs[i]) <==> UsesAddress(s.pdrs[i]));
  }
}
