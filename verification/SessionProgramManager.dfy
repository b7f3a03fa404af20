/** The manager of the BPF session maps: the pipeline calls, in place, against the pure
    functions of RuleIndex and UeIpIndex. */
module SessionProgramManager {
  import opened OnesComplement
  import opened Options
  import opened PfcpRules
  import opened RuleIndex
  import U = UeIpIndex

  function UplinkTeid(pdr: Pdr): u32 {
    if SourceOf(pdr) == Some(Access) && pdr.pdi.value.fteid.Some? then pdr.pdi.value.fteid.value else 0
  }

  function DownlinkTeid(s: Session, pdr: Pdr): u32 {
    var far := FarOf(s.fars, pdr);
    if far.Some? then far.value.dlTeid else 0
  }

  function UplinkTeids(pdrs: seq<Pdr>): seq<u32> {
    seq(|pdrs|, i requires 0 <= i < |pdrs| => UplinkTeid(pdrs[i]))
  }

  function DownlinkTeids(s: Session, pdrs: seq<Pdr>): seq<u32> {
    seq(|pdrs|, i requires 0 <= i < |pdrs| => DownlinkTeid(s, pdrs[i]))
  }

  function PrimaryUl(s: Session): u32 {
    U.FirstNonZero(UplinkTeids(s.pdrsUplink))
  }

  function PrimaryDl(s: Session): u32 {
    U.FirstNonZero(DownlinkTeids(s, s.pdrsDownlink))
  }

  function UeIpOf(pdr: Pdr): u32 {
    if pdr.pdi.Some? && pdr.pdi.value.ueIp.Some? then pdr.pdi.value.ueIp.value else 0
  }

  function FteidOf(pdr: Pdr): u32 {
    if pdr.pdi.Some? && pdr.pdi.value.fteid.Some? then pdr.pdi.value.fteid.value else 0
  }

  /** The address of a session: that of its first PDR that has one. */
  function RetrieveUeIp(pdrs: seq<Pdr>): u32 {
    if |pdrs| == 0 then 0
    else if pdrs[0].pdi.Some? && pdrs[0].pdi.value.ueIp.Some? then pdrs[0].pdi.value.ueIp.value
    else RetrieveUeIp(pdrs[1..])
  }

  /** The address stores of an establishment, PDR by PDR. */
  function CreateStores(x: U.Addresses, s: Session, n: nat): U.Addresses
    requires n <= |s.pdrs|
  {
    if n == 0 then x
    else U.Store(CreateStores(x, s, n - 1), UeIpOf(s.pdrs[n - 1]), FteidOf(s.pdrs[n - 1]), 0, s.seid)
  }

  /** How many PDRs of an establishment have their address stored: those installed, and the one it stops
      at if only its FAR is missing. */
  function Stored(s: Session): (n: nat)
    ensures n <= |s.pdrs|
  {
    var n := Reach(s, true);
    if |s.pdrs| <= MAX_PDRS_PER_PDU_SESSION && n < |s.pdrs| && SourceOf(s.pdrs[n]).Some? then n + 1 else n
  }

  /** The address section of a modification. */
  function ModifyStore(x: U.Addresses, t: PduType, s: Session): U.Addresses {
    if t == Ip && (PrimaryUl(s) != 0 || PrimaryDl(s) != 0)
    then U.StoreAndDrop(x, RetrieveUeIp(s.pdrs), PrimaryUl(s), PrimaryDl(s), s.seid)
    else x
  }

  class SessionProgramManager {
    var rules: map<RuleKey, Rules>
    var sdf: map<SdfKey, SdfFilter>
    var arrays: map<ArrayKey, seq<BpfPdr>>
    var pduTypes: map<nat, PduType>
    var byUeIp: map<u32, U.Tunnel>
    var ueIpKeys: map<nat, set<u32>>

    ghost function IndexState(): Index
      reads this
    {
      Index(rules, sdf, arrays, pduTypes)
    }

    ghost function AddressState(): U.Addresses
      reads this
    {
      U.Addresses(byUeIp, ueIpKeys)
    }

    constructor ()
      ensures IndexState() == Empty && AddressState() == U.NoAddresses
    {
      rules, sdf, arrays, pduTypes := map[], map[], map[], map[];
      byUeIp, ueIpKeys := map[], map[];
    }

    method StorePduSessionInMap(ueIp: u32, teidUl: u32, teidDl: u32, seid: nat)
      modifies `byUeIp, `ueIpKeys
      ensures AddressState() == U.Store(old(AddressState()), ueIp, teidUl, teidDl, seid)
    {
      var key, ul, dl := U.Htonl(ueIp), U.Htonl(teidUl), U.Htonl(teidDl);
      var session;
      if key in byUeIp && byUeIp[key].seid == seid {
        session := byUeIp[key];
        if session.teidUl == 0 {
          session := session.(teidUl := if ul != 0 then ul else dl);
        }
        if session.teidDl == 0 {
          session := session.(teidDl := if dl != 0 then dl else ul);
        }
      } else {
        session := U.Tunnel(seid, ul, dl);
      }
      byUeIp := byUeIp[key := session];
      ueIpKeys := ueIpKeys[seid := (if seid in ueIpKeys then ueIpKeys[seid] else {}) + {key}];
    }

    /** A newer session may already have reclaimed the address. */
    method RemoveUeIpMappingIfOwned(key: u32, seid: nat)
      modifies `byUeIp
      ensures AddressState() == U.DropOwned(old(AddressState()), {key}, seid)
    {
      if key in byUeIp && byUeIp[key].seid == seid {
        byUeIp := byUeIp - {key};
      }
    }

    method RemoveOwnedMappings(keys: set<u32>, seid: nat)
      modifies `byUeIp
      ensures AddressState() == U.DropOwned(old(AddressState()), keys, seid)
    {
      var left := keys;
      while left != {}
        invariant left <= keys
        invariant AddressState() == U.DropOwned(old(AddressState()), keys - left, seid)
        decreases |left|
      {
        var key :| key in left;
        RemoveUeIpMappingIfOwned(key, seid);
        left := left - {key};
      }
    }

    method ParseAndStoreSdfFilter(s: Session, pdr: Pdr)
      modifies `sdf
      ensures sdf == if SdfOf(pdr).Some? then old(sdf)[SdfKey(s.seid, QfiOf(s, pdr)) := SdfOf(pdr).value] else old(sdf)
    {
      if pdr.qerId.None? || pdr.pdi.None? || pdr.pdi.value.sdf.None? {
        return;
      }
      var filter := pdr.pdi.value.sdf.value;
      if filter.Some? {
        sdf := sdf[SdfKey(s.seid, QfiOf(s, pdr)) := filter.value];
      }
    }

    /** The last QFI recorded for each PDR id of the session. */
    method GetTrackedPdrQfis(t: PduType, seid: nat) returns (qfis: map<nat, nat>)
      ensures qfis.Keys == IdsIn(Tracked(IndexState(), t, seid))
      ensures (set id | id in qfis && qfis[id] != 0 :: qfis[id]) == QfisIn(Tracked(IndexState(), t, seid))
      ensures var a := Tracked(IndexState(), t, seid);
        forall id :: id in qfis ==> exists j :: 0 <= j < |a| && a[j].ruleId == id && a[j].qfi == qfis[id] && IsLast(a, |a|, j)
    {
      qfis := map[];
      var key := ArrayKey(t, seid);
      if key !in arrays {
        return;
      }
      var a := arrays[key];
      for i := 0 to |a|
        invariant forall id :: id in qfis ==> exists j :: 0 <= j < i && IsLast(a, i, j) && a[j].ruleId == id && a[j].qfi == qfis[id] && id != 0
        invariant forall j :: 0 <= j < i && a[j].ruleId != 0 ==> a[j].ruleId in qfis
      {
        if a[i].ruleId != 0 {
          qfis := qfis[a[i].ruleId := a[i].qfi];
        }
      }
    }

    method PruneStaleRuleEntries(t: PduType, seid: nat, stalePdrIds: set<nat>, staleQfis: set<nat>)
      modifies `rules, `sdf
      ensures IndexState() == Prune(old(IndexState()), t, seid, stalePdrIds, staleQfis)
    {
      PruneRules(t, seid, stalePdrIds);
      PruneFilters(seid, staleQfis);
    }

    method PruneRules(t: PduType, seid: nat, stalePdrIds: set<nat>)
      modifies `rules
      ensures rules == old(rules) - (set id | id in stalePdrIds :: RuleKey(t, seid, id))
    {
      var ids := stalePdrIds;
      while ids != {}
        invariant ids <= stalePdrIds
        invariant forall k :: k in rules <==> k in old(rules) && !(k.pdu == t && k.seid == seid && k.pdrId in stalePdrIds && k.pdrId !in ids)
        invariant forall k :: k in rules ==> rules[k] == old(rules)[k]
        decreases |ids|
      {
        var id :| id in ids;
        rules := rules - {RuleKey(t, seid, id)};
        ids := ids - {id};
      }
    }

    method PruneFilters(seid: nat, staleQfis: set<nat>)
      modifies `sdf
      ensures sdf == old(sdf) - (set q | q in staleQfis :: SdfKey(seid, q))
    {
      var qfis := staleQfis;
      while qfis != {}
        invariant qfis <= staleQfis
        invariant forall k :: k in sdf <==> k in old(sdf) && !(k.seid == seid && k.qfi in staleQfis && k.qfi !in qfis)
        invariant forall k :: k in sdf ==> sdf[k] == old(sdf)[k]
        decreases |qfis|
      {
        var q :| q in qfis;
        sdf := sdf - {SdfKey(seid, q)};
        qfis := qfis - {q};
      }
    }

    /** Writes the rules of one PDR and records it in slot i of the array under construction. */
    method InstallPdr(t: PduType, s: Session, i: nat, slots: array<BpfPdr>)
      requires i < |s.pdrs| <= slots.Length == MAX_PDRS_PER_PDU_SESSION && FarOf(s.fars, s.pdrs[i]).Some?
      modifies `rules, `sdf, slots
      ensures IndexState() == WritePdr(old(IndexState()), t, s, s.pdrs[i])
      ensures slots[..] == old(slots[..])[i := BpfPdr(s.pdrs[i].id, QfiOf(s, s.pdrs[i]))]
    {
      var pdr := s.pdrs[i];
      rules := rules[RuleKey(t, s.seid, pdr.id) := RulesOf(s, pdr)];
      ParseAndStoreSdfFilter(s, pdr);
      slots[i] := BpfPdr(pdr.id, QfiOf(s, pdr));
    }

    /** False stands for an exception; the PDRs installed before it stay. */
    method CreatePipeline(s: Session) returns (ok: bool)
      modifies this
      ensures ok <==> CreateReturns(s)
      ensures IndexState() == After(old(IndexState()), CallCreate(s))
      ensures AddressState() == if DetectPduType(s.pdrs) == Ip then CreateStores(old(AddressState()), s, Stored(s)) else old(AddressState())
      ensures ok ==> Stored(s) == |s.pdrs|
    {
      hide DetectPduType, Reach, CreateReturns, Create, Partial, Goes, Stored;
      ghost var x := IndexState();
      if |s.pdrs| > MAX_PDRS_PER_PDU_SESSION {
        TooMany(x, s);
        NothingStored(s);
        return false;
      }
      var t := DetectPduType(s.pdrs);
      pduTypes := pduTypes[s.seid := t];
      var slots;
      ok, slots := InstallPdrs(x, t, s);
      if ok {
        arrays := arrays[ArrayKey(t, s.seid) := slots[..]];
      }
      Installed(x, t, s, true, slots[..]);
      if ok { CreateIsWritten(x, s); }
    }

    /** The loop of an establishment. */
    method InstallPdrs(ghost x: Index, t: PduType, s: Session) returns (ok: bool, slots: array<BpfPdr>)
      requires |s.pdrs| <= MAX_PDRS_PER_PDU_SESSION && IndexState() == Typed(x, t, s)
      modifies `rules, `sdf, `byUeIp, `ueIpKeys
      ensures fresh(slots) && (ok <==> Reach(s, true) == |s.pdrs|) && IndexState() == Partial(x, t, s, true)
      ensures ok ==> SlotsHold(slots[..], s, |s.pdrs|) && Stored(s) == |s.pdrs|
      ensures AddressState() == if t == Ip then CreateStores(old(AddressState()), s, Stored(s)) else old(AddressState())
    {
      hide QfiOf, RulesOf, SdfOf, FarOf, SourceOf, WritePdrs, WritePdr, SlotsHold, U.Store, Reach, Goes, Stored, Partial, CreateStores, UeIpOf, FteidOf, Typed, Resolves;
      slots := new BpfPdr[MAX_PDRS_PER_PDU_SESSION](_ => BpfPdr(0, 0));
      Start(x, t, s, slots[..]);
      AllStored(x, t, s);
      NoStore(AddressState(), s);
      for i := 0 to |s.pdrs|
        invariant i <= Reach(s, true) && Resolves(s.pdrs[..i], s.fars)
        invariant IndexState() == WritePdrs(Typed(x, t, s), t, s, i)
        invariant AddressState() == if t == Ip then CreateStores(old(AddressState()), s, i) else old(AddressState())
        invariant SlotsHold(slots[..], s, i) && fresh(slots)
      {
        Step(x, t, s, true, i, slots[..]);
        StoredAt(s, i);
        OneMoreStore(old(AddressState()), s, i);
        if SourceOf(s.pdrs[i]).None? {
          return false, slots;
        }
        if t == Ip {
          StorePduSessionInMap(UeIpOf(s.pdrs[i]), FteidOf(s.pdrs[i]), 0, s.seid);
        }
        if FarOf(s.fars, s.pdrs[i]).None? {
          return false, slots;
        }
        InstallPdr(t, s, i, slots);
      }
      ok := true;
    }

    /** The loop of a modification: rewrite every PDR, noting the ids and QFIs that survive. */
    method RewritePdrs(ghost x: Index, t: PduType, s: Session, slots: array<BpfPdr>)
      returns (ok: bool, newPdrIds: set<nat>, newQfis: set<nat>)
      requires |s.pdrs| <= MAX_PDRS_PER_PDU_SESSION == slots.Length && IndexState() == Typed(x, t, s)
      requires forall j :: 0 <= j < slots.Length ==> slots[j] == BpfPdr(0, 0)
      modifies `rules, `sdf, slots
      ensures (ok <==> Reach(s, false) == |s.pdrs|) && IndexState() == Partial(x, t, s, false)
      ensures ok ==> SlotsHold(slots[..], s, |s.pdrs|) && newPdrIds == PdrIds(s) && newQfis == QfisInUse(s)
    {
      hide QfiOf, RulesOf, SdfOf, FarOf, WritePdrs, WritePdr, SlotsHold, Reach, Goes;
      Start(x, t, s, slots[..]);
      newPdrIds, newQfis := {}, {};
      for i := 0 to |s.pdrs|
        invariant i <= Reach(s, false) && Resolves(s.pdrs[..i], s.fars)
        invariant IndexState() == WritePdrs(Typed(x, t, s), t, s, i)
        invariant SlotsHold(slots[..], s, i)
        invariant newPdrIds == set j | 0 <= j < i :: s.pdrs[j].id
        invariant newQfis == set j | 0 <= j < i && QfiOf(s, s.pdrs[j]) != 0 :: QfiOf(s, s.pdrs[j])
      {
        Step(x, t, s, false, i, slots[..]);
        if FarOf(s.fars, s.pdrs[i]).None? {
          return false, {}, {};
        }
        newPdrIds := newPdrIds + {s.pdrs[i].id};
        if QfiOf(s, s.pdrs[i]) != 0 {
          newQfis := newQfis + {QfiOf(s, s.pdrs[i])};
        }
        InstallPdr(t, s, i, slots);
      }
      return true, newPdrIds, newQfis;
    }

    /** The rule section of a modification: rewrite, record, prune against the snapshot. */
    method ReplaceRules(ghost x: Index, t: PduType, s: Session, oldPdrQfis: map<nat, nat>) returns (ok: bool)
      requires |s.pdrs| <= MAX_PDRS_PER_PDU_SESSION && IndexState() == Typed(x, t, s) && t == PduTypeFor(x, s)
      requires oldPdrQfis.Keys == IdsIn(Tracked(x, t, s.seid))
      requires (set id | id in oldPdrQfis && oldPdrQfis[id] != 0 :: oldPdrQfis[id]) == QfisIn(Tracked(x, t, s.seid))
      modifies `rules, `sdf, `arrays
      ensures (ok <==> ModifyReturns(s)) && IndexState() == After(x, CallModify(s))
    {
      hide QfiOf, RulesOf, SdfOf, FarOf, WritePdrs, SlotsHold, Reach, Goes, IdsIn, QfisIn, Tracked, PduTypeFor, PdrIds, QfisInUse, Prune, Partial, Modify, ModifyReturns, Written, Typed;
      var oldQfis := set id | id in oldPdrQfis && oldPdrQfis[id] != 0 :: oldPdrQfis[id];
      var slots := new BpfPdr[MAX_PDRS_PER_PDU_SESSION](_ => BpfPdr(0, 0));
      var newPdrIds, newQfis;
      ok, newPdrIds, newQfis := RewritePdrs(x, t, s, slots);
      if ok {
        arrays := arrays[ArrayKey(t, s.seid) := slots[..]];
      }
      Installed(x, t, s, false, slots[..]);
      if ok {
        PruneStaleRuleEntries(t, s.seid, oldPdrQfis.Keys - newPdrIds, oldQfis - newQfis);
        ModifyIsPruned(x, s);
      }
    }

    method ModifyPipeline(s: Session) returns (ok: bool)
      modifies this
      ensures ok <==> ModifyReturns(s)
      ensures IndexState() == After(old(IndexState()), CallModify(s))
      ensures AddressState() == if |s.pdrs| <= MAX_PDRS_PER_PDU_SESSION then ModifyStore(old(AddressState()), PduTypeFor(old(IndexState()), s), s)
                                else old(AddressState())
    {
      hide DetectPduType, IdsIn, QfisIn, ModifyStore, Modify, ModifyReturns, Partial;
      ghost var x := IndexState();
      if |s.pdrs| > MAX_PDRS_PER_PDU_SESSION {
        TooMany(x, s);
        return false;
      }
      var t := if s.seid in pduTypes then pduTypes[s.seid] else DetectPduType(s.pdrs);
      pduTypes := pduTypes[s.seid := t];
      var oldPdrQfis := GetTrackedPdrQfis(t, s.seid);
      UpdateUeIpMapping(t, s);
      ok := ReplaceRules(x, t, s, oldPdrQfis);
    }

    method UpdateUeIpMapping(t: PduType, s: Session)
      modifies `byUeIp, `ueIpKeys
      ensures AddressState() == ModifyStore(old(AddressState()), t, s)
    {
      var ul, dl, ueIp := PrimaryUl(s), PrimaryDl(s), RetrieveUeIp(s.pdrs);
      if t == Ip && (ul != 0 || dl != 0) {
        StorePduSessionInMap(ueIp, ul, dl, s.seid);
        var key := U.Htonl(ueIp);
        RemoveOwnedMappings(ueIpKeys[s.seid] - {key}, s.seid);
        ueIpKeys := ueIpKeys[s.seid := {key}];
      }
    }

    method RemoveSession(seid: nat)
      modifies this
      ensures IndexState() == Remove(old(IndexState()), seid)
      ensures AddressState() == U.Forget(old(AddressState()), seid)
    {
      hide IdsIn, QfisIn;
      var t := if seid in pduTypes then pduTypes[seid] else Ip;
      pduTypes := pduTypes - {seid};
      var oldPdrQfis := GetTrackedPdrQfis(t, seid);
      PruneStaleRuleEntries(t, seid, oldPdrQfis.Keys, set id | id in oldPdrQfis && oldPdrQfis[id] != 0 :: oldPdrQfis[id]);
      arrays := arrays - {ArrayKey(t, seid)};
      ForgetAddresses(seid);
    }

    method ForgetAddresses(seid: nat)
      modifies `byUeIp, `ueIpKeys
      ensures AddressState() == U.Forget(old(AddressState()), seid)
    {
      if seid in ueIpKeys {
        RemoveOwnedMappings(ueIpKeys[seid], seid);
        ueIpKeys := ueIpKeys - {seid};
      }
    }
  }

  predicate IsLast(a: seq<BpfPdr>, n: nat, j: nat)
    requires j < n <= |a|
  {
    forall l :: j < l < n ==> a[l].ruleId != a[j].ruleId
  }

  predicate SlotsHold(slots: seq<BpfPdr>, s: Session, n: nat)
    requires n <= |s.pdrs|
  {
    |slots| == MAX_PDRS_PER_PDU_SESSION && |s.pdrs| <= |slots| &&
    forall j :: 0 <= j < |slots| ==> slots[j] == if j < n then BpfPdr(s.pdrs[j].id, QfiOf(s, s.pdrs[j])) else BpfPdr(0, 0)
  }

  /** Recording the PDU type before the PDRs are written, instead of after, is the same. */
  lemma {:induction false} TypeFirst(x: Index, t: PduType, s: Session, n: nat)
    requires n <= |s.pdrs| && Resolves(s.pdrs[..n], s.fars)
    ensures WritePdrs(Typed(x, t, s), t, s, n) == Typed(WritePdrs(x, t, s, n), t, s)
    ensures WritePdrs(x, t, s, n).arrays == x.arrays && WritePdrs(x, t, s, n).pduTypes == x.pduTypes
  {
    hide QfiOf, RulesOf, SdfOf, FarOf;
    if n > 0 {
      ResolvesPrefix(s, n - 1, n);
      TypeFirst(x, t, s, n - 1);
    }
  }

  lemma Start(x: Index, t: PduType, s: Session, slots: seq<BpfPdr>)
    requires |s.pdrs| <= MAX_PDRS_PER_PDU_SESSION == |slots| && forall j :: 0 <= j < |slots| ==> slots[j] == BpfPdr(0, 0)
    ensures Resolves(s.pdrs[..0], s.fars) && WritePdrs(Typed(x, t, s), t, s, 0) == Typed(x, t, s)
    ensures SlotsHold(slots, s, 0)
  {}

  lemma TooMany(x: Index, s: Session)
    requires |s.pdrs| > MAX_PDRS_PER_PDU_SESSION
    ensures !CreateReturns(s) && !ModifyReturns(s) && After(x, CallCreate(s)) == x == After(x, CallModify(s))
  {}

  lemma NothingStored(s: Session)
    requires |s.pdrs| > MAX_PDRS_PER_PDU_SESSION
    ensures Stored(s) == 0
  {}

  lemma OneMoreStore(x: U.Addresses, s: Session, i: nat)
    requires i < |s.pdrs|
    ensures CreateStores(x, s, i + 1) == U.Store(CreateStores(x, s, i), UeIpOf(s.pdrs[i]), FteidOf(s.pdrs[i]), 0, s.seid)
  {}

  lemma NoStore(x: U.Addresses, s: Session)
    ensures CreateStores(x, s, 0) == x
  {}

  /** Where an establishment stops, and what it leaves. */
  lemma StoredAt(s: Session, i: nat)
    requires |s.pdrs| <= MAX_PDRS_PER_PDU_SESSION && i < |s.pdrs|
    ensures Reach(s, true) == i ==> Stored(s) == if SourceOf(s.pdrs[i]).Some? then i + 1 else i
  {}

  lemma AllStored(x: Index, t: PduType, s: Session)
    requires |s.pdrs| <= MAX_PDRS_PER_PDU_SESSION
    ensures Reach(s, true) == |s.pdrs| ==> Stored(s) == |s.pdrs|
    ensures Partial(x, t, s, true) == WritePdrs(Typed(x, t, s), t, s, Reach(s, true))
  {}

  /** One turn of a pipeline loop. */
  lemma Step(x: Index, t: PduType, s: Session, create: bool, i: nat, slots: seq<BpfPdr>)
    requires |s.pdrs| <= MAX_PDRS_PER_PDU_SESSION && i < |s.pdrs| && i <= Reach(s, create) && SlotsHold(slots, s, i)
    ensures Resolves(s.pdrs[..i], s.fars)
    ensures !Goes(s, create, i) ==> Reach(s, create) == i
    ensures Goes(s, create, i) ==>
      (i < Reach(s, create) && FarOf(s.fars, s.pdrs[i]).Some? && Resolves(s.pdrs[..i + 1], s.fars)
       && WritePdrs(Typed(x, t, s), t, s, i + 1) == WritePdr(WritePdrs(Typed(x, t, s), t, s, i), t, s, s.pdrs[i]))
    ensures Goes(s, create, i) <==> FarOf(s.fars, s.pdrs[i]).Some? && (create ==> SourceOf(s.pdrs[i]).Some?)
    ensures |slots| == MAX_PDRS_PER_PDU_SESSION && i < |slots|
    ensures SlotsHold(slots[i := BpfPdr(s.pdrs[i].id, QfiOf(s, s.pdrs[i]))], s, i + 1)
  {
    hide QfiOf, RulesOf, SdfOf, FarOf, WritePdr;
    ResolvesPrefix(s, i, Reach(s, create));
    if i < Reach(s, create) { ResolvesPrefix(s, i + 1, Reach(s, create)); }
  }

  /** The loop is over: the index is what the call makes of it, but for the pruning. */
  lemma Installed(x: Index, t: PduType, s: Session, create: bool, slots: seq<BpfPdr>)
    requires |s.pdrs| <= MAX_PDRS_PER_PDU_SESSION
    ensures Reach(s, create) == |s.pdrs| <==> if create then CreateReturns(s) else ModifyReturns(s)
    ensures Reach(s, create) == |s.pdrs| && SlotsHold(slots, s, |s.pdrs|) ==>
      var p := Partial(x, t, s, create); p.(arrays := p.arrays[ArrayKey(t, s.seid) := slots]) == Written(x, t, s)
  {
    hide QfiOf, RulesOf, SdfOf, FarOf, WritePdr;
    var n := ReachFrom(s, create, 0);
    assert s.pdrs[..|s.pdrs|] == s.pdrs && n == Reach(s, create);
    if n == |s.pdrs| {
      AllGo(s, create);
      TypeFirst(x, t, s, n);
      if SlotsHold(slots, s, |s.pdrs|) { assert slots == ArrayOf(s); }
    } else {
      OneDoesNotGo(s, create, n);
    }
  }

  lemma AllGo(s: Session, create: bool)
    requires |s.pdrs| <= MAX_PDRS_PER_PDU_SESSION && forall j :: 0 <= j < |s.pdrs| ==> Goes(s, create, j)
    ensures if create then CreateReturns(s) else ModifyReturns(s)
  {
    hide FarOf, SourceOf;
    forall j | 0 <= j < |s.pdrs| ensures FarOf(s.fars, s.pdrs[j]).Some? && (create ==> SourceOf(s.pdrs[j]).Some?) {
      assert Goes(s, create, j);
    }
  }

  lemma OneDoesNotGo(s: Session, create: bool, n: nat)
    requires n < |s.pdrs| && !Goes(s, create, n)
    ensures if create then !CreateReturns(s) else !ModifyReturns(s)
  {
    hide FarOf, SourceOf;
  }

  lemma ModifyIsPruned(x: Index, s: Session)
    requires ModifyReturns(s)
    ensures var t := PduTypeFor(x, s);
            var before := Tracked(x, t, s.seid);
            After(x, CallModify(s)) == Prune(Written(x, t, s), t, s.seid, IdsIn(before) - PdrIds(s), QfisIn(before) - QfisInUse(s))
  {}

  lemma CreateIsWritten(x: Index, s: Session)
    requires CreateReturns(s)
    ensures After(x, CallCreate(s)) == Written(x, DetectPduType(s.pdrs), s)
  {}
}
