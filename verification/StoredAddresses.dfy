/** Which UE address and which TEIDs a pipeline call stores, read off the session, and its stores as
    sections of the address map. */
module StoredAddresses {
  import opened OnesComplement
  import opened Options
  import opened PfcpRules
  import opened RuleIndex
  import opened SessionLists
  import opened SessionProgramManager
  import U = UeIpIndex

  /** An ACCESS PDR with F-TEID teid. */
  predicate CarriesUl(p: Pdr, teid: u32) {
    p.pdi.Some? && p.pdi.value.source == Some(Access) && p.pdi.value.fteid == Some(teid) && teid != 0
  }

  /** A CORE PDR whose FAR points at TEID teid. */
  ghost predicate CarriesDl(s: Session, p: Pdr, teid: u32) {
    p.pdi.Some? && p.pdi.value.source == Some(Core) && teid != 0 &&
    exists far :: IsFirst(FarId, s.fars, p.farId, Some(far)) && far.dlTeid == teid
  }

  /** teid is that of a PDR no other with a TEID comes before by precedence, or 0 if there is none. */
  ghost predicate UplinkTeidIs(s: Session, teid: u32) {
    if teid == 0 then forall p, u :: p in s.pdrs ==> !CarriesUl(p, u)
    else exists p :: p in s.pdrs && CarriesUl(p, teid) && forall q, u :: q in s.pdrs && CarriesUl(q, u) ==> p.precedence <= q.precedence
  }

  ghost predicate DownlinkTeidIs(s: Session, teid: u32) {
    if teid == 0 then forall p, u :: p in s.pdrs ==> !CarriesDl(s, p, u)
    else exists p :: p in s.pdrs && CarriesDl(s, p, teid) && forall q, u :: q in s.pdrs && CarriesDl(s, q, u) ==> p.precedence <= q.precedence
  }

  /** The UE address of the first PDR of the session that has one, or 0. */
  ghost predicate UeIpIs(pdrs: seq<Pdr>, ip: u32) {
    if exists i :: 0 <= i < |pdrs| && NamesUe(pdrs[i])
    then exists i :: 0 <= i < |pdrs| && NamesUe(pdrs[i]) && pdrs[i].pdi.value.ueIp == Some(ip) && forall j :: 0 <= j < i ==> !NamesUe(pdrs[j])
    else ip == 0
  }

  predicate NamesUe(p: Pdr) {
    p.pdi.Some? && p.pdi.value.ueIp.Some?
  }

  lemma {:induction false} UeIpIsRetrieved(pdrs: seq<Pdr>)
    ensures UeIpIs(pdrs, RetrieveUeIp(pdrs))
  {
    if pdrs != [] && !NamesUe(pdrs[0]) {
      var rest := pdrs[1..];
      UeIpIsRetrieved(rest);
      assert forall i :: 1 <= i < |pdrs| ==> pdrs[i] == rest[i - 1];
      if i :| 0 <= i < |rest| && NamesUe(rest[i]) {
        assert NamesUe(pdrs[i + 1]);
        var k :| 0 <= k < |rest| && NamesUe(rest[k]) && rest[k].pdi.value.ueIp == Some(RetrieveUeIp(rest)) && forall j :: 0 <= j < k ==> !NamesUe(rest[j]);
        assert NamesUe(pdrs[k + 1]) && forall j :: 0 <= j < k + 1 ==> !NamesUe(pdrs[j]);
      }
    } else if pdrs != [] {
      assert NamesUe(pdrs[0]);
    }
  }

  lemma InSource(pdrs: seq<Pdr>, sorted: seq<Pdr>, source: SourceInterface)
    requires Sorting(sorted, FromSource(pdrs, source))
    ensures forall p :: p in sorted <==> p in pdrs && SourceOf(p) == Some(source)
  {
    forall p ensures p in sorted <==> p in pdrs && SourceOf(p) == Some(source) {
      assert p in sorted <==> p in multiset(sorted);
      assert p in FromSource(pdrs, source) <==> p in multiset(FromSource(pdrs, source));
      FromSourceElements(pdrs, source, p);
    }
  }

  lemma {:induction false} FromSourceElements(pdrs: seq<Pdr>, source: SourceInterface, p: Pdr)
    ensures p in FromSource(pdrs, source) <==> p in pdrs && SourceOf(p) == Some(source)
  {
    if pdrs != [] {
      var n := |pdrs| - 1;
      FromSourceElements(pdrs[..n], source, p);
      assert pdrs == pdrs[..n] + [pdrs[n]];
    }
  }

  /** The TEIDs taken from the derived lists, if those are right. */
  lemma UplinkTeidIsPrimary(s: Session)
    requires ListsRight(s)
    ensures UplinkTeidIs(s, PrimaryUl(s))
  {
    hide FromSource, ByPrecedence, U.FirstNonZero;
    var list := s.pdrsUplink;
    var teids := UplinkTeids(list);
    InSource(s.pdrs, list, Access);
    U.FirstNonZeroIs(teids);
    forall p, u | p in s.pdrs && CarriesUl(p, u) ensures exists i :: 0 <= i < |list| && list[i] == p && teids[i] == u {
      assert p in list;
    }
    if PrimaryUl(s) != 0 {
      var i :| 0 <= i < |teids| && teids[i] == PrimaryUl(s) && forall j :: 0 <= j < i ==> teids[j] == 0;
      assert list[i] in list && CarriesUl(list[i], teids[i]);
      forall q, u | q in s.pdrs && CarriesUl(q, u) ensures list[i].precedence <= q.precedence {
        var j :| 0 <= j < |list| && list[j] == q && teids[j] == u;
        InPrecedence(list, i, j);
      }
    }
  }

  lemma InPrecedence(list: seq<Pdr>, i: nat, j: nat)
    requires ByPrecedence(list) && i <= j < |list|
    ensures list[i].precedence <= list[j].precedence
  {}

  lemma CarriesIff(s: Session, p: Pdr, teid: u32)
    ensures CarriesDl(s, p, teid) <==> SourceOf(p) == Some(Core) && teid != 0 && DownlinkTeid(s, p) == teid
  {
    hide IsFirst, FindFar;
    if p.farId.Some? {
      FarIsFirst(s.fars, p.farId.value);
      forall far | IsFirst(FarId, s.fars, p.farId, Some(far)) ensures FarOf(s.fars, p) == Some(far) {
        OneFirst(FarId, s.fars, p.farId, Some(far), FarOf(s.fars, p));
      }
    } else {
      forall far ensures !IsFirst(FarId, s.fars, p.farId, Some(far)) { NoFirst(s.fars, p.farId, far); }
    }
  }

  lemma NoFirst(fars: seq<Far>, id: Option<nat>, far: Far)
    requires id.None?
    ensures !IsFirst(FarId, fars, id, Some(far))
  {}

  lemma DownlinkTeidIsPrimary(s: Session)
    requires ListsRight(s)
    ensures DownlinkTeidIs(s, PrimaryDl(s))
  {
    hide FromSource, ByPrecedence, U.FirstNonZero, CarriesDl, DownlinkTeid, SourceOf;
    var list := s.pdrsDownlink;
    var teids := DownlinkTeids(s, list);
    InSource(s.pdrs, list, Core);
    U.FirstNonZeroIs(teids);
    forall p, u | p in s.pdrs && CarriesDl(s, p, u) ensures u != 0 && exists i :: 0 <= i < |list| && list[i] == p && teids[i] == u {
      CarriesIff(s, p, u);
      assert p in list;
    }
    if PrimaryDl(s) != 0 {
      var i :| 0 <= i < |teids| && teids[i] == PrimaryDl(s) && forall j :: 0 <= j < i ==> teids[j] == 0;
      assert list[i] in list;
      CarriesIff(s, list[i], teids[i]);
      forall q, u | q in s.pdrs && CarriesDl(s, q, u) ensures list[i].precedence <= q.precedence {
        CarriesIff(s, q, u);
        var j :| 0 <= j < |list| && list[j] == q && teids[j] == u;
        InPrecedence(list, i, j);
      }
    }
  }

  // ---------------------------------------------------------------- the stores as sections

  /** Section c is the store a modification makes, none without a TEID or for an Ethernet session. */
  ghost predicate ModifySection(t: PduType, s: Session, c: Option<U.Section>) {
    exists ul, dl, ip :: UplinkTeidIs(s, ul) && DownlinkTeidIs(s, dl) && UeIpIs(s.pdrs, ip) &&
      c == if t == Ip && (ul != 0 || dl != 0) then Some(U.Modifying(ip, ul, dl, s.seid)) else None
  }

  /** What a modification leaves of the addresses, if the session's lists are right. */
  lemma ModifyIsSection(cs: seq<U.Section>, t: PduType, s: Session)
    requires ListsRight(s)
    ensures exists c :: ModifySection(t, s, c) && ModifyStore(U.RunOf(cs), t, s) == U.RunOf(if c.Some? then cs + [c.value] else cs)
  {
    hide UplinkTeidIs, DownlinkTeidIs, UeIpIs, PrimaryUl, PrimaryDl, RetrieveUeIp, ListsRight, U.StoreAndDrop;
    UplinkTeidIsPrimary(s);
    DownlinkTeidIsPrimary(s);
    UeIpIsRetrieved(s.pdrs);
    var ul, dl, ip := PrimaryUl(s), PrimaryDl(s), RetrieveUeIp(s.pdrs);
    var c := if t == Ip && (ul != 0 || dl != 0) then Some(U.Modifying(ip, ul, dl, s.seid)) else None;
    assert ModifySection(t, s, c);
    if c.Some? { assert (cs + [c.value])[..|cs|] == cs; }
  }

  /** A PDR's UE address and F-TEID, 0 where it has none. */
  predicate StoresFor(s: Session, p: Pdr, c: U.Section) {
    && c.Storing? && c.seid == s.seid && c.dl == 0
    && (if p.pdi.Some? && p.pdi.value.ueIp.Some? then p.pdi.value.ueIp == Some(c.ueIp) else c.ueIp == 0)
    && (if p.pdi.Some? && p.pdi.value.fteid.Some? then p.pdi.value.fteid == Some(c.ul) else c.ul == 0)
  }

  ghost predicate AllStore(s: Session, ds: seq<U.Section>) {
    |ds| <= |s.pdrs| && forall i :: 0 <= i < |ds| ==> StoresFor(s, s.pdrs[i], ds[i])
  }

  function StoresOf(s: Session, n: nat): (ds: seq<U.Section>)
    requires n <= |s.pdrs|
    ensures |ds| == n
  {
    seq(n, i requires 0 <= i < n => U.Storing(UeIpOf(s.pdrs[i]), FteidOf(s.pdrs[i]), 0, s.seid))
  }

  /** The stores of an establishment: one section for each of its first n PDRs, in order. */
  lemma {:induction false} CreateIsSections(cs: seq<U.Section>, s: Session, n: nat)
    requires n <= |s.pdrs|
    ensures CreateStores(U.RunOf(cs), s, n) == U.RunOf(cs + StoresOf(s, n)) && AllStore(s, StoresOf(s, n))
  {
    hide U.Store;
    if n == 0 {
      assert cs + StoresOf(s, 0) == cs;
    } else {
      CreateIsSections(cs, s, n - 1);
      var all := cs + StoresOf(s, n);
      assert all[..|all| - 1] == cs + StoresOf(s, n - 1) && all[|all| - 1] == StoresOf(s, n)[n - 1];
    }
  }

  predicate HasSource(p: Pdr) {
    p.pdi.Some? && p.pdi.value.source.Some?
  }

  predicate HasFar(s: Session, p: Pdr) {
    p.farId.Some? && exists j :: 0 <= j < |s.fars| && s.fars[j].id == p.farId.value
  }

  /** An establishment gets as far as sources and FARs go: all PDRs before the last it stores for have both,
      the last has a source, and if there is another, that lacks a source or the last lacks a FAR. */
  lemma StoredIs(s: Session)
    ensures var n := Stored(s);
      if |s.pdrs| > 16 then n == 0
      else
        && (forall i :: 0 <= i < n ==> HasSource(s.pdrs[i])) && (forall i :: 0 <= i < n - 1 ==> HasFar(s, s.pdrs[i]))
        && (n < |s.pdrs| ==> !HasSource(s.pdrs[n]) || (n > 0 && !HasFar(s, s.pdrs[n - 1])))
  {
    hide FarOf, ReachFrom;
    if |s.pdrs| <= 16 {
      var r := ReachFrom(s, true, 0);
      assert r == Reach(s, true);
      forall i | 0 <= i < |s.pdrs| ensures HasFar(s, s.pdrs[i]) <==> FarOf(s.fars, s.pdrs[i]).Some? { FarIff(s, s.pdrs[i]); }
      forall i | 0 <= i < r ensures HasSource(s.pdrs[i]) && HasFar(s, s.pdrs[i]) { assert Goes(s, true, i); }
      if r < |s.pdrs| { assert !Goes(s, true, r); }
    }
  }

  lemma FarIff(s: Session, p: Pdr)
    ensures HasFar(s, p) <==> FarOf(s.fars, p).Some?
  {
    if p.farId.Some? { FindFarIff(s.fars, p.farId.value); }
  }
}
