/** Which session owns which UE address: the UE-IP map and the keys tracked per SEID, as
    pure functions. Each function below is one mutex-held section of the source, so an
    interleaving of any number of callers is a sequence of sections. */
module UeIpIndex {
  import opened OnesComplement

  /** An entry of session_by_ue_ip_map; TEIDs in network byte order. */
  datatype Tunnel = Tunnel(seid: nat, teidUl: u32, teidDl: u32)

  datatype Addresses = Addresses(byUeIp: map<u32, Tunnel>, tracked: map<nat, set<u32>>)

  const NoAddresses := Addresses(map[], map[])

  /** Byte order reversal of a 32-bit word. */
  function Htonl(w: u32): u32 {
    0x1_0000 * Swap16(w % 0x1_0000) + Swap16(w / 0x1_0000)
  }

  /** The k-th octet of w, the lowest first. */
  function Octet(w: u32, k: nat): nat
    requires k < 4
  {
    match k
    case 0 => w % 0x100
    case 1 => w / 0x100 % 0x100
    case 2 => w / 0x1_0000 % 0x100
    case _ => w / 0x100_0000
  }

  /** The octets of w in reverse; doing so twice gives w back, so no two words have one image. */
  lemma HtonlReverses(w: u32)
    ensures forall k :: 0 <= k < 4 ==> Octet(Htonl(w), k) == Octet(w, 3 - k)
    ensures Htonl(Htonl(w)) == w
  {
    var lo: u16, hi: u16 := w % 0x1_0000, w / 0x1_0000;
    Halves(w, Htonl(w), lo, hi, Swap16(hi), Swap16(lo));
    Swap16Twice(lo);
    Swap16Twice(hi);
    SwapOctets(lo);
    SwapOctets(hi);
    OctetsOf(w, lo, hi);
    OctetsOf(Htonl(w), Swap16(hi), Swap16(lo));
  }

  lemma Halves(w: u32, r: u32, lo: u16, hi: u16, rlo: u16, rhi: u16)
    requires w == 0x1_0000 * hi + lo && r == 0x1_0000 * rhi + rlo
    ensures w % 0x1_0000 == lo && w / 0x1_0000 == hi && r % 0x1_0000 == rlo && r / 0x1_0000 == rhi
  {}

  lemma SwapOctets(a: u16)
    ensures Swap16(a) % 0x100 == a / 0x100 && Swap16(a) / 0x100 == a % 0x100
  {}

  lemma OctetsOf(w: u32, lo: u16, hi: u16)
    requires w == 0x1_0000 * hi + lo
    ensures Octet(w, 0) == lo % 0x100 && Octet(w, 1) == lo / 0x100 && Octet(w, 2) == hi % 0x100 && Octet(w, 3) == hi / 0x100
  {
    assert w % 0x1_0000 == lo && w / 0x1_0000 == hi;
    assert w == 0x100 * (0x100 * hi + lo / 0x100) + lo % 0x100;
    assert w / 0x100 == 0x100 * hi + lo / 0x100;
    assert w == 0x100_0000 * (hi / 0x100) + (0x1_0000 * (hi % 0x100) + lo);
  }

  lemma HtonlInjective(a: u32, b: u32)
    ensures Htonl(a) == Htonl(b) <==> a == b
  {
    hide Htonl;
    HtonlReverses(a);
    HtonlReverses(b);
  }

  function TrackedFor(x: Addresses, seid: nat): set<u32> {
    if seid in x.tracked then x.tracked[seid] else {}
  }

  /** Missing TEIDs are filled in from the other direction, present ones are kept. */
  function FillTeids(t: Tunnel, ul: u32, dl: u32): Tunnel {
    t.(teidUl := if t.teidUl != 0 then t.teidUl else if ul != 0 then ul else dl,
       teidDl := if t.teidDl != 0 then t.teidDl else if dl != 0 then dl else ul)
  }

  predicate OwnedBy(x: Addresses, key: u32, seid: nat) {
    key in x.byUeIp && x.byUeIp[key].seid == seid
  }

  function Store(x: Addresses, ueIp: u32, ul: u32, dl: u32, seid: nat): Addresses {
    var key := Htonl(ueIp);
    var t := if OwnedBy(x, key, seid) then FillTeids(x.byUeIp[key], Htonl(ul), Htonl(dl))
             else Tunnel(seid, Htonl(ul), Htonl(dl));
    Addresses(x.byUeIp[key := t], x.tracked[seid := TrackedFor(x, seid) + {key}])
  }

  /** Drop those of keys that still name seid. */
  function DropOwned(x: Addresses, keys: set<u32>, seid: nat): Addresses {
    x.(byUeIp := map k | k in x.byUeIp && !(k in keys && x.byUeIp[k].seid == seid) :: x.byUeIp[k])
  }

  /** The section of a modification: store the current address, drop the ones it replaces. */
  function StoreAndDrop(x: Addresses, ueIp: u32, ul: u32, dl: u32, seid: nat): Addresses {
    var y := Store(x, ueIp, ul, dl, seid);
    var z := DropOwned(y, TrackedFor(y, seid) - {Htonl(ueIp)}, seid);
    z.(tracked := z.tracked[seid := {Htonl(ueIp)}])
  }

  function Forget(x: Addresses, seid: nat): Addresses {
    var y := DropOwned(x, TrackedFor(x, seid), seid);
    y.(tracked := y.tracked - {seid})
  }

  datatype Section =
    | Storing(ueIp: u32, ul: u32, dl: u32, seid: nat)
    | Modifying(ueIp: u32, ul: u32, dl: u32, seid: nat)
    | Removing(seid: nat)

  function Apply(x: Addresses, c: Section): Addresses {
    match c
    case Storing(ueIp, ul, dl, seid) => Store(x, ueIp, ul, dl, seid)
    case Modifying(ueIp, ul, dl, seid) => StoreAndDrop(x, ueIp, ul, dl, seid)
    case Removing(seid) => Forget(x, seid)
  }

  /** The state after a run of sections, the last one last. */
  function RunOf(cs: seq<Section>): Addresses {
    if |cs| == 0 then NoAddresses else Apply(RunOf(cs[..|cs| - 1]), cs[|cs| - 1])
  }

  datatype Owner = Nobody | Session(seid: nat)

  /** Reference: who holds an address, told from the history alone. The last session to claim it
      does, until that session moves to another address or is removed. */
  function HolderOf(cs: seq<Section>, address: u32): Owner {
    if |cs| == 0 then Nobody
    else
      var before := HolderOf(cs[..|cs| - 1], address);
      match cs[|cs| - 1]
      case Storing(ueIp, _, _, seid) => if ueIp == address then Session(seid) else before
      case Modifying(ueIp, _, _, seid) =>
        if ueIp == address then Session(seid) else if before == Session(seid) then Nobody else before
      case Removing(seid) => if before == Session(seid) then Nobody else before
  }

  function NamedAt(x: Addresses, key: u32): Owner {
    if key in x.byUeIp then Session(x.byUeIp[key].seid) else Nobody
  }

  /** Every entry naming a session is tracked for it. */
  ghost predicate Valid(x: Addresses) {
    forall key :: key in x.byUeIp ==> key in TrackedFor(x, x.byUeIp[key].seid)
  }

  /** In every interleaving, every entry is tracked, and the entry of an address, under its octets
      in reverse, names the holder the history gives: no address is kept by a session that left it,
      and none is taken from a session that has reclaimed it. */
  lemma {:induction false} EveryRunTracksHolders(cs: seq<Section>)
    ensures Valid(RunOf(cs))
    ensures forall address :: HolderOf(cs, address) == NamedAt(RunOf(cs), Htonl(address))
  {
    hide Htonl, FillTeids;
    if |cs| > 0 {
      EveryRunTracksHolders(cs[..|cs| - 1]);
      KeepsSeid();
      AddressesApart();
    }
  }

  /** Who holds an address and with which TEIDs, in host order. */
  datatype Claim = Unclaimed | Claimed(seid: nat, ul: u32, dl: u32)

  /** Reference: what the history says of an address. A session that claims it anew brings both TEIDs;
      one that holds it only adds what is missing, taking the other direction's TEID for want of its own. */
  function ClaimOf(cs: seq<Section>, address: u32): Claim {
    if |cs| == 0 then Unclaimed
    else
      var before := ClaimOf(cs[..|cs| - 1], address);
      match cs[|cs| - 1]
      case Storing(ueIp, ul, dl, seid) => if ueIp == address then Claiming(before, seid, ul, dl) else before
      case Modifying(ueIp, ul, dl, seid) =>
        if ueIp == address then Claiming(before, seid, ul, dl) else if Holds(before, seid) then Unclaimed else before
      case Removing(seid) => if Holds(before, seid) then Unclaimed else before
  }

  predicate Holds(c: Claim, seid: nat) {
    c.Claimed? && c.seid == seid
  }

  function Claiming(before: Claim, seid: nat, ul: u32, dl: u32): Claim {
    if Holds(before, seid) then Claimed(seid, FirstNonZero([before.ul, ul, dl]), FirstNonZero([before.dl, dl, ul]))
    else Claimed(seid, ul, dl)
  }

  function FirstNonZero(teids: seq<u32>): u32 {
    if |teids| == 0 then 0 else if teids[0] != 0 then teids[0] else FirstNonZero(teids[1..])
  }

  lemma {:induction false} FirstNonZeroIs(teids: seq<u32>)
    ensures FirstNonZero(teids) == 0 <==> forall i :: 0 <= i < |teids| ==> teids[i] == 0
    ensures FirstNonZero(teids) != 0 ==>
      exists i :: 0 <= i < |teids| && teids[i] == FirstNonZero(teids) && forall j :: 0 <= j < i ==> teids[j] == 0
  {
    if |teids| > 0 && teids[0] == 0 {
      FirstNonZeroIs(teids[1..]);
      assert forall i :: 1 <= i < |teids| ==> teids[i] == teids[1..][i - 1];
      if FirstNonZero(teids) != 0 {
        var i :| 0 <= i < |teids[1..]| && teids[1..][i] == FirstNonZero(teids) && forall j :: 0 <= j < i ==> teids[1..][j] == 0;
        assert teids[i + 1] == FirstNonZero(teids) && forall j :: 0 <= j < i + 1 ==> teids[j] == 0;
      }
    }
  }

  /** What the entry of a claimed address holds: SEID, and TEIDs in network byte order. */
  predicate Shows(x: Addresses, address: u32, c: Claim) {
    if c.Unclaimed? then Htonl(address) !in x.byUeIp
    else Htonl(address) in x.byUeIp && x.byUeIp[Htonl(address)] == Tunnel(c.seid, Htonl(c.ul), Htonl(c.dl))
  }

  /** In every interleaving the entry of each address is what the history of that address says, TEIDs included. */
  lemma {:induction false} EveryRunShowsClaims(cs: seq<Section>)
    ensures Valid(RunOf(cs)) && forall address :: Shows(RunOf(cs), address, ClaimOf(cs, address))
  {
    hide Htonl, FillTeids, Claiming, Shows, Store, StoreAndDrop, Forget;
    EveryRunTracksHolders(cs);
    if |cs| > 0 {
      var before, c := cs[..|cs| - 1], cs[|cs| - 1];
      EveryRunShowsClaims(before);
      forall address ensures Shows(RunOf(cs), address, ClaimOf(cs, address)) {
        assert Shows(RunOf(before), address, ClaimOf(before, address));
        match c
        case Storing(ueIp, ul, dl, seid) => StoringShows(RunOf(before), ueIp, ul, dl, seid, address, ClaimOf(before, address));
        case Modifying(ueIp, ul, dl, seid) => ModifyingShows(RunOf(before), ueIp, ul, dl, seid, address, ClaimOf(before, address));
        case Removing(seid) => RemovingShows(RunOf(before), seid, address, ClaimOf(before, address));
      }
    } else {
      forall address ensures Shows(RunOf(cs), address, ClaimOf(cs, address)) { NothingShown(address); }
    }
  }

  lemma NothingShown(address: u32)
    ensures Shows(NoAddresses, address, Unclaimed)
  {}

  lemma StoringShows(x: Addresses, ueIp: u32, ul: u32, dl: u32, seid: nat, address: u32, c: Claim)
    requires Shows(x, address, c)
    ensures Shows(Store(x, ueIp, ul, dl, seid), address, if ueIp == address then Claiming(c, seid, ul, dl) else c)
  {
    hide Htonl, FillTeids, Claiming;
    HtonlInjective(ueIp, address);
    if ueIp == address {
      if Holds(c, seid) { Filling(seid, c.ul, c.dl, ul, dl); } else { ClaimedAnew(c, seid, ul, dl); }
    }
  }

  lemma ClaimedAnew(c: Claim, seid: nat, ul: u32, dl: u32)
    requires !Holds(c, seid)
    ensures Claiming(c, seid, ul, dl) == Claimed(seid, ul, dl)
  {}

  lemma Filling(seid: nat, u: u32, d: u32, ul: u32, dl: u32)
    ensures var c := Claiming(Claimed(seid, u, d), seid, ul, dl);
      c.Claimed? && c.seid == seid && FillTeids(Tunnel(seid, Htonl(u), Htonl(d)), Htonl(ul), Htonl(dl)) == Tunnel(seid, Htonl(c.ul), Htonl(c.dl))
  {
    hide Htonl;
    HtonlZero(u);
    HtonlZero(d);
    HtonlZero(ul);
    HtonlZero(dl);
    FirstOfThree(u, ul, dl);
    FirstOfThree(d, dl, ul);
  }

  lemma FirstOfThree(a: u32, b: u32, c: u32)
    ensures FirstNonZero([a, b, c]) == if a != 0 then a else if b != 0 then b else c
  {
    assert FirstNonZero([c]) == c;
    assert [b, c][1..] == [c];
    assert FirstNonZero([b, c]) == if b != 0 then b else c;
    assert [a, b, c][1..] == [b, c];
  }

  lemma ModifyingShows(x: Addresses, ueIp: u32, ul: u32, dl: u32, seid: nat, address: u32, c: Claim)
    requires Valid(x) && Shows(x, address, c)
    ensures Shows(StoreAndDrop(x, ueIp, ul, dl, seid), address,
                  if ueIp == address then Claiming(c, seid, ul, dl) else if Holds(c, seid) then Unclaimed else c)
  {
    hide Htonl, FillTeids, Claiming, Store;
    HtonlInjective(ueIp, address);
    StoringShows(x, ueIp, ul, dl, seid, address, c);
    var y := Store(x, ueIp, ul, dl, seid);
    assert TrackedFor(x, seid) <= TrackedFor(y, seid) by { StoreTracks(x, ueIp, ul, dl, seid); }
  }

  lemma StoreTracks(x: Addresses, ueIp: u32, ul: u32, dl: u32, seid: nat)
    ensures TrackedFor(Store(x, ueIp, ul, dl, seid), seid) == TrackedFor(x, seid) + {Htonl(ueIp)}
  {
    hide Htonl, FillTeids;
  }

  lemma RemovingShows(x: Addresses, seid: nat, address: u32, c: Claim)
    requires Valid(x) && Shows(x, address, c)
    ensures Shows(Forget(x, seid), address, if Holds(c, seid) then Unclaimed else c)
  {
    hide Htonl;
  }

  /** Reference: the addresses a session has stored since it last moved or was removed. */
  function StoredBy(cs: seq<Section>, seid: nat): set<u32> {
    if |cs| == 0 then {}
    else
      var before := StoredBy(cs[..|cs| - 1], seid);
      match cs[|cs| - 1]
      case Storing(ueIp, _, _, s) => if s == seid then before + {ueIp} else before
      case Modifying(ueIp, _, _, s) => if s == seid then {ueIp} else before
      case Removing(s) => if s == seid then {} else before
  }

  /** In every interleaving the keys tracked for a session are those of exactly these addresses, and
      a session that has none is not tracked at all. */
  lemma {:induction false} EveryRunTracks(cs: seq<Section>, seid: nat)
    ensures seid in RunOf(cs).tracked <==> StoredBy(cs, seid) != {}
    ensures TrackedFor(RunOf(cs), seid) == set a | a in StoredBy(cs, seid) :: Htonl(a)
  {
    hide Htonl, FillTeids;
    if |cs| > 0 { EveryRunTracks(cs[..|cs| - 1], seid); }
  }

  lemma AddressesApart()
    ensures forall a, b {:trigger Htonl(a), Htonl(b)} :: Htonl(a) == Htonl(b) <==> a == b
  {
    hide Htonl;
    forall a, b ensures Htonl(a) == Htonl(b) <==> a == b {
      HtonlInjective(a, b);
    }
  }

  lemma KeepsSeid()
    ensures forall t, ul, dl :: FillTeids(t, ul, dl).seid == t.seid
  {}

  /** After its modify section a session holds at most one address, the one just stored;
      after its remove section none. Entries of other sessions stay, bar a reclaimed one. */
  lemma SectionsOf(cs: seq<Section>, ueIp: u32, ul: u32, dl: u32, seid: nat)
    ensures var x := RunOf(cs);
      && (forall key :: OwnedBy(StoreAndDrop(x, ueIp, ul, dl, seid), key, seid) <==> key == Htonl(ueIp))
      && (forall key :: !OwnedBy(Forget(x, seid), key, seid))
      && (forall key :: key in x.byUeIp && x.byUeIp[key].seid != seid ==>
            (key in Forget(x, seid).byUeIp && Forget(x, seid).byUeIp[key] == x.byUeIp[key])
            && (key != Htonl(ueIp) ==>
                  key in StoreAndDrop(x, ueIp, ul, dl, seid).byUeIp
                  && StoreAndDrop(x, ueIp, ul, dl, seid).byUeIp[key] == x.byUeIp[key]))
  {
    hide Htonl, FillTeids;
    EveryRunTracksHolders(cs);
    KeepsSeid();
  }

  // ---------------------------------------------------------------- TEIDs across Create and Modify

  /** The stores of one establishment, one per PDR, all for the same address. */
  function StoreAll(x: Addresses, ueIp: u32, teids: seq<u32>, seid: nat): Addresses {
    if |teids| == 0 then x
    else Store(StoreAll(x, ueIp, teids[..|teids| - 1], seid), ueIp, teids[|teids| - 1], 0, seid)
  }

  lemma HtonlZero(w: u32)
    ensures Htonl(w) == 0 <==> w == 0
  {
    Swap16Zero(w % 0x1_0000);
    Swap16Zero(w / 0x1_0000);
  }

  lemma {:induction false} FirstOfMore(teids: seq<u32>)
    requires |teids| > 0
    ensures var n := |teids| - 1;
      FirstNonZero(teids) == if FirstNonZero(teids[..n]) != 0 then FirstNonZero(teids[..n]) else teids[n]
  {
    var n := |teids| - 1;
    if n > 0 && teids[0] == 0 {
      assert teids[1..][..n - 1] == teids[..n][1..];
      FirstOfMore(teids[1..]);
    }
  }

  /** An establishment leaves the first TEID for the uplink and the next one, if any, for the downlink. */
  lemma {:induction false} EstablishedTeids(x: Addresses, ueIp: u32, teids: seq<u32>, seid: nat)
    requires |teids| > 0 && !OwnedBy(x, Htonl(ueIp), seid)
    ensures var y := StoreAll(x, ueIp, teids, seid);
      OwnedBy(y, Htonl(ueIp), seid) && y.byUeIp[Htonl(ueIp)] == Tunnel(seid, Htonl(FirstNonZero(teids)), Htonl(FirstNonZero(teids[1..])))
  {
    hide Htonl, FirstNonZero;
    var n := |teids| - 1;
    NoneNonZero();
    HtonlZero(0);
    HtonlZero(teids[n]);
    FirstOfMore(teids);
    if n == 0 {
      assert StoreAll(x, ueIp, teids[..0], seid) == x && teids[..0] == [] && teids[1..] == [];
    } else {
      EstablishedTeids(x, ueIp, teids[..n], seid);
      assert teids[1..][..n - 1] == teids[..n][1..];
      FirstOfMore(teids[1..]);
      HtonlZero(FirstNonZero(teids[..n]));
      HtonlZero(FirstNonZero(teids[..n][1..]));
    }
  }

  lemma NoneNonZero()
    ensures FirstNonZero([]) == 0
  {}

  /** The downlink TEID stays open for the later modification exactly when no PDR after the first
      carries an F-TEID: a second one is taken for the downlink too. */
  lemma DownlinkOpenIff(x: Addresses, ueIp: u32, teids: seq<u32>, seid: nat)
    requires |teids| > 0 && !OwnedBy(x, Htonl(ueIp), seid)
    ensures var y := StoreAll(x, ueIp, teids, seid);
      && OwnedBy(y, Htonl(ueIp), seid)
      && (y.byUeIp[Htonl(ueIp)].teidDl == 0 <==> forall i :: 1 <= i < |teids| ==> teids[i] == 0)
      && (y.byUeIp[Htonl(ueIp)].teidUl == 0 <==> forall i :: 0 <= i < |teids| ==> teids[i] == 0)
  {
    hide Htonl, FirstNonZero;
    EstablishedTeids(x, ueIp, teids, seid);
    HtonlZero(FirstNonZero(teids));
    HtonlZero(FirstNonZero(teids[1..]));
    FirstNonZeroIs(teids);
    FirstNonZeroIs(teids[1..]);
    assert forall i :: 1 <= i < |teids| ==> teids[i] == teids[1..][i - 1];
  }

  /** The downlink TEID a modification brings lands exactly when the slot is open or holds it already. */
  lemma ModificationSetsDownlinkIff(x: Addresses, ueIp: u32, ul: u32, dl: u32, seid: nat)
    requires OwnedBy(x, Htonl(ueIp), seid) && dl != 0
    ensures var y := StoreAndDrop(x, ueIp, ul, dl, seid);
      && OwnedBy(y, Htonl(ueIp), seid)
      && (y.byUeIp[Htonl(ueIp)].teidDl == Htonl(dl) <==> x.byUeIp[Htonl(ueIp)].teidDl in {0, Htonl(dl)})
      && (x.byUeIp[Htonl(ueIp)].teidDl != 0 ==> y.byUeIp[Htonl(ueIp)].teidDl == x.byUeIp[Htonl(ueIp)].teidDl)
  {
    hide Htonl;
    HtonlZero(dl);
  }
}
