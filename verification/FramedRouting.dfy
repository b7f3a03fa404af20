/** The framed routes of the UPF: a hash map from networks to the UE behind which they lie, probed
    from the longest prefix down. */
module FramedRouting {
  import opened OnesComplement
  import opened FramedRouteText

  const WORD := 0x1_0000_0000

  // ---------------------------------------------------------------- keys

  function And(a: nat, b: nat): nat
    decreases a + b
  {
    if a == 0 && b == 0 then 0
    else 2 * And(a / 2, b / 2) + if a % 2 == 1 && b % 2 == 1 then 1 else 0
  }

  datatype FramedRoutingKey = FramedRoutingKey(network: int, mask: int)

  /** createFramedRoutingKey: the mask is 0xffffffff shifted left in 32 bits. */
  function Key(ip: u32, len: nat): FramedRoutingKey
    requires 1 <= len <= 32
  {
    var mask := 0xffff_ffff * Pow2(32 - len) % WORD;
    FramedRoutingKey(And(mask, ip), mask)
  }

  /** The number of addresses in a network. */
  function Size(len: nat): (n: nat)
    requires len <= 32
    ensures n > 0
  {
    Pow2(32 - len)
  }

  datatype Prefix = Prefix(ip: u32, len: nat, ue: u32)

  predicate Proper(p: Prefix) {
    1 <= p.len <= 32
  }

  /** a and the prefix agree in their first len bits. */
  predicate Contains(p: Prefix, a: u32)
    requires Proper(p)
  {
    a / Size(p.len) == p.ip / Size(p.len)
  }

  /** The first address of the network of len bits that ip lies in. */
  function FirstAddress(ip: u32, len: nat): int
    requires len <= 32
  {
    Size(len) * (ip / Size(len))
  }

  lemma {:induction false} PowLess(j: nat, k: nat)
    requires j < k
    ensures Pow2(j) < Pow2(k)
  {
    if j + 1 < k { PowLess(j, k - 1); }
  }

  lemma {:induction false} AndOnes(n: nat, b: nat)
    requires b < Pow2(n)
    ensures And(Pow2(n) - 1, b) == b
  {
    if n > 0 {
      AndOnes(n - 1, b / 2);
      assert (Pow2(n) - 1) / 2 == Pow2(n - 1) - 1;
    }
  }

  lemma AndEven(x: nat, b: nat)
    ensures And(2 * x, b) == 2 * And(x, b / 2)
  {
    assert 2 * x / 2 == x;
  }

  /** A mask of n - k ones and k zeros cuts a number down to a multiple of 2^k. */
  lemma {:induction false} AndMask(n: nat, k: nat, b: nat)
    requires k <= n && b < Pow2(n)
    ensures Pow2(n) >= Pow2(k) && And(Pow2(n) - Pow2(k), b) == Pow2(k) * (b / Pow2(k))
  {
    if k == 0 {
      AndOnes(n, b);
    } else {
      hide And, Pow2;
      var p, q := Pow2(n - 1), Pow2(k - 1);
      TwicePow(n);
      TwicePow(k);
      AndMask(n - 1, k - 1, b / 2);
      AndEven(p - q, b);
      HalfDivided(b, q);
      TwiceTimes(q, b / (2 * q));
    }
  }

  lemma TwicePow(n: nat)
    requires n > 0
    ensures Pow2(n) == 2 * Pow2(n - 1)
  {}

  lemma TwiceTimes(q: nat, x: nat)
    ensures 2 * (q * x) == 2 * q * x
  {}

  lemma HalfDivided(b: nat, p: nat)
    requires p > 0
    ensures b / 2 / p == b / (2 * p)
  {
    var q := b / (2 * p);
    var r := b % (2 * p);
    assert b == (2 * p) * q + r;
    assert b / 2 == p * q + r / 2 by { assert (2 * p) * q == 2 * (p * q); }
    Quotient(b / 2, p, q, r / 2);
  }

  lemma Quotient(x: nat, p: nat, q: nat, r: nat)
    requires p > 0 && x == p * q + r && r < p
    ensures x / p == q
  {
    var q' := x / p;
    var r' := x % p;
    assert x == p * q' + r';
    assert p * (q - q') == r' - r;
    assert p * (q' - q) == r - r';
    if q > q' {
      Larger(p, q - q');
    } else if q < q' {
      Larger(p, q' - q);
    }
  }

  lemma Larger(p: nat, d: nat)
    requires d >= 1
    ensures p * d >= p
  {}

  lemma ShiftedOnes(k: nat)
    requires k <= 32
    ensures Pow2(k) <= WORD && 0xffff_ffff * Pow2(k) % WORD == (WORD - Pow2(k)) % WORD
  {
    Powers();
    if k < 32 { PowLess(k, 32); }
    var p := Pow2(k);
    assert 0xffff_ffff * p == WORD * (p - 1) + (WORD - p);
    ModMore(p - 1, WORD - p);
  }

  lemma ModMore(q: nat, r: nat)
    ensures (WORD * q + r) % WORD == r % WORD
  {}

  /** What a key says: the first len bits of the address, and len. */
  lemma KeyIs(ip: u32, len: nat)
    requires 1 <= len <= 32
    ensures Size(len) < WORD && Key(ip, len) == FramedRoutingKey(FirstAddress(ip, len), WORD - Size(len))
  {
    hide Pow2, And;
    ShiftedOnes(32 - len);
    Powers();
    PowLess(32 - len, 32);
    AndMask(32, 32 - len, ip);
  }

  lemma KeyEqual(p: Prefix, a: u32, i: nat)
    requires Proper(p) && 1 <= i <= 32
    ensures Key(a, i) == Key(p.ip, p.len) <==> i == p.len && Contains(p, a)
  {
    hide Key, Pow2, FirstAddress, Contains, Size;
    KeyIs(a, i);
    KeyIs(p.ip, p.len);
    SizesDiffer(i, p.len);
    SameFirstAddress(p, a);
  }

  lemma SizesDiffer(i: nat, j: nat)
    requires i <= 32 && j <= 32
    ensures Size(i) == Size(j) <==> i == j
  {
    hide Pow2;
    if i < j { PowLess(32 - j, 32 - i); } else if i > j { PowLess(32 - i, 32 - j); }
  }

  lemma SameFirstAddress(p: Prefix, a: u32)
    requires Proper(p)
    ensures FirstAddress(a, p.len) == FirstAddress(p.ip, p.len) <==> Contains(p, a)
  {
    hide Size;
    var n := Size(p.len);
    SameMultiple(n, a / n, p.ip / n);
  }

  lemma SameMultiple(n: nat, x: nat, y: nat)
    requires n > 0
    ensures n * x == n * y <==> x == y
  {
    if n * x == n * y && x != y {
      assert n * (x - y) == 0 && n * (y - x) == 0;
      if x > y { Larger(n, x - y); } else { Larger(n, y - x); }
    }
  }

  // ---------------------------------------------------------------- the map, and what it stands for

  /** Insertion into the map leaves an existing entry alone: the first UE wins. */
  function Inserted(m: map<FramedRoutingKey, u32>, p: Prefix): map<FramedRoutingKey, u32>
    requires Proper(p)
  {
    var k := Key(p.ip, p.len);
    if k in m then m else m[k := p.ue]
  }

  predicate AllProper(ps: seq<Prefix>) {
    forall i :: 0 <= i < |ps| ==> Proper(ps[i])
  }

  function IndexOf(ps: seq<Prefix>): map<FramedRoutingKey, u32>
    requires AllProper(ps)
  {
    if ps == [] then map[] else Inserted(IndexOf(ps[..|ps| - 1]), ps[|ps| - 1])
  }

  datatype Match = NoMatch | Best(p: Prefix)

  /** The reference: a scan of the prefixes in the order they were added. */
  function LinearScan(ps: seq<Prefix>, a: u32): Match
    requires AllProper(ps)
  {
    if ps == [] then NoMatch
    else
      var best := LinearScan(ps[..|ps| - 1], a);
      var p := ps[|ps| - 1];
      if Contains(p, a) && (best.NoMatch? || p.len > best.p.len) then Best(p) else best
  }

  function UeOf(m: Match): u32 {
    if m.NoMatch? then 0 else m.p.ue
  }

  /** The probe, from length i down. */
  function Probe(m: map<FramedRoutingKey, u32>, a: u32, i: nat): u32
    requires i <= 32
  {
    if i == 0 then 0 else if Key(a, i) in m then m[Key(a, i)] else Probe(m, a, i - 1)
  }

  ghost predicate Finds(m: map<FramedRoutingKey, u32>, a: u32, best: Match) {
    match best
    case NoMatch => forall i :: 1 <= i <= 32 ==> Key(a, i) !in m
    case Best(p) =>
      && 1 <= p.len <= 32 && Key(a, p.len) in m && m[Key(a, p.len)] == p.ue
      && forall i :: p.len < i <= 32 ==> Key(a, i) !in m
  }

  lemma {:induction false} IndexFinds(ps: seq<Prefix>, a: u32)
    requires AllProper(ps)
    ensures Finds(IndexOf(ps), a, LinearScan(ps, a))
  {
    hide Key, Contains;
    if ps != [] {
      var p := ps[|ps| - 1];
      IndexFinds(ps[..|ps| - 1], a);
      forall i | 1 <= i <= 32 ensures Key(a, i) == Key(p.ip, p.len) <==> i == p.len && Contains(p, a) {
        KeyEqual(p, a, i);
      }
    }
  }

  lemma {:induction false} ProbeFinds(m: map<FramedRoutingKey, u32>, a: u32, best: Match, i: nat)
    requires Finds(m, a, best) && i <= 32 && (best.Best? ==> best.p.len <= i)
    ensures Probe(m, a, i) == UeOf(best)
  {
    hide Key;
    if i > 0 && !(best.Best? && best.p.len == i) {
      ProbeFinds(m, a, best, i - 1);
    }
  }

  /** Probing the hash map finds what a linear scan of the prefixes would: the longest one that
      contains the address, the first added among equals. */
  lemma ProbeIsLinearScan(ps: seq<Prefix>, a: u32)
    requires AllProper(ps)
    ensures Probe(IndexOf(ps), a, 32) == UeOf(LinearScan(ps, a))
  {
    hide Probe, IndexOf, LinearScan;
    IndexFinds(ps, a);
    ProbeFinds(IndexOf(ps), a, LinearScan(ps, a), 32);
  }

  /** The reference finds the longest containing prefix, the earliest of its length. */
  lemma {:induction false} LinearScanIsLongest(ps: seq<Prefix>, a: u32)
    requires AllProper(ps)
    ensures match LinearScan(ps, a)
      case NoMatch => forall i :: 0 <= i < |ps| ==> !Contains(ps[i], a)
      case Best(p) =>
        exists k :: 0 <= k < |ps| && ps[k] == p && Contains(p, a)
          && forall i :: 0 <= i < |ps| && Contains(ps[i], a) ==> ps[i].len < p.len || (ps[i].len == p.len && k <= i)
  {
    hide Contains;
    if ps != [] {
      var n := |ps| - 1;
      LinearScanIsLongest(ps[..n], a);
      var best := LinearScan(ps[..n], a);
      if Contains(ps[n], a) && (best.NoMatch? || ps[n].len > best.p.len) {
        NewLongest(ps, a, ps[..n], best);
      } else if best.Best? {
        var k :| 0 <= k < n && ps[..n][k] == best.p
          && forall i :: 0 <= i < n && Contains(ps[..n][i], a) ==> ps[..n][i].len < best.p.len || (ps[..n][i].len == best.p.len && k <= i);
        assert ps[k] == best.p;
        forall i | 0 <= i < |ps| && Contains(ps[i], a) ensures ps[i].len < best.p.len || (ps[i].len == best.p.len && k <= i) {
          if i < n { assert ps[..n][i] == ps[i]; }
        }
      } else {
        forall i | 0 <= i < |ps| ensures !Contains(ps[i], a) {
          if i < n { assert ps[..n][i] == ps[i]; }
        }
      }
    }
  }

  lemma NewLongest(ps: seq<Prefix>, a: u32, init: seq<Prefix>, best: Match)
    requires AllProper(ps) && ps != [] && init == ps[..|ps| - 1] && Contains(ps[|ps| - 1], a)
    requires best.NoMatch? ==> forall i :: 0 <= i < |init| ==> !Contains(init[i], a)
    requires best.Best? ==> ps[|ps| - 1].len > best.p.len && forall i :: 0 <= i < |init| && Contains(init[i], a) ==> init[i].len <= best.p.len
    ensures var k := |ps| - 1;
      forall i :: 0 <= i < |ps| && Contains(ps[i], a) ==> ps[i].len < ps[k].len || (ps[i].len == ps[k].len && k <= i)
  {
    hide Contains;
    var n := |ps| - 1;
    forall i | 0 <= i < n && Contains(ps[i], a) ensures ps[i].len < ps[n].len {
      assert init[i] == ps[i];
    }
  }

  // ---------------------------------------------------------------- removal

  function Without(ps: seq<Prefix>, a: u32): (r: seq<Prefix>)
    requires AllProper(ps)
    ensures AllProper(r) && forall p :: p in r ==> p in ps
  {
    if ps == [] then []
    else Without(ps[..|ps| - 1], a) + if Contains(ps[|ps| - 1], a) then [] else [ps[|ps| - 1]]
  }

  /** The keys the removal of a erases, down to length i. */
  function KeysOf(a: u32, i: nat): set<FramedRoutingKey>
    requires i <= 32
  {
    set j | i < j <= 32 :: Key(a, j)
  }

  /** Erasing every key of an address leaves the index of the prefixes that do not contain it. */
  lemma {:induction false} RemovalIsWithout(ps: seq<Prefix>, a: u32)
    requires AllProper(ps)
    ensures IndexOf(ps) - KeysOf(a, 0) == IndexOf(Without(ps, a))
  {
    hide Key, Contains;
    if ps != [] {
      var n := |ps| - 1;
      var p := ps[n];
      RemovalIsWithout(ps[..n], a);
      assert Key(p.ip, p.len) in KeysOf(a, 0) <==> Contains(p, a) by { KeyOfContained(p, a); }
      var w := Without(ps[..n], a);
      if Contains(p, a) {
        assert Without(ps, a) == w;
      } else {
        assert Without(ps, a) == w + [p] && (w + [p])[..|w|] == w;
      }
    }
  }

  lemma KeyOfContained(p: Prefix, a: u32)
    requires Proper(p)
    ensures Key(p.ip, p.len) in KeysOf(a, 0) <==> Contains(p, a)
  {
    hide Key, Contains;
    forall i | 1 <= i <= 32 ensures Key(a, i) == Key(p.ip, p.len) <==> i == p.len && Contains(p, a) {
      KeyEqual(p, a, i);
    }
    if Contains(p, a) {
      assert Key(a, p.len) in KeysOf(a, 0);
    }
  }

  /** The networks of a text, up to the first that cannot be converted. */
  function Prefixes(lines: seq<string>, ue: u32): seq<Prefix> {
    if lines == [] || !Extracted(lines[0]).Ok? then []
    else [Prefix(Extracted(lines[0]).value.ip, Extracted(lines[0]).value.len, ue)] + Prefixes(lines[1..], ue)
  }

  /** The networks of the lines, in order, up to the first line that cannot be read. */
  lemma {:induction false} PrefixesStop(lines: seq<string>, ue: u32)
    ensures var ps := Prefixes(lines, ue);
      && |ps| <= |lines| && (|ps| < |lines| ==> !Extracted(lines[|ps|]).Ok?)
      && forall i :: 0 <= i < |ps| ==> Extracted(lines[i]).Ok? && ps[i] == Prefix(Extracted(lines[i]).value.ip, Extracted(lines[i]).value.len, ue)
  {
    hide Extracted;
    if lines != [] && Extracted(lines[0]).Ok? { PrefixesStop(lines[1..], ue); }
  }

  class FramedRouting {
    var keyToIp: map<FramedRoutingKey, u32>
    /** The prefixes added and not removed since, in the order they were added. */
    ghost var live: seq<Prefix>

    ghost predicate Valid()
      reads this
    {
      AllProper(live) && keyToIp == IndexOf(live)
    }

    constructor ()
      ensures Valid() && live == []
    {
      keyToIp, live := map[], [];
    }

    method AddFramedRoute(ue: u32, text: string) returns (ok: bool)
      requires Valid()
      modifies this
      ensures Valid() && live == old(live) + Prefixes(Lines(text), ue)
      ensures ok <==> |Prefixes(Lines(text), ue)| == |Lines(text)|
    {
      hide Key, Extracted, Lines;
      var lines := Lines(text);
      for n := 0 to |lines|
        invariant Valid() && live + Prefixes(lines[n..], ue) == old(live) + Prefixes(lines, ue)
        invariant n + |Prefixes(lines[n..], ue)| == |Prefixes(lines, ue)|
      {
        var ipCidr := ExtractIPCidr(lines[n]);
        if !ipCidr.Ok? {
          return false;
        }
        assert lines[n..][1..] == lines[n + 1..];
        var p := Prefix(ipCidr.value.ip, ipCidr.value.len, ue);
        ExtractedLength(lines[n]);
        assert (live + [p])[..|live|] == live;
        if Key(p.ip, p.len) !in keyToIp {
          keyToIp := keyToIp[Key(p.ip, p.len) := ue];
        }
        live := live + [p];
      }
      ok := true;
    }

    method RetrieveUEIp(a: u32) returns (ue: u32)
      requires Valid()
      ensures ue == UeOf(LinearScan(live, a))
    {
      hide Key, IndexOf, LinearScan;
      ProbeIsLinearScan(live, a);
      for i := 32 downto 0
        invariant Probe(keyToIp, a, 32) == Probe(keyToIp, a, i)
      {
        if Key(a, i + 1) in keyToIp {
          return keyToIp[Key(a, i + 1)];
        }
      }
      ue := 0;
    }

    method RemoveEntry(a: u32)
      requires Valid()
      modifies this
      ensures Valid() && live == Without(old(live), a)
    {
      hide Key, IndexOf, Without;
      RemovalIsWithout(live, a);
      for i := 32 downto 0
        invariant live == old(live) && keyToIp == old(keyToIp) - KeysOf(a, i)
      {
        MoreKeys(a, i);
        keyToIp := keyToIp - {Key(a, i + 1)};
      }
      live := Without(live, a);
    }
  }

  lemma MoreKeys(a: u32, i: nat)
    requires i < 32
    ensures KeysOf(a, i) == KeysOf(a, i + 1) + {Key(a, i + 1)}
  {
    hide Key;
    forall k | k in KeysOf(a, i) ensures k in KeysOf(a, i + 1) + {Key(a, i + 1)} {
      var j :| i < j <= 32 && k == Key(a, j);
      assert j > i + 1 ==> Key(a, j) in KeysOf(a, i + 1);
    }
  }

  lemma ExtractedLength(s: string)
    ensures Extracted(s).Ok? ==> 1 <= Extracted(s).value.len <= 32
  {
    hide Scan, SubnetLength;
  }
}
