/** The checksum helpers of the datapath: a wide-lane sum, its fold, and the three places
    that store or complete a checksum in a packet. The host is little-endian. */
module Checksum {
  import opened OnesComplement

  /** One lane: the carry out of the top is folded back into the bottom. */
  method AddLane(acc: u64, w: u64) returns (r: u64)
    ensures Norm(r) == Norm(acc + w)
  {
    r := (acc + w) % 0x1_0000_0000_0000_0000;
    if r < w {
      r := r + 1;
      NormShift(acc + w, -0x1_0001_0001_0001);
    }
  }

  /** Sum of the bytes at b, continuing from sum. */
  method CsumPartial(bytes: seq<byte>, sum: u32) returns (r: u32)
    ensures Norm(r) == Norm(sum + WordSum(bytes))
    ensures Swap16(Norm(r)) == Rfc1071(bytes, Swap16(Norm(sum)))
  {
    hide Norm, WordSum, Swap16, Rfc1071;
    var b, len := bytes, |bytes|;
    var acc: u64 := sum;
    NormAdd(acc, WordSum(b));
    while len >= 8
      invariant len == |b|
      invariant Norm(acc + WordSum(b)) == Norm(sum + WordSum(bytes))
    {
      LaneTaken(acc, b, 8);
      acc := AddLane(acc, LoadLe(b[..8]));
      b, len := b[8..], len - 8;
      NormAdd(acc, WordSum(b));
    }
    if len >= 4 {
      LaneTaken(acc, b, 4);
      acc := AddLane(acc, LoadLe(b[..4]));
      b, len := b[4..], len - 4;
      NormAdd(acc, WordSum(b));
    }
    if len >= 2 {
      LaneTaken(acc, b, 2);
      acc := AddLane(acc, LoadLe(b[..2]));
      b, len := b[2..], len - 2;
      NormAdd(acc, WordSum(b));
    }
    if len > 0 {
      var w: u64 := b[0];
      acc := AddLane(acc, w);
    }
    LastByte(b);
    assert Norm(acc) == Norm(sum + WordSum(bytes));
    while acc / 0x1_0000_0000 > 0
      invariant Norm(acc) == Norm(sum + WordSum(bytes))
      decreases acc
    {
      NormFold(acc, 0x1_0000_0000, 0x1_0001);
      acc := acc % 0x1_0000_0000 + acc / 0x1_0000_0000;
    }
    r := acc;
    PartialIsRfc1071(bytes, sum);
  }

  lemma LastByte(b: seq<byte>)
    ensures |b| == 1 ==> WordSum(b) == b[0]
    ensures |b| == 0 ==> WordSum(b) == 0
  {}

  lemma LaneTaken(acc: u64, b: seq<byte>, n: nat)
    requires n <= |b| && (n == 2 || n == 4 || n == 8)
    ensures LoadLe(b[..n]) < 0x1_0000_0000_0000_0000
    ensures Norm(Norm(acc + LoadLe(b[..n])) + WordSum(b[n..])) == Norm(acc + WordSum(b))
  {
    hide Norm, WordSum, LoadLe;
    LoadLeBound(b[..n]);
    LaneIsWords(b[..n]);
    WordSumSplit(b, n);
    NormAdd(acc + LoadLe(b[..n]), WordSum(b[n..]));
    NormAdd(LoadLe(b[..n]), acc + WordSum(b[n..]));
    NormAdd(WordSum(b[..n]), acc + WordSum(b[n..]));
  }

  lemma PartialIsRfc1071(bytes: seq<byte>, sum: u32)
    ensures Swap16(Norm(sum + WordSum(bytes))) == Rfc1071(bytes, Swap16(Norm(sum)))
  {
    hide Norm, Swap16;
    HostSumIsRfc1071(bytes, Norm(sum));
    NormAdd(sum, WordSum(bytes));
  }

  method CsumFold(sum: u32) returns (c: u16)
    ensures c == Complement(sum)
  {
    var s := sum;
    while s / 0x1_0000 > 0
      invariant 0 <= s < 0x1_0000_0000 && Norm(s) == Norm(sum)
      decreases s
    {
      NormFold(s, 0x1_0000, 1);
      s := s % 0x1_0000 + s / 0x1_0000;
    }
    NormIs(s, s, 0);
    c := 0xFFFF - s;
  }

  /** The bytes a little-endian host stores for w. */
  function Bytes16(w: u16): (b: seq<byte>)
    ensures |b| == 2
  {
    [w % 0x100, w / 0x100]
  }

  function Bytes32(w: u32): (b: seq<byte>)
    ensures |b| == 4
  {
    Bytes16(w % 0x1_0000) + Bytes16(w / 0x1_0000)
  }

  /** The bytes of s with w stored at index at. */
  function Put16(s: seq<byte>, at: nat, w: u16): (t: seq<byte>)
    requires at + 2 <= |s|
    ensures |t| == |s|
  {
    s[..at] + Bytes16(w) + s[at + 2..]
  }

  lemma Bytes16Word(w: u16)
    ensures WordSum(Bytes16(w)) == w && Word(Bytes16(w)[0], Bytes16(w)[1]) == Swap16(w)
  {
    assert Bytes16(w)[2..] == [];
  }

  lemma Bytes32Sum(sum: u32, bytes: seq<byte>)
    ensures Norm(WordSum(Bytes32(sum) + bytes)) == Norm(sum + WordSum(bytes))
  {
    hide WordSum, Norm, Bytes16, Word, Swap16;
    var lo, hi := sum % 0x1_0000, sum / 0x1_0000;
    var all := Bytes32(sum) + bytes;
    Bytes16Word(lo);
    Bytes16Word(hi);
    WordSumSplit(all, 2);
    WordSumSplit(all[2..], 2);
    assert all[..2] == Bytes16(lo);
    assert all[2..][..2] == Bytes16(hi);
    assert all[2..][2..] == bytes;
    NormFold(sum, 0x1_0000, 1);
    NormAdd(sum, WordSum(bytes));
    NormAdd(lo + hi, WordSum(bytes));
  }

  /** The folded wide sum, as stored in memory, is the RFC 1071 checksum of the data with
      the starting sum's own four bytes in front of it, whichever zero that is. */
  lemma FoldOfPartialIsRfc1071(bytes: seq<byte>, sum: u32, partial: u32)
    requires Norm(partial) == Norm(sum + WordSum(bytes))
    ensures Swap16(0xFFFF - Norm(partial)) == ChecksumOf(Bytes32(sum) + bytes)
  {
    hide Norm, Swap16;
    Bytes32Sum(sum, bytes);
    SumIsChecksum(Bytes32(sum) + bytes);
    Swap16Complement(Norm(partial));
  }

  lemma Swap16Complement(w: u16)
    ensures Swap16(0xFFFF - w) == 0xFFFF - Swap16(w)
  {
    DivMod256(w / 0x100, w % 0x100);
    DivMod256(0xFF - w / 0x100, 0xFF - w % 0x100);
  }

  lemma SumIsChecksum(s: seq<byte>)
    ensures ChecksumOf(s) == 0xFFFF - Swap16(Norm(WordSum(s)))
  {
    hide Norm, WordSum, Rfc1071, Swap16;
    HostSumIsRfc1071(s, 0);
    ZeroSwaps();
  }

  /** Overwriting an aligned word moves the sum by exactly the difference. */
  lemma WordSumUpdate(s: seq<byte>, k: nat, w: u16)
    requires k % 2 == 0 && k + 2 <= |s|
    ensures WordSum(Put16(s, k, w)) == WordSum(s[..k]) + w + WordSum(s[k + 2..])
    ensures WordSum(s) == WordSum(s[..k]) + WordSum(s[k..k + 2]) + WordSum(s[k + 2..])
  {
    hide WordSum, Bytes16, Word, Swap16;
    SplitAround(s, k);
    SplitAround(Put16(s, k, w), k);
    var t := Put16(s, k, w);
    assert t[..k] == s[..k] && t[k..k + 2] == Bytes16(w) && t[k + 2..] == s[k + 2..];
    Bytes16Word(w);
  }

  lemma SplitAround(s: seq<byte>, k: nat)
    requires k % 2 == 0 && k + 2 <= |s|
    ensures WordSum(s) == WordSum(s[..k]) + WordSum(s[k..k + 2]) + WordSum(s[k + 2..])
  {
    hide WordSum;
    WordSumSplit(s, k);
    WordSumSplit(s[k..], 2);
    assert s[k..][..2] == s[k..k + 2] && s[k..][2..] == s[k + 2..];
  }

  /** Storing the complement of the sum of s, taken with a zero field, makes it verify. */
  lemma FieldCompletes(s: seq<byte>, k: nat, c: u16)
    requires k % 2 == 0 && k + 2 <= |s| && s[k..k + 2] == Bytes16(0)
    requires c == Complement(WordSum(s))
    ensures ChecksumOf(Put16(s, k, c)) == 0
  {
    hide *;
    ZeroField(s, k, c);
    ComplementVerifies(WordSum(s), Put16(s, k, c), c);
  }

  lemma ZeroField(s: seq<byte>, k: nat, c: u16)
    requires k % 2 == 0 && k + 2 <= |s| && s[k..k + 2] == Bytes16(0)
    ensures WordSum(Put16(s, k, c)) == WordSum(s) + c
  {
    hide *;
    WordSumUpdate(s, k, c);
    Bytes16Word(0);
  }

  lemma ComplementVerifies(total: nat, t: seq<byte>, c: u16)
    requires c == Complement(total) && WordSum(t) == total + c
    ensures ChecksumOf(t) == 0
  {
    hide *;
    ComplementCompletes(total, c);
    AllOnesVerifies(t);
  }

  /** What is stored is the network-order checksum. */
  lemma StoredIsChecksum(s: seq<byte>, c: u16)
    requires c == Complement(WordSum(s))
    ensures Word(Bytes16(c)[0], Bytes16(c)[1]) == ChecksumOf(s)
  {
    hide WordSum, Norm, Word, Swap16, ChecksumOf;
    Bytes16Word(c);
    SumIsChecksum(s);
    Swap16Complement(Norm(WordSum(s)));
  }

  /** A sum completed with its own complement reads as all ones, which folds to zero. */
  lemma ComplementCompletes(total: nat, c: u16)
    requires c == Complement(total)
    ensures Norm(total + c) == 0xFFFF
  {
    NormAdd(total, c);
    NormIs(0xFFFF, 0xFFFF, 0);
  }

  lemma AllOnesVerifies(s: seq<byte>)
    requires Norm(WordSum(s)) == 0xFFFF
    ensures ChecksumOf(s) == 0
  {
    hide Norm, WordSum, ChecksumOf;
    SumIsChecksum(s);
    assert Swap16(0xFFFF) == 0xFFFF;
  }

  function Complement(sum: nat): u16 {
    0xFFFF - Norm(sum)
  }

  lemma ComplementOfEqual(a: nat, b: nat)
    requires Norm(a) == Norm(b)
    ensures Complement(a) == Complement(b)
  {}

  predicate OnlyChanged(before: seq<byte>, after: seq<byte>, at: nat) {
    |after| == |before| &&
    forall i :: 0 <= i < |before| && i != at && i != at + 1 ==> after[i] == before[i]
  }

  method Store16(pkt: array<byte>, at: nat, w: u16)
    requires at + 2 <= pkt.Length
    modifies pkt
    ensures pkt[..] == Put16(old(pkt[..]), at, w)
  {
    var b := Bytes16(w);
    pkt[at] := b[0];
    pkt[at + 1] := b[1];
  }

  lemma PutSlice(s: seq<byte>, at: nat, w: u16, from: nat, to: nat)
    requires from <= at && at + 2 <= to <= |s|
    ensures Put16(s, at, w)[from..to] == Put16(s[from..to], at - from, w)
    ensures OnlyChanged(s, Put16(s, at, w), at)
    ensures Put16(s, at, w)[at..at + 2] == Bytes16(w)
  {
    hide Bytes16;
    var t := Put16(s, at, w);
    assert t == s[..at] + Bytes16(w) + s[at + 2..];
    assert t[from..to] == s[from..at] + Bytes16(w) + s[at + 2..to];
    assert s[from..to][..at - from] == s[from..at] && s[from..to][at - from + 2..] == s[at + 2..to];
    forall i | 0 <= i < |s| && i != at && i != at + 1 ensures t[i] == s[i] {
      if i < at { assert t[i] == s[..at][i]; } else { assert t[i] == s[at + 2..][i - at - 2]; }
    }
    assert t[at..at + 2] == Bytes16(w);
  }

  /** IPv4 header checksum at iph. */
  method IpCsumSet(pkt: array<byte>, iph: nat)
    requires iph + 20 <= pkt.Length && iph + 4 * (pkt[iph] % 16) <= pkt.Length
    modifies pkt
    ensures OnlyChanged(old(pkt[..]), pkt[..], iph + 10)
    ensures var n := 4 * (old(pkt[iph]) % 16);
            && Word(pkt[iph + 10], pkt[iph + 11]) == ChecksumOf(Put16(old(pkt[..]), iph + 10, 0)[iph..iph + n])
            && ChecksumOf(pkt[iph..iph + n]) == if n >= 12 then 0 else Word(pkt[iph + 10], pkt[iph + 11])
  {
    hide Word, Norm, WordSum, ChecksumOf, Put16, Complement, Rfc1071, Bytes16;
    var n := 4 * (pkt[iph] % 16);
    Store16(pkt, iph + 10, 0);
    ghost var cleared := pkt[..];
    PutSlice(old(pkt[..]), iph + 10, 0, iph, iph + 12);
    var p := CsumPartial(pkt[iph..iph + n], 0);
    var c := CsumFold(p);
    Store16(pkt, iph + 10, c);
    ComplementOfEqual(p, WordSum(cleared[iph..iph + n]));
    StoredIsChecksum(cleared[iph..iph + n], c);
    PutSlice(cleared, iph + 10, c, iph, iph + 12);
    if n >= 12 {
      PutSlice(cleared, iph + 10, c, iph, iph + n);
      assert cleared[iph..iph + n][10..12] == cleared[iph + 10..iph + 12];
      FieldCompletes(cleared[iph..iph + n], 10, c);
    } else {
      assert pkt[iph..iph + n] == cleared[iph..iph + n] == Put16(old(pkt[..]), iph + 10, 0)[iph..iph + n];
    }
  }

  /** Continuing a sum over the next piece is summing both pieces at once, provided the
      data before the piece has even length. */
  lemma PiecewiseSum(before: seq<byte>, piece: seq<byte>, partial: u32, next: u32)
    requires |before| % 2 == 0
    requires Norm(partial) == Norm(WordSum(before)) && Norm(next) == Norm(partial + WordSum(piece))
    ensures Norm(next) == Norm(WordSum(before + piece))
  {
    hide *;
    WordSumSplit(before + piece, |before|);
    assert (before + piece)[..|before|] == before && (before + piece)[|before|..] == piece;
    NormAdd(partial, WordSum(piece));
    NormAdd(WordSum(before), WordSum(piece));
  }

  /** The TCP pseudo-header for the IPv4 header at iph: section 9.1 of RFC 9293 (length in 16 bits). */
  function PseudoHeader(pkt: seq<byte>, iph: nat, l4Len: nat): seq<byte>
    requires iph + 20 <= |pkt|
  {
    pkt[iph + 12..iph + 20] + [0, 6] + Bytes16(Swap16(l4Len % 0x1_0000))
  }

  /** The same as section 9.1 of RFC 9293 has it, in words read in network order: the two addresses,
      the protocol and the length of the segment. */
  function PseudoWords(pkt: seq<byte>, iph: nat, l4Len: nat): seq<u16>
    requires iph + 20 <= |pkt|
  {
    [Word(pkt[iph + 12], pkt[iph + 13]), Word(pkt[iph + 14], pkt[iph + 15]),
     Word(pkt[iph + 16], pkt[iph + 17]), Word(pkt[iph + 18], pkt[iph + 19]), 6, l4Len % 0x1_0000]
  }

  function AddAll(acc: u16, ws: seq<u16>): u16
    decreases |ws|
  {
    if ws == [] then acc else AddAll(Add16(acc, ws[0]), ws[1..])
  }

  /** The ones-complement sum of those words and of the segment. */
  function TcpSum(pkt: seq<byte>, iph: nat, th: nat, l4Len: nat): u16
    requires iph + 20 <= |pkt| && th + l4Len <= |pkt|
  {
    Rfc1071(pkt[th..th + l4Len], AddAll(0, PseudoWords(pkt, iph, l4Len)))
  }

  lemma {:induction false} WordsAdd(s: seq<byte>, ws: seq<u16>, acc: u16)
    requires |s| == 2 * |ws| && forall i :: 0 <= i < |ws| ==> Word(s[2 * i], s[2 * i + 1]) == ws[i]
    ensures Rfc1071(s, acc) == AddAll(acc, ws)
  {
    hide Word, Add16;
    if ws != [] {
      forall i | 0 <= i < |ws[1..]| ensures Word(s[2..][2 * i], s[2..][2 * i + 1]) == ws[1..][i] {
        assert s[2..][2 * i] == s[2 * (i + 1)] && s[2..][2 * i + 1] == s[2 * (i + 1) + 1];
      }
      WordsAdd(s[2..], ws[1..], Add16(acc, ws[0]));
    }
  }

  /** The bytes of the pseudo-header add up to those words. */
  lemma PseudoHeaderWords(pkt: seq<byte>, iph: nat, l4Len: nat)
    requires iph + 20 <= |pkt|
    ensures |PseudoHeader(pkt, iph, l4Len)| == 12
    ensures Rfc1071(PseudoHeader(pkt, iph, l4Len), 0) == AddAll(0, PseudoWords(pkt, iph, l4Len))
  {
    hide Word, Rfc1071, AddAll, Bytes16, Swap16;
    var s := PseudoHeader(pkt, iph, l4Len);
    var n: u16 := l4Len % 0x1_0000;
    Bytes16Word(Swap16(n));
    Swap16Twice(n);
    ProtocolWord();
    assert s[10..] == Bytes16(Swap16(n));
    WordsAdd(s, PseudoWords(pkt, iph, l4Len), 0);
  }

  lemma ProtocolWord()
    ensures Word(0, 6) == 6
  {}

  lemma SummedIs(pkt: seq<byte>, iph: nat, th: nat, l4Len: nat)
    requires iph + 20 <= |pkt| && th + l4Len <= |pkt|
    ensures ChecksumOf(Summed(pkt, iph, th, l4Len)) == 0xFFFF - TcpSum(pkt, iph, th, l4Len)
  {
    hide Rfc1071, AddAll, PseudoHeader, PseudoWords;
    PseudoHeaderWords(pkt, iph, l4Len);
    Rfc1071Concat(PseudoHeader(pkt, iph, l4Len), pkt[th..th + l4Len], 0);
  }

  /** The bytes the TCP checksum is taken over. */
  function Summed(pkt: seq<byte>, iph: nat, th: nat, l4Len: nat): seq<byte>
    requires iph + 20 <= |pkt| && th + l4Len <= |pkt|
  {
    PseudoHeader(pkt, iph, l4Len) + pkt[th..th + l4Len]
  }

  predicate CoveredOnce(inHeader: bool, l4Len: nat) {
    if inHeader then l4Len <= 16 else l4Len >= 18
  }

  /** As often as those bytes hold the check field: within the pseudo-header when the header length is
      0, and within the segment unless that ends before it, or in the middle of it. */
  function Covered(field: seq<byte>, inHeader: bool, l4Len: nat): (b: seq<byte>)
    requires |field| == 2
    ensures |b| % 2 == 0
  {
    (if inHeader then field else []) + (if l4Len >= 18 then field else if l4Len == 17 then [field[0], 0] else [])
  }

  /** TCP checksum over the pseudo-header plus the l4Len bytes of the segment. */
  method TcpCsumSet(pkt: array<byte>, iph: nat, l4Len: nat)
    requires iph + 20 <= pkt.Length
    requires iph + 4 * (pkt[iph] % 16) + 20 <= pkt.Length && iph + 4 * (pkt[iph] % 16) + l4Len <= pkt.Length
    modifies pkt
    ensures var th := iph + 4 * (old(pkt[iph]) % 16);
            && OnlyChanged(old(pkt[..]), pkt[..], th + 16)
            && var cleared := Put16(old(pkt[..]), th + 16, 0);
               Word(pkt[th + 16], pkt[th + 17]) == 0xFFFF - TcpSum(cleared, iph, th, l4Len)
    ensures var th := iph + 4 * (old(pkt[iph]) % 16);
            if CoveredOnce(th == iph, l4Len) then TcpSum(pkt[..], iph, th, l4Len) == 0xFFFF
            else ChecksumOf(Summed(pkt[..], iph, th, l4Len))
                 == ChecksumOf(Covered(pkt[th + 16..th + 18], th == iph, l4Len) + Summed(Put16(old(pkt[..]), th + 16, 0), iph, th, l4Len))
  {
    hide Word, Norm, WordSum, ChecksumOf, Put16, Complement, Rfc1071, Bytes16, Swap16, PseudoHeader, OnlyChanged, TcpSum;
    var th := iph + 4 * (pkt[iph] % 16);
    Store16(pkt, th + 16, 0);
    ghost var cleared := pkt[..];
    PutSlice(old(pkt[..]), th + 16, 0, th, th + 18);
    var s := SegmentSum(pkt, iph, th, l4Len);
    var c := CsumFold(s);
    Store16(pkt, th + 16, c);
    ghost var summed := PseudoHeader(cleared, iph, l4Len) + cleared[th..th + l4Len];
    ComplementOfEqual(s, WordSum(summed));
    StoredIsChecksum(summed, c);
    PutSlice(cleared, th + 16, c, th, th + 18);
    ChangedTwice(old(pkt[..]), cleared, pkt[..], th + 16);
    FieldCounts(cleared, iph, th, l4Len);
    SummedIs(cleared, iph, th, l4Len);
    SummedIs(pkt[..], iph, th, l4Len);
  }

  lemma ChangedTwice(a: seq<byte>, b: seq<byte>, c: seq<byte>, at: nat)
    requires OnlyChanged(a, b, at) && OnlyChanged(b, c, at)
    ensures OnlyChanged(a, c, at)
  {}

  /** The five partial sums, one after the other. */
  method SegmentSum(pkt: array<byte>, iph: nat, th: nat, l4Len: nat) returns (s: u32)
    requires iph + 20 <= pkt.Length && th + l4Len <= pkt.Length
    ensures Norm(s) == Norm(WordSum(PseudoHeader(pkt[..], iph, l4Len) + pkt[th..th + l4Len]))
  {
    hide Norm, WordSum, Bytes16, Swap16;
    s := 0;
    ghost var sofar: seq<byte> := [];
    EmptySum();
    sofar, s := AddPiece(sofar, pkt[iph + 12..iph + 16], s);
    sofar, s := AddPiece(sofar, pkt[iph + 16..iph + 20], s);
    sofar, s := AddPiece(sofar, [0, 6], s);
    sofar, s := AddPiece(sofar, Bytes16(Swap16(l4Len % 0x1_0000)), s);
    assert pkt[iph + 12..iph + 16] + pkt[iph + 16..iph + 20] == pkt[iph + 12..iph + 20];
    assert sofar == PseudoHeader(pkt[..], iph, l4Len);
    sofar, s := AddPiece(sofar, pkt[th..th + l4Len], s);
  }

  lemma EmptySum()
    ensures Norm(0) == Norm(WordSum([]))
  {}

  method AddPiece(ghost before: seq<byte>, piece: seq<byte>, partial: u32) returns (ghost after: seq<byte>, next: u32)
    requires |before| % 2 == 0 && Norm(partial) == Norm(WordSum(before))
    ensures after == before + piece && Norm(next) == Norm(WordSum(after))
  {
    next := CsumPartial(piece, partial);
    after := before + piece;
    PiecewiseSum(before, piece, partial, next);
  }

  /** Storing the complement of the sum adds to the sum what it covers of the field. */
  lemma FieldCounts(cleared: seq<byte>, iph: nat, th: nat, l4Len: nat)
    requires iph + 20 <= |cleared| && (th == iph || iph + 4 <= th) && th + 20 <= |cleared| && th + l4Len <= |cleared|
    requires cleared[th + 16..th + 18] == Bytes16(0)
    ensures var t := Put16(cleared, th + 16, Complement(WordSum(Summed(cleared, iph, th, l4Len))));
            ChecksumOf(Summed(t, iph, th, l4Len))
            == if CoveredOnce(th == iph, l4Len) then 0
               else ChecksumOf(Covered(t[th + 16..th + 18], th == iph, l4Len) + Summed(cleared, iph, th, l4Len))
  {
    hide Word, Norm, WordSum, ChecksumOf, Put16, Complement, Rfc1071, Bytes16, Swap16, PseudoHeader, Summed, Covered;
    var c := Complement(WordSum(Summed(cleared, iph, th, l4Len)));
    var t := Put16(cleared, th + 16, c);
    var before, after := Summed(cleared, iph, th, l4Len), Summed(t, iph, th, l4Len);
    var covered := Covered(Bytes16(c), th == iph, l4Len);
    FieldSlice(cleared, th, c);
    SumParts(cleared, iph, th, l4Len);
    SumParts(t, iph, th, l4Len);
    HeaderCounts(cleared, iph, th, l4Len, c);
    SegmentCounts(cleared, th, l4Len, c);
    CoveredSum(c, th == iph, l4Len);
    if CoveredOnce(th == iph, l4Len) {
      ComplementVerifies(WordSum(before), after, c);
    } else {
      InFront(covered, before);
      SameSum(after, covered + before);
    }
  }

  lemma FieldSlice(s: seq<byte>, th: nat, c: u16)
    requires th + 20 <= |s|
    ensures Put16(s, th + 16, c)[th + 16..th + 18] == Bytes16(c)
  {
    hide Bytes16;
  }

  lemma InFront(a: seq<byte>, b: seq<byte>)
    requires |a| % 2 == 0
    ensures WordSum(a + b) == WordSum(a) + WordSum(b)
  {
    hide WordSum;
    WordSumSplit(a + b, |a|);
    assert (a + b)[..|a|] == a && (a + b)[|a|..] == b;
  }

  lemma SumParts(s: seq<byte>, iph: nat, th: nat, l4Len: nat)
    requires iph + 20 <= |s| && th + l4Len <= |s|
    ensures WordSum(Summed(s, iph, th, l4Len)) == WordSum(PseudoHeader(s, iph, l4Len)) + WordSum(s[th..th + l4Len])
    ensures |PseudoHeader(s, iph, l4Len)| == 12
  {
    hide WordSum, Bytes16, Swap16;
    InFront(PseudoHeader(s, iph, l4Len), s[th..th + l4Len]);
  }

  lemma SameSum(a: seq<byte>, b: seq<byte>)
    requires WordSum(a) == WordSum(b)
    ensures ChecksumOf(a) == ChecksumOf(b)
  {
    hide WordSum, ChecksumOf, Norm, Swap16;
    SumIsChecksum(a);
    SumIsChecksum(b);
  }

  lemma CoveredSum(c: u16, inHeader: bool, l4Len: nat)
    ensures WordSum(Covered(Bytes16(c), inHeader, l4Len)) == (if inHeader then c else 0) + if l4Len >= 18 then c else if l4Len == 17 then Bytes16(c)[0] else 0
  {
    hide WordSum, Bytes16;
    var field := Bytes16(c);
    Bytes16Word(c);
    HalfField(field[0]);
    InFront(if inHeader then field else [], if l4Len >= 18 then field else if l4Len == 17 then [field[0], 0] else []);
  }

  lemma HalfField(b: byte)
    ensures WordSum([b]) == b == WordSum([b, 0]) && WordSum([]) == 0
  {
    assert [b, 0][2..] == [];
  }

  lemma OddEnd(s: seq<byte>, th: nat)
    requires th + 17 <= |s|
    ensures WordSum(s[th..th + 17]) == WordSum(s[th..th + 16]) + s[th + 16]
  {
    hide WordSum;
    assert s[th..th + 17] == s[th..th + 16] + [s[th + 16]];
    InFront(s[th..th + 16], [s[th + 16]]);
    HalfField(s[th + 16]);
  }

  lemma SliceOfSlice(s: seq<byte>, a: nat, b: nat, c: nat, d: nat)
    requires a <= b <= |s| && c <= d <= b - a
    ensures s[a..b][c..d] == s[a + c..a + d]
  {
    forall i | 0 <= i < d - c ensures s[a..b][c..d][i] == s[a + c..a + d][i] {
      assert s[a..b][c..d][i] == s[a..b][c + i] == s[a + c + i];
    }
  }

  lemma PutInFront(h: seq<byte>, rest: seq<byte>, k: nat, c: u16)
    requires k + 2 <= |h|
    ensures Put16(h + rest, k, c) == Put16(h, k, c) + rest
  {
    hide Bytes16;
    assert (h + rest)[..k] == h[..k] && (h + rest)[k + 2..] == h[k + 2..] + rest;
  }

  lemma PutBeside(s: seq<byte>, at: nat, c: u16, from: nat, to: nat)
    requires at + 2 <= |s| && from <= to <= |s| && (to <= at || at + 2 <= from)
    ensures Put16(s, at, c)[from..to] == s[from..to]
  {
    hide Bytes16;
    var t := Put16(s, at, c);
    forall i | from <= i < to ensures t[i] == s[i] {
      if i >= at + 2 { assert t[i] == s[at + 2..][i - at - 2]; }
    }
  }

  lemma HeaderCounts(s: seq<byte>, iph: nat, th: nat, l4Len: nat, c: u16)
    requires iph + 20 <= |s| && (th == iph || iph + 4 <= th) && th + 20 <= |s| && s[th + 16..th + 18] == Bytes16(0)
    ensures WordSum(PseudoHeader(Put16(s, th + 16, c), iph, l4Len)) == WordSum(PseudoHeader(s, iph, l4Len)) + if th == iph then c else 0
  {
    hide WordSum, Bytes16, Swap16, Put16;
    if th == iph {
      var h, rest := s[iph + 12..iph + 20], [0 as byte, 6] + Bytes16(Swap16(l4Len % 0x1_0000));
      PutSlice(s, th + 16, c, iph + 12, iph + 20);
      PutInFront(h, rest, 4, c);
      SliceOfSlice(s, iph + 12, iph + 20, 4, 6);
      FieldBefore(h, rest, 4, c);
      assert h + rest == PseudoHeader(s, iph, l4Len) && Put16(h, 4, c) + rest == PseudoHeader(Put16(s, th + 16, c), iph, l4Len);
    } else {
      PutBeside(s, th + 16, c, iph + 12, iph + 20);
    }
  }

  lemma FieldBefore(h: seq<byte>, rest: seq<byte>, k: nat, c: u16)
    requires k % 2 == 0 == |h| % 2 && k + 2 <= |h| && h[k..k + 2] == Bytes16(0)
    ensures WordSum(Put16(h, k, c) + rest) == WordSum(h + rest) + c
  {
    hide WordSum, Bytes16, Put16;
    ZeroField(h, k, c);
    InFront(h, rest);
    InFront(Put16(h, k, c), rest);
  }

  lemma SegmentCounts(s: seq<byte>, th: nat, l4Len: nat, c: u16)
    requires th + 20 <= |s| && th + l4Len <= |s| && s[th + 16..th + 18] == Bytes16(0)
    ensures WordSum(Put16(s, th + 16, c)[th..th + l4Len])
         == WordSum(s[th..th + l4Len]) + if l4Len >= 18 then c else if l4Len == 17 then Bytes16(c)[0] else 0
  {
    hide WordSum, Bytes16, Put16;
    if l4Len >= 18 {
      PutSlice(s, th + 16, c, th, th + l4Len);
      SliceOfSlice(s, th, th + l4Len, 16, 18);
      ZeroField(s[th..th + l4Len], 16, c);
    } else if l4Len == 17 {
      HalfCounts(s, th, c);
    } else {
      PutBeside(s, th + 16, c, th, th + l4Len);
    }
  }

  lemma HalfCounts(s: seq<byte>, th: nat, c: u16)
    requires th + 20 <= |s| && s[th + 16..th + 18] == Bytes16(0)
    ensures WordSum(Put16(s, th + 16, c)[th..th + 17]) == WordSum(s[th..th + 17]) + Bytes16(c)[0]
  {
    hide WordSum, Put16;
    var t := Put16(s, th + 16, c);
    FieldSlice(s, th, c);
    PutBeside(s, th + 16, c, th, th + 16);
    OddEnd(s, th);
    OddEnd(t, th);
    assert s[th + 16] == s[th + 16..th + 18][0] && t[th + 16] == t[th + 16..th + 18][0];
  }

  /** Finish the checksum of a packet whose field at csumStart + csumOffset holds the sum of
      its pseudo-header, folded but not complemented. */
  method VnetCompleteCsum(pkt: array<byte>, plen: nat, csumStart: u16, csumOffset: u16, ghost pseudo: seq<byte>)
    requires plen <= pkt.Length
    modifies pkt
    ensures var at := csumStart + csumOffset;
            if csumStart >= plen || at + 2 > plen then pkt[..] == old(pkt[..])
            else && OnlyChanged(old(pkt[..]), pkt[..], at)
                 && Word(pkt[at], pkt[at + 1]) == ChecksumOf(old(pkt[csumStart..plen]))
                 && (csumOffset % 2 == 0 && |pseudo| % 2 == 0
                     && Rfc1071(pseudo, 0) == Word(old(pkt[at]), old(pkt[at + 1]))
                     ==> ChecksumOf(pseudo + pkt[csumStart..plen]) == 0)
  {
    hide Word, Norm, WordSum, ChecksumOf, Put16, Complement, Rfc1071, Bytes16;
    var at := csumStart + csumOffset;
    if csumStart >= plen || at + 2 > plen {
      return;
    }
    ghost var data := pkt[csumStart..plen];
    var p := CsumPartial(pkt[csumStart..plen], 0);
    var c := CsumFold(p);
    ComplementOfEqual(p, WordSum(data));
    StoredIsChecksum(data, c);
    PutSlice(pkt[..], at, c, csumStart, plen);
    Store16(pkt, at, c);
    if csumOffset % 2 == 0 && |pseudo| % 2 == 0 && Rfc1071(pseudo, 0) == Word(data[csumOffset], data[csumOffset + 1]) {
      PartialCompletes(data, csumOffset, c, pseudo);
    }
  }

  lemma PartialCompletes(data: seq<byte>, k: nat, c: u16, pseudo: seq<byte>)
    requires k % 2 == 0 && k + 2 <= |data| && c == Complement(WordSum(data))
    requires |pseudo| % 2 == 0 && Rfc1071(pseudo, 0) == Word(data[k], data[k + 1])
    ensures ChecksumOf(pseudo + Put16(data, k, c)) == 0
  {
    hide Norm, WordSum, Rfc1071, ChecksumOf, Complement, Word, Bytes16, Swap16;
    var after := Put16(data, k, c);
    var field: u16 := Word(data[k + 1], data[k]);
    PseudoIsField(data, k, pseudo);
    FieldWord(data, k);
    WordSumUpdate(data, k, c);
    assert WordSum(after) + field == WordSum(data) + c;
    WordSumSplit(pseudo + after, |pseudo|);
    assert (pseudo + after)[..|pseudo|] == pseudo && (pseudo + after)[|pseudo|..] == after;
    NormAdd(WordSum(pseudo), WordSum(after));
    NormAdd(field, WordSum(after));
    ComplementCompletes(WordSum(data), c);
    AllOnesVerifies(pseudo + after);
  }

  lemma FieldWord(data: seq<byte>, k: nat)
    requires k + 2 <= |data|
    ensures WordSum(data[k..k + 2]) == Word(data[k + 1], data[k])
  {
    assert data[k..k + 2][2..] == [];
  }

  /** The folded sum of the pseudo-header, as the host reads it back from the field. */
  lemma PseudoIsField(data: seq<byte>, k: nat, pseudo: seq<byte>)
    requires k + 2 <= |data| && Rfc1071(pseudo, 0) == Word(data[k], data[k + 1])
    ensures Norm(WordSum(pseudo)) == Norm(Word(data[k + 1], data[k]))
  {
    hide Norm, WordSum, Rfc1071, Word, Swap16;
    var field := Word(data[k + 1], data[k]);
    HostSumIsRfc1071(pseudo, 0);
    ZeroSwaps();
    Swap16Word(data[k + 1], data[k]);
    Swap16Twice(Norm(WordSum(pseudo)));
    Swap16Twice(field);
    NormAdd(WordSum(pseudo), 0);
  }

  lemma ZeroSwaps()
    ensures Swap16(0) == 0
  {}
}
