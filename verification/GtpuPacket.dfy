/** GTP-U user packets: the walk over a received header, and the headers written in front of a
    packet that is sent. The header format is that of sections 5.1 and 5.2.1 of TS 29.281;
    message and extension header types are its Tables 6.1-1 and 5.2.1-3. */
module GtpuPacket {
  import opened OnesComplement

  const G_PDU: byte := 255
  const NO_MORE_EXTENSION_HEADERS: byte := 0
  const PDU_SESSION_CONTAINER: byte := 0x85
  const DL_PDU_SESSION_INFORMATION: byte := 0

  // ---------------------------------------------------------------- the format

  predicate HasE(flags: byte) {
    flags / 4 % 2 == 1
  }

  predicate HasOptions(flags: byte) {
    flags % 8 != 0
  }

  /** The octets of an extension header of n units. */
  function Octets(n: byte): nat {
    4 * (n as int)
  }

  /** bytes is a chain of extension headers whose first one is of type t: each begins with its
      length in units of four octets and ends with the type of the next, 0 for none. */
  predicate IsChain(t: byte, bytes: seq<byte>)
    decreases |bytes|
  {
    if t == NO_MORE_EXTENSION_HEADERS then bytes == []
    else
      |bytes| > 0 && bytes[0] != 0 && Octets(bytes[0]) <= |bytes|
      && IsChain(bytes[Octets(bytes[0]) - 1], bytes[Octets(bytes[0])..])
  }

  /** A whole header: eight octets, then the optional four if E, S or PN is set, then the chain
      of extension headers if E is set. */
  predicate IsHeader(h: seq<byte>) {
    |h| >= 8 &&
    if !HasOptions(h[0]) then |h| == 8
    else |h| >= 12 && if HasE(h[0]) then IsChain(h[11], h[12..]) else |h| == 12
  }

  // ---------------------------------------------------------------- the walk

  method GtpuInner(buf: seq<byte>) returns (ok: bool, off: nat, innerLen: nat)
    ensures ok <==> exists h :: 0 <= h < |buf| && IsHeader(buf[..h])
    ensures ok ==> 0 < innerLen && off + innerLen == |buf| && IsHeader(buf[..off])
  {
    hide IsHeader, IsChain, Walked;
    ok, off, innerLen := false, 0, 0;
    if |buf| < 8 {
      TooShort(buf);
      return;
    }
    var flags := buf[0];
    off := 8;
    if HasOptions(flags) {
      off := off + 4;
      if off > |buf| {
        TooShort(buf);
        return;
      }
      Begun(buf);
      while HasE(flags) && off < |buf| && buf[off - 1] != 0
        invariant 12 <= off <= |buf| && Walked(buf, off)
      {
        var units := buf[off];
        ChainStep(buf, off);
        if units == 0 {
          assert forall h :: 0 <= h < |buf| ==> !IsHeader(buf[..h]);
          return;
        }
        off := off + Octets(units);
        if off > |buf| {
          assert forall h :: 0 <= h < |buf| ==> !IsHeader(buf[..h]);
          return;
        }
      }
    }
    Ended(buf, off);
    if off >= |buf| {
      assert forall h :: 0 <= h < |buf| ==> !IsHeader(buf[..h]);
      return;
    }
    assert IsHeader(buf[..off]);
    innerLen := |buf| - off;
    ok := true;
  }

  /** The walk has reached off: a header ends here or later, where the chain that begins here ends. */
  ghost predicate Walked(buf: seq<byte>, off: nat)
    requires 12 <= off <= |buf|
  {
    if HasE(buf[0])
    then forall h :: 0 <= h <= |buf| ==> (IsHeader(buf[..h]) <==> off <= h && IsChain(buf[off - 1], buf[off..h]))
    else off == 12 && forall h :: 0 <= h <= |buf| ==> (IsHeader(buf[..h]) <==> h == 12)
  }

  lemma TooShort(buf: seq<byte>)
    requires |buf| < 8 || (|buf| < 12 && HasOptions(buf[0]))
    ensures forall h :: 0 <= h <= |buf| ==> !IsHeader(buf[..h])
  {
    assert forall h :: 8 <= h <= |buf| ==> buf[..h][0] == buf[0];
  }

  lemma Begun(buf: seq<byte>)
    requires |buf| >= 12 && HasOptions(buf[0])
    ensures Walked(buf, 12)
  {
    forall h | 12 <= h <= |buf| ensures buf[..h][12..] == buf[12..h] {}
  }

  /** One extension header: its length may be zero, or lead past the end. */
  lemma ChainStep(buf: seq<byte>, off: nat)
    requires 12 <= off < |buf| && HasE(buf[0]) && buf[off - 1] != 0 && Walked(buf, off)
    ensures var next := off + Octets(buf[off]);
      if buf[off] == 0 || next > |buf| then forall h :: 0 <= h <= |buf| ==> !IsHeader(buf[..h]) else Walked(buf, next)
  {
    hide IsHeader, IsChain;
    var next := off + Octets(buf[off]);
    forall h | off <= h <= |buf|
      ensures IsChain(buf[off - 1], buf[off..h]) <==> buf[off] != 0 && next <= h && IsChain(buf[next - 1], buf[next..h])
    {
      ChainFirst(buf, off, h);
    }
  }

  /** A chain is one extension header and the chain behind it. */
  lemma ChainFirst(buf: seq<byte>, off: nat, h: nat)
    requires 0 < off <= h <= |buf| && off < |buf| && buf[off - 1] != 0
    ensures var next := off + Octets(buf[off]);
      IsChain(buf[off - 1], buf[off..h]) <==> buf[off] != 0 && next <= h && IsChain(buf[next - 1], buf[next..h])
  {
    if off < h {
      var next, bytes := off + Octets(buf[off]), buf[off..h];
      assert bytes[0] == buf[off];
      if buf[off] != 0 && next <= h {
        assert bytes[Octets(bytes[0])..] == buf[next..h] && bytes[Octets(bytes[0]) - 1] == buf[next - 1];
      }
    }
  }

  /** At the end of the walk the header is what was walked over, or there is none. */
  lemma Ended(buf: seq<byte>, off: nat)
    requires 8 <= off <= |buf|
    requires HasOptions(buf[0]) ==> off >= 12 && Walked(buf, off) && (HasE(buf[0]) ==> off == |buf| || buf[off - 1] == 0)
    requires !HasOptions(buf[0]) ==> off == 8
    ensures forall h :: 0 <= h < |buf| ==> (IsHeader(buf[..h]) <==> h == off)
  {
    if HasE(buf[0]) && off < |buf| {
      forall h | off <= h <= |buf| ensures IsChain(buf[off - 1], buf[off..h]) <==> h == off {}
    }
  }

  /** A buffer has at most one header in front of its user packet. */
  lemma {:induction false} ChainLength(t: byte, a: seq<byte>, b: seq<byte>)
    requires a <= b && IsChain(t, a) && IsChain(t, b)
    ensures a == b
    decreases |a|
  {
    if t != 0 {
      var n := Octets(a[0]);
      assert a[n..] <= b[n..] && a[n - 1] == b[n - 1];
      ChainLength(a[n - 1], a[n..], b[n..]);
      assert a == a[..n] + a[n..] && b == b[..n] + b[n..] && a[..n] == b[..n];
    }
  }

  lemma HeaderLength(buf: seq<byte>, h: nat, k: nat)
    requires h <= k <= |buf| && IsHeader(buf[..h]) && IsHeader(buf[..k])
    ensures h == k
  {
    if HasE(buf[0]) {
      assert buf[..h][12..] == buf[12..h] && buf[..k][12..] == buf[12..k];
      assert buf[12..h] <= buf[12..k];
      ChainLength(buf[11], buf[12..h], buf[12..k]);
    }
  }

  // ---------------------------------------------------------------- encoding

  /** An extension header of one to 255 units; content is what stands between its length and the
      type of the next. */
  datatype Extension = Extension(kind: byte, content: seq<byte>)

  predicate Encodable(e: Extension) {
    e.kind != 0 && 2 <= |e.content| <= 4 * 255 - 2 && |e.content| % 4 == 2
  }

  function FirstKind(es: seq<Extension>): byte {
    if es == [] then 0 else es[0].kind
  }

  function Units(e: Extension): byte
    requires Encodable(e)
  {
    (|e.content| + 2) / 4
  }

  /** One extension header, given the type of the next. */
  function EncodeOne(e: Extension, next: byte): (b: seq<byte>)
    requires Encodable(e)
    ensures |b| == |e.content| + 2 == Octets(b[0]) && b[0] != 0 && b[|b| - 1] == next && b[1..|b| - 1] == e.content
  {
    [Units(e)] + e.content + [next]
  }

  function EncodeChain(es: seq<Extension>): seq<byte>
    requires forall i :: 0 <= i < |es| ==> Encodable(es[i])
  {
    if es == [] then [] else EncodeOne(es[0], FirstKind(es[1..])) + EncodeChain(es[1..])
  }

  function DecodeChain(t: byte, bytes: seq<byte>): seq<Extension>
    requires IsChain(t, bytes)
    decreases |bytes|
  {
    if t == 0 then []
    else
      var n := Octets(bytes[0]);
      [Extension(t, bytes[1..n - 1])] + DecodeChain(bytes[n - 1], bytes[n..])
  }

  /** Every list of extension headers is read back from its encoding. */
  lemma {:induction false} EncodedChain(es: seq<Extension>)
    requires forall i :: 0 <= i < |es| ==> Encodable(es[i])
    ensures IsChain(FirstKind(es), EncodeChain(es)) && DecodeChain(FirstKind(es), EncodeChain(es)) == es
  {
    hide EncodeOne;
    if es != [] {
      EncodedChain(es[1..]);
      PutFirst(es[0], FirstKind(es[1..]), EncodeChain(es[1..]));
    }
  }

  lemma PutFirst(e: Extension, next: byte, rest: seq<byte>)
    requires Encodable(e) && IsChain(next, rest)
    ensures IsChain(e.kind, EncodeOne(e, next) + rest)
    ensures DecodeChain(e.kind, EncodeOne(e, next) + rest) == [e] + DecodeChain(next, rest)
  {
    hide EncodeOne;
    var one := EncodeOne(e, next);
    var b := one + rest;
    assert b[0] == one[0] && b[|one| - 1] == next && b[|one|..] == rest && b[1..|one| - 1] == one[1..|one| - 1];
  }

  /** Every chain is the encoding of what is read from it. */
  lemma {:induction false} DecodedChain(t: byte, bytes: seq<byte>)
    requires IsChain(t, bytes)
    ensures var es := DecodeChain(t, bytes);
      (forall i :: 0 <= i < |es| ==> Encodable(es[i])) && FirstKind(es) == t && EncodeChain(es) == bytes
    decreases |bytes|
  {
    hide EncodeOne;
    if t != 0 {
      var n := Octets(bytes[0]);
      var e := Extension(t, bytes[1..n - 1]);
      var es := DecodeChain(bytes[n - 1], bytes[n..]);
      DecodedChain(bytes[n - 1], bytes[n..]);
      assert DecodeChain(t, bytes) == [e] + es && ([e] + es)[1..] == es;
      TakeFirst(bytes, n, e);
    }
  }

  lemma TakeFirst(bytes: seq<byte>, n: nat, e: Extension)
    requires |bytes| > 0 && bytes[0] != 0 && |bytes| >= n == Octets(bytes[0]) && e.content == bytes[1..n - 1] && e.kind != 0
    ensures Encodable(e) && EncodeOne(e, bytes[n - 1]) + bytes[n..] == bytes
  {
    assert Units(e) == bytes[0];
    assert bytes == [bytes[0]] + bytes[1..n - 1] + [bytes[n - 1]] + bytes[n..];
  }

  /** Whatever the flags, the fixed fields, the extension headers and the packet, the only header
      found in front of the packet is the one that was put there. */
  lemma EncodedPacket(flags: byte, rest: seq<byte>, options: seq<byte>, es: seq<Extension>, packet: seq<byte>, h: nat)
    requires |rest| == 7 && |options| == 3 && (forall i :: 0 <= i < |es| ==> Encodable(es[i])) && packet != []
    requires es != [] ==> HasE(flags)
    requires h < |Header(flags, rest, options, es) + packet|
    ensures IsHeader((Header(flags, rest, options, es) + packet)[..h]) <==> h == |Header(flags, rest, options, es)|
  {
    hide EncodeChain, IsHeader;
    var head := Header(flags, rest, options, es);
    var buf := head + packet;
    HeaderIsHeader(flags, rest, options, es);
    assert buf[..|head|] == head;
    if IsHeader(buf[..h]) {
      if h <= |head| { HeaderLength(buf, h, |head|); } else { HeaderLength(buf, |head|, h); }
    }
  }

  function Header(flags: byte, rest: seq<byte>, options: seq<byte>, es: seq<Extension>): seq<byte>
    requires forall i :: 0 <= i < |es| ==> Encodable(es[i])
  {
    [flags] + rest + if HasOptions(flags) then options + [FirstKind(es)] + EncodeChain(es) else []
  }

  lemma HeaderIsHeader(flags: byte, rest: seq<byte>, options: seq<byte>, es: seq<Extension>)
    requires |rest| == 7 && |options| == 3 && (forall i :: 0 <= i < |es| ==> Encodable(es[i]))
    requires es != [] ==> HasE(flags)
    ensures IsHeader(Header(flags, rest, options, es))
  {
    EncodedChain(es);
    var head := Header(flags, rest, options, es);
    if HasOptions(flags) {
      assert head == ([flags] + rest + options + [FirstKind(es)]) + EncodeChain(es);
      assert head[12..] == EncodeChain(es);
    }
  }

  // ---------------------------------------------------------------- sending

  function BigEndian16(w: nat): (b: seq<byte>)
    ensures |b| == 2 && Number16(b) == w % 0x1_0000
  {
    var v := w % 0x1_0000;
    [v / 256, v % 256]
  }

  function BigEndian32(w: u32): (b: seq<byte>)
    ensures |b| == 4 && Number32(b) == w
  {
    BigEndian16(w / 0x1_0000) + BigEndian16(w % 0x1_0000)
  }

  /** The numbers whose big-endian octets are b. */
  function Number16(b: seq<byte>): nat
    requires |b| == 2
  {
    256 * (b[0] as nat) + b[1]
  }

  function Number32(b: seq<byte>): nat
    requires |b| == 4
  {
    0x1_0000 * Number16(b[..2]) + Number16(b[2..])
  }

  function Flags(e: nat): byte
    requires e < 2
  {
    var (version, pt, spare, s, pn) := (1, 1, 0, 0, 0);
    32 * version + 16 * pt + 8 * spare + 4 * e + 2 * s + pn
  }

  function Splice(m: seq<byte>, at: nat, b: seq<byte>): seq<byte>
    requires at + |b| <= |m|
  {
    m[..at] + b + m[at + |b|..]
  }

  lemma SpliceNext(m: seq<byte>, at: nat, a: seq<byte>, b: seq<byte>)
    requires at + |a| + |b| <= |m|
    ensures Splice(Splice(m, at, a), at + |a|, b) == Splice(m, at, a + b)
  {}

  /** Writes the octets of a field. */
  method Write(mem: array<byte>, at: nat, b: seq<byte>)
    requires at + |b| <= mem.Length
    modifies mem
    ensures mem[..] == Splice(old(mem[..]), at, b)
  {
    hide Splice;
    for i := 0 to |b|
      invariant forall k :: 0 <= k < mem.Length ==> mem[k] == if at <= k < at + i then b[k - at] else old(mem[k])
    {
      mem[at + i] := b[i];
    }
    SpliceIs(old(mem[..]), at, b, mem[..]);
  }

  lemma SpliceIs(m: seq<byte>, at: nat, b: seq<byte>, r: seq<byte>)
    requires at + |b| <= |m| == |r| && forall k :: 0 <= k < |m| ==> r[k] == if at <= k < at + |b| then b[k - at] else m[k]
    ensures r == Splice(m, at, b)
  {}

  /** Writes a field right behind those already written from start on. */
  method WriteNext(mem: array<byte>, ghost m: seq<byte>, start: nat, ghost done: seq<byte>, at: nat, b: seq<byte>)
    requires start + |done| == at && at + |b| <= mem.Length == |m| && mem[..] == Splice(m, start, done)
    modifies mem
    ensures mem[..] == Splice(m, start, done + b)
  {
    Write(mem, at, b);
    SpliceNext(m, start, done, b);
  }

  /** The header send_g_pdu writes. The length counts what follows the first eight octets. */
  function Prefix(sendExtHdr: bool, teid: u32, payloadLen: nat, qfi: byte): seq<byte> {
    if !sendExtHdr then [Flags(0), G_PDU] + BigEndian16(payloadLen) + BigEndian32(teid)
    else [Flags(1), G_PDU] + BigEndian16(payloadLen + 8) + BigEndian32(teid) + [0, 0, 0, PDU_SESSION_CONTAINER]
         + [1, DL_PDU_SESSION_INFORMATION, qfi, NO_MORE_EXTENSION_HEADERS]
  }

  /** Writes the header in front of the payload, in place, and returns what is handed to the
      socket: a start and a length. The caller leaves room for the header. */
  method SendGPdu(mem: array<byte>, payload: nat, payloadLen: nat, teid: u32, qfi: byte, sendExtHdr: bool) returns (start: nat, len: nat)
    requires (if sendExtHdr then 16 else 8) <= payload && payload + payloadLen <= mem.Length
    modifies mem
    ensures start + len == payload + payloadLen && len == payloadLen + |Prefix(sendExtHdr, teid, payloadLen, qfi)|
    ensures mem[..] == Splice(old(mem[..]), start, Prefix(sendExtHdr, teid, payloadLen, qfi))
  {
    hide Splice, BigEndian16, BigEndian32;
    ghost var m := mem[..];
    if !sendExtHdr {
      start, len := payload - 8, payloadLen + 8;
      WriteMandatory(mem, start, 0, payloadLen, teid);
    } else {
      start, len := payload - 16, payloadLen + 16;
      WriteMandatory(mem, start, 1, payloadLen + 8, teid);
      WriteOptions(mem, m, start, [Flags(1), G_PDU] + BigEndian16(payloadLen + 8) + BigEndian32(teid));
      WriteContainer(mem, m, start, [Flags(1), G_PDU] + BigEndian16(payloadLen + 8) + BigEndian32(teid) + [0, 0, 0, PDU_SESSION_CONTAINER], qfi);
    }
  }

  method WriteMandatory(mem: array<byte>, start: nat, e: nat, length: nat, teid: u32)
    requires e < 2 && start + 8 <= mem.Length
    modifies mem
    ensures mem[..] == Splice(old(mem[..]), start, [Flags(e), G_PDU] + BigEndian16(length) + BigEndian32(teid))
  {
    hide Splice, BigEndian16, BigEndian32, Flags;
    ghost var m := mem[..];
    Write(mem, start, [Flags(e)]);
    WriteNext(mem, m, start, [Flags(e)], start + 1, [G_PDU]);
    ghost var done := [Flags(e), G_PDU];
    assert [Flags(e)] + [G_PDU] == done;
    WriteNext(mem, m, start, done, start + 2, BigEndian16(length));
    WriteNext(mem, m, start, done + BigEndian16(length), start + 4, BigEndian32(teid));
  }

  method WriteOptions(mem: array<byte>, ghost m: seq<byte>, start: nat, ghost done: seq<byte>)
    requires |done| == 8 && start + 12 <= mem.Length == |m| && mem[..] == Splice(m, start, done)
    modifies mem
    ensures mem[..] == Splice(m, start, done + [0, 0, 0, PDU_SESSION_CONTAINER])
  {
    hide Splice;
    WriteNext(mem, m, start, done, start + 8, [0, 0]);
    WriteNext(mem, m, start, done + [0, 0], start + 10, [0]);
    WriteNext(mem, m, start, done + [0, 0] + [0], start + 11, [PDU_SESSION_CONTAINER]);
    assert done + [0, 0] + [0] + [PDU_SESSION_CONTAINER] == done + [0, 0, 0, PDU_SESSION_CONTAINER];
  }

  method WriteContainer(mem: array<byte>, ghost m: seq<byte>, start: nat, ghost done: seq<byte>, qfi: byte)
    requires |done| == 12 && start + 16 <= mem.Length == |m| && mem[..] == Splice(m, start, done)
    modifies mem
    ensures mem[..] == Splice(m, start, done + [1, DL_PDU_SESSION_INFORMATION, qfi, NO_MORE_EXTENSION_HEADERS])
  {
    hide Splice;
    WriteNext(mem, m, start, done, start + 12, [1]);
    WriteNext(mem, m, start, done + [1], start + 13, [DL_PDU_SESSION_INFORMATION]);
    WriteNext(mem, m, start, done + [1] + [DL_PDU_SESSION_INFORMATION], start + 14, [qfi]);
    WriteNext(mem, m, start, done + [1] + [DL_PDU_SESSION_INFORMATION] + [qfi], start + 15, [NO_MORE_EXTENSION_HEADERS]);
    assert done + [1] + [DL_PDU_SESSION_INFORMATION] + [qfi] + [NO_MORE_EXTENSION_HEADERS]
        == done + [1, DL_PDU_SESSION_INFORMATION, qfi, NO_MORE_EXTENSION_HEADERS];
  }

  /** What is sent is read back: the walk finds the payload and nothing but the payload, for both
      layouts. */
  lemma SentIsRead(sendExtHdr: bool, teid: u32, qfi: byte, payload: seq<byte>, h: nat)
    requires payload != [] && h < |Prefix(sendExtHdr, teid, |payload|, qfi) + payload|
    ensures var prefix := Prefix(sendExtHdr, teid, |payload|, qfi);
      IsHeader((prefix + payload)[..h]) <==> h == |prefix|
  {
    hide IsHeader, Prefix, Header, HasE;
    var es := if sendExtHdr then [Extension(PDU_SESSION_CONTAINER, [DL_PDU_SESSION_INFORMATION, qfi])] else [];
    PrefixIsHeader(sendExtHdr, teid, |payload|, qfi, es);
    EncodedPacket(Flags(if sendExtHdr then 1 else 0), Prefix(sendExtHdr, teid, |payload|, qfi)[1..8], [0, 0, 0], es, payload, h);
  }

  lemma PrefixIsHeader(sendExtHdr: bool, teid: u32, len: nat, qfi: byte, es: seq<Extension>)
    requires es == if sendExtHdr then [Extension(PDU_SESSION_CONTAINER, [DL_PDU_SESSION_INFORMATION, qfi])] else []
    ensures var prefix := Prefix(sendExtHdr, teid, len, qfi);
            var flags := Flags(if sendExtHdr then 1 else 0);
      |prefix| >= 8 && prefix == Header(flags, prefix[1..8], [0, 0, 0], es) && (es != [] ==> HasE(flags))
  {
    hide BigEndian16, BigEndian32;
    var prefix := Prefix(sendExtHdr, teid, len, qfi);
    assert prefix[..8] == [prefix[0]] + prefix[1..8];
    if sendExtHdr {
      assert prefix[8..] == [0, 0, 0] + [FirstKind(es)] + EncodeChain(es) by { OneExtension(es[0]); }
      assert prefix == prefix[..8] + prefix[8..];
    }
  }

  lemma OneExtension(e: Extension)
    requires Encodable(e) && |e.content| == 2
    ensures EncodeChain([e]) == [1] + e.content + [0]
  {
    assert [e][1..] == [];
  }

  /** The length field of what is sent counts what follows the first eight octets, modulo 2^16. */
  /** Version 1, protocol type GTP, no sequence number and no N-PDU number; E with the extension header,
      a PDU session container of downlink type with the QFI and no other header behind it. */
  lemma SentFields(sendExtHdr: bool, teid: u32, qfi: byte, payload: seq<byte>)
    ensures var sent := Prefix(sendExtHdr, teid, |payload|, qfi) + payload;
      && |sent| >= 8 && Number16(sent[2..4]) == (|sent| - 8) % 0x1_0000 && sent[1] == 0xFF && Number32(sent[4..8]) == teid
      && sent[0] / 32 == 1 && sent[0] / 16 % 2 == 1 && sent[0] / 8 % 2 == 0
      && (sent[0] / 4 % 2 == 1 <==> sendExtHdr) && sent[0] / 2 % 2 == 0 && sent[0] % 2 == 0
      && (sendExtHdr ==> |sent| >= 16 && sent[8..16] == [0, 0, 0, 0x85, 1, 0, qfi, 0])
      && sent[if sendExtHdr then 16 else 8..] == payload
  {
    hide BigEndian16, BigEndian32, Number16, Number32;
    var sent := Prefix(sendExtHdr, teid, |payload|, qfi) + payload;
    assert sent[4..8] == BigEndian32(teid) && sent[2..4] == BigEndian16(|sent| - 8);
  }

  /** Four more octets follow the first eight exactly if E, S or PN is set, each of them alone
      included, and extension headers exactly if E is. */
  lemma OptionalOctets(h: seq<byte>)
    requires |h| >= 8
    ensures var (e, s, pn) := (h[0] / 4 % 2 == 1, h[0] / 2 % 2 == 1, h[0] % 2 == 1);
      IsHeader(h) <==> if e then |h| >= 12 && IsChain(h[11], h[12..]) else if s || pn then |h| == 12 else |h| == 8
  {}
}
