/** GTP-U signalling messages: what the writer puts on a stream and what the reader makes of it.
    Information element types are those of Table 8.1-1 of TS 29.281. */
module GtpuMessage {
  import opened OnesComplement
  import opened GtpuPacket

  const IE_RECOVERY: byte := 14
  const IE_TEID_DATA_I: byte := 16
  const IE_PEER_ADDRESS: byte := 133
  const IE_PRIVATE_EXTENSION: byte := 255

  /** What a message counts for the type and length of an element, and for the optional fields. */
  const TLV_IE_LENGTH := 4
  const OPTIONAL_FIELDS_BYTES := 4

  /** b holds the flags: version, PT, spare, E, S, PN from the top bit down. */
  datatype MsgHeader = MsgHeader(b: byte, messageType: byte, messageLength: u16, teid: u32, sequenceNumber: u16, npdu: byte, nextExt: byte)

  const NewHeader := MsgHeader(Flags(0), 0, 0, 0, 0, 0, 0)

  datatype Ie =
    | Recovery(restartCounter: byte)
    | TeidDataI(teid: u32)
    | PeerAddress(isV4: bool, v4: seq<byte>, v6: seq<byte>)
    | PrivateExtension(id: u16, value: seq<byte>)

  predicate WellFormed(ie: Ie) {
    ie.PeerAddress? ==> |ie.v4| == 4 && |ie.v6| == 16
  }

  function Zeros(n: nat): (z: seq<byte>)
    ensures |z| == n && forall i :: 0 <= i < n ==> z[i] == 0
  {
    seq(n, i => 0)
  }

  /** The length in the element's header, as set when it is made. */
  function LengthOf(ie: Ie): nat {
    match ie
    case Recovery(_) => 1
    case TeidDataI(_) => 0
    case PeerAddress(isV4, _, _) => if isV4 then 4 else 16
    case PrivateExtension(_, value) => 2 + |value|
  }

  function TypeOf(ie: Ie): byte {
    match ie
    case Recovery(_) => IE_RECOVERY
    case TeidDataI(_) => IE_TEID_DATA_I
    case PeerAddress(_, _, _) => IE_PEER_ADDRESS
    case PrivateExtension(_, _) => IE_PRIVATE_EXTENSION
  }

  /** Only types from 128 on are followed by a length. */
  predicate HasLength(t: byte) {
    t >= 0x80
  }

  // ---------------------------------------------------------------- writing

  function DumpTlv(t: byte, length: nat): seq<byte> {
    [t] + if HasLength(t) then BigEndian16(length) else []
  }

  function DumpBody(ie: Ie): seq<byte> {
    match ie
    case Recovery(c) => [c]
    case TeidDataI(teid) => BigEndian32(teid)
    case PeerAddress(isV4, v4, v6) => if isV4 then v4 else v6
    case PrivateExtension(id, value) => BigEndian16(id) + value
  }

  function DumpIe(ie: Ie): seq<byte> {
    DumpTlv(TypeOf(ie), LengthOf(ie)) + DumpBody(ie)
  }

  function DumpIes(ies: seq<Ie>): seq<byte> {
    if ies == [] then [] else DumpIe(ies[0]) + DumpIes(ies[1..])
  }

  function NoSpare(b: byte): byte {
    if b / 8 % 2 == 1 then b - 8 else b
  }

  function DumpHeader(h: MsgHeader): seq<byte> {
    [NoSpare(h.b), h.messageType] + BigEndian16(h.messageLength) + BigEndian32(h.teid)
    + if HasOptions(h.b) then BigEndian16(h.sequenceNumber) + [h.npdu, h.nextExt] else []
  }

  /** What the header has to say on the wire. */
  function Canonical(h: MsgHeader): MsgHeader {
    var c := h.(b := NoSpare(h.b));
    if HasOptions(h.b) then c else c.(sequenceNumber := 0, npdu := 0, nextExt := 0)
  }

  // ---------------------------------------------------------------- reading

  /** An input stream: what is left of it, and whether every read so far was served in full. */
  datatype In = In(rest: seq<byte>, good: bool)

  /** Reads into a variable whose octets are was; octets that do not arrive keep their value. */
  function Read(i: In, was: seq<byte>): (r: (seq<byte>, In))
    ensures |r.0| == |was| && |r.1.rest| <= |i.rest|
  {
    if !i.good then (was, i)
    else
      var n := if |was| <= |i.rest| then |was| else |i.rest|;
      (i.rest[..n] + was[n..], In(i.rest[n..], |was| <= |i.rest|))
  }

  function LoadTlv(i: In): (byte, nat, In) {
    var (t, i1) := Read(i, [0]);
    if HasLength(t[0]) then
      var (l, i2) := Read(i1, [0, 0]);
      (t[0], Number16(l), i2)
    else (t[0], 0, i1)
  }

  /** None stands for an element that is not known or has no length. */
  datatype Element = None | Some(ie: Ie) | BadLength(length: nat)

  function LoadIe(i: In): (Element, In) {
    var (t, length, i1) := LoadTlv(i);
    if length == 0 then (None, i1)
    else if t == IE_PEER_ADDRESS then
      if length == 4 then
        var (a, i2) := Read(i1, Zeros(4));
        (Some(PeerAddress(true, a, Zeros(16))), i2)
      else if length == 16 then
        var (a, i2) := Read(i1, Zeros(16));
        (Some(PeerAddress(true, Zeros(4), a)), i2)
      else (BadLength(length), i1)
    else if t == IE_PRIVATE_EXTENSION then
      var (id, i2) := Read(i1, [0, 0]);
      if length > 2 then
        var (value, i3) := Read(i2, Zeros(length - 2));
        (Some(PrivateExtension(Number16(id), value)), i3)
      else (Some(PrivateExtension(Number16(id), [])), i2)
    else (None, i1)
  }

  lemma LoadIeConsumes(i: In)
    ensures LoadIe(i).0 != None ==> |LoadIe(i).1.rest| < |i.rest|
  {
    if !i.good || i.rest == [] {
      assert Read(i, [0]).0 == [0];
    }
  }

  /** The length in the header of a loaded element. */
  function LoadedLength(i: In): nat {
    LoadTlv(i).1
  }

  datatype Outcome = Loaded(ies: seq<Ie>) | TlvBadLength(length: nat) | MsgBadLength

  /** The reader's loop; counted is its 16-bit count, ies what it has so far. */
  function LoadIes(i: In, check: u16, counted: u16, ies: seq<Ie>): (Outcome, In)
    decreases |i.rest|
  {
    LoadIeConsumes(i);
    match LoadIe(i)
    case (None, i1) => (Finish(check, counted, ies), i1)
    case (BadLength(l), i1) => (TlvBadLength(l), i1)
    case (Some(ie), i1) =>
      var count: u16 := (counted + TLV_IE_LENGTH + LoadedLength(i)) % 0x1_0000;
      if count < check then LoadIes(i1, check, count, ies + [ie]) else (Finish(check, count, ies + [ie]), i1)
  }

  function Finish(check: u16, counted: u16, ies: seq<Ie>): Outcome {
    if counted > check then MsgBadLength else Loaded(ies)
  }

  function LoadHeader(i: In): (MsgHeader, In) {
    var (b, i1) := Read(i, [NewHeader.b]);
    var (t, i2) := Read(i1, [0]);
    var (l, i3) := Read(i2, [0, 0]);
    var (teid, i4) := Read(i3, [0, 0, 0, 0]);
    if HasOptions(b[0]) then
      var (s, i5) := Read(i4, [0, 0]);
      var (n, i6) := Read(i5, [0]);
      var (x, i7) := Read(i6, [0]);
      (MsgHeader(b[0], t[0], Number16(l), Number32(teid), Number16(s), n[0], x[0]), i7)
    else (MsgHeader(b[0], t[0], Number16(l), Number32(teid), 0, 0, 0), i4)
  }

  /** The length the header claims for the elements; it wraps if it claims less than the optional fields take. */
  function LengthForIes(h: MsgHeader): u16 {
    if HasOptions(h.b) then (h.messageLength + 0x1_0000 - OPTIONAL_FIELDS_BYTES) % 0x1_0000 else h.messageLength
  }

  function Load(i: In): (MsgHeader, Outcome, In) {
    var (h, i1) := LoadHeader(i);
    var (o, i2) := LoadIes(i1, LengthForIes(h), 0, []);
    (h, o, i2)
  }

  // ---------------------------------------------------------------- the objects

  class InStream {
    var rest: seq<byte>
    var good: bool

    ghost function State(): In
      reads this
    {
      In(rest, good)
    }

    constructor (bytes: seq<byte>)
      ensures State() == In(bytes, true)
    {
      rest, good := bytes, true;
    }

    method Get(was: seq<byte>) returns (b: seq<byte>)
      modifies this
      ensures (b, State()) == Read(old(State()), was)
    {
      b := was;
      if good {
        var n := if |was| <= |rest| then |was| else |rest|;
        b := rest[..n] + was[n..];
        good := |was| <= |rest|;
        rest := rest[n..];
      }
    }
  }

  method NewIeFromStream(s: InStream) returns (e: Element, length: nat)
    modifies s
    ensures (e, s.State()) == LoadIe(old(s.State())) && length == LoadedLength(old(s.State()))
  {
    e, length := None, 0;
    var t := s.Get([0]);
    if HasLength(t[0]) {
      var l := s.Get([0, 0]);
      length := Number16(l);
    }
    if length != 0 {
      if t[0] == IE_PEER_ADDRESS {
        if length == 4 {
          var a := s.Get(Zeros(4));
          e := Some(PeerAddress(true, a, Zeros(16)));
        } else if length == 16 {
          var a := s.Get(Zeros(16));
          e := Some(PeerAddress(true, Zeros(4), a));
        } else {
          e := BadLength(length);
        }
      } else if t[0] == IE_PRIVATE_EXTENSION {
        var id := s.Get([0, 0]);
        var value := [];
        if length > 2 {
          value := s.Get(Zeros(length - 2));
        }
        e := Some(PrivateExtension(Number16(id), value));
      }
    }
  }

  class Gtpv1uMsg {
    var header: MsgHeader
    var ies: seq<Ie>

    /** The length field counts the optional fields once, and every element. */
    ghost predicate Counted()
      reads this
    {
      header.messageLength == ((if HasOptions(header.b) then OPTIONAL_FIELDS_BYTES else 0) + CountIes(ies)) % 0x1_0000
    }

    constructor (messageType: byte)
      ensures Counted() && header == NewHeader.(messageType := messageType) && ies == []
    {
      header, ies := NewHeader.(messageType := messageType), [];
    }

    method SetSequenceNumber(s: u16)
      modifies this
      ensures old(Counted()) ==> Counted()
      ensures ies == old(ies) && header.sequenceNumber == s && header.b == WithS(old(header.b))
      ensures header == old(header).(sequenceNumber := s, b := header.b, messageLength := header.messageLength)
    {
      if !HasOptions(header.b) {
        header := header.(messageLength := (header.messageLength + OPTIONAL_FIELDS_BYTES) % 0x1_0000);
      }
      header := header.(sequenceNumber := s, b := WithS(header.b));
    }

    method AddIe(ie: Ie)
      modifies this
      ensures old(Counted()) ==> Counted()
      ensures ies == old(ies) + [ie] && header == old(header).(messageLength := header.messageLength)
    {
      hide HasOptions, LengthOf;
      CountMore(ies, ie);
      ghost var all := (if HasOptions(header.b) then OPTIONAL_FIELDS_BYTES else 0) + CountIes(ies);
      ModSum(all, TLV_IE_LENGTH + LengthOf(ie));
      ies := ies + [ie];
      header := header.(messageLength := (header.messageLength + TLV_IE_LENGTH + LengthOf(ie)) % 0x1_0000);
    }

    method DumpTo() returns (bytes: seq<byte>)
      modifies this
      ensures bytes == DumpHeader(old(header)) + DumpIes(ies) && ies == old(ies) && header == old(header).(b := NoSpare(old(header.b)))
    {
      hide DumpIe;
      bytes := PutHeader();
      ghost var head := bytes;
      assert ies[0..] == ies;
      for n := 0 to |ies|
        invariant bytes + DumpIes(ies[n..]) == head + DumpIes(ies) && header == old(header).(b := NoSpare(old(header.b))) && ies == old(ies)
      {
        assert ies[n..][1..] == ies[n + 1..];
        bytes := bytes + DumpIe(ies[n]);
      }
      assert bytes + DumpIes([]) == bytes;
    }

    method PutHeader() returns (bytes: seq<byte>)
      modifies `header
      ensures bytes == DumpHeader(old(header)) && header == old(header).(b := NoSpare(old(header.b)))
    {
      hide NoSpare, HasOptions, BigEndian16, BigEndian32;
      OptionsKept(header.b);
      header := header.(b := NoSpare(header.b));
      bytes := [header.b, header.messageType];
      bytes := bytes + BigEndian16(header.messageLength);
      bytes := bytes + BigEndian32(header.teid);
      if HasOptions(header.b) {
        bytes := bytes + BigEndian16(header.sequenceNumber);
        bytes := bytes + [header.npdu];
        bytes := bytes + [header.nextExt];
      }
    }

    /** Reads into a message just made. */
    method LoadFrom(s: InStream) returns (o: Outcome)
      requires header == NewHeader && ies == []
      modifies this, s
      ensures (header, o, s.State()) == Load(old(s.State())) && (o.Loaded? ==> o.ies == ies)
    {
      hide LoadIe, LoadedLength, LoadHeader, Read, LengthForIes;
      GetHeader(s);
      var check := LengthForIes(header);
      var counted: u16 := 0;
      ghost var start, h := s.State(), header;
      var more := true;
      while more
        invariant header == h
        invariant more ==> LoadIes(start, check, 0, []) == LoadIes(s.State(), check, counted, ies)
        invariant !more ==> LoadIes(start, check, 0, []) == (Finish(check, counted, ies), s.State())
        decreases more, |s.rest|
      {
        LoadIeConsumes(s.State());
        var e, length := NewIeFromStream(s);
        match e {
          case None => more := false;
          case BadLength(l) => return TlvBadLength(l);
          case Some(ie) =>
            counted := (counted + TLV_IE_LENGTH + length) % 0x1_0000;
            ies := ies + [ie];
            more := counted < check;
        }
      }
      o := if counted > check then MsgBadLength else Loaded(ies);
    }

    method GetHeader(s: InStream)
      requires header == NewHeader
      modifies `header, s
      ensures (header, s.State()) == LoadHeader(old(s.State()))
    {
      var b := s.Get([header.b]);
      var t := s.Get([0]);
      var l := s.Get([0, 0]);
      var teid := s.Get([0, 0, 0, 0]);
      header := MsgHeader(b[0], t[0], Number16(l), Number32(teid), 0, 0, 0);
      if HasOptions(header.b) {
        var sn := s.Get([0, 0]);
        var n := s.Get([0]);
        var x := s.Get([0]);
        header := header.(sequenceNumber := Number16(sn), npdu := n[0], nextExt := x[0]);
      }
    }
  }

  function WithS(b: byte): byte {
    if b / 2 % 2 == 1 then b else b + 2
  }

  /** What a list of elements adds to the length field. */
  function CountIes(ies: seq<Ie>): nat {
    if ies == [] then 0 else TLV_IE_LENGTH + LengthOf(ies[0]) + CountIes(ies[1..])
  }

  lemma {:induction false} CountMore(ies: seq<Ie>, ie: Ie)
    ensures CountIes(ies + [ie]) == CountIes(ies) + TLV_IE_LENGTH + LengthOf(ie)
  {
    if ies == [] {
      assert ([] + [ie])[1..] == [];
    } else {
      assert (ies + [ie])[1..] == ies[1..] + [ie];
      CountMore(ies[1..], ie);
    }
  }

  lemma ModSum(a: nat, b: nat)
    ensures (a % 0x1_0000 + b) % 0x1_0000 == (a + b) % 0x1_0000
  {
    var q := a / 0x1_0000;
    assert a + b == a % 0x1_0000 + b + 0x1_0000 * q;
  }

  // ---------------------------------------------------------------- round trips

  /** Elements the reader treats as the writer does. */
  predicate Plain(ie: Ie) {
    ie.PrivateExtension? || (ie.PeerAddress? && ie.isV4 && ie.v6 == Zeros(16))
  }

  /** What arrives of a list of elements: nothing from the first one on that has no length octet;
      and an IPv6 peer address arrives as an IPv4 one, 0.0.0.0. */
  function Received(ies: seq<Ie>): seq<Ie> {
    if ies == [] || !HasLength(TypeOf(ies[0])) then []
    else [ReceivedIe(ies[0])] + Received(ies[1..])
  }

  function ReceivedIe(ie: Ie): Ie {
    if ie.PeerAddress? then if ie.isV4 then ie.(v6 := Zeros(16)) else PeerAddress(true, Zeros(4), ie.v6) else ie
  }

  lemma {:induction false} ReceivedIff(ies: seq<Ie>)
    ensures Received(ies) == ies <==> forall i :: 0 <= i < |ies| ==> Plain(ies[i])
  {
    if ies != [] && HasLength(TypeOf(ies[0])) {
      ReceivedIff(ies[1..]);
      assert ies == [ies[0]] + ies[1..];
      assert Received(ies) == ies <==> ReceivedIe(ies[0]) == ies[0] && Received(ies[1..]) == ies[1..];
      assert (forall i :: 0 <= i < |ies| ==> Plain(ies[i])) <==> Plain(ies[0]) && forall i :: 0 <= i < |ies[1..]| ==> Plain(ies[1..][i]);
    }
  }

  lemma ReadExactly(a: seq<byte>, rest: seq<byte>, was: seq<byte>)
    requires |a| == |was|
    ensures Read(In(a + rest, true), was) == (a, In(rest, true))
  {
    assert (a + rest)[..|a|] == a && (a + rest)[|a|..] == rest && was[|was|..] == [];
    assert a + [] == a;
  }

  lemma TlvRoundTrip(t: byte, length: nat, rest: seq<byte>)
    requires length < 0x1_0000
    ensures LoadTlv(In(DumpTlv(t, length) + rest, true)) == (t, if HasLength(t) then length else 0, In(rest, true))
  {
    var more := if HasLength(t) then BigEndian16(length) else [];
    assert DumpTlv(t, length) + rest == [t] + (more + rest);
    ReadExactly([t], more + rest, [0]);
    if HasLength(t) { ReadExactly(more, rest, [0, 0]); } else { assert more + rest == rest; }
  }

  lemma IeRoundTrip(ie: Ie, rest: seq<byte>)
    requires WellFormed(ie) && LengthOf(ie) < 0x1_0000
    ensures HasLength(TypeOf(ie)) ==>
      LoadIe(In(DumpIe(ie) + rest, true)) == (Some(ReceivedIe(ie)), In(rest, true)) && LoadedLength(In(DumpIe(ie) + rest, true)) == LengthOf(ie)
    ensures !HasLength(TypeOf(ie)) ==> LoadIe(In(DumpIe(ie) + rest, true)).0 == None
  {
    hide Read, LoadTlv, DumpTlv, BigEndian16, Number16;
    var t, length, body := TypeOf(ie), LengthOf(ie), DumpBody(ie);
    assert DumpIe(ie) + rest == DumpTlv(t, length) + (body + rest);
    TlvRoundTrip(t, length, body + rest);
    match ie {
      case PeerAddress(isV4, v4, v6) =>
        if isV4 { ReadExactly(v4, rest, Zeros(4)); } else { ReadExactly(v6, rest, Zeros(16)); }
      case PrivateExtension(id, value) =>
        assert body + rest == BigEndian16(id) + (value + rest);
        ReadExactly(BigEndian16(id), value + rest, [0, 0]);
        if value == [] { assert value + rest == rest; } else { ReadExactly(value, rest, Zeros(|value|)); }
      case _ =>
    }
  }

  /** The reader's loop on what the writer wrote for a non-empty list. */
  lemma {:induction false} IesRoundTrip(ies: seq<Ie>, rest: seq<byte>, check: u16, counted: u16, before: seq<Ie>)
    requires ies != [] && (forall i :: 0 <= i < |ies| ==> WellFormed(ies[i])) && counted + CountIes(ies) == check
    ensures var (o, i) := LoadIes(In(DumpIes(ies) + rest, true), check, counted, before);
      o == Loaded(before + Received(ies)) && (Received(ies) == ies ==> i == In(rest, true))
    decreases |ies|
  {
    hide LoadIe, DumpIe, LoadedLength, LengthOf, ReceivedIe;
    var ie, others := ies[0], ies[1..];
    CountFirst(ies);
    assert DumpIes(ies) + rest == DumpIe(ie) + (DumpIes(others) + rest);
    IeRoundTrip(ie, DumpIes(others) + rest);
    if HasLength(TypeOf(ie)) {
      if others == [] {
        assert DumpIes(others) + rest == rest;
      } else {
        CountFirst(others);
        IesRoundTrip(others, rest, check, counted + TLV_IE_LENGTH + LengthOf(ie), before + [ReceivedIe(ie)]);
        assert before + [ReceivedIe(ie)] + Received(others) == before + ([ReceivedIe(ie)] + Received(others));
      }
    }
  }

  lemma CountFirst(ies: seq<Ie>)
    requires ies != []
    ensures CountIes(ies) == TLV_IE_LENGTH + LengthOf(ies[0]) + CountIes(ies[1..]) >= TLV_IE_LENGTH
  {}

  lemma HeaderRoundTrip(h: MsgHeader, rest: seq<byte>)
    ensures LoadHeader(In(DumpHeader(h) + rest, true)) == (Canonical(h), In(rest, true))
  {
    hide Read, BigEndian16, BigEndian32, Number16, Number32;
    var b, l, teid := NoSpare(h.b), BigEndian16(h.messageLength), BigEndian32(h.teid);
    var options := if HasOptions(h.b) then BigEndian16(h.sequenceNumber) + [h.npdu, h.nextExt] else [];
    var r4 := options + rest;
    assert DumpHeader(h) + rest == [b] + ([h.messageType] + (l + (teid + r4)));
    ReadExactly([b], [h.messageType] + (l + (teid + r4)), [NewHeader.b]);
    ReadExactly([h.messageType], l + (teid + r4), [0]);
    ReadExactly(l, teid + r4, [0, 0]);
    ReadExactly(teid, r4, [0, 0, 0, 0]);
    OptionsKept(h.b);
    if HasOptions(h.b) {
      assert r4 == BigEndian16(h.sequenceNumber) + ([h.npdu] + ([h.nextExt] + rest));
      ReadExactly(BigEndian16(h.sequenceNumber), [h.npdu] + ([h.nextExt] + rest), [0, 0]);
      ReadExactly([h.npdu], [h.nextExt] + rest, [0]);
      ReadExactly([h.nextExt], rest, [0]);
    } else {
      assert r4 == rest;
    }
  }

  lemma OptionsKept(b: byte)
    ensures HasOptions(NoSpare(b)) <==> HasOptions(b)
  {}

  /** The header comes back, and of the elements what Received says: all of them exactly when
      each is a private extension or an IPv4 peer address, and then the reader stops right
      behind the last one. */
  lemma RoundTrip(h: MsgHeader, ies: seq<Ie>, rest: seq<byte>)
    requires forall i :: 0 <= i < |ies| ==> WellFormed(ies[i])
    requires h.messageLength == (if HasOptions(h.b) then OPTIONAL_FIELDS_BYTES else 0) + CountIes(ies)
    requires ies == [] ==> rest == []
    ensures var (g, o, i) := Load(In(DumpHeader(h) + DumpIes(ies) + rest, true));
      && g == Canonical(h) && o == Loaded(Received(ies))
      && (o == Loaded(ies) <==> forall k :: 0 <= k < |ies| ==> Plain(ies[k]))
      && (o == Loaded(ies) ==> i.rest == rest)
  {
    hide LoadHeader, LoadIes, DumpHeader, DumpIes, Received, CountIes;
    var body := DumpIes(ies) + rest;
    assert DumpHeader(h) + DumpIes(ies) + rest == DumpHeader(h) + body;
    HeaderRoundTrip(h, body);
    OptionsKept(h.b);
    ReceivedIff(ies);
    if ies == [] {
      NoIes(rest);
    } else {
      IesRoundTrip(ies, rest, LengthForIes(Canonical(h)), 0, []);
    }
  }

  lemma NoIes(rest: seq<byte>)
    requires rest == []
    ensures CountIes([]) == 0 && Received([]) == []
    ensures LoadIes(In(DumpIes([]) + rest, true), 0, 0, []) == (Loaded([]), In([], false))
  {
    hide LoadIe;
    EndOfStream();
    assert DumpIes([]) + rest == [];
  }

  lemma EndOfStream()
    ensures LoadIe(In([], true)) == (None, In([], false))
  {
    hide Read, Number16;
    ReadNothing(In([], true), [0]);
  }

  lemma ReadNothing(i: In, was: seq<byte>)
    requires i.good && i.rest == [] && was != []
    ensures Read(i, was) == (was, In(i.rest, false))
  {
    assert i.rest[..0] + was[0..] == was && i.rest[0..] == i.rest;
  }

  /** The reader of a message without elements goes on into whatever follows it. */
  lemma ReadsOn(id: u16)
    ensures var rest := DumpIe(PrivateExtension(id, []));
      Load(In(DumpHeader(NewHeader) + rest, true)).1 == MsgBadLength
  {
    hide BigEndian16, BigEndian32, LoadTlv, DumpIe, DumpHeader, LoadHeader, LoadIe, LoadedLength, ReceivedIe;
    var ie := PrivateExtension(id, []);
    HeaderRoundTrip(NewHeader, DumpIe(ie));
    IeRoundTrip(ie, []);
    assert DumpIe(ie) + [] == DumpIe(ie);
  }

  lemma LoadIeTakes(i: In)
    ensures |LoadIe(i).1.rest| <= |i.rest| && (i.good && i.rest != [] ==> |LoadIe(i).1.rest| < |i.rest|)
  {
    hide Read, Number16;
    if i.good && i.rest != [] {
      assert i.rest == i.rest[..1] + i.rest[1..];
      ReadExactly(i.rest[..1], i.rest[1..], [0]);
      assert In(i.rest[..1] + i.rest[1..], true) == i;
    }
  }

  lemma {:induction false} LoadIesConsumes(i: In, check: u16, counted: u16, ies: seq<Ie>)
    ensures var r := LoadIes(i, check, counted, ies).1.rest;
      |r| <= |i.rest| && (i.good && i.rest != [] ==> |r| < |i.rest|)
    decreases |i.rest|
  {
    hide LoadedLength, LoadIe;
    LoadIeConsumes(i);
    LoadIeTakes(i);
    var (e, i1) := LoadIe(i);
    if e.Some? {
      var count: u16 := (counted + TLV_IE_LENGTH + LoadedLength(i)) % 0x1_0000;
      LoadIesConsumes(i1, check, count, ies + [e.ie]);
    }
  }

  /** Hence a message without elements is read on its own only at the end of the stream. */
  lemma ReadsOnIff(h: MsgHeader, rest: seq<byte>)
    ensures Load(In(DumpHeader(h) + rest, true)).2.rest == rest <==> rest == []
  {
    hide LoadHeader, LoadIes, DumpHeader;
    HeaderRoundTrip(h, rest);
    LoadIesConsumes(In(rest, true), LengthForIes(Canonical(h)), 0, []);
  }

  /** How far the count of an element is from the octets it takes. */
  function Excess(ie: Ie): int {
    match ie
    case Recovery(_) => 3
    case TeidDataI(_) => -1
    case _ => 1
  }

  function TotalExcess(ies: seq<Ie>): int {
    if ies == [] then 0 else Excess(ies[0]) + TotalExcess(ies[1..])
  }

  lemma {:induction false} IesOctets(ies: seq<Ie>)
    requires forall i :: 0 <= i < |ies| ==> WellFormed(ies[i])
    ensures CountIes(ies) == |DumpIes(ies)| + TotalExcess(ies)
  {
    if ies != [] {
      IesOctets(ies[1..]);
    }
  }

  /** The length field should count the octets after the first eight. It exceeds them by one for
      every private extension and peer address, and is right exactly when the excesses cancel. */
  lemma LengthFieldExcess(h: MsgHeader, ies: seq<Ie>)
    requires forall i :: 0 <= i < |ies| ==> WellFormed(ies[i])
    requires h.messageLength == (if HasOptions(h.b) then OPTIONAL_FIELDS_BYTES else 0) + CountIes(ies)
    ensures h.messageLength == |DumpHeader(h) + DumpIes(ies)| - 8 + TotalExcess(ies)
    ensures (forall i :: 0 <= i < |ies| ==> Plain(ies[i])) ==> h.messageLength == |DumpHeader(h) + DumpIes(ies)| - 8 + |ies|
  {
    IesOctets(ies);
    if forall i :: 0 <= i < |ies| ==> Plain(ies[i]) { PlainExcess(ies); }
  }

  lemma {:induction false} PlainExcess(ies: seq<Ie>)
    requires forall i :: 0 <= i < |ies| ==> Plain(ies[i])
    ensures TotalExcess(ies) == |ies|
  {
    if ies != [] { PlainExcess(ies[1..]); }
  }

  // ---------------------------------------------------------------- on the wire

  /** The octets of a header: version, PT, E, S and PN as they are and the spare bit 0, type, length,
      TEID, and the optional fields if E, S or PN is set. */
  lemma HeaderOctets(h: MsgHeader)
    ensures var d := DumpHeader(h);
            var optional := h.b / 4 % 2 == 1 || h.b / 2 % 2 == 1 || h.b % 2 == 1;
      && |d| == (if optional then 12 else 8)
      && d[0] / 16 == h.b / 16 && d[0] / 8 % 2 == 0 && d[0] % 8 == h.b % 8
      && d[1] == h.messageType && Number16(d[2..4]) == h.messageLength && Number32(d[4..8]) == h.teid
      && (optional ==> Number16(d[8..10]) == h.sequenceNumber && d[10] == h.npdu && d[11] == h.nextExt)
  {
    hide BigEndian16, BigEndian32, Number16, Number32, HasOptions;
    var options := if HasOptions(h.b) then BigEndian16(h.sequenceNumber) + [h.npdu, h.nextExt] else [];
    Laid(NoSpare(h.b), h.messageType, BigEndian16(h.messageLength), BigEndian32(h.teid), options);
    SpareCleared(h.b);
    if HasOptions(h.b) {
      assert options[..2] == BigEndian16(h.sequenceNumber) && options[2] == h.npdu && options[3] == h.nextExt;
    }
  }

  lemma Laid(b: byte, t: byte, l: seq<byte>, teid: seq<byte>, options: seq<byte>)
    requires |l| == 2 && |teid| == 4
    ensures var d := [b, t] + l + teid + options;
      && |d| == 8 + |options| && d[0] == b && d[1] == t && d[2..4] == l && d[4..8] == teid
      && (|options| == 4 ==> d[8..10] == options[..2] && d[10] == options[2] && d[11] == options[3])
  {
    var d := [b, t] + l + teid + options;
    assert d[8..] == options;
    if |options| == 4 { assert d[8..10] == d[8..][..2] && d[10] == d[8..][2] && d[11] == d[8..][3]; }
  }

  lemma SpareCleared(b: byte)
    ensures NoSpare(b) / 16 == b / 16 && NoSpare(b) / 8 % 2 == 0 && NoSpare(b) % 8 == b % 8
    ensures HasOptions(b) <==> b / 4 % 2 == 1 || b / 2 % 2 == 1 || b % 2 == 1
  {
    var q, s, r := b / 16, b / 8 % 2, b % 8;
    assert b == 16 * q + 8 * s + r;
    Parts(q, 0, r, NoSpare(b));
    Parts(q, s, r, b);
    LowThree(b, q, s, r);
  }

  lemma Parts(q: nat, s: nat, r: nat, w: nat)
    requires s < 2 && r < 8 && w == 16 * q + 8 * s + r
    ensures w / 16 == q && w / 8 % 2 == s && w % 8 == r
  {
    assert w / 8 == 2 * q + s;
  }

  lemma LowThree(b: nat, q: nat, s: nat, r: nat)
    requires r < 8 && b == 16 * q + 8 * s + r
    ensures r != 0 <==> b / 4 % 2 == 1 || b / 2 % 2 == 1 || b % 2 == 1
  {
    assert b / 4 == 2 * (2 * q + s) + r / 4 && b / 2 == 2 * (4 * q + 2 * s + r / 4) + r / 2 % 2;
  }

  /** The octets of an element, by Table 8.1-1: a type with the top bit set is followed by the number of
      octets that follow it. */
  lemma IeOctets(ie: Ie)
    requires WellFormed(ie) && LengthOf(ie) < 0x1_0000
    ensures var d := DumpIe(ie);
      && |d| >= 2 && (d[0] >= 128 ==> |d| >= 3 && Number16(d[1..3]) == |d| - 3)
      && (ie.Recovery? ==> d == [14, ie.restartCounter])
      && (ie.TeidDataI? ==> |d| == 5 && d[0] == 16 && Number32(d[1..]) == ie.teid)
      && (ie.PeerAddress? ==> d[0] == 133 && d[3..] == if ie.isV4 then ie.v4 else ie.v6)
      && (ie.PrivateExtension? ==> |d| >= 5 && d[0] == 255 && Number16(d[3..5]) == ie.id && d[5..] == ie.value)
  {
    hide BigEndian16, BigEndian32, Number16, Number32;
    var d := DumpIe(ie);
    if ie.TeidDataI? { assert d[1..] == BigEndian32(ie.teid); }
    if HasLength(TypeOf(ie)) { assert d[1..3] == BigEndian16(LengthOf(ie)); }
    if ie.PrivateExtension? { assert d[3..5] == BigEndian16(ie.id); }
  }

  /** Types have a length exactly from 128 on. */
  lemma HasLengthIff(t: byte)
    ensures HasLength(t) <==> t / 128 == 1
  {}

  /** A peer address of a length that is neither that of IPv4 nor of IPv6 makes the message an error,
      except that length 0 ends it. */
  lemma BadPeerAddress(length: u16, rest: seq<byte>, check: u16)
    requires length != 0 && length != 4 && length != 16
    ensures LoadIes(In([133] + BigEndian16(length) + rest, true), check, 0, []).0 == TlvBadLength(length)
  {
    hide Read, BigEndian16, Number16;
    var i := In([133] + BigEndian16(length) + rest, true);
    assert [133] + BigEndian16(length) + rest == [133] + (BigEndian16(length) + rest);
    ReadExactly([133], BigEndian16(length) + rest, [0]);
    ReadExactly(BigEndian16(length), rest, [0, 0]);
    assert LoadIe(i).0 == BadLength(length);
  }
}
