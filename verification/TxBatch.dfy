/** The transmit batch of a thread: slots that are filled in place, handed over together, and
    used again. A reference into one of the thread's arrays is an index. */
module TxBatch {
  import opened OnesComplement

  const UDP_TX_BATCH := 64
  const SOCKADDR_STORAGE := 128

  /** buf stands for the caller's buffer, which stays valid until it has been handed over. */
  datatype Datagram = Datagram(buf: nat, len: nat, addr: seq<byte>, tos: byte)

  datatype Iovec = Iovec(base: nat, len: nat)

  /** control is the slot of the control message, or -1 for none. */
  datatype MsgHdr = MsgHdr(name: nat, nameLen: nat, iov: nat, iovLen: nat, control: int)

  /** What one sendmmsg is given. */
  datatype Batch = Batch(sock: int, datagrams: seq<Datagram>)

  const Cleared := MsgHdr(0, 0, 0, 0, -1)

  class UdpServer {
    const socket: int
    /** One socket for each receive thread, once they have been started. */
    var sockets: seq<int>
    var batching: bool
    var count: nat
    /** The socket this thread transmits on, -1 until it has one. */
    var txSock: int
    const msgs: array<MsgHdr>
    const iov: array<Iovec>
    const addrs: array<seq<byte>>
    const tosOf: array<byte>
    /** What was submitted while batching, and the batches handed to sendmmsg. */
    ghost var submitted: seq<Datagram>
    ghost var batches: seq<Batch>

    ghost predicate Lengths() {
      msgs.Length == UDP_TX_BATCH && iov.Length == UDP_TX_BATCH && addrs.Length == UDP_TX_BATCH && tosOf.Length == UDP_TX_BATCH
    }

    /** The header in slot i is complete and points at slot i of the other arrays only. */
    ghost predicate Ready(i: nat)
      requires Lengths() && i < UDP_TX_BATCH
      reads msgs, addrs
    {
      var m := msgs[i];
      && m.name == i && m.iov == i && m.iovLen == 1 && m.nameLen <= SOCKADDR_STORAGE == |addrs[i]|
      && (m.control == -1 || m.control == i)
    }

    ghost predicate Consistent()
      reads this, msgs, addrs
    {
      && Lengths() && count <= UDP_TX_BATCH && (forall i :: 0 <= i < UDP_TX_BATCH ==> |addrs[i]| == SOCKADDR_STORAGE)
      && forall i :: 0 <= i < count ==> Ready(i)
    }

    /** Between calls there is room for one more. */
    ghost predicate Valid()
      reads this, msgs, addrs
    {
      Consistent() && count < UDP_TX_BATCH
    }

    /** The datagram the kernel sees in slot i. */
    ghost function Slot(i: nat): Datagram
      requires Lengths() && i < UDP_TX_BATCH && Ready(i)
      reads msgs, iov, addrs, tosOf
    {
      var m := msgs[i];
      Datagram(iov[m.iov].base, iov[m.iov].len, addrs[m.name][..m.nameLen], if m.control < 0 then 0 else tosOf[m.control])
    }

    ghost function Queued(): seq<Datagram>
      requires Consistent()
      reads this, msgs, iov, addrs, tosOf
    {
      seq(count, i requires 0 <= i < count reads this, msgs, iov, addrs, tosOf requires Consistent() => Slot(i))
    }

    /** Everything submitted was handed over or is queued, in order and once each. */
    ghost predicate Accounted()
      requires Consistent()
      reads this, msgs, iov, addrs, tosOf
    {
      Flattened(batches) + Queued() == submitted
    }

    constructor (socket: int)
      ensures Valid() && Accounted() && !batching && count == 0 && submitted == [] && batches == []
      ensures this.socket == socket && sockets == [] && txSock == -1
      ensures fresh(msgs) && fresh(iov) && fresh(addrs) && fresh(tosOf)
    {
      this.socket, sockets, txSock := socket, [], -1;
      batching, count, submitted, batches := false, 0, [], [];
      msgs := new MsgHdr[UDP_TX_BATCH](_ => Cleared);
      iov := new Iovec[UDP_TX_BATCH](_ => Iovec(0, 0));
      addrs := new seq<byte>[UDP_TX_BATCH](_ => seq(SOCKADDR_STORAGE, i => 0));
      tosOf := new byte[UDP_TX_BATCH](_ => 0);
    }

    /** A batch begun on an empty one loses nothing, and begun on any other it does. */
    method BeginTxBatch(idx: int)
      requires Valid()
      modifies `batching, `count, `txSock
      ensures Valid() && batching && count == 0
      ensures txSock == if sockets == [] then socket else sockets[(idx % 0x1_0000_0000_0000_0000) % |sockets|]
      ensures old(Accounted()) ==> (Accounted() <==> old(count) == 0)
    {
      ghost var q := Queued();
      batching, count := true, 0;
      txSock := if sockets == [] then socket else sockets[(idx % 0x1_0000_0000_0000_0000) % |sockets|];
      assert Flattened(batches) + Queued() == Flattened(batches);
      assert |Flattened(batches) + q| == |Flattened(batches)| + |q|;
    }

    /** Hands the batch to sendmmsg. count is reset first, so a short send is not retried. */
    method FlushTxBatch()
      requires Consistent()
      modifies `count, `batches
      ensures Valid() && count == 0
      ensures batches == if old(count) == 0 then old(batches) else old(batches) + [Batch(if txSock >= 0 then txSock else socket, old(Queued()))]
      ensures old(Accounted()) ==> Accounted()
    {
      hide Flattened, UdpServer.Slot;
      if count <= 0 {
        return;
      }
      ghost var q := Queued();
      ghost var b := Batch(if txSock >= 0 then txSock else socket, q);
      FlattenedMore(batches, b);
      batches := batches + [b];
      count := 0;
      NothingMore(Flattened(batches), Queued());
    }

    /** Fills the next slot, whatever it held before, and hands the batch over if it is full. */
    method QueueTx(buf: nat, len: nat, addr: seq<byte>, tos: byte)
      requires Valid() && batching && |addr| <= SOCKADDR_STORAGE
      modifies `count, `batches, `submitted, msgs, iov, addrs, tosOf
      ensures Valid() && submitted == old(submitted) + [Datagram(buf, len, addr, tos)]
      ensures count == (old(count) + 1) % 64 && (batches == old(batches) <==> old(count) + 1 < 64)
      ensures old(Accounted()) ==> Accounted()
    {
      hide Flattened;
      ghost var q := Queued();
      FillSlot(buf, len, addr, tos);
      ghost var d := Datagram(buf, len, addr, tos);
      submitted := submitted + [d];
      count := count + 1;
      assert Queued() == q + [d];
      assert Flattened(batches) + (q + [d]) == (Flattened(batches) + q) + [d];
      if count >= UDP_TX_BATCH {
        FlushTxBatch();
      }
    }

    method FillSlot(buf: nat, len: nat, addr: seq<byte>, tos: byte)
      requires Valid() && |addr| <= SOCKADDR_STORAGE
      modifies msgs, iov, addrs, tosOf
      ensures Valid() && Ready(count) && Slot(count) == Datagram(buf, len, addr, tos)
      ensures forall i :: 0 <= i < count ==> Slot(i) == old(Slot(i))
    {
      iov[count] := Iovec(buf, len);
      addrs[count] := addr + addrs[count][|addr|..];
      msgs[count] := Cleared;
      msgs[count] := msgs[count].(name := count, nameLen := |addr|);
      msgs[count] := msgs[count].(iov := count, iovLen := 1);
      if tos != 0 {
        tosOf[count] := tos;
        msgs[count] := msgs[count].(control := count);
      }
      assert addrs[count][..|addr|] == addr;
      forall i | 0 <= i < count ensures Ready(i) && Slot(i) == old(Slot(i)) {
        assert old(Ready(i)) && msgs[i] == old(msgs[i]) && addrs[i] == old(addrs[i]);
      }
    }
  }

  lemma NothingMore(sent: seq<Datagram>, q: seq<Datagram>)
    requires q == []
    ensures sent + q == sent
  {}

  function Flattened(bs: seq<Batch>): seq<Datagram> {
    if bs == [] then [] else Flattened(bs[..|bs| - 1]) + bs[|bs| - 1].datagrams
  }

  lemma FlattenedMore(bs: seq<Batch>, b: Batch)
    ensures Flattened(bs + [b]) == Flattened(bs) + b.datagrams
  {
    assert (bs + [b])[..|bs|] == bs;
  }
}
