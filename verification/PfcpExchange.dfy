/** Two stacks and the messages of Table 7.3-1 of TS 29.244 between them. */
module PfcpExchange {
  import opened OnesComplement
  import opened Options
  import opened PfcpStack

  /** A request and its response, by message type. */
  datatype Pair = Pair(request: byte, response: byte)

  /** Heartbeat, PFD management, association set-up, update and release, node report; session
      establishment, modification, deletion and report. */
  const Pairs := [Pair(1, 2), Pair(3, 4), Pair(5, 6), Pair(7, 8), Pair(9, 10), Pair(12, 13),
                  Pair(50, 51), Pair(52, 53), Pair(54, 55), Pair(56, 57)]

  predicate IsPair(request: byte, response: byte) {
    Pair(request, response) in Pairs
  }

  lemma PairsAre(t: byte)
    ensures HasResponse(t) <==> exists r :: IsPair(t, r)
    ensures forall r :: IsPair(t, r) ==> r as int == t as int + 1
    ensures IsRequest(t) <==> (exists r :: IsPair(t, r)) || t == 13 || t == 57
  {
    if HasResponse(t) {
      assert IsPair(t, (t + 1) as byte);
    }
  }

  /** A message whose number is not pending is handed up, under a new transaction, exactly if it is
      a request of the table, or a node or session report response, which count as requests. */
  lemma FirstHandedUpIff(st: Stack, msg: Msg, trxn: nat, timer: nat)
    requires msg.seqNum !in st.pending
    ensures Receive(st, msg, trxn, timer).1
         == if (exists r :: IsPair(msg.msgType, r)) || msg.msgType in {13, 57} then HandedUp(trxn) else Discarded
  {
    hide IsRequest, HasResponse, IsPair;
    PairsAre(msg.msgType);
  }

  /** For a pending request the stack accepts its response of the table and nothing else. */
  lemma AnswerAcceptedIff(st: Stack, msg: Msg, trxn: nat, timer: nat)
    requires msg.seqNum in st.pending && st.pending[msg.seqNum].triggeredType == 0 && exists r :: IsPair(st.pending[msg.seqNum].initialType, r)
    ensures Receive(st, msg, trxn, timer).1
         == if IsPair(st.pending[msg.seqNum].initialType, msg.msgType) then HandedUp(st.pending[msg.seqNum].trxnId) else Discarded
  {
    hide IsRequest, HasResponse, IsPair;
    PairsAre(st.pending[msg.seqNum].initialType);
  }

  /** Whatever pair of the table a sends the request of, a peer b on which the number is not pending
      hands it up under a new transaction, b's answer carries the same number, and a hands that
      answer up under the transaction of its request. */
  lemma Exchange(a: Stack, b: Stack, pair: Pair, trxnA: nat, retry: nat, cleanup: nat, trxnB: nat, timerB: nat,
                 action: Action, trxnA': nat, timerA': nat)
    requires pair in Pairs && NextSeqNum(a.seqNum) !in a.pending && trxnB !in b.trxn2seq
    requires SendRequest(a, pair.request, trxnA, retry, cleanup).1.seqNum !in b.pending
    ensures var (a1, request) := SendRequest(a, pair.request, trxnA, retry, cleanup);
            var (b1, received) := Receive(b, request, trxnB, timerB);
            var (b2, answer) := SendResponse(b1, pair.response, trxnB, action);
      && request.msgType == pair.request && received == HandedUp(trxnB)
      && answer == Some(Msg(pair.response, request.seqNum))
      && Receive(a1, answer.value, trxnA', timerA').1 == HandedUp(trxnA)
  {
    hide IsRequest, HasResponse, IsPair, NextSeqNum;
    assert IsPair(pair.request, pair.response) by { OfTable(pair); }
    var (a1, request) := SendRequest(a, pair.request, trxnA, retry, cleanup);
    FirstHandedUpIff(b, request, trxnB, timerB);
    AnswerAcceptedIff(a1, Msg(pair.response, request.seqNum), trxnA', timerA');
    Answered(b, request, trxnB, timerB, pair.response, action);
  }

  lemma OfTable(pair: Pair)
    requires pair in Pairs
    ensures IsPair(pair.request, pair.response)
  {}

  lemma Answered(b: Stack, request: Msg, trxn: nat, timer: nat, response: byte, action: Action)
    requires request.seqNum !in b.pending && trxn !in b.trxn2seq && Receive(b, request, trxn, timer).1 == HandedUp(trxn)
    ensures SendResponse(Receive(b, request, trxn, timer).0, response, trxn, action).1 == Some(Msg(response, request.seqNum))
  {
    hide IsRequest;
  }

  /** A session report response that comes once its procedure is gone begins a transaction of its own. */
  lemma LateReportResponse(st: Stack, seqNum: u32, trxn: nat, timer: nat)
    requires seqNum !in st.pending
    ensures var (y, receipt) := Receive(st, Msg(57, seqNum), trxn, timer);
      receipt == HandedUp(trxn) && seqNum in y.pending && y.pending[seqNum].initialType == 57
  {}
}
