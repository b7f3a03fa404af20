/** The PFCP reliable-delivery layer: transactions, pending procedures and their timers.
    Message types are the values of Table 7.3-1 of TS 29.244. */
module PfcpStack {
  import opened OnesComplement
  import opened Options

  const T1_RESPONSE_MS := 1000
  const N1_REQUESTS := 3
  const PROC_TIME_OUT_MS := T1_RESPONSE_MS * (N1_REQUESTS + 1 + 1)
  const VERSION_NOT_SUPPORTED_RESPONSE: byte := 11

  datatype Msg = Msg(msgType: byte, seqNum: u32)

  /** Timer id 0 is no timer; triggeredType 0 means no triggered message yet. */
  datatype Procedure = Procedure(trxnId: nat, initialType: byte, triggeredType: byte, retryMsg: Option<Msg>,
                                 retryTimer: nat, cleanupTimer: nat, retryCount: nat)

  datatype Stack = Stack(seqNum: u32, trxn2seq: map<nat, u32>, pending: map<u32, Procedure>,
                         retryTimers: map<nat, u32>, cleanupTimers: map<nat, u32>)

  datatype Action = DeleteTx | ContinueTx

  /** Insertion into a std::map leaves an existing entry alone. */
  function Insert<K, V>(m: map<K, V>, k: K, v: V): map<K, V> {
    if k in m then m else m[k := v]
  }

  const SEQ_NUMS: int := 0x8000_0000

  /** Sequence numbers count up to 2^31 - 1 and start again from 0. */
  function NextSeqNum(s: u32): (n: u32)
    ensures n as int < SEQ_NUMS && (s as int < SEQ_NUMS ==> n as int == (s as int + 1) % SEQ_NUMS)
  {
    var n := (s + 1) % 0x1_0000_0000;
    if n >= 0x8000_0000 then 0 else n
  }

  predicate IsRequest(t: byte) {
    t in {1, 3, 5, 7, 9, 12, 13, 50, 52, 54, 56, 57}
  }

  /** The requests that have a response of their own, of the next type. */
  predicate HasResponse(t: byte) {
    t in {1, 3, 5, 7, 9, 12, 50, 52, 54, 56}
  }

  predicate IsResponseTo(initial: byte, triggered: byte) {
    if HasResponse(initial) then triggered as int == initial as int + 1 else triggered == VERSION_NOT_SUPPORTED_RESPONSE
  }

  predicate Accepts(p: Procedure, t: byte) {
    IsResponseTo(if p.triggeredType != 0 then p.triggeredType else p.initialType, t)
  }

  /** What is handed to the application: an error, or the transaction the message belongs to. */
  datatype Receipt = Discarded | HandedUp(trxnId: nat)

  function Receive(st: Stack, msg: Msg, freshTrxn: nat, freshTimer: nat): (Stack, Receipt) {
    if msg.seqNum !in st.pending then
      if IsRequest(msg.msgType) then
        var p := Procedure(freshTrxn, msg.msgType, 0, None, 0, freshTimer, 0);
        (st.(cleanupTimers := Insert(st.cleanupTimers, freshTimer, msg.seqNum),
             pending := Insert(st.pending, msg.seqNum, p),
             trxn2seq := Insert(st.trxn2seq, freshTrxn, msg.seqNum)),
         HandedUp(freshTrxn))
      else (st, Discarded)
    else
      var p := st.pending[msg.seqNum];
      if Accepts(p, msg.msgType) then
        var q := p.(triggeredType := if p.triggeredType != 0 then p.triggeredType else msg.msgType, retryTimer := 0);
        (st.(pending := st.pending[msg.seqNum := q],
             retryTimers := if p.retryTimer != 0 then st.retryTimers - {p.retryTimer} else st.retryTimers),
         HandedUp(p.trxnId))
      else (st, Discarded)
  }

  function SendRequest(st: Stack, msgType: byte, trxn: nat, retryTimer: nat, cleanupTimer: nat): (Stack, Msg) {
    var s := NextSeqNum(st.seqNum);
    var msg := Msg(msgType, s);
    var p := Procedure(trxn, msgType, 0, Some(msg), retryTimer, cleanupTimer, 0);
    (Stack(s, Insert(st.trxn2seq, trxn, s), Insert(st.pending, s, p),
           Insert(st.retryTimers, retryTimer, s), Insert(st.cleanupTimers, cleanupTimer, s)),
     msg)
  }

  function SendResponse(st: Stack, msgType: byte, trxn: nat, a: Action): (Stack, Option<Msg>) {
    if trxn in st.trxn2seq then
      var s := st.trxn2seq[trxn];
      var out := Some(Msg(msgType, s));
      if a == DeleteTx then
        (st.(retryTimers := if s in st.pending then st.retryTimers - {st.pending[s].cleanupTimer} else st.retryTimers,
             pending := st.pending - {s},
             trxn2seq := st.trxn2seq - {trxn}),
         out)
      else (st, out)
    else (st, None)
  }

  /** What a time-out makes the stack do. Crashed: a retry of a procedure that has no message. */
  datatype TimeOutEffect = NotHandled | Handled | Resent(msg: Msg) | Aborted(trxnId: nat) | Crashed

  function TimeOut(st: Stack, timer: nat, freshTimer: nat): (Stack, TimeOutEffect) {
    if timer in st.retryTimers then
      var s := st.retryTimers[timer];
      var st' := st.(retryTimers := st.retryTimers - {timer});
      if s !in st.pending then (st', Handled)
      else
        var p := st.pending[s];
        if p.retryCount < N1_REQUESTS then
          if p.retryMsg.None? then (st', Crashed)
          else
            (st'.(pending := st.pending[s := p.(retryCount := p.retryCount + 1, retryTimer := freshTimer)],
                  retryTimers := Insert(st'.retryTimers, freshTimer, p.retryMsg.value.seqNum)),
             Resent(p.retryMsg.value))
        else (st', Aborted(p.trxnId))
    else if timer in st.cleanupTimers then
      (st.(cleanupTimers := st.cleanupTimers - {timer}, pending := st.pending - {st.cleanupTimers[timer]}), Handled)
    else (st, NotHandled)
  }

  /** An interval as the timer service is given it, seconds and microseconds, in microseconds in all:
      the remainder of the milliseconds is passed on as microseconds. */
  function Interval(ms: nat): nat {
    1_000_000 * (ms / 1000) + ms % 1000
  }

  class PfcpL4Stack {
    var seqNum: u32
    var trxnId2SeqNum: map<nat, u32>
    var pendingProcedures: map<u32, Procedure>
    var msgOutRetryTimers: map<nat, u32>
    var procCleanupTimers: map<nat, u32>

    ghost function State(): Stack
      reads this
    {
      Stack(seqNum, trxnId2SeqNum, pendingProcedures, msgOutRetryTimers, procCleanupTimers)
    }

    constructor (startSeqNum: u32)
      ensures State() == Stack(startSeqNum % 0x8000_0000, map[], map[], map[], map[])
    {
      seqNum := startSeqNum % 0x8000_0000;
      trxnId2SeqNum, pendingProcedures, msgOutRetryTimers, procCleanupTimers := map[], map[], map[], map[];
    }

    method GetNextSeqNum() returns (s: u32)
      modifies `seqNum
      ensures s == seqNum == NextSeqNum(old(seqNum)) && s as int < SEQ_NUMS
    {
      seqNum := (seqNum + 1) % 0x1_0000_0000;
      if seqNum >= 0x8000_0000 {
        seqNum := 0;
      }
      s := seqNum;
    }

    method HandleReceiveMessage(msg: Msg, freshTrxn: nat, freshTimer: nat) returns (error: bool, trxnId: nat)
      modifies this
      ensures var (st, receipt) := Receive(old(State()), msg, freshTrxn, freshTimer);
              State() == st && (error <==> receipt.Discarded?) && trxnId == if error then 0 else receipt.trxnId
    {
      trxnId, error := 0, true;
      if msg.seqNum !in pendingProcedures {
        if IsRequest(msg.msgType) {
          var proc := Procedure(freshTrxn, msg.msgType, 0, None, 0, freshTimer, 0);
          procCleanupTimers := Insert(procCleanupTimers, freshTimer, msg.seqNum);
          pendingProcedures := Insert(pendingProcedures, msg.seqNum, proc);
          trxnId2SeqNum := Insert(trxnId2SeqNum, proc.trxnId, msg.seqNum);
          error, trxnId := false, proc.trxnId;
        }
      } else {
        var proc := pendingProcedures[msg.seqNum];
        var check := proc.triggeredType;
        if proc.triggeredType == 0 {
          check := proc.initialType;
        }
        if IsResponseTo(check, msg.msgType) {
          if proc.triggeredType == 0 {
            proc := proc.(triggeredType := msg.msgType);
          }
          error, trxnId := false, proc.trxnId;
          if proc.retryTimer != 0 {
            msgOutRetryTimers := msgOutRetryTimers - {proc.retryTimer};
            proc := proc.(retryTimer := 0);
          }
          pendingProcedures := pendingProcedures[msg.seqNum := proc];
        }
      }
    }

    method Request(msgType: byte, trxn: nat, retryTimer: nat, cleanupTimer: nat) returns (msg: Msg)
      modifies this
      ensures (State(), msg) == SendRequest(old(State()), msgType, trxn, retryTimer, cleanupTimer)
    {
      var s := GetNextSeqNum();
      msg := Msg(msgType, s);
      var proc := Procedure(trxn, msgType, 0, Some(msg), retryTimer, cleanupTimer, 0);
      msgOutRetryTimers := Insert(msgOutRetryTimers, retryTimer, s);
      procCleanupTimers := Insert(procCleanupTimers, cleanupTimer, s);
      pendingProcedures := Insert(pendingProcedures, s, proc);
      trxnId2SeqNum := Insert(trxnId2SeqNum, trxn, s);
    }

    method Respond(msgType: byte, trxn: nat, a: Action) returns (msg: Option<Msg>)
      modifies this
      ensures (State(), msg) == SendResponse(old(State()), msgType, trxn, a)
    {
      if trxn !in trxnId2SeqNum {
        return None;
      }
      var s := trxnId2SeqNum[trxn];
      msg := Some(Msg(msgType, s));
      if a == DeleteTx {
        if s in pendingProcedures {
          msgOutRetryTimers := msgOutRetryTimers - {pendingProcedures[s].cleanupTimer};
          pendingProcedures := pendingProcedures - {s};
        } else {
          assert pendingProcedures - {s} == pendingProcedures;
        }
        trxnId2SeqNum := trxnId2SeqNum - {trxn};
      }
    }

    method TimeOutEvent(timer: nat, freshTimer: nat) returns (effect: TimeOutEffect)
      modifies this
      ensures (State(), effect) == TimeOut(old(State()), timer, freshTimer)
    {
      if timer in msgOutRetryTimers {
        var s := msgOutRetryTimers[timer];
        msgOutRetryTimers := msgOutRetryTimers - {timer};
        effect := Handled;
        if s in pendingProcedures {
          var proc := pendingProcedures[s];
          if proc.retryCount < N1_REQUESTS {
            if proc.retryMsg.None? {
              return Crashed;
            }
            proc := proc.(retryCount := proc.retryCount + 1, retryTimer := freshTimer);
            msgOutRetryTimers := Insert(msgOutRetryTimers, freshTimer, proc.retryMsg.value.seqNum);
            pendingProcedures := pendingProcedures[s := proc];
            effect := Resent(proc.retryMsg.value);
          } else {
            effect := Aborted(proc.trxnId);
          }
        }
      } else if timer in procCleanupTimers {
        var s := procCleanupTimers[timer];
        procCleanupTimers := procCleanupTimers - {timer};
        effect := Handled;
        if s in pendingProcedures {
          pendingProcedures := pendingProcedures - {s};
        } else {
          assert pendingProcedures - {s} == pendingProcedures;
        }
      } else {
        effect := NotHandled;
      }
    }
  }
}
