/** Runs of the PFCP layer: the stack, the timer service it uses, and the history of what
    was sent, received and answered. Transaction ids and timer ids are drawn fresh. */
module PfcpRuns {
  import opened OnesComplement
  import opened Options
  import opened PfcpStack

  /** How a transaction began; start is in microseconds. */
  datatype Origin = Origin(seqNum: u32, initialType: byte, local: bool, start: nat)
  datatype Hand = Hand(trxnId: nat, seqNum: u32, msgType: byte)
  datatype Answer = Answer(trxnId: nat, msg: Msg, action: Action)

  datatype World = World(st: Stack, now: nat, armed: map<nat, nat>, usedTimers: set<nat>,
                         trxns: map<nat, Origin>, handed: seq<Hand>, answers: seq<Answer>, sends: map<nat, nat>)

  datatype Event =
    | Received(msg: Msg, trxn: nat, timer: nat)
    | Requested(msgType: byte, trxn: nat, retryTimer: nat, cleanupTimer: nat)
    | Responded(msgType: byte, trxn: nat, action: Action)
    | Fired(timer: nat, newTimer: nat)
    | Passed(d: nat)

  predicate FreshTimer(w: World, t: nat) {
    t != 0 && t !in w.usedTimers
  }

  /** The ids an event brings along have not been seen before. */
  predicate FreshIds(w: World, e: Event) {
    match e
    case Received(_, trxn, timer) => trxn !in w.trxns && FreshTimer(w, timer)
    case Requested(_, trxn, rt, ct) => trxn !in w.trxns && FreshTimer(w, rt) && FreshTimer(w, ct) && rt != ct
    case Fired(_, newTimer) => FreshTimer(w, newTimer)
    case _ => true
  }

  function NextReceived(w: World, msg: Msg, trxn: nat, timer: nat): World {
    var (st, receipt) := Receive(w.st, msg, trxn, timer);
    var known := msg.seqNum in w.st.pending;
    w.(st := st,
       usedTimers := w.usedTimers + {timer},
       handed := if receipt.HandedUp? then w.handed + [Hand(receipt.trxnId, msg.seqNum, msg.msgType)] else w.handed,
       trxns := if receipt.HandedUp? && !known
                then w.trxns[trxn := Origin(msg.seqNum, msg.msgType, false, w.now)] else w.trxns,
       armed := if receipt.Discarded? then w.armed
                else if known then w.armed - {w.st.pending[msg.seqNum].retryTimer}
                else w.armed[timer := w.now + Interval(PROC_TIME_OUT_MS)])
  }

  function NextRequested(w: World, msgType: byte, trxn: nat, rt: nat, ct: nat): World {
    var (st, msg) := SendRequest(w.st, msgType, trxn, rt, ct);
    w.(st := st,
       usedTimers := w.usedTimers + {rt, ct},
       trxns := w.trxns[trxn := Origin(msg.seqNum, msgType, true, w.now)],
       sends := w.sends[trxn := 1],
       armed := w.armed[rt := w.now + Interval(T1_RESPONSE_MS)][ct := w.now + Interval(PROC_TIME_OUT_MS)])
  }

  function NextResponded(w: World, msgType: byte, trxn: nat, a: Action): World {
    var (st, out) := SendResponse(w.st, msgType, trxn, a);
    w.(st := st,
       answers := if out.Some? then w.answers + [Answer(trxn, out.value, a)] else w.answers,
       armed := if out.Some? && a == DeleteTx && out.value.seqNum in w.st.pending
                then w.armed - {w.st.pending[out.value.seqNum].cleanupTimer} else w.armed)
  }

  function NextFired(w: World, timer: nat, newTimer: nat): World {
    var (st, effect) := TimeOut(w.st, timer, newTimer);
    var left := w.armed - {timer};
    if effect.Resent? then
      var trxn := w.st.pending[w.st.retryTimers[timer]].trxnId;
      w.(st := st, usedTimers := w.usedTimers + {newTimer},
         sends := w.sends[trxn := 1 + if trxn in w.sends then w.sends[trxn] else 0],
         armed := left[newTimer := w.now + Interval(T1_RESPONSE_MS)])
    else w.(st := st, usedTimers := w.usedTimers + {newTimer}, armed := left)
  }

  function Next(w: World, e: Event): World {
    match e
    case Received(msg, trxn, timer) => NextReceived(w, msg, trxn, timer)
    case Requested(t, trxn, rt, ct) => NextRequested(w, t, trxn, rt, ct)
    case Responded(t, trxn, a) => NextResponded(w, t, trxn, a)
    case Fired(timer, newTimer) => NextFired(w, timer, newTimer)
    case Passed(d) => w.(now := w.now + d)
  }

  function Start(seqNum: u32): World {
    World(Stack(seqNum % 0x8000_0000, map[], map[], map[], map[]), 0, map[], {}, map[], [], [], map[])
  }

  // ---------------------------------------------------------------- every run

  /** Each pending procedure's transaction maps back to its sequence number. */
  ghost predicate MapsBack(w: World) {
    && (forall s :: s in w.st.pending ==>
          (w.st.pending[s].trxnId in w.st.trxn2seq && w.st.trxn2seq[w.st.pending[s].trxnId] == s))
    && (forall x :: x in w.st.trxn2seq ==> x in w.trxns && w.trxns[x].seqNum == w.st.trxn2seq[x])
    && (forall s :: s in w.st.pending ==> w.trxns[w.st.pending[s].trxnId].initialType == w.st.pending[s].initialType)
  }

  /** Every answer carries the sequence number of its request, and none follows a deleting one. */
  ghost predicate AnswersRight(w: World) {
    && (forall i :: 0 <= i < |w.answers| ==>
          (w.answers[i].trxnId in w.trxns && w.answers[i].msg.seqNum == w.trxns[w.answers[i].trxnId].seqNum
           && (w.answers[i].action == DeleteTx ==> w.answers[i].trxnId !in w.st.trxn2seq)))
    && (forall i, j :: 0 <= i < j < |w.answers| && w.answers[i].trxnId == w.answers[j].trxnId ==> w.answers[i].action == ContinueTx)
  }

  /** What has been handed up for the transaction of a pending procedure. */
  ghost predicate HandsOf(w: World, p: Procedure) {
    && (p.triggeredType != 0 ==> !HasResponse(p.triggeredType))
    && (forall i :: 0 <= i < |w.handed| && w.handed[i].trxnId == p.trxnId ==>
          (w.handed[i].msgType == p.initialType
           || (p.triggeredType != 0 && w.handed[i].msgType in {p.triggeredType, VERSION_NOT_SUPPORTED_RESPONSE})))
  }

  /** Every message handed up belongs to its transaction by sequence number, and no type is
      handed up twice for one transaction, version-not-supported aside. */
  ghost predicate HandsRight(w: World) {
    && (forall s :: s in w.st.pending ==> HandsOf(w, w.st.pending[s]))
    && (forall i :: 0 <= i < |w.handed| ==>
          (w.handed[i].trxnId in w.trxns && w.handed[i].seqNum == w.trxns[w.handed[i].trxnId].seqNum))
    && (forall i, j :: 0 <= i < j < |w.handed| && w.handed[i].trxnId == w.handed[j].trxnId ==>
          w.handed[i].msgType != w.handed[j].msgType || w.handed[j].msgType == VERSION_NOT_SUPPORTED_RESPONSE)
  }

  ghost predicate Sound(w: World) {
    MapsBack(w) && AnswersRight(w) && HandsRight(w)
  }

  lemma ReceivedIsSound(w: World, msg: Msg, trxn: nat, timer: nat)
    requires Sound(w) && trxn !in w.trxns
    ensures Sound(NextReceived(w, msg, trxn, timer))
  {
    hide Interval, IsRequest, MapsBack, AnswersRight, HandsRight;
    if msg.seqNum in w.st.pending {
      if Accepts(w.st.pending[msg.seqNum], msg.msgType) {
        AcceptedOnce(w, msg, trxn, timer);
      } else {
        Unchanged(w, NextReceived(w, msg, trxn, timer));
      }
    } else if IsRequest(msg.msgType) {
      RequestReceived(w, msg, trxn, timer);
    } else {
      Unchanged(w, NextReceived(w, msg, trxn, timer));
    }
  }

  /** Procedures of y are those of w, some gone, some retried, some new under a new transaction. */
  ghost predicate ProceduresFrom(w: World, y: World) {
    forall s :: s in y.st.pending ==>
      var q := y.st.pending[s];
      if q.trxnId in w.trxns
      then s in w.st.pending && (var p := w.st.pending[s]; (q.trxnId, q.initialType, q.triggeredType) == (p.trxnId, p.initialType, p.triggeredType))
      else q.triggeredType == 0 && q.trxnId in y.trxns && y.trxns[q.trxnId].initialType == q.initialType
  }

  ghost predicate TrxnsGrow(w: World, y: World) {
    forall x :: x in w.trxns ==> x in y.trxns && y.trxns[x] == w.trxns[x]
  }

  /** Nothing handed up and nothing answered: the hand and answer history stays right. */
  lemma SameHistory(w: World, y: World)
    requires Sound(w) && y.handed == w.handed && y.answers == w.answers
    requires ProceduresFrom(w, y) && TrxnsGrow(w, y)
    requires forall x :: x in y.st.trxn2seq && x in w.trxns ==> x in w.st.trxn2seq
    ensures HandsRight(y) && AnswersRight(y)
  {
    hide HasResponse;
    forall s | s in y.st.pending
      ensures HandsOf(y, y.st.pending[s])
    {
      if s in w.st.pending {
        assert HandsOf(w, w.st.pending[s]);
      }
    }
  }

  lemma Unchanged(w: World, y: World)
    requires Sound(w) && y.handed == w.handed && y.answers == w.answers && y.trxns == w.trxns
    requires y.st.pending == w.st.pending && y.st.trxn2seq == w.st.trxn2seq
    ensures Sound(y)
  {
    SameHistory(w, y);
  }

  lemma RequestReceived(w: World, msg: Msg, trxn: nat, timer: nat)
    requires Sound(w) && trxn !in w.trxns && msg.seqNum !in w.st.pending && IsRequest(msg.msgType)
    ensures Sound(NextReceived(w, msg, trxn, timer))
  {
    hide IsRequest, NextReceived, MapsBack, AnswersRight, HandsRight;
    var y := NextReceived(w, msg, trxn, timer);
    RequestReceivedMapsBack(w, msg, trxn, timer);
    HandsKnown(w, trxn);
    SameHistory(w, y.(handed := w.handed));
    HandAppended(y.(handed := w.handed), y, msg, trxn);
  }

  lemma RequestReceivedMapsBack(w: World, msg: Msg, trxn: nat, timer: nat)
    requires MapsBack(w) && trxn !in w.trxns && msg.seqNum !in w.st.pending && IsRequest(msg.msgType)
    ensures var y := NextReceived(w, msg, trxn, timer);
      && MapsBack(y) && y.handed == w.handed + [Hand(trxn, msg.seqNum, msg.msgType)] && y.answers == w.answers
      && ProceduresFrom(w, y) && TrxnsGrow(w, y) && (forall x :: x in y.st.trxn2seq && x in w.trxns ==> x in w.st.trxn2seq)
      && trxn in y.trxns && y.trxns[trxn].seqNum == msg.seqNum
      && (forall s :: s in y.st.pending && y.st.pending[s].trxnId == trxn ==> y.st.pending[s].initialType == msg.msgType)
  {
    hide Interval, IsRequest, NextReceived;
    assert trxn !in w.st.trxn2seq;
    RequestReceivedShape(w, msg, trxn, timer);
  }

  lemma RequestReceivedShape(w: World, msg: Msg, trxn: nat, timer: nat)
    requires trxn !in w.st.trxn2seq && msg.seqNum !in w.st.pending && IsRequest(msg.msgType)
    ensures var y := NextReceived(w, msg, trxn, timer);
      && y.st.pending == w.st.pending[msg.seqNum := Procedure(trxn, msg.msgType, 0, None, 0, timer, 0)]
      && y.st.trxn2seq == w.st.trxn2seq[trxn := msg.seqNum] && y.answers == w.answers
      && y.handed == w.handed + [Hand(trxn, msg.seqNum, msg.msgType)]
      && y.trxns == w.trxns[trxn := Origin(msg.seqNum, msg.msgType, false, w.now)]
  {
    hide Interval, IsRequest;
  }

  lemma HandsKnown(w: World, trxn: nat)
    requires HandsRight(w) && trxn !in w.trxns
    ensures forall i :: 0 <= i < |w.handed| ==> w.handed[i].trxnId != trxn
  {}

  lemma HandAppended(w: World, y: World, msg: Msg, trxn: nat)
    requires HandsRight(w) && AnswersRight(w) && y == w.(handed := w.handed + [Hand(trxn, msg.seqNum, msg.msgType)])
    requires trxn in w.trxns && w.trxns[trxn].seqNum == msg.seqNum && forall i :: 0 <= i < |w.handed| ==> w.handed[i].trxnId != trxn
    requires forall s :: s in w.st.pending && w.st.pending[s].trxnId == trxn ==> w.st.pending[s].initialType == msg.msgType
    ensures HandsRight(y) && AnswersRight(y)
  {
    hide HasResponse;
    forall s | s in y.st.pending
      ensures HandsOf(y, y.st.pending[s])
    {
      assert HandsOf(w, w.st.pending[s]);
    }
  }

  /** A message accepted for a pending procedure is its matching response, the first time, or
      version-not-supported. */
  lemma AcceptedOnce(w: World, msg: Msg, trxn: nat, timer: nat)
    requires Sound(w) && msg.seqNum in w.st.pending && Accepts(w.st.pending[msg.seqNum], msg.msgType)
    ensures Sound(NextReceived(w, msg, trxn, timer))
  {
    hide Interval, IsRequest, NextReceived, HandsRight, Accepts;
    var y := NextReceived(w, msg, trxn, timer);
    AcceptedStays(w, msg, trxn, timer);
    AcceptedHands(w, y, msg);
  }

  lemma AcceptedStays(w: World, msg: Msg, trxn: nat, timer: nat)
    requires MapsBack(w) && msg.seqNum in w.st.pending && Accepts(w.st.pending[msg.seqNum], msg.msgType)
    ensures var y := NextReceived(w, msg, trxn, timer);
            var p := w.st.pending[msg.seqNum];
      && y.handed == w.handed + [Hand(p.trxnId, msg.seqNum, msg.msgType)] && y.trxns == w.trxns
      && y.st.trxn2seq == w.st.trxn2seq && y.answers == w.answers
      && y.st.pending == w.st.pending[msg.seqNum := p.(triggeredType := if p.triggeredType != 0 then p.triggeredType else msg.msgType, retryTimer := 0)]
      && MapsBack(y)
  {
    hide Interval, IsRequest, Accepts;
  }

  lemma AcceptedHands(w: World, y: World, msg: Msg)
    requires MapsBack(w) && HandsRight(w) && msg.seqNum in w.st.pending && Accepts(w.st.pending[msg.seqNum], msg.msgType)
    requires var p := w.st.pending[msg.seqNum];
      && y.handed == w.handed + [Hand(p.trxnId, msg.seqNum, msg.msgType)] && y.trxns == w.trxns
      && y.st.pending == w.st.pending[msg.seqNum := p.(triggeredType := if p.triggeredType != 0 then p.triggeredType else msg.msgType, retryTimer := 0)]
    ensures HandsRight(y)
  {
    var p := w.st.pending[msg.seqNum];
    assert HandsOf(w, p);
    forall i | 0 <= i < |w.handed| && w.handed[i].trxnId == p.trxnId
      ensures w.handed[i].msgType != msg.msgType || msg.msgType == VERSION_NOT_SUPPORTED_RESPONSE
    {}
    forall s | s in y.st.pending
      ensures HandsOf(y, y.st.pending[s])
    {
      assert HandsOf(w, w.st.pending[s]);
      assert s != msg.seqNum ==> w.st.pending[s].trxnId != p.trxnId;
    }
  }

  lemma StepIsSound(w: World, e: Event)
    requires Sound(w) && FreshIds(w, e)
    ensures Sound(Next(w, e))
  {
    hide Interval, IsRequest, HasResponse, NextReceived;
    match e
    case Received(msg, trxn, timer) => ReceivedIsSound(w, msg, trxn, timer);
    case Requested(t, trxn, rt, ct) => RequestedIsSound(w, t, trxn, rt, ct);
    case Responded(t, trxn, a) => RespondedIsSound(w, t, trxn, a);
    case Fired(timer, newTimer) => FiredIsSound(w, timer, newTimer);
    case Passed(_) => Unchanged(w, Next(w, e));
  }

  lemma RequestedIsSound(w: World, t: byte, trxn: nat, rt: nat, ct: nat)
    requires Sound(w) && trxn !in w.trxns
    ensures Sound(NextRequested(w, t, trxn, rt, ct))
  {
    hide AnswersRight, HandsRight, MapsBack, NextRequested;
    RequestedMapsBack(w, t, trxn, rt, ct);
    RequestedGrows(w, t, trxn, rt, ct);
    SameHistory(w, NextRequested(w, t, trxn, rt, ct));
  }

  lemma RequestedMapsBack(w: World, t: byte, trxn: nat, rt: nat, ct: nat)
    requires MapsBack(w) && trxn !in w.trxns
    ensures MapsBack(NextRequested(w, t, trxn, rt, ct))
  {
    hide Interval, NextSeqNum, NextRequested;
    var y := NextRequested(w, t, trxn, rt, ct);
    assert trxn !in w.st.trxn2seq;
    RequestedMaps(w, t, trxn, rt, ct);
    forall q | q in y.st.pending
      ensures y.st.pending[q].trxnId in y.st.trxn2seq && y.st.trxn2seq[y.st.pending[q].trxnId] == q
      ensures y.trxns[y.st.pending[q].trxnId].initialType == y.st.pending[q].initialType
    {
      if q in w.st.pending { assert y.st.pending[q] == w.st.pending[q]; }
    }
  }

  lemma RequestedGrows(w: World, t: byte, trxn: nat, rt: nat, ct: nat)
    requires MapsBack(w) && trxn !in w.trxns
    ensures var y := NextRequested(w, t, trxn, rt, ct);
      && y.handed == w.handed && y.answers == w.answers && ProceduresFrom(w, y) && TrxnsGrow(w, y)
      && (forall x :: x in y.st.trxn2seq && x in w.trxns ==> x in w.st.trxn2seq)
  {
    hide Interval, NextSeqNum, NextRequested;
    assert trxn !in w.st.trxn2seq;
    RequestedMaps(w, t, trxn, rt, ct);
  }

  lemma RequestedMaps(w: World, t: byte, trxn: nat, rt: nat, ct: nat)
    requires trxn !in w.st.trxn2seq
    ensures var y := NextRequested(w, t, trxn, rt, ct);
            var s := NextSeqNum(w.st.seqNum);
      && y.st.trxn2seq == w.st.trxn2seq[trxn := s] && y.trxns == w.trxns[trxn := Origin(s, t, true, w.now)]
      && y.st.pending == (if s in w.st.pending then w.st.pending else w.st.pending[s := Procedure(trxn, t, 0, Some(Msg(t, s)), rt, ct, 0)])
      && y.handed == w.handed && y.answers == w.answers
  {
    hide Interval, NextSeqNum;
  }

  lemma RespondedIsSound(w: World, t: byte, trxn: nat, a: Action)
    requires Sound(w)
    ensures Sound(NextResponded(w, t, trxn, a))
  {
    hide HasResponse;
    var y := NextResponded(w, t, trxn, a);
    forall s | s in y.st.pending
      ensures HandsOf(y, y.st.pending[s])
    {
      assert HandsOf(w, w.st.pending[s]);
    }
  }

  lemma FiredIsSound(w: World, timer: nat, newTimer: nat)
    requires Sound(w)
    ensures Sound(NextFired(w, timer, newTimer))
  {
    hide Interval, AnswersRight, HandsRight, TimeOut;
    TimeOutKeeps(w.st, timer, newTimer);
    SameHistory(w, NextFired(w, timer, newTimer));
  }

  lemma TimeOutKeeps(st: Stack, timer: nat, newTimer: nat)
    ensures var y := TimeOut(st, timer, newTimer).0;
      y.trxn2seq == st.trxn2seq && forall s :: s in y.pending ==>
        (s in st.pending && y.pending[s].trxnId == st.pending[s].trxnId && y.pending[s].initialType == st.pending[s].initialType
         && y.pending[s].triggeredType == st.pending[s].triggeredType)
  {}

  /** events is a run from w to y whose ids are fresh. */
  ghost predicate Run(w: World, events: seq<Event>, y: World)
    decreases |events|
  {
    if |events| == 0 then y == w else FreshIds(w, events[0]) && Run(Next(w, events[0]), events[1..], y)
  }

  /** Whatever arrives, is sent, answered or fires, in any order and at any time. */
  lemma {:induction false} EveryRunIsSound(w: World, events: seq<Event>, y: World)
    requires Sound(w) && Run(w, events, y)
    ensures Sound(y)
    ensures forall s, s' :: s in y.st.pending && s' in y.st.pending && s != s' ==> y.st.pending[s].trxnId != y.st.pending[s'].trxnId
    decreases |events|
  {
    hide Next, FreshIds, AnswersRight, HandsRight;
    if |events| > 0 {
      StepIsSound(w, events[0]);
      EveryRunIsSound(Next(w, events[0]), events[1..], y);
    }
  }

  lemma StartIsSound(seqNum: u32)
    ensures Sound(Start(seqNum))
  {}

  /** A retransmitted request is discarded for as long as its procedure is pending. */
  lemma RetransmissionDiscarded(w: World, msg: Msg, trxn: nat, timer: nat)
    requires Sound(w) && msg.seqNum in w.st.pending && IsRequest(msg.msgType)
    requires msg.msgType == w.st.pending[msg.seqNum].initialType
    ensures Receive(w.st, msg, trxn, timer) == (w.st, Discarded)
  {
    assert HandsOf(w, w.st.pending[msg.seqNum]);
  }

  /** The response of a pending request is handed up under the transaction the request belongs
      to, and a second copy of it is discarded. */
  lemma ResponseHandedUpOnce(w: World, s: u32, response: byte, trxn: nat, timer: nat, trxn': nat, timer': nat)
    requires Sound(w) && s in w.st.pending && w.st.pending[s].triggeredType == 0
    requires HasResponse(w.st.pending[s].initialType) && response as int == w.st.pending[s].initialType as int + 1
    ensures var p := w.st.pending[s];
            var m := Msg(response, s);
            var y := NextReceived(w, m, trxn, timer);
      && y.handed == w.handed + [Hand(p.trxnId, s, response)]
      && p.trxnId in w.trxns && w.trxns[p.trxnId].seqNum == s && w.trxns[p.trxnId].initialType == p.initialType
      && Receive(y.st, m, trxn', timer') == (y.st, Discarded)
  {
    hide Interval, IsRequest;
  }

  /** The message types a pending procedure accepts, exactly. */
  lemma AcceptsIff(w: World, s: u32, t: byte)
    requires Sound(w) && s in w.st.pending
    ensures var p := w.st.pending[s];
            Accepts(p, t) <==>
              if p.triggeredType == 0 && HasResponse(p.initialType) then t as int == p.initialType as int + 1
              else t == VERSION_NOT_SUPPORTED_RESPONSE
  {
    assert HandsOf(w, w.st.pending[s]);
  }

  // ---------------------------------------------------------------- how often a request is sent

  /** A procedure with a message to retry has sent it once more than it was retried, and the message
      is its request. */
  ghost predicate CountedAt(w: World, s: u32)
    requires s in w.st.pending
  {
    var p := w.st.pending[s];
    p.retryMsg.Some? ==>
      (p.retryMsg.value == Msg(p.initialType, s) && p.retryCount <= N1_REQUESTS
       && p.trxnId in w.sends && w.sends[p.trxnId] == 1 + p.retryCount)
  }

  ghost predicate Counted(w: World) {
    && (forall s :: s in w.st.pending ==> CountedAt(w, s))
    && (forall x :: x in w.sends ==> x in w.trxns && w.sends[x] <= 1 + N1_REQUESTS)
  }

  lemma StepIsCounted(w: World, e: Event)
    requires MapsBack(w) && Counted(w) && FreshIds(w, e)
    ensures Counted(Next(w, e))
  {
    hide Interval, NextSeqNum, IsRequest, Accepts, NextReceived, NextRequested, NextResponded, NextFired, CountedAt, MapsBack;
    match e
    case Received(msg, trxn, timer) => ReceivedCounted(w, msg, trxn, timer);
    case Requested(t, trxn, rt, ct) => RequestedCounted(w, t, trxn, rt, ct);
    case Responded(t, trxn, a) => RespondedCounted(w, t, trxn, a);
    case Fired(timer, newTimer) => FiredCounted(w, timer, newTimer);
    case Passed(_) => SameCounted(w, Next(w, e));
  }

  lemma SameCounted(w: World, y: World)
    requires Counted(w) && y.sends == w.sends && y.trxns.Keys >= w.trxns.Keys
    requires forall s :: s in y.st.pending && y.st.pending[s].retryMsg.Some? ==>
      s in w.st.pending && y.st.pending[s] == w.st.pending[s].(triggeredType := y.st.pending[s].triggeredType, retryTimer := y.st.pending[s].retryTimer)
    ensures Counted(y)
  {
    forall s | s in y.st.pending ensures CountedAt(y, s) {
      if y.st.pending[s].retryMsg.Some? { assert CountedAt(w, s); }
    }
  }

  lemma ReceivedCounted(w: World, msg: Msg, trxn: nat, timer: nat)
    requires Counted(w)
    ensures Counted(NextReceived(w, msg, trxn, timer))
  {
    hide Interval, IsRequest, Accepts, CountedAt, Counted;
    SameCounted(w, NextReceived(w, msg, trxn, timer));
  }

  lemma RequestedCounted(w: World, t: byte, trxn: nat, rt: nat, ct: nat)
    requires MapsBack(w) && Counted(w) && trxn !in w.trxns
    ensures Counted(NextRequested(w, t, trxn, rt, ct))
  {
    hide Interval, NextSeqNum;
    var y := NextRequested(w, t, trxn, rt, ct);
    forall s | s in y.st.pending ensures CountedAt(y, s) {
      if s in w.st.pending { assert CountedAt(w, s); }
    }
  }

  lemma RespondedCounted(w: World, t: byte, trxn: nat, a: Action)
    requires Counted(w)
    ensures Counted(NextResponded(w, t, trxn, a))
  {
    hide CountedAt, Counted;
    SameCounted(w, NextResponded(w, t, trxn, a));
  }

  lemma FiredCounted(w: World, timer: nat, newTimer: nat)
    requires MapsBack(w) && Counted(w)
    ensures Counted(NextFired(w, timer, newTimer))
  {
    hide Interval, Counted, CountedAt, MapsBack;
    if TimeOut(w.st, timer, newTimer).1.Resent? {
      ResentCounted(w, timer, newTimer);
    } else {
      SameCounted(w, NextFired(w, timer, newTimer));
    }
  }

  lemma ResentCounted(w: World, timer: nat, newTimer: nat)
    requires MapsBack(w) && Counted(w) && TimeOut(w.st, timer, newTimer).1.Resent?
    ensures Counted(NextFired(w, timer, newTimer))
  {
    hide Interval;
    var y := NextFired(w, timer, newTimer);
    assert CountedAt(w, w.st.retryTimers[timer]);
    forall s | s in y.st.pending ensures CountedAt(y, s) {
      assert CountedAt(w, s);
    }
  }

  /** Whatever arrives, is answered or fires, and whenever it does, no request is transmitted more
      than 1 + N1 times, and what a timer transmits again is the request of its transaction. */
  lemma {:induction false} EveryRunSendsAtMost(w: World, events: seq<Event>, y: World)
    requires Sound(w) && Counted(w) && Run(w, events, y)
    ensures Sound(y) && Counted(y) && forall x :: x in y.sends ==> y.sends[x] <= 1 + N1_REQUESTS
    ensures forall timer, n :: TimeOut(y.st, timer, n).1.Resent? ==> ResendsRequest(y, timer, TimeOut(y.st, timer, n).1.msg)
    decreases |events|
  {
    hide Next, FreshIds, AnswersRight, HandsRight, CountedAt, ResendsRequest, TimeOut, MapsBack;
    if |events| > 0 {
      StepIsSound(w, events[0]);
      StepIsCounted(w, events[0]);
      EveryRunSendsAtMost(Next(w, events[0]), events[1..], y);
    } else {
      forall timer, n | TimeOut(y.st, timer, n).1.Resent? ensures ResendsRequest(y, timer, TimeOut(y.st, timer, n).1.msg) {
        ResentIsRequest(y, timer, n);
      }
    }
  }

  /** msg is the request by which a local transaction, the one of the procedure timer is set for, began. */
  ghost predicate ResendsRequest(w: World, timer: nat, msg: Msg) {
    && timer in w.st.retryTimers && w.st.retryTimers[timer] in w.st.pending
    && var trxn := w.st.pending[w.st.retryTimers[timer]].trxnId;
       trxn in w.sends && trxn in w.trxns && msg == Msg(w.trxns[trxn].initialType, w.trxns[trxn].seqNum)
  }

  lemma ResentIsRequest(w: World, timer: nat, n: nat)
    requires MapsBack(w) && Counted(w) && TimeOut(w.st, timer, n).1.Resent?
    ensures ResendsRequest(w, timer, TimeOut(w.st, timer, n).1.msg)
  {
    assert CountedAt(w, w.st.retryTimers[timer]);
  }

  /** When the retry timer of a local procedure fires, its request goes out again as long as it has been
      sent at most N1 times, and after that the application is told which transaction has failed. */
  lemma RetriedOrAborted(w: World, timer: nat, n: nat)
    requires MapsBack(w) && Counted(w) && timer in w.st.retryTimers && w.st.retryTimers[timer] in w.st.pending
    requires w.st.pending[w.st.retryTimers[timer]].retryMsg.Some?
    ensures var s := w.st.retryTimers[timer];
            var trxn := w.st.pending[s].trxnId;
      trxn in w.sends && TimeOut(w.st, timer, n).1 == if w.sends[trxn] <= 3 then Resent(Msg(w.trxns[trxn].initialType, s)) else Aborted(trxn)
  {
    assert CountedAt(w, w.st.retryTimers[timer]);
  }

  // ---------------------------------------------------------------- runs with on-time timers

  const T1 := Interval(T1_RESPONSE_MS)
  const PROC_TIME := Interval(PROC_TIME_OUT_MS)

  /** A retry is due after one second, a cleanup after five, in microseconds. */
  lemma Durations()
    ensures T1 == 1_000_000 && PROC_TIME == 5_000_000
  {}

  /** An interval lasts as many milliseconds as asked for exactly if they are whole seconds: what
      remains of them is passed on as microseconds. */
  lemma IntervalIff(ms: nat)
    ensures Interval(ms) == 1000 * ms <==> ms % 1000 == 0
    ensures Interval(ms) == 1000 * ms - 999 * (ms % 1000)
  {}

  /** Armed timers fire exactly when due; a sequence number drawn locally is not pending; a deleting
      answer does not meet a procedure whose retry timer is set. */
  predicate OnTime(w: World, e: Event) {
    match e
    case Fired(timer, _) => timer in w.armed && w.armed[timer] == w.now
    case Passed(d) => forall t :: t in w.armed ==> w.now + d <= w.armed[t]
    case Requested(_, _, _, _) => NextSeqNum(w.st.seqNum) !in w.st.pending
    case Responded(_, trxn, a) => a == DeleteTx ==> !MeetsRetry(w, trxn)
    case Received(_, _, _) => true
  }

  /** The number of the transaction is that of a pending procedure whose retry timer is set. */
  predicate MeetsRetry(w: World, trxn: nat) {
    trxn in w.st.trxn2seq && w.st.trxn2seq[trxn] in w.st.pending && w.st.pending[w.st.trxn2seq[trxn]].retryTimer in w.st.retryTimers
  }

  /** The cleanup timer of a pending procedure is due T1 * (N1 + 2) after it began, and its retry
      timer is set, if at all, for its number. */
  ghost predicate Scheduled(w: World, s: u32)
    requires s in w.st.pending
  {
    var p := w.st.pending[s];
    && p.trxnId in w.trxns && p.cleanupTimer in w.armed && p.cleanupTimer !in w.st.retryTimers
    && p.cleanupTimer in w.st.cleanupTimers && w.st.cleanupTimers[p.cleanupTimer] == s
    && w.armed[p.cleanupTimer] == w.trxns[p.trxnId].start + PROC_TIME
    && (p.retryTimer in w.st.retryTimers ==> w.st.retryTimers[p.retryTimer] == s)
  }

  /** A retry timer belongs to a pending local procedure and is due one T1 after its last transmission. */
  ghost predicate Retrying(w: World, r: nat)
    requires r in w.st.retryTimers
  {
    var s := w.st.retryTimers[r];
    s in w.st.pending && r in w.armed &&
    var p := w.st.pending[s];
    p.retryMsg.Some? && p.retryTimer == r && p.trxnId in w.trxns
    && w.armed[r] == w.trxns[p.trxnId].start + T1 * (p.retryCount + 1)
  }

  ghost predicate ArmedFor(w: World, t: nat)
    requires t in w.armed
  {
    w.now <= w.armed[t] &&
    (t in w.st.retryTimers ||
     (t in w.st.cleanupTimers && w.st.cleanupTimers[t] in w.st.pending && w.st.pending[w.st.cleanupTimers[t]].cleanupTimer == t))
  }

  ghost predicate Timely(w: World) {
    && (forall s :: s in w.st.pending ==> Scheduled(w, s))
    && (forall r :: r in w.st.retryTimers ==> Retrying(w, r))
    && (forall t :: t in w.armed ==> ArmedFor(w, t))
  }

  /** Timer ids in use have been drawn, and 0 is not one of them. */
  ghost predicate TimersDrawn(w: World) {
    && 0 !in w.usedTimers && w.armed.Keys <= w.usedTimers
    && w.st.retryTimers.Keys <= w.usedTimers && w.st.cleanupTimers.Keys <= w.usedTimers
    && (forall s :: s in w.st.pending ==>
          (w.st.pending[s].retryTimer in w.usedTimers + {0} && w.st.pending[s].retryTimer !in w.st.cleanupTimers))
  }

  lemma StepDrawn(w: World, e: Event)
    requires TimersDrawn(w) && FreshIds(w, e)
    ensures TimersDrawn(Next(w, e))
  {
    hide NextReceived, NextRequested, NextResponded, NextFired;
    match e
    case Received(msg, trxn, timer) => ReceivedDrawn(w, msg, trxn, timer);
    case Requested(t, trxn, rt, ct) => RequestedDrawn(w, t, trxn, rt, ct);
    case Responded(t, trxn, a) => RespondedDrawn(w, t, trxn, a);
    case Fired(timer, newTimer) => FiredDrawn(w, timer, newTimer);
    case Passed(_) =>
  }

  lemma ReceivedDrawn(w: World, msg: Msg, trxn: nat, timer: nat)
    requires TimersDrawn(w) && FreshTimer(w, timer)
    ensures TimersDrawn(NextReceived(w, msg, trxn, timer))
  {
    hide Interval, Accepts, IsRequest;
  }

  lemma RequestedDrawn(w: World, t: byte, trxn: nat, rt: nat, ct: nat)
    requires TimersDrawn(w) && FreshTimer(w, rt) && FreshTimer(w, ct) && rt != ct
    ensures TimersDrawn(NextRequested(w, t, trxn, rt, ct))
  {
    hide Interval, NextSeqNum;
  }

  lemma RespondedDrawn(w: World, t: byte, trxn: nat, a: Action)
    requires TimersDrawn(w)
    ensures TimersDrawn(NextResponded(w, t, trxn, a))
  {}

  lemma FiredDrawn(w: World, timer: nat, newTimer: nat)
    requires TimersDrawn(w) && FreshTimer(w, newTimer)
    ensures TimersDrawn(NextFired(w, timer, newTimer))
  {
    hide Interval;
  }

  /** When a cleanup timer fires on time, no retry timer is left for its procedure. */
  lemma CleanupIsLast(w: World, timer: nat, r: nat)
    requires Counted(w) && Timely(w) && timer in w.armed && w.armed[timer] == w.now && timer !in w.st.retryTimers
    requires r in w.st.retryTimers
    ensures timer in w.st.cleanupTimers && w.st.retryTimers[r] != w.st.cleanupTimers[timer]
  {
    assert ArmedFor(w, timer);
    assert Retrying(w, r);
    assert ArmedFor(w, r);
    var s := w.st.cleanupTimers[timer];
    assert Scheduled(w, s) && CountedAt(w, s);
  }

  lemma FiredIsTimely(w: World, timer: nat, newTimer: nat)
    requires Sound(w) && Counted(w) && Timely(w) && TimersDrawn(w) && FreshTimer(w, newTimer)
    requires timer in w.armed && w.armed[timer] == w.now
    ensures Timely(NextFired(w, timer, newTimer)) && !TimeOut(w.st, timer, newTimer).1.Crashed?
  {
    hide Interval, AnswersRight, HandsRight, Counted, Scheduled, ArmedFor;
    if timer in w.st.retryTimers {
      assert Retrying(w, timer);
      if w.st.pending[w.st.retryTimers[timer]].retryCount < N1_REQUESTS {
        RetryIsTimely(w, timer, newTimer);
      } else {
        AbortIsTimely(w, timer, newTimer);
      }
    } else {
      CleanupIsTimely(w, timer, newTimer);
    }
  }

  /** w after the retry of the procedure under s, whose timer has just fired. */
  function Retried(w: World, timer: nat, newTimer: nat): World
    requires timer in w.st.retryTimers && w.st.retryTimers[timer] in w.st.pending
  {
    var s := w.st.retryTimers[timer];
    var p := w.st.pending[s];
    w.(st := w.st.(retryTimers := (w.st.retryTimers - {timer})[newTimer := s],
                   pending := w.st.pending[s := p.(retryCount := p.retryCount + 1, retryTimer := newTimer)]),
       usedTimers := w.usedTimers + {newTimer},
       sends := w.sends[p.trxnId := 1 + if p.trxnId in w.sends then w.sends[p.trxnId] else 0],
       armed := (w.armed - {timer})[newTimer := w.now + T1])
  }

  lemma RetryIsTimely(w: World, timer: nat, newTimer: nat)
    requires Sound(w) && Counted(w) && Timely(w) && TimersDrawn(w) && FreshTimer(w, newTimer)
    requires timer in w.armed && w.armed[timer] == w.now && timer in w.st.retryTimers
    requires Retrying(w, timer) && w.st.pending[w.st.retryTimers[timer]].retryCount < N1_REQUESTS
    ensures Timely(NextFired(w, timer, newTimer))
  {
    hide Interval, AnswersRight, HandsRight, MapsBack, Counted, Scheduled, Retrying, ArmedFor, Retried, NextFired;
    RetryIsRetried(w, timer, newTimer);
    RetriedIsScheduled(w, timer, newTimer);
    RetriedIsRetrying(w, timer, newTimer);
  }

  lemma RetryIsRetried(w: World, timer: nat, newTimer: nat)
    requires Counted(w) && TimersDrawn(w) && FreshTimer(w, newTimer) && timer in w.st.retryTimers
    requires Retrying(w, timer) && w.st.pending[w.st.retryTimers[timer]].retryCount < N1_REQUESTS
    ensures NextFired(w, timer, newTimer) == Retried(w, timer, newTimer)
    ensures Retried(w, timer, newTimer).st.pending.Keys == w.st.pending.Keys
  {
    hide Interval, TimersDrawn;
    var s := w.st.retryTimers[timer];
    assert CountedAt(w, s);
    assert newTimer !in w.st.retryTimers - {timer} by { NotDrawn(w, newTimer); }
  }

  lemma NotDrawn(w: World, t: nat)
    requires TimersDrawn(w) && FreshTimer(w, t)
    ensures t !in w.st.retryTimers && t !in w.st.cleanupTimers && t !in w.armed
  {}

  lemma RetriedIsRetrying(w: World, timer: nat, newTimer: nat)
    requires Timely(w) && TimersDrawn(w) && FreshTimer(w, newTimer)
    requires timer in w.armed && w.armed[timer] == w.now && timer in w.st.retryTimers && Retrying(w, timer)
    ensures var y := Retried(w, timer, newTimer);
      && (forall r :: r in y.st.retryTimers ==> Retrying(y, r)) && (forall t :: t in y.armed ==> ArmedFor(y, t))
  {
    hide Interval, Scheduled, ArmedFor, Retried;
    var y := Retried(w, timer, newTimer);
    RetriedTimers(w, timer, newTimer);
    forall r | r in y.st.retryTimers ensures Retrying(y, r) {
      RetryAfterRetry(w, timer, newTimer, r);
    }
    forall t | t in y.armed ensures ArmedFor(y, t) {
      ArmedAfterRetry(w, timer, newTimer, t);
    }
  }

  lemma RetriedTimers(w: World, timer: nat, newTimer: nat)
    requires timer in w.st.retryTimers && w.st.retryTimers[timer] in w.st.pending
    ensures var y := Retried(w, timer, newTimer);
      y.st.retryTimers.Keys == w.st.retryTimers.Keys - {timer} + {newTimer} && y.armed.Keys == w.armed.Keys - {timer} + {newTimer}
  {
    hide Interval;
  }

  lemma RetryAfterRetry(w: World, timer: nat, newTimer: nat, r: nat)
    requires TimersDrawn(w) && FreshTimer(w, newTimer)
    requires timer in w.armed && w.armed[timer] == w.now && timer in w.st.retryTimers && Retrying(w, timer)
    requires r == newTimer || (r != timer && r in w.st.retryTimers && Retrying(w, r))
    ensures Retrying(Retried(w, timer, newTimer), r)
  {
    hide Interval, TimersDrawn;
  }

  lemma ArmedAfterRetry(w: World, timer: nat, newTimer: nat, t: nat)
    requires timer in w.st.retryTimers && Retrying(w, timer)
    requires t == newTimer || (t != timer && t in w.armed && ArmedFor(w, t))
    ensures ArmedFor(Retried(w, timer, newTimer), t)
  {
    hide Interval;
  }

  lemma RetriedIsScheduled(w: World, timer: nat, newTimer: nat)
    requires MapsBack(w) && Timely(w) && TimersDrawn(w) && FreshTimer(w, newTimer)
    requires timer in w.st.retryTimers && Retrying(w, timer) && w.st.pending[w.st.retryTimers[timer]].retryCount < N1_REQUESTS
    ensures forall s :: s in w.st.pending ==> Scheduled(Retried(w, timer, newTimer), s)
  {
    hide Interval, ArmedFor;
    var y := Retried(w, timer, newTimer);
    forall s | s in w.st.pending ensures Scheduled(y, s) {
      assert Scheduled(w, s);
    }
  }

  lemma AbortIsTimely(w: World, timer: nat, newTimer: nat)
    requires Sound(w) && Timely(w) && timer in w.armed && timer in w.st.retryTimers
    requires Retrying(w, timer) && w.st.pending[w.st.retryTimers[timer]].retryCount >= N1_REQUESTS
    ensures Timely(NextFired(w, timer, newTimer))
  {
    hide Interval, AnswersRight, HandsRight, HandsOf, MapsBack;
    var y := NextFired(w, timer, newTimer);
    assert y.st == w.st.(retryTimers := w.st.retryTimers - {timer}) && y.armed == w.armed - {timer};
    forall s' | s' in y.st.pending ensures Scheduled(y, s') {
      assert Scheduled(w, s');
    }
    forall r | r in y.st.retryTimers ensures Retrying(y, r) {
      assert Retrying(w, r);
    }
    forall t | t in y.armed ensures ArmedFor(y, t) {
      assert ArmedFor(w, t);
    }
  }

  lemma CleanupIsTimely(w: World, timer: nat, newTimer: nat)
    requires Sound(w) && Counted(w) && Timely(w) && timer in w.armed && w.armed[timer] == w.now && timer !in w.st.retryTimers
    ensures Timely(NextFired(w, timer, newTimer))
  {
    hide Interval, AnswersRight, HandsRight, HandsOf, MapsBack;
    assert ArmedFor(w, timer);
    var s := w.st.cleanupTimers[timer];
    var y := NextFired(w, timer, newTimer);
    assert y.st == w.st.(cleanupTimers := w.st.cleanupTimers - {timer}, pending := w.st.pending - {s});
    assert y.armed == w.armed - {timer};
    forall s' | s' in y.st.pending ensures Scheduled(y, s') {
      assert Scheduled(w, s');
    }
    forall r | r in y.st.retryTimers ensures Retrying(y, r) {
      assert Retrying(w, r);
      CleanupIsLast(w, timer, r);
    }
    forall t | t in y.armed ensures ArmedFor(y, t) {
      assert ArmedFor(w, t);
    }
  }

  lemma RequestedIsTimely(w: World, t: byte, trxn: nat, rt: nat, ct: nat)
    requires MapsBack(w) && Timely(w) && TimersDrawn(w) && FreshIds(w, Requested(t, trxn, rt, ct))
    requires NextSeqNum(w.st.seqNum) !in w.st.pending
    ensures Timely(NextRequested(w, t, trxn, rt, ct))
  {
    hide NextSeqNum, NextRequested, Scheduled, Retrying, ArmedFor;
    var y := NextRequested(w, t, trxn, rt, ct);
    var s := NextSeqNum(w.st.seqNum);
    RequestedShape(w, t, trxn, rt, ct);
    forall s' | s' in y.st.pending ensures Scheduled(y, s') {
      RequestedScheduled(w, t, trxn, rt, ct, s');
    }
    forall r | r in y.st.retryTimers ensures Retrying(y, r) {
      RequestedRetrying(w, t, trxn, rt, ct, r);
    }
    forall t' | t' in y.armed ensures ArmedFor(y, t') {
      RequestedArmed(w, t, trxn, rt, ct, t');
    }
  }

  lemma RequestedShape(w: World, t: byte, trxn: nat, rt: nat, ct: nat)
    requires TimersDrawn(w) && FreshIds(w, Requested(t, trxn, rt, ct)) && NextSeqNum(w.st.seqNum) !in w.st.pending
    ensures var y := NextRequested(w, t, trxn, rt, ct);
            var s := NextSeqNum(w.st.seqNum);
      && y.st.pending == w.st.pending[s := Procedure(trxn, t, 0, Some(Msg(t, s)), rt, ct, 0)]
      && y.st.retryTimers == w.st.retryTimers[rt := s] && y.st.cleanupTimers == w.st.cleanupTimers[ct := s]
      && y.armed == w.armed[rt := w.now + T1][ct := w.now + PROC_TIME] && y.now == w.now
      && y.trxns == w.trxns[trxn := Origin(s, t, true, w.now)] && y.sends == w.sends[trxn := 1]
  {
    hide NextSeqNum, Interval;
  }

  lemma RequestedScheduled(w: World, t: byte, trxn: nat, rt: nat, ct: nat, s': u32)
    requires MapsBack(w) && Timely(w) && TimersDrawn(w) && FreshIds(w, Requested(t, trxn, rt, ct))
    requires NextSeqNum(w.st.seqNum) !in w.st.pending && s' in NextRequested(w, t, trxn, rt, ct).st.pending
    ensures Scheduled(NextRequested(w, t, trxn, rt, ct), s')
  {
    hide NextSeqNum, NextRequested, Retrying, ArmedFor, Interval;
    RequestedShape(w, t, trxn, rt, ct);
    if s' != NextSeqNum(w.st.seqNum) { assert Scheduled(w, s'); }
  }

  lemma RequestedRetrying(w: World, t: byte, trxn: nat, rt: nat, ct: nat, r: nat)
    requires MapsBack(w) && Timely(w) && TimersDrawn(w) && FreshIds(w, Requested(t, trxn, rt, ct))
    requires NextSeqNum(w.st.seqNum) !in w.st.pending && r in NextRequested(w, t, trxn, rt, ct).st.retryTimers
    ensures Retrying(NextRequested(w, t, trxn, rt, ct), r)
  {
    hide NextSeqNum, NextRequested, Scheduled, ArmedFor, Interval;
    RequestedShape(w, t, trxn, rt, ct);
    if r != rt { assert Retrying(w, r); }
  }

  lemma RequestedArmed(w: World, t: byte, trxn: nat, rt: nat, ct: nat, t': nat)
    requires Timely(w) && TimersDrawn(w) && FreshIds(w, Requested(t, trxn, rt, ct))
    requires NextSeqNum(w.st.seqNum) !in w.st.pending && t' in NextRequested(w, t, trxn, rt, ct).armed
    ensures ArmedFor(NextRequested(w, t, trxn, rt, ct), t')
  {
    hide NextSeqNum, NextRequested, Scheduled, Retrying, Interval;
    RequestedShape(w, t, trxn, rt, ct);
    if t' != rt && t' != ct { assert ArmedFor(w, t'); }
  }

  lemma RespondedIsTimely(w: World, t: byte, trxn: nat, a: Action)
    requires Timely(w) && (a == DeleteTx ==> !MeetsRetry(w, trxn))
    ensures Timely(NextResponded(w, t, trxn, a))
  {
    hide Scheduled, Retrying, ArmedFor;
    if trxn in w.st.trxn2seq && a == DeleteTx && w.st.trxn2seq[trxn] in w.st.pending {
      DeletedIsTimely(w, t, trxn);
    } else {
      ArmedLater(w);
      SameTimers(w, NextResponded(w, t, trxn, a));
    }
  }

  /** A deleted procedure takes its cleanup timer with it, and had no retry timer. */
  lemma DeletedIsTimely(w: World, t: byte, trxn: nat)
    requires Timely(w) && !MeetsRetry(w, trxn) && trxn in w.st.trxn2seq && w.st.trxn2seq[trxn] in w.st.pending
    ensures Timely(NextResponded(w, t, trxn, DeleteTx))
  {
    hide NextResponded, Interval, ArmedFor;
    var y := NextResponded(w, t, trxn, DeleteTx);
    DeletedShape(w, t, trxn);
    forall s | s in y.st.pending ensures Scheduled(y, s) {
      assert Scheduled(w, s) && Scheduled(w, w.st.trxn2seq[trxn]);
    }
    forall r | r in y.st.retryTimers ensures Retrying(y, r) {
      assert Retrying(w, r) && Scheduled(w, w.st.trxn2seq[trxn]);
    }
    forall r | r in y.armed ensures ArmedFor(y, r) {
      DeletedArmed(w, t, trxn, r);
    }
  }

  lemma DeletedShape(w: World, t: byte, trxn: nat)
    requires Timely(w) && trxn in w.st.trxn2seq && w.st.trxn2seq[trxn] in w.st.pending
    ensures var y := NextResponded(w, t, trxn, DeleteTx);
            var s := w.st.trxn2seq[trxn];
      && y.st.pending == w.st.pending - {s} && y.st.retryTimers == w.st.retryTimers && y.st.cleanupTimers == w.st.cleanupTimers
      && y.armed == w.armed - {w.st.pending[s].cleanupTimer} && y.now == w.now && y.trxns == w.trxns && y.sends == w.sends
  {
    hide Retrying, ArmedFor, Interval;
    var s := w.st.trxn2seq[trxn];
    assert Scheduled(w, s);
    assert w.st.retryTimers - {w.st.pending[s].cleanupTimer} == w.st.retryTimers;
  }

  lemma DeletedArmed(w: World, t: byte, trxn: nat, r: nat)
    requires Timely(w) && trxn in w.st.trxn2seq && w.st.trxn2seq[trxn] in w.st.pending
    requires r in NextResponded(w, t, trxn, DeleteTx).armed
    ensures ArmedFor(NextResponded(w, t, trxn, DeleteTx), r)
  {
    hide NextResponded, Interval, Retrying, Scheduled;
    DeletedShape(w, t, trxn);
    assert ArmedFor(w, r);
  }

  /** Neither the procedures nor the timers moved. */
  lemma SameTimers(w: World, y: World)
    requires Timely(w) && y.st.pending == w.st.pending && y.st.retryTimers == w.st.retryTimers
    requires y.st.cleanupTimers == w.st.cleanupTimers && y.armed == w.armed && y.trxns == w.trxns && y.sends == w.sends
    requires forall t :: t in w.armed ==> y.now <= w.armed[t]
    ensures Timely(y)
  {
    hide Interval;
    forall s' | s' in y.st.pending ensures Scheduled(y, s') {
      assert Scheduled(w, s');
    }
    forall r | r in y.st.retryTimers ensures Retrying(y, r) {
      assert Retrying(w, r);
    }
    forall t' | t' in y.armed ensures ArmedFor(y, t') {
      assert ArmedFor(w, t');
    }
  }

  lemma ReceivedIsTimely(w: World, msg: Msg, trxn: nat, timer: nat)
    requires MapsBack(w) && Timely(w) && TimersDrawn(w) && trxn !in w.trxns && FreshTimer(w, timer)
    ensures Timely(NextReceived(w, msg, trxn, timer))
  {
    hide Scheduled, Retrying, ArmedFor, IsRequest, Accepts;
    if msg.seqNum in w.st.pending && Accepts(w.st.pending[msg.seqNum], msg.msgType) {
      AcceptedIsTimely(w, msg, trxn, timer);
    } else if msg.seqNum !in w.st.pending && IsRequest(msg.msgType) {
      NewProcedureIsTimely(w, msg, trxn, timer);
    } else {
      ArmedLater(w);
      SameTimers(w, NextReceived(w, msg, trxn, timer));
    }
  }

  lemma ArmedLater(w: World)
    requires Timely(w)
    ensures forall t :: t in w.armed ==> w.now <= w.armed[t]
  {
    forall t | t in w.armed ensures w.now <= w.armed[t] {
      assert ArmedFor(w, t);
    }
  }

  lemma NewProcedureIsTimely(w: World, msg: Msg, trxn: nat, timer: nat)
    requires MapsBack(w) && Timely(w) && TimersDrawn(w) && trxn !in w.trxns && FreshTimer(w, timer)
    requires msg.seqNum !in w.st.pending && IsRequest(msg.msgType)
    ensures Timely(NextReceived(w, msg, trxn, timer))
  {
    hide IsRequest, NextReceived, MapsBack, Scheduled, Retrying, ArmedFor;
    var y := NextReceived(w, msg, trxn, timer);
    NewProcedureShape(w, msg, trxn, timer);
    forall s | s in y.st.pending ensures Scheduled(y, s) {
      NewProcedureScheduled(w, msg, trxn, timer, s);
    }
    forall r | r in y.st.retryTimers ensures Retrying(y, r) {
      NewProcedureRetrying(w, msg, trxn, timer, r);
    }
    forall t | t in y.armed ensures ArmedFor(y, t) {
      NewProcedureArmed(w, msg, trxn, timer, t);
    }
  }

  lemma NewProcedureShape(w: World, msg: Msg, trxn: nat, timer: nat)
    requires TimersDrawn(w) && FreshTimer(w, timer) && msg.seqNum !in w.st.pending && IsRequest(msg.msgType)
    ensures var y := NextReceived(w, msg, trxn, timer);
      && y.st.pending == w.st.pending[msg.seqNum := Procedure(trxn, msg.msgType, 0, None, 0, timer, 0)]
      && y.st.retryTimers == w.st.retryTimers && y.st.cleanupTimers == w.st.cleanupTimers[timer := msg.seqNum]
      && y.armed == w.armed[timer := w.now + PROC_TIME] && y.now == w.now
      && y.trxns == w.trxns[trxn := Origin(msg.seqNum, msg.msgType, false, w.now)] && y.sends == w.sends
  {
    hide IsRequest, Interval;
  }

  lemma NewProcedureScheduled(w: World, msg: Msg, trxn: nat, timer: nat, s: u32)
    requires MapsBack(w) && Timely(w) && TimersDrawn(w) && trxn !in w.trxns && FreshTimer(w, timer)
    requires msg.seqNum !in w.st.pending && IsRequest(msg.msgType)
    requires s in NextReceived(w, msg, trxn, timer).st.pending
    ensures Scheduled(NextReceived(w, msg, trxn, timer), s)
  {
    hide IsRequest, NextReceived, Retrying, ArmedFor, Interval;
    NewProcedureShape(w, msg, trxn, timer);
    if s != msg.seqNum { assert Scheduled(w, s); }
  }

  lemma NewProcedureRetrying(w: World, msg: Msg, trxn: nat, timer: nat, r: nat)
    requires Timely(w) && TimersDrawn(w) && trxn !in w.trxns && FreshTimer(w, timer)
    requires msg.seqNum !in w.st.pending && IsRequest(msg.msgType)
    requires r in NextReceived(w, msg, trxn, timer).st.retryTimers
    ensures Retrying(NextReceived(w, msg, trxn, timer), r)
  {
    hide IsRequest, NextReceived, Scheduled, ArmedFor, Interval;
    NewProcedureShape(w, msg, trxn, timer);
    assert Retrying(w, r);
  }

  lemma NewProcedureArmed(w: World, msg: Msg, trxn: nat, timer: nat, t: nat)
    requires Timely(w) && TimersDrawn(w) && FreshTimer(w, timer) && msg.seqNum !in w.st.pending && IsRequest(msg.msgType)
    requires t in NextReceived(w, msg, trxn, timer).armed
    ensures ArmedFor(NextReceived(w, msg, trxn, timer), t)
  {
    hide IsRequest, NextReceived, Scheduled, Retrying, Interval;
    NewProcedureShape(w, msg, trxn, timer);
    if t != timer { assert ArmedFor(w, t); }
  }

  /** A stopped retry timer is the only one its procedure had. */
  lemma AcceptedIsTimely(w: World, msg: Msg, trxn: nat, timer: nat)
    requires MapsBack(w) && Timely(w) && TimersDrawn(w)
    requires msg.seqNum in w.st.pending && Accepts(w.st.pending[msg.seqNum], msg.msgType)
    ensures Timely(NextReceived(w, msg, trxn, timer))
  {
    hide Accepts, NextReceived, MapsBack, Scheduled, Retrying, ArmedFor;
    var y := NextReceived(w, msg, trxn, timer);
    AcceptedShape(w, msg, trxn, timer);
    forall s | s in y.st.pending ensures Scheduled(y, s) {
      AcceptedScheduled(w, msg, trxn, timer, s);
    }
    forall r | r in y.st.retryTimers ensures Retrying(y, r) {
      AcceptedRetrying(w, msg, trxn, timer, r);
    }
    forall t | t in y.armed ensures ArmedFor(y, t) {
      AcceptedArmed(w, msg, trxn, timer, t);
    }
  }

  lemma AcceptedShape(w: World, msg: Msg, trxn: nat, timer: nat)
    requires TimersDrawn(w) && msg.seqNum in w.st.pending && Accepts(w.st.pending[msg.seqNum], msg.msgType)
    ensures var y := NextReceived(w, msg, trxn, timer);
            var p := w.st.pending[msg.seqNum];
      && y.st.pending.Keys == w.st.pending.Keys
      && (forall s :: s in w.st.pending && s != msg.seqNum ==> y.st.pending[s] == w.st.pending[s])
      && (exists t :: y.st.pending[msg.seqNum] == p.(triggeredType := t, retryTimer := 0))
      && y.st.retryTimers == w.st.retryTimers - {p.retryTimer} && y.st.cleanupTimers == w.st.cleanupTimers
      && y.armed == w.armed - {p.retryTimer} && y.now == w.now && y.trxns == w.trxns && y.sends == w.sends
  {
    hide Accepts, Interval;
    var p := w.st.pending[msg.seqNum];
    assert p.retryTimer == 0 ==> w.st.retryTimers - {p.retryTimer} == w.st.retryTimers;
    assert NextReceived(w, msg, trxn, timer).st.pending[msg.seqNum]
           == p.(triggeredType := if p.triggeredType != 0 then p.triggeredType else msg.msgType, retryTimer := 0);
  }

  lemma AcceptedScheduled(w: World, msg: Msg, trxn: nat, timer: nat, s: u32)
    requires Timely(w) && TimersDrawn(w) && s in NextReceived(w, msg, trxn, timer).st.pending
    requires msg.seqNum in w.st.pending && Accepts(w.st.pending[msg.seqNum], msg.msgType)
    ensures Scheduled(NextReceived(w, msg, trxn, timer), s)
  {
    hide Accepts, NextReceived, Retrying, ArmedFor, Interval;
    AcceptedShape(w, msg, trxn, timer);
    assert Scheduled(w, s);
  }

  lemma AcceptedRetrying(w: World, msg: Msg, trxn: nat, timer: nat, r: nat)
    requires Timely(w) && TimersDrawn(w) && r in NextReceived(w, msg, trxn, timer).st.retryTimers
    requires msg.seqNum in w.st.pending && Accepts(w.st.pending[msg.seqNum], msg.msgType)
    ensures Retrying(NextReceived(w, msg, trxn, timer), r)
  {
    hide Accepts, NextReceived, Scheduled, ArmedFor, Interval;
    AcceptedShape(w, msg, trxn, timer);
    assert Retrying(w, r);
  }

  lemma AcceptedArmed(w: World, msg: Msg, trxn: nat, timer: nat, t: nat)
    requires Timely(w) && TimersDrawn(w) && t in NextReceived(w, msg, trxn, timer).armed
    requires msg.seqNum in w.st.pending && Accepts(w.st.pending[msg.seqNum], msg.msgType)
    ensures ArmedFor(NextReceived(w, msg, trxn, timer), t)
  {
    hide Accepts, NextReceived, Scheduled, Retrying, Interval;
    AcceptedShape(w, msg, trxn, timer);
    assert ArmedFor(w, t);
  }

  ghost predicate Punctual(w: World) {
    Sound(w) && Counted(w) && Timely(w) && TimersDrawn(w)
  }

  lemma StepIsPunctual(w: World, e: Event)
    requires Punctual(w) && FreshIds(w, e) && OnTime(w, e)
    ensures Punctual(Next(w, e))
    ensures e.Fired? ==> !TimeOut(w.st, e.timer, e.newTimer).1.Crashed?
  {
    hide AnswersRight, HandsRight, MapsBack, Counted, Timely, TimersDrawn, MeetsRetry, NextReceived, NextRequested, NextResponded, NextFired, Interval;
    StepIsSound(w, e);
    StepIsCounted(w, e);
    StepDrawn(w, e);
    match e
    case Received(msg, trxn, timer) => ReceivedIsTimely(w, msg, trxn, timer);
    case Requested(t, trxn, rt, ct) => RequestedIsTimely(w, t, trxn, rt, ct);
    case Responded(t, trxn, a) => RespondedIsTimely(w, t, trxn, a);
    case Fired(timer, newTimer) => FiredIsTimely(w, timer, newTimer);
    case Passed(d) => Waited(w, d);
  }

  lemma Waited(w: World, d: nat)
    requires Timely(w) && OnTime(w, Passed(d))
    ensures Timely(Next(w, Passed(d)))
  {
    SameTimers(w, Next(w, Passed(d)));
  }

  ghost predicate PunctualRun(w: World, events: seq<Event>, y: World)
    decreases |events|
  {
    if |events| == 0 then y == w
    else FreshIds(w, events[0]) && OnTime(w, events[0]) && PunctualRun(Next(w, events[0]), events[1..], y)
  }

  /** With on-time timers every retry timer refers to a procedure that is still pending, its own,
      and the cleanup of a procedure is due strictly after any retry it may still have. */
  lemma {:induction false} EveryPunctualRun(w: World, events: seq<Event>, y: World)
    requires Punctual(w) && PunctualRun(w, events, y)
    ensures Punctual(y)
    ensures forall r :: r in y.st.retryTimers ==> RetriedBeforeCleanup(y, r)
    decreases |events|
  {
    hide Sound, Counted, TimersDrawn, Next, FreshIds, OnTime, Scheduled;
    if |events| > 0 {
      StepIsPunctual(w, events[0]);
      EveryPunctualRun(Next(w, events[0]), events[1..], y);
    } else {
      forall r | r in y.st.retryTimers ensures RetriedBeforeCleanup(y, r) {
        RetryPrecedesCleanup(y, r);
      }
    }
  }

  ghost predicate RetriedBeforeCleanup(w: World, r: nat)
    requires r in w.st.retryTimers
  {
    var s := w.st.retryTimers[r];
    s in w.st.pending && w.st.pending[s].retryTimer == r && w.st.pending[s].retryMsg == Some(Msg(w.st.pending[s].initialType, s))
    && r in w.armed && w.st.pending[s].cleanupTimer in w.armed && w.armed[r] < w.armed[w.st.pending[s].cleanupTimer]
  }

  lemma RetryPrecedesCleanup(w: World, r: nat)
    requires Counted(w) && Timely(w) && r in w.st.retryTimers
    ensures RetriedBeforeCleanup(w, r)
  {
    hide Interval, CountedAt, Scheduled, ArmedFor, RetriedBeforeCleanup;
    assert Retrying(w, r) && Scheduled(w, w.st.retryTimers[r]) && CountedAt(w, w.st.retryTimers[r]);
    DueBeforeCleanup(w, r);
  }

  lemma DueBeforeCleanup(w: World, r: nat)
    requires r in w.st.retryTimers && Retrying(w, r) && Scheduled(w, w.st.retryTimers[r]) && CountedAt(w, w.st.retryTimers[r])
    ensures RetriedBeforeCleanup(w, r)
  {
    hide Interval;
    RetriesFit(w.st.pending[w.st.retryTimers[r]].retryCount);
  }

  /** N1 retries, one T1 apart, end before the procedure does. */
  lemma RetriesFit(n: nat)
    requires n <= N1_REQUESTS
    ensures T1 * (n + 1) < PROC_TIME
  {}

  lemma StartIsPunctual(seqNum: u32)
    ensures Punctual(Start(seqNum))
  {}

  // ---------------------------------------------------------------- where the assumptions are needed

  /** A drawn sequence number that is already pending loses the new procedure; its retry then
      dereferences a missing message exactly when the procedure found there came from a peer. */
  lemma RetryCrashesIff(w: World, t: byte, trxn: nat, rt: nat, ct: nat, newTimer: nat)
    requires TimersDrawn(w) && FreshIds(w, Requested(t, trxn, rt, ct))
    ensures var s := NextSeqNum(w.st.seqNum);
      TimeOut(NextRequested(w, t, trxn, rt, ct).st, rt, newTimer).1.Crashed?
      <==> (s in w.st.pending && w.st.pending[s].retryMsg.None? && w.st.pending[s].retryCount < N1_REQUESTS)
  {
    hide NextSeqNum, Interval;
  }

  /** Such a run: the next number to draw is the one a peer's request came with. */
  lemma RetryCrashes()
    ensures var a := Next(Start(6), Received(Msg(50, 7), 1, 1));
            var b := Next(Next(a, Requested(1, 2, 3, 4)), Passed(T1));
      !OnTime(a, Requested(1, 2, 3, 4)) && OnTime(b, Fired(3, 5)) && TimeOut(b.st, 3, 5).1.Crashed?
  {
    var a := Next(Start(6), Received(Msg(50, 7), 1, 1));
    assert a.st.pending[7] == Procedure(1, 50, 0, None, 0, 1, 0) && NextSeqNum(a.st.seqNum) == 7;
  }

  /** A deleting answer leaves a retry timer without its procedure exactly when it meets a procedure
      whose retry timer is set. */
  lemma StrayIff(w: World, t: byte, trxn: nat)
    requires Punctual(w)
    ensures var y := NextResponded(w, t, trxn, DeleteTx);
      (exists r :: r in y.st.retryTimers && y.st.retryTimers[r] !in y.st.pending) <==> MeetsRetry(w, trxn)
  {
    hide Interval, NextResponded, Sound, Counted, TimersDrawn, ArmedFor;
    var y := NextResponded(w, t, trxn, DeleteTx);
    if MeetsRetry(w, trxn) {
      DeletedShape(w, t, trxn);
      var s := w.st.trxn2seq[trxn];
      assert Scheduled(w, s);
      assert y.st.retryTimers[w.st.pending[s].retryTimer] == s;
    } else {
      RespondedIsTimely(w, t, trxn, DeleteTx);
      forall r | r in y.st.retryTimers ensures y.st.retryTimers[r] in y.st.pending {
        assert Retrying(y, r);
      }
    }
  }

  /** Such a timer sends nothing when it fires and is gone. If meanwhile a message came under its
      number, it ends in a retry without a message exactly when that message was a request. */
  lemma StrayFires(w: World, r: nat, newTimer: nat, msg: Msg, trxn: nat, timer: nat)
    requires r in w.st.retryTimers && w.st.retryTimers[r] !in w.st.pending && msg.seqNum == w.st.retryTimers[r]
    ensures var y := NextFired(w, r, newTimer);
      y.st == w.st.(retryTimers := w.st.retryTimers - {r}) && y.sends == w.sends && TimeOut(w.st, r, newTimer).1 == Handled
    ensures TimeOut(NextReceived(w, msg, trxn, timer).st, r, newTimer).1.Crashed? <==> IsRequest(msg.msgType)
  {
    hide Interval, IsRequest;
  }

  /** The procedure of transaction 1 expires unanswered, and a local request draws its number. */
  const Expired := Next(Next(Next(Start(6), Received(Msg(50, 7), 1, 1)), Passed(PROC_TIME)), Fired(1, 2))
  const Redrawn := Next(Expired, Requested(1, 2, 3, 4))
  const RedrawnRun := [Received(Msg(50, 7), 1, 1), Passed(PROC_TIME), Fired(1, 2), Requested(1, 2, 3, 4)]

  /** A run on time up to such an answer: the late answer to 1 deletes the procedure of the request. */
  lemma StrayTimer()
    ensures var y := Next(Redrawn, Responded(51, 1, DeleteTx));
      && PunctualRun(Start(6), RedrawnRun, Redrawn) && MeetsRetry(Redrawn, 1)
      && Redrawn.st.pending.Keys == {7} && Redrawn.st.pending[7].trxnId == 2
      && y.st.pending == map[] && y.st.retryTimers == map[3 := 7] && 3 in y.armed
  {
    hide PunctualRun, Next;
    RedrawnShape();
    RedrawnOnTime();
    DeletedHere(Redrawn);
  }

  lemma RedrawnShape()
    ensures Redrawn.st == Stack(7, map[1 := 7, 2 := 7], map[7 := Procedure(2, 1, 0, Some(Msg(1, 7)), 3, 4, 0)], map[3 := 7], map[4 := 7])
    ensures 3 in Redrawn.armed && 4 in Redrawn.armed
  {
    ExpiredShape();
  }

  const Asked := Next(Start(6), Received(Msg(50, 7), 1, 1))

  lemma AskedShape()
    ensures Asked.st == Stack(6, map[1 := 7], map[7 := Procedure(1, 50, 0, None, 0, 1, 0)], map[], map[1 := 7])
    ensures Asked.armed == map[1 := PROC_TIME] && Asked.usedTimers == {1} && Asked.trxns.Keys == {1} && Asked.now == 0
  {
    hide Interval;
  }

  lemma FiredShape(w: World)
    requires w.st == Asked.st && w.armed == Asked.armed
    ensures var y := Next(w, Fired(1, 2));
      y.st == Stack(6, map[1 := 7], map[], map[], map[]) && y.armed == map[] && y.usedTimers == w.usedTimers + {2} && y.trxns == w.trxns
  {
    hide NextReceived;
    AskedShape();
    var y := Next(w, Fired(1, 2));
    assert y.st.pending == map[] && y.st.cleanupTimers == map[];
  }

  lemma ExpiredShape()
    ensures Expired.st == Stack(6, map[1 := 7], map[], map[], map[]) && Expired.armed == map[]
    ensures Expired.usedTimers == {1, 2} && Expired.trxns.Keys == {1}
  {
    hide Interval, NextReceived;
    AskedShape();
    var a := Next(Asked, Passed(PROC_TIME));
    assert a.st == Asked.st && a.armed == Asked.armed && a.trxns == Asked.trxns && a.usedTimers == Asked.usedTimers;
    FiredShape(a);
    assert Expired.usedTimers == {1} + {2} == {1, 2};
  }

  lemma RedrawnOnTime()
    ensures PunctualRun(Start(6), RedrawnRun, Redrawn)
  {
    hide PunctualRun, Interval, NextReceived, NextRequested, NextFired;
    AskedShape();
    ExpiredShape();
    NoEvents(Redrawn);
    assert Next(Expired, RedrawnRun[3]) == Redrawn && Next(Next(Asked, RedrawnRun[1]), RedrawnRun[2]) == Expired;
    PunctualFirst(Expired, RedrawnRun[3], [], Redrawn);
    assert [RedrawnRun[3]] + [] == RedrawnRun[3..];
    PunctualFirst(Next(Asked, RedrawnRun[1]), RedrawnRun[2], RedrawnRun[3..], Redrawn);
    assert [RedrawnRun[2]] + RedrawnRun[3..] == RedrawnRun[2..];
    PunctualFirst(Asked, RedrawnRun[1], RedrawnRun[2..], Redrawn);
    assert [RedrawnRun[1]] + RedrawnRun[2..] == RedrawnRun[1..];
    PunctualFirst(Start(6), RedrawnRun[0], RedrawnRun[1..], Redrawn);
    assert [RedrawnRun[0]] + RedrawnRun[1..] == RedrawnRun;
  }

  lemma NoEvents(w: World)
    ensures PunctualRun(w, [], w)
  {}

  lemma PunctualFirst(w: World, e: Event, rest: seq<Event>, y: World)
    requires FreshIds(w, e) && OnTime(w, e) && PunctualRun(Next(w, e), rest, y)
    ensures PunctualRun(w, [e] + rest, y)
  {
    assert ([e] + rest)[1..] == rest;
  }

  lemma DeletedHere(w: World)
    requires w.st == Stack(7, map[1 := 7, 2 := 7], map[7 := Procedure(2, 1, 0, Some(Msg(1, 7)), 3, 4, 0)], map[3 := 7], map[4 := 7])
    requires 3 in w.armed && 4 in w.armed
    ensures var y := Next(w, Responded(51, 1, DeleteTx));
      MeetsRetry(w, 1) && y.st.pending == map[] && y.st.retryTimers == map[3 := 7] && 3 in y.armed
  {}

  /** Deleting a procedure stops its cleanup timer, but the entry erased is the one among the retry
      timers: that of the cleanup timers stays, and names a number without a procedure. */
  lemma CleanupEntryStays(w: World, t: byte, trxn: nat)
    requires trxn in w.st.trxn2seq && w.st.trxn2seq[trxn] in w.st.pending
    ensures var y := NextResponded(w, t, trxn, DeleteTx);
            var cleanup := w.st.pending[w.st.trxn2seq[trxn]].cleanupTimer;
      && y.st.cleanupTimers == w.st.cleanupTimers && cleanup !in y.armed && cleanup !in y.st.retryTimers
      && (forall r :: r in w.st.retryTimers && r != cleanup ==> r in y.st.retryTimers && y.st.retryTimers[r] == w.st.retryTimers[r])
  {}

  /** An answer that ends its transaction takes another transaction's procedure with it exactly
      when its own procedure has been replaced under the same sequence number. */
  lemma AnswerErasesAnotherIff(w: World, t: byte, trxn: nat)
    requires Sound(w)
    ensures var y := NextResponded(w, t, trxn, DeleteTx);
      (exists s :: s in w.st.pending && w.st.pending[s].trxnId != trxn && s !in y.st.pending)
      <==> (trxn in w.st.trxn2seq && w.st.trxn2seq[trxn] in w.st.pending && w.st.pending[w.st.trxn2seq[trxn]].trxnId != trxn)
  {
    hide AnswersRight, HandsRight, Interval;
  }

  /** Such a run: the procedure of transaction 1 expires unanswered, the peer repeats its request
      as transaction 2, and the late answer to 1 removes the procedure of 2. */
  lemma LateAnswer()
    ensures var a := Next(Start(0), Received(Msg(50, 7), 1, 1));
            var b := Next(Next(a, Passed(PROC_TIME)), Fired(1, 2));
            var c := Next(b, Received(Msg(50, 7), 2, 3));
            var d := Next(c, Responded(51, 1, DeleteTx));
      7 in c.st.pending && c.st.pending[7].trxnId == 2 && 7 !in d.st.pending && 2 in d.st.trxn2seq
      && OnTime(Next(a, Passed(PROC_TIME)), Fired(1, 2)) && OnTime(c, Responded(51, 1, DeleteTx))
  {
    var a := Next(Start(0), Received(Msg(50, 7), 1, 1));
    assert a.st.pending[7] == Procedure(1, 50, 0, None, 0, 1, 0) && a.armed == map[1 := PROC_TIME];
    var b := Next(Next(a, Passed(PROC_TIME)), Fired(1, 2));
    assert 7 !in b.st.pending && b.st.trxn2seq == map[1 := 7 as u32];
  }

  /** Version-not-supported is handed up as often as it comes. */
  lemma VersionNotSupportedTwice(w: World, s: u32, trxn: nat, timer: nat, trxn': nat, timer': nat)
    requires Sound(w) && s in w.st.pending && w.st.pending[s].triggeredType != 0
    ensures var m := Msg(VERSION_NOT_SUPPORTED_RESPONSE, s);
      Next(Next(w, Received(m, trxn, timer)), Received(m, trxn', timer')).handed
      == w.handed + [Hand(w.st.pending[s].trxnId, s, VERSION_NOT_SUPPORTED_RESPONSE), Hand(w.st.pending[s].trxnId, s, VERSION_NOT_SUPPORTED_RESPONSE)]
  {
    hide Interval, MapsBack, AnswersRight;
    assert HandsOf(w, w.st.pending[s]);
  }
}
