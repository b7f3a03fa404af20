/** The PFCP rules of a session, and the chains that lead from a PDR to the rules it uses. */
module PfcpRules {
  import opened OnesComplement
  import opened Options

  datatype SourceInterface = Access | Core | OtherInterface(code: nat)

  /** Packet detection information. sdf is absent, or present with what the filter parser
      makes of its text, which may be nothing. */
  datatype Pdi = Pdi(source: Option<SourceInterface>, fteid: Option<u32>, ueIp: Option<u32>,
                     sdf: Option<Option<SdfFilter>>, qfi: Option<nat>)
  datatype SdfFilter = SdfFilter(flow: string)
  datatype Pdr = Pdr(id: nat, precedence: nat, pdi: Option<Pdi>, farId: Option<nat>,
                     qerId: Option<nat>, urrId: Option<nat>, marId: Option<nat>)

  /** A FAR, and the other rules by their id; body stands for the fields that are only copied.
      dlTeid is the TEID towards the gNB, 0 when the FAR does not point at one. */
  datatype Far = Far(id: nat, barId: Option<nat>, dlTeid: u32, body: int)
  datatype Qer = Qer(id: nat, qfi: nat, body: int)
  datatype Rule = Rule(id: nat, body: int)

  /** pdrsUplink and pdrsDownlink are derived from pdrs by the session manager. */
  datatype Session = Session(seid: nat, pdrs: seq<Pdr>, pdrsUplink: seq<Pdr>, pdrsDownlink: seq<Pdr>,
                             fars: seq<Far>, qers: seq<Qer>, urrs: seq<Rule>, bars: seq<Rule>, mars: seq<Rule>)

  function FindFar(fars: seq<Far>, id: nat): Option<Far> {
    if |fars| == 0 then None else if fars[0].id == id then Some(fars[0]) else FindFar(fars[1..], id)
  }

  function FindQer(qers: seq<Qer>, id: nat): Option<Qer> {
    if |qers| == 0 then None else if qers[0].id == id then Some(qers[0]) else FindQer(qers[1..], id)
  }

  function FindRule(rules: seq<Rule>, id: Option<nat>): Option<Rule> {
    if id.None? || |rules| == 0 then None
    else if rules[0].id == id.value then Some(rules[0])
    else FindRule(rules[1..], id)
  }

  function FarOf(fars: seq<Far>, pdr: Pdr): Option<Far> {
    if pdr.farId.Some? then FindFar(fars, pdr.farId.value) else None
  }

  function QerOf(qers: seq<Qer>, pdr: Pdr): Option<Qer> {
    if pdr.qerId.Some? then FindQer(qers, pdr.qerId.value) else None
  }

  function SourceOf(pdr: Pdr): Option<SourceInterface> {
    if pdr.pdi.Some? then pdr.pdi.value.source else None
  }

  /** Every PDR leads to a FAR. */
  predicate Resolves(pdrs: seq<Pdr>, fars: seq<Far>) {
    forall i :: 0 <= i < |pdrs| ==> FarOf(fars, pdrs[i]).Some?
  }

  /** x is the first of the list that is called id; there is none without an id. */
  ghost predicate IsFirst<T(!new)>(idOf: T -> nat, xs: seq<T>, id: Option<nat>, x: Option<T>) {
    if x.None? then id.None? || forall i :: 0 <= i < |xs| ==> idOf(xs[i]) != id.value
    else id.Some? && exists i :: 0 <= i < |xs| && IsFirstAt(idOf, xs, id.value, x.value, i)
  }

  predicate IsFirstAt<T(==)>(idOf: T -> nat, xs: seq<T>, id: nat, x: T, i: nat)
    requires i < |xs|
  {
    xs[i] == x && idOf(x) == id && forall j :: 0 <= j < i ==> idOf(xs[j]) != id
  }

  function PdrId(p: Pdr): nat { p.id }
  function FarId(f: Far): nat { f.id }
  function QerId(q: Qer): nat { q.id }
  function RuleId(r: Rule): nat { r.id }

  /** One more in front of the list. */
  lemma FirstBehind<T(!new)>(idOf: T -> nat, xs: seq<T>, id: nat, x: Option<T>)
    requires xs != [] && idOf(xs[0]) != id && IsFirst(idOf, xs[1..], Some(id), x)
    ensures IsFirst(idOf, xs, Some(id), x)
  {
    if x.Some? {
      var i :| 0 <= i < |xs[1..]| && IsFirstAt(idOf, xs[1..], id, x.value, i);
      forall j | 0 <= j < i + 1 ensures idOf(xs[j]) != id {
        assert j > 0 ==> xs[j] == xs[1..][j - 1];
      }
      assert IsFirstAt(idOf, xs, id, x.value, i + 1);
    } else {
      assert forall i :: 1 <= i < |xs| ==> xs[i] == xs[1..][i - 1];
    }
  }

  lemma FirstInFront<T(!new)>(idOf: T -> nat, xs: seq<T>)
    requires xs != []
    ensures IsFirst(idOf, xs, Some(idOf(xs[0])), Some(xs[0]))
  {
    assert IsFirstAt(idOf, xs, idOf(xs[0]), xs[0], 0);
  }

  /** What a lookup finds is in the list, has the id asked for, and is the first that does. */
  lemma {:induction false} FarIsFirst(fars: seq<Far>, id: nat)
    ensures IsFirst(FarId, fars, Some(id), FindFar(fars, id))
  {
    if fars != [] {
      if fars[0].id == id { FirstInFront(FarId, fars); } else { FarIsFirst(fars[1..], id); FirstBehind(FarId, fars, id, FindFar(fars, id)); }
    }
  }

  lemma {:induction false} QerIsFirst(qers: seq<Qer>, id: nat)
    ensures IsFirst(QerId, qers, Some(id), FindQer(qers, id))
  {
    if qers != [] {
      if qers[0].id == id { FirstInFront(QerId, qers); } else { QerIsFirst(qers[1..], id); FirstBehind(QerId, qers, id, FindQer(qers, id)); }
    }
  }

  lemma {:induction false} RuleIsFirst(rules: seq<Rule>, id: Option<nat>)
    ensures IsFirst(RuleId, rules, id, FindRule(rules, id))
  {
    if id.Some? && rules != [] {
      if rules[0].id == id.value {
        FirstInFront(RuleId, rules);
      } else {
        RuleIsFirst(rules[1..], id);
        FirstBehind(RuleId, rules, id.value, FindRule(rules, id));
      }
    }
  }

  /** There is only one such rule, or none. */
  lemma OneFirst<T(!new)>(idOf: T -> nat, xs: seq<T>, id: Option<nat>, x: Option<T>, y: Option<T>)
    requires IsFirst(idOf, xs, id, x) && IsFirst(idOf, xs, id, y)
    ensures x == y
  {
    if x.Some? && y.Some? {
      var i :| 0 <= i < |xs| && IsFirstAt(idOf, xs, id.value, x.value, i);
      var j :| 0 <= j < |xs| && IsFirstAt(idOf, xs, id.value, y.value, j);
    }
  }

  lemma {:induction false} FindFarIff(fars: seq<Far>, id: nat)
    ensures FindFar(fars, id).Some? <==> exists i :: 0 <= i < |fars| && fars[i].id == id
  {
    if |fars| > 0 && fars[0].id != id {
      FindFarIff(fars[1..], id);
      forall i | 0 <= i < |fars| && fars[i].id == id
        ensures FindFar(fars[1..], id).Some?
      {
        assert fars[1..][i - 1].id == id;
      }
    }
  }
}
