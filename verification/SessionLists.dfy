/** The uplink and downlink lists the session manager derives from a session's PDRs. */
module SessionLists {
  import opened Options
  import opened PfcpRules
  import opened RuleLists
  import opened SharedRules
  import opened SessionModification

  type PdrObject = Shared<Pdr, ()>
  type QerObject = Shared<Qer, ()>

  /** The PDRs that detect traffic from one interface, in the order of the session. */
  function FromSource(pdrs: seq<Pdr>, source: SourceInterface): seq<Pdr> {
    if pdrs == [] then []
    else
      var n := |pdrs| - 1;
      FromSource(pdrs[..n], source) + if SourceOf(pdrs[n]) == Some(source) then [pdrs[n]] else []
  }

  /** A lower precedence value comes first. */
  predicate ByPrecedence(pdrs: seq<Pdr>) {
    forall i, j :: 0 <= i < j < |pdrs| ==> pdrs[i].precedence <= pdrs[j].precedence
  }

  predicate Sorting(sorted: seq<Pdr>, pdrs: seq<Pdr>) {
    ByPrecedence(sorted) && multiset(sorted) == multiset(pdrs)
  }

  predicate ListsRight(s: Session) {
    Sorting(s.pdrsUplink, FromSource(s.pdrs, Access)) && Sorting(s.pdrsDownlink, FromSource(s.pdrs, Core))
  }

  /** The lists as they are derived, before they are sorted. */
  predicate JustDerived(s: Session) {
    s.pdrsUplink == FromSource(s.pdrs, Access) && s.pdrsDownlink == FromSource(s.pdrs, Core)
  }

  /** The PDRs of one interface come in order of precedence already. */
  predicate InOrder(pdrs: seq<Pdr>, source: SourceInterface) {
    forall i, j :: 0 <= i < j < |pdrs| && SourceOf(pdrs[i]) == Some(source) == SourceOf(pdrs[j]) ==> pdrs[i].precedence <= pdrs[j].precedence
  }

  lemma {:induction false} FromSourceElements(pdrs: seq<Pdr>, source: SourceInterface)
    ensures forall p :: p in FromSource(pdrs, source) <==> p in pdrs && SourceOf(p) == Some(source)
  {
    if pdrs != [] {
      var n := |pdrs| - 1;
      assert pdrs == pdrs[..n] + [pdrs[n]];
      FromSourceElements(pdrs[..n], source);
    }
  }

  lemma {:induction false} FromSourceSortedIff(pdrs: seq<Pdr>, source: SourceInterface)
    ensures ByPrecedence(FromSource(pdrs, source)) <==> InOrder(pdrs, source)
  {
    if pdrs != [] {
      var n := |pdrs| - 1;
      var init, last := pdrs[..n], pdrs[n];
      var list := FromSource(init, source);
      FromSourceSortedIff(init, source);
      FromSourceElements(init, source);
      LastInOrder(pdrs, source);
      if SourceOf(last) == Some(source) {
        LastSorted(list, last);
        assert FromSource(pdrs, source) == list + [last];
        assert forall p :: p in list <==> p in init && SourceOf(p) == Some(source);
      } else {
        assert FromSource(pdrs, source) == list;
      }
    }
  }

  lemma LastSorted(list: seq<Pdr>, last: Pdr)
    ensures ByPrecedence(list + [last]) <==> ByPrecedence(list) && forall p :: p in list ==> p.precedence <= last.precedence
  {
    var t := list + [last];
    if ByPrecedence(t) {
      assert forall i :: 0 <= i < |list| ==> t[i] == list[i];
      assert forall i :: 0 <= i < |list| ==> list[i].precedence <= t[|list|].precedence;
    }
  }

  predicate ComesLast(init: seq<Pdr>, last: Pdr, source: SourceInterface) {
    SourceOf(last) == Some(source) ==> forall p :: p in init && SourceOf(p) == Some(source) ==> p.precedence <= last.precedence
  }

  lemma LastInOrder(pdrs: seq<Pdr>, source: SourceInterface)
    requires pdrs != []
    ensures var n := |pdrs| - 1;
      InOrder(pdrs, source) <==> InOrder(pdrs[..n], source) && ComesLast(pdrs[..n], pdrs[n], source)
  {
    var n := |pdrs| - 1;
    var init := pdrs[..n];
    assert forall i :: 0 <= i < n ==> init[i] == pdrs[i];
    if InOrder(pdrs, source) {
      forall p | p in init && SourceOf(p) == Some(source) == SourceOf(pdrs[n]) ensures p.precedence <= pdrs[n].precedence {
        var i :| 0 <= i < n && init[i] == p;
        assert pdrs[i] == p;
      }
    }
  }

  /** Lists that are derived but not sorted are right exactly when the PDRs of each interface come
      in order of precedence in the session. */
  lemma JustDerivedRightIff(s: Session)
    requires JustDerived(s)
    ensures ListsRight(s) <==> InOrder(s.pdrs, Access) && InOrder(s.pdrs, Core)
  {
    FromSourceSortedIff(s.pdrs, Access);
    FromSourceSortedIff(s.pdrs, Core);
  }

  /** Two ACCESS PDRs that do not. */
  lemma NotInOrder()
    ensures var s := Session(5, [AccessPdr(1, 1).(precedence := 20), AccessPdr(2, 1).(precedence := 10)], [], [], [], [], [], [], []);
      !ListsRight(s.(pdrsUplink := FromSource(s.pdrs, Access), pdrsDownlink := FromSource(s.pdrs, Core)))
  {
    var s := Session(5, [AccessPdr(1, 1).(precedence := 20), AccessPdr(2, 1).(precedence := 10)], [], [], [], [], [], [], []);
    assert SourceOf(s.pdrs[0]) == Some(Access) == SourceOf(s.pdrs[1]);
    JustDerivedRightIff(s.(pdrsUplink := FromSource(s.pdrs, Access), pdrsDownlink := FromSource(s.pdrs, Core)));
  }

  // ---------------------------------------------------------------- lists of objects

  function From(pdrs: seq<PdrObject>, source: SourceInterface): seq<PdrObject>
    reads pdrs
  {
    if pdrs == [] then []
    else
      var n := |pdrs| - 1;
      From(pdrs[..n], source) + if SourceOf(pdrs[n].value) == Some(source) then [pdrs[n]] else []
  }

  /** The QERs those PDRs lead to, once for each PDR. */
  function QersFrom(pdrs: seq<PdrObject>, qers: seq<QerObject>, source: SourceInterface): seq<QerObject>
    reads pdrs, qers
  {
    if pdrs == [] then []
    else
      var n := |pdrs| - 1;
      QersFrom(pdrs[..n], qers, source) + if SourceOf(pdrs[n].value) == Some(source) then QerOfObject(qers, pdrs[n].value) else []
  }

  /** The QER a PDR leads to, if there is one. */
  function QerOfObject(qers: seq<QerObject>, pdr: Pdr): seq<QerObject>
    reads qers
  {
    var i := if pdr.qerId.Some? then At(QerId, Values(qers), pdr.qerId) else |qers|;
    if i < |qers| then [qers[i]] else []
  }

  /** The loop of CategorizePdrs, before its first turn and at each one. */
  lemma FromNone()
    ensures forall source :: From([], source) == []
    ensures forall qers, source :: QersFrom([], qers, source) == []
  {}

  lemma FromMore(pdrs: seq<PdrObject>, qers: seq<QerObject>, i: nat)
    requires i < |pdrs|
    ensures forall source :: From(pdrs[..i + 1], source) == From(pdrs[..i], source) + if SourceOf(pdrs[i].value) == Some(source) then [pdrs[i]] else []
    ensures forall source :: QersFrom(pdrs[..i + 1], qers, source)
              == QersFrom(pdrs[..i], qers, source) + if SourceOf(pdrs[i].value) == Some(source) then QerOfObject(qers, pdrs[i].value) else []
  {
    assert pdrs[..i + 1][..i] == pdrs[..i];
  }

  /** c is the first QER object of the list with the id the PDR names. */
  ghost predicate NamesQer(qers: seq<QerObject>, pdr: Pdr, c: QerObject)
    reads qers
  {
    pdr.qerId.Some? && exists j :: 0 <= j < |qers| && qers[j] == c && c.value.id == pdr.qerId.value && forall k :: 0 <= k < j ==> qers[k].value.id != pdr.qerId.value
  }

  /** The derived QER list holds just the QERs that PDRs of the interface name. */
  lemma {:induction false} QersFromAre(pdrs: seq<PdrObject>, qers: seq<QerObject>, source: SourceInterface, c: QerObject)
    ensures c in QersFrom(pdrs, qers, source) <==>
      exists i :: 0 <= i < |pdrs| && SourceOf(pdrs[i].value) == Some(source) && NamesQer(qers, pdrs[i].value, c)
    ensures |QersFrom(pdrs, qers, source)| <= |From(pdrs, source)|
  {
    hide NamesQer, QerOfObject;
    if pdrs != [] {
      var n := |pdrs| - 1;
      QersFromAre(pdrs[..n], qers, source, c);
      QerOfObjectIs(qers, pdrs[n].value, c);
      assert forall i :: 0 <= i < n ==> pdrs[..n][i] == pdrs[i];
      if c in QersFrom(pdrs, qers, source) && c !in QersFrom(pdrs[..n], qers, source) {
        assert SourceOf(pdrs[n].value) == Some(source) && NamesQer(qers, pdrs[n].value, c);
      }
    }
  }

  lemma QerOfObjectIs(qers: seq<QerObject>, pdr: Pdr, c: QerObject)
    ensures (c in QerOfObject(qers, pdr) <==> NamesQer(qers, pdr, c)) && |QerOfObject(qers, pdr)| <= 1
  {
    if pdr.qerId.Some? {
      var i := At(QerId, Values(qers), pdr.qerId);
      if NamesQer(qers, pdr, c) {
        var j :| 0 <= j < |qers| && qers[j] == c && c.value.id == pdr.qerId.value && forall k :: 0 <= k < j ==> qers[k].value.id != pdr.qerId.value;
        assert i == j by { assert Some(QerId(Values(qers)[j])) == pdr.qerId; }
      }
    }
  }

  lemma {:induction false} FromValues(pdrs: seq<PdrObject>, source: SourceInterface)
    ensures Values(From(pdrs, source)) == FromSource(Values(pdrs), source)
  {
    if pdrs != [] {
      var n := |pdrs| - 1;
      FromValues(pdrs[..n], source);
      assert Values(pdrs)[..n] == Values(pdrs[..n]);
    }
  }

  lemma {:induction false} FromCount(pdrs: seq<PdrObject>, source: SourceInterface, c: PdrObject)
    ensures multiset(From(pdrs, source))[c] == if SourceOf(c.value) == Some(source) then multiset(pdrs)[c] else 0
  {
    if pdrs != [] {
      var n := |pdrs| - 1;
      assert pdrs == pdrs[..n] + [pdrs[n]];
      FromCount(pdrs[..n], source, c);
    }
  }

  lemma {:induction false} ErasedCount(pdrs: seq<PdrObject>, id: nat, c: PdrObject)
    ensures multiset(Erased(PdrId, pdrs, id))[c] == if c.value.id == id then 0 else multiset(pdrs)[c]
  {
    if pdrs != [] {
      assert pdrs == [pdrs[0]] + pdrs[1..];
      ErasedCount(pdrs[1..], id, c);
    }
  }

  // The same, for the values the objects have at some time.

  function FromBy(pdrs: seq<PdrObject>, vs: seq<Pdr>, source: SourceInterface): seq<PdrObject>
    requires |vs| == |pdrs|
  {
    if pdrs == [] then []
    else
      var n := |pdrs| - 1;
      FromBy(pdrs[..n], vs[..n], source) + if SourceOf(vs[n]) == Some(source) then [pdrs[n]] else []
  }

  lemma {:induction false} FromIsBy(pdrs: seq<PdrObject>, source: SourceInterface)
    ensures From(pdrs, source) == FromBy(pdrs, Values(pdrs), source)
  {
    if pdrs != [] {
      var n := |pdrs| - 1;
      FromIsBy(pdrs[..n], source);
      assert Values(pdrs)[..n] == Values(pdrs[..n]);
    }
  }

  /** An object has one value, however often it is listed. */
  ghost predicate OneValueEach(pdrs: seq<PdrObject>, vs: seq<Pdr>)
    requires |vs| == |pdrs|
  {
    forall i, j :: 0 <= i < |pdrs| && 0 <= j < |pdrs| && pdrs[i] == pdrs[j] ==> vs[i] == vs[j]
  }

  lemma OneValueNow(pdrs: seq<PdrObject>)
    ensures OneValueEach(pdrs, Values(pdrs))
  {}

  lemma {:induction false} SameSidesBy(pdrs: seq<PdrObject>, vs: seq<Pdr>, us: seq<Pdr>, source: SourceInterface)
    requires |us| == |vs| == |pdrs| && forall i :: 0 <= i < |vs| ==> (SourceOf(vs[i]) == Some(source) <==> SourceOf(us[i]) == Some(source))
    ensures FromBy(pdrs, vs, source) == FromBy(pdrs, us, source)
  {
    if pdrs != [] {
      var n := |pdrs| - 1;
      SameSidesBy(pdrs[..n], vs[..n], us[..n], source);
    }
  }

  lemma CountBy(pdrs: seq<PdrObject>, vs: seq<Pdr>, source: SourceInterface, i: nat)
    requires |vs| == |pdrs| && OneValueEach(pdrs, vs) && i < |pdrs|
    ensures multiset(FromBy(pdrs, vs, source))[pdrs[i]] > 0 <==> SourceOf(vs[i]) == Some(source)
  {
    ListedBy(pdrs, vs, source, pdrs[i]);
  }

  lemma {:induction false} ListedBy(pdrs: seq<PdrObject>, vs: seq<Pdr>, source: SourceInterface, c: PdrObject)
    requires |vs| == |pdrs|
    ensures multiset(FromBy(pdrs, vs, source))[c] > 0 <==> IsListed(pdrs, vs, source, c)
  {
    hide IsListed;
    NotListed(source, c);
    if pdrs != [] {
      var n := |pdrs| - 1;
      ListedBy(pdrs[..n], vs[..n], source, c);
      ListedMore(pdrs, vs, source, c);
    }
  }

  lemma ListedMore(pdrs: seq<PdrObject>, vs: seq<Pdr>, source: SourceInterface, c: PdrObject)
    requires |vs| == |pdrs| > 0
    ensures var n := |pdrs| - 1;
      IsListed(pdrs, vs, source, c) <==> IsListed(pdrs[..n], vs[..n], source, c) || (pdrs[n] == c && SourceOf(vs[n]) == Some(source))
  {
    var n := |pdrs| - 1;
    var p, v := pdrs[..n], vs[..n];
    if j :| 0 <= j < n && p[j] == c && SourceOf(v[j]) == Some(source) {
      assert pdrs[j] == c && SourceOf(vs[j]) == Some(source);
    }
    if j :| 0 <= j < |pdrs| && pdrs[j] == c && SourceOf(vs[j]) == Some(source) {
      if j < n { assert p[j] == c && SourceOf(v[j]) == Some(source); }
    }
  }

  lemma NotListed(source: SourceInterface, c: PdrObject)
    ensures !IsListed([], [], source, c)
  {}

  predicate IsListed(pdrs: seq<PdrObject>, vs: seq<Pdr>, source: SourceInterface, c: PdrObject)
    requires |vs| == |pdrs|
  {
    exists j :: 0 <= j < |pdrs| && pdrs[j] == c && SourceOf(vs[j]) == Some(source)
  }

  /** Every PDR object but those called id is in the list as often as its interface says. */
  ghost predicate ListedBut(list: seq<PdrObject>, pdrs: seq<PdrObject>, source: SourceInterface, id: nat)
    reads list, pdrs
  {
    forall c | c in list + pdrs :: c.value.id != id ==> multiset(list)[c] == Due(pdrs, source, c)
  }

  ghost function Due(pdrs: seq<PdrObject>, source: SourceInterface, c: PdrObject): nat
    reads c
  {
    if SourceOf(c.value) == Some(source) then multiset(pdrs)[c] else 0
  }

  /** Erasing a PDR from the session and from a derived list gives the derived list of the rest
      exactly when the other PDRs were listed right. */
  lemma ErasedListIff(list: seq<PdrObject>, pdrs: seq<PdrObject>, source: SourceInterface, id: nat)
    ensures multiset(Erased(PdrId, list, id)) == multiset(From(Erased(PdrId, pdrs, id), source)) <==> ListedBut(list, pdrs, source, id)
  {
    hide Erased, From, Due;
    var a, b := multiset(Erased(PdrId, list, id)), multiset(From(Erased(PdrId, pdrs, id), source));
    if ListedBut(list, pdrs, source, id) {
      forall c | c in a + b ensures a[c] == b[c] {
        ErasedCounts(list, pdrs, source, id, c);
      }
      assert a == b;
    }
    if a == b {
      forall c | c in list + pdrs ensures c.value.id != id ==> multiset(list)[c] == Due(pdrs, source, c) {
        ErasedCounts(list, pdrs, source, id, c);
      }
    }
  }

  lemma ErasedCounts(list: seq<PdrObject>, pdrs: seq<PdrObject>, source: SourceInterface, id: nat, c: PdrObject)
    ensures multiset(Erased(PdrId, list, id))[c] == if c.value.id == id then 0 else multiset(list)[c]
    ensures multiset(From(Erased(PdrId, pdrs, id), source))[c] == if c.value.id == id then 0 else Due(pdrs, source, c)
    ensures c !in list && c !in pdrs ==> multiset(list)[c] == 0 == Due(pdrs, source, c)
  {
    ErasedCount(list, id, c);
    ErasedCount(pdrs, id, c);
    FromCount(Erased(PdrId, pdrs, id), source, c);
  }

  lemma ListedAll(list: seq<PdrObject>, pdrs: seq<PdrObject>, source: SourceInterface, id: nat)
    requires multiset(list) == multiset(From(pdrs, source))
    ensures ListedBut(list, pdrs, source, id)
  {
    forall c | c in list + pdrs
      ensures c.value.id != id ==> multiset(list)[c] == Due(pdrs, source, c)
    {
      FromCount(pdrs, source, c);
    }
  }

  /** Lists of the same objects are lists of the same PDRs. */
  lemma {:induction false} SameObjects(a: seq<PdrObject>, b: seq<PdrObject>)
    requires multiset(a) == multiset(b)
    ensures multiset(Values(a)) == multiset(Values(b))
    decreases |a|
  {
    hide Values;
    if a == [] {
      assert |b| == |multiset(b)| == 0;
      assert a == b;
    } else {
      var k := FoundIn(a, b);
      var ra, rb := a[..0] + a[1..], b[..k] + b[k + 1..];
      WithoutOne(a, 0);
      WithoutOne(b, k);
      assert multiset(ra) == multiset(rb);
      SameObjects(ra, rb);
    }
  }

  lemma FoundIn(a: seq<PdrObject>, b: seq<PdrObject>) returns (k: nat)
    requires a != [] && multiset(a) == multiset(b)
    ensures k < |b| && b[k] == a[0]
  {
    assert a[0] in multiset(a);
    k :| 0 <= k < |b| && b[k] == a[0];
  }

  lemma WithoutOne(b: seq<PdrObject>, k: nat)
    requires k < |b|
    ensures var rest := b[..k] + b[k + 1..];
      multiset(rest) == multiset(b) - multiset{b[k]} && multiset(Values(b)) == multiset(Values(rest)) + multiset{b[k].value}
  {
    var x, y := b[..k], b[k + 1..];
    assert b == x + [b[k]] + y;
    ValuesConcat(x + [b[k]], y);
    ValuesConcat(x, [b[k]]);
    ValuesConcat(x, y);
    assert Values([b[k]]) == [b[k].value];
  }

  lemma ValuesConcat(x: seq<PdrObject>, y: seq<PdrObject>)
    ensures Values(x + y) == Values(x) + Values(y)
  {}

  // ---------------------------------------------------------------- sorting

  /** std::sort, of which only the result is known: a permutation in order of precedence. */
  method SortPdrs(pdrs: seq<PdrObject>) returns (sorted: seq<PdrObject>)
    ensures multiset(sorted) == multiset(pdrs) && ByPrecedence(Values(sorted))
  {
    sorted := [];
    for n := 0 to |pdrs|
      invariant multiset(sorted) == multiset(pdrs[..n]) && ByPrecedence(Values(sorted))
    {
      sorted := InsertPdr(sorted, pdrs[n]);
      assert pdrs[..n + 1] == pdrs[..n] + [pdrs[n]];
    }
    assert pdrs[..|pdrs|] == pdrs;
  }

  method InsertPdr(sorted: seq<PdrObject>, p: PdrObject) returns (more: seq<PdrObject>)
    requires ByPrecedence(Values(sorted))
    ensures multiset(more) == multiset(sorted) + multiset{p} && ByPrecedence(Values(more))
  {
    hide ByPrecedence;
    var i := 0;
    while i < |sorted| && sorted[i].value.precedence <= p.value.precedence
      invariant 0 <= i <= |sorted| && forall j :: 0 <= j < i ==> sorted[j].value.precedence <= p.value.precedence
    {
      i := i + 1;
    }
    more := sorted[..i] + [p] + sorted[i..];
    PlacedSorted(Values(sorted), p.value, i);
    Placed(sorted, p, i);
  }

  lemma Placed(sorted: seq<PdrObject>, p: PdrObject, i: nat)
    requires i <= |sorted|
    ensures var more := sorted[..i] + [p] + sorted[i..];
      multiset(more) == multiset(sorted) + multiset{p} && Values(more) == Values(sorted)[..i] + [p.value] + Values(sorted)[i..]
  {
    assert sorted == sorted[..i] + sorted[i..];
  }

  lemma PlacedSorted(sorted: seq<Pdr>, p: Pdr, i: nat)
    requires ByPrecedence(sorted) && i <= |sorted|
    requires forall j :: 0 <= j < i ==> sorted[j].precedence <= p.precedence
    requires i == |sorted| || p.precedence <= sorted[i].precedence
    ensures ByPrecedence(sorted[..i] + [p] + sorted[i..])
  {
    var r := sorted[..i] + [p] + sorted[i..];
    assert forall j :: i <= j < |sorted| ==> p.precedence <= sorted[j].precedence;
    assert forall k :: 0 <= k < |r| ==> r[k] == if k < i then sorted[k] else if k == i then p else sorted[k - 1];
  }
}
