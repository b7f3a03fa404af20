/** Lists of rules that are found by their id, patched and erased: one version for every kind of rule. */
module RuleLists {
  import opened Options

  /** How rules of type T are told apart, which rule an update of type U names, and what it does to it. */
  datatype Family<!T, !U> = Family(idOf: T -> nat, target: U -> Option<nat>, patch: (T, U) -> T)

  ghost predicate KeepsIds<T(!new), U(!new)>(f: Family<T, U>) {
    forall x, u :: f.idOf(f.patch(x, u)) == f.idOf(x)
  }

  /** The position of the first rule called id, or the length of the list. */
  function At<T>(idOf: T -> nat, xs: seq<T>, id: Option<nat>): (i: nat)
    ensures i <= |xs| && (i < |xs| ==> Some(idOf(xs[i])) == id) && (forall j :: 0 <= j < i ==> Some(idOf(xs[j])) != id)
  {
    if xs == [] || Some(idOf(xs[0])) == id then 0 else 1 + At(idOf, xs[1..], id)
  }

  /** Every update that names a rule of the list is applied to the first one of that id. */
  function Updated<T, U>(f: Family<T, U>, xs: seq<T>, us: seq<U>): (r: seq<T>)
    ensures |r| == |xs|
    decreases |us|
  {
    if us == [] then xs
    else
      var before := Updated(f, xs, us[..|us| - 1]);
      var u := us[|us| - 1];
      var i := At(f.idOf, xs, f.target(u));
      if i < |xs| then before[i := f.patch(before[i], u)] else before
  }

  /** Some update names a rule of the list. */
  predicate Hit<T, U>(f: Family<T, U>, xs: seq<T>, us: seq<U>) {
    exists i :: 0 <= i < |us| && Names(f, xs, us[i])
  }

  predicate Names<T, U>(f: Family<T, U>, xs: seq<T>, u: U) {
    At(f.idOf, xs, f.target(u)) < |xs|
  }

  /** What erasing every rule called id leaves, in order. */
  function Without<T>(idOf: T -> nat, xs: seq<T>, id: nat): seq<T> {
    if xs == [] then [] else (if idOf(xs[0]) == id then [] else [xs[0]]) + Without(idOf, xs[1..], id)
  }

  lemma {:induction false} UpdatedIds<T(!new), U(!new)>(f: Family<T, U>, xs: seq<T>, us: seq<U>)
    requires KeepsIds(f)
    ensures forall i :: 0 <= i < |xs| ==> f.idOf(Updated(f, xs, us)[i]) == f.idOf(xs[i])
    decreases |us|
  {
    if us != [] {
      UpdatedIds(f, xs, us[..|us| - 1]);
    }
  }

  /** now is what the last of the updates naming id that gives a value gives, or else was. */
  ghost predicate LastGivenIs<U(!new), X(!new)>(target: U -> Option<nat>, id: nat, us: seq<U>, given: U -> Option<X>, was: X, now: X) {
    if exists n :: 0 <= n < |us| && Gives(target, id, us[n], given)
    then exists n :: 0 <= n < |us| && Gives(target, id, us[n], given) && given(us[n]) == Some(now)
           && forall m :: n < m < |us| ==> !Gives(target, id, us[m], given)
    else now == was
  }

  predicate Gives<U, X>(target: U -> Option<nat>, id: nat, u: U, given: U -> Option<X>) {
    target(u) == Some(id) && given(u).Some?
  }

  /** A field that a patch sets when its update gives a value and keeps otherwise: the first rule of
      an id ends with what the last such update gave. */
  lemma {:induction false} LastGivenStays<T(!new), U(!new), X(!new)>(f: Family<T, U>, xs: seq<T>, us: seq<U>, i: nat,
                                                                     field: T -> X, given: U -> Option<X>)
    requires KeepsIds(f) && i < |xs| && forall j :: 0 <= j < i ==> f.idOf(xs[j]) != f.idOf(xs[i])
    requires forall x, u :: field(f.patch(x, u)) == if given(u).Some? then given(u).value else field(x)
    ensures LastGivenIs(f.target, f.idOf(xs[i]), us, given, field(xs[i]), field(Updated(f, xs, us)[i]))
    decreases |us|
  {
    hide KeepsIds;
    if us != [] {
      var n := |us| - 1;
      LastGivenStays(f, xs, us[..n], i, field, given);
      FirstIsFound(f, xs, us[n], i);
      OneMoreGiven(f.target, f.idOf(xs[i]), us, given, field(xs[i]), field(Updated(f, xs, us[..n])[i]), field(Updated(f, xs, us)[i]));
    }
  }

  /** The first rule of its id is the one an update of that id finds. */
  lemma FirstIsFound<T, U>(f: Family<T, U>, xs: seq<T>, u: U, i: nat)
    requires i < |xs| && forall j :: 0 <= j < i ==> f.idOf(xs[j]) != f.idOf(xs[i])
    ensures At(f.idOf, xs, f.target(u)) == i <==> f.target(u) == Some(f.idOf(xs[i]))
  {}

  lemma OneMoreGiven<U(!new), X(!new)>(target: U -> Option<nat>, id: nat, us: seq<U>, given: U -> Option<X>, was: X, before: X, now: X)
    requires us != [] && LastGivenIs(target, id, us[..|us| - 1], given, was, before)
    requires now == if Gives(target, id, us[|us| - 1], given) then given(us[|us| - 1]).value else before
    ensures LastGivenIs(target, id, us, given, was, now)
  {
    var n := |us| - 1;
    assert forall m :: 0 <= m < n ==> us[..n][m] == us[m];
    if !Gives(target, id, us[n], given) && exists m :: 0 <= m < n && Gives(target, id, us[m], given) {
      var m :| 0 <= m < n && Gives(target, id, us[..n][m], given) && given(us[..n][m]) == Some(before)
        && forall k :: m < k < n ==> !Gives(target, id, us[..n][k], given);
      assert Gives(target, id, us[m], given) && forall k :: m < k < |us| ==> !Gives(target, id, us[k], given);
    }
  }

  lemma {:induction false} SameAt<T>(idOf: T -> nat, a: seq<T>, b: seq<T>, id: Option<nat>)
    requires |a| == |b| && forall i :: 0 <= i < |a| ==> idOf(a[i]) == idOf(b[i])
    ensures At(idOf, a, id) == At(idOf, b, id)
  {
    if a != [] { SameAt(idOf, a[1..], b[1..], id); }
  }

  /** An update loop before its first turn, and at each one. */
  lemma NoUpdates<T, U>(f: Family<T, U>, xs: seq<T>)
    ensures Updated(f, xs, []) == xs && !Hit(f, xs, [])
  {}

  lemma Turn<T(!new), U(!new)>(f: Family<T, U>, xs: seq<T>, us: seq<U>, n: nat)
    requires KeepsIds(f) && n < |us|
    ensures var before := Updated(f, xs, us[..n]);
            var i := At(f.idOf, before, f.target(us[n]));
      && Updated(f, xs, us[..n + 1]) == (if i < |before| then before[i := f.patch(before[i], us[n])] else before)
      && (Hit(f, xs, us[..n + 1]) <==> Hit(f, xs, us[..n]) || i < |before|)
  {
    assert us[..n + 1][..n] == us[..n];
    UpdatedIds(f, xs, us[..n]);
    SameAt(f.idOf, xs, Updated(f, xs, us[..n]), f.target(us[n]));
    HitGrows(f, xs, us, n);
  }

  lemma HitGrows<T, U>(f: Family<T, U>, xs: seq<T>, us: seq<U>, n: nat)
    requires n < |us|
    ensures Hit(f, xs, us[..n + 1]) <==> Hit(f, xs, us[..n]) || Names(f, xs, us[n])
  {
    hide Names;
    assert us[..n + 1][n] == us[n];
    assert forall i :: 0 <= i < n ==> us[..n + 1][i] == us[..n][i];
  }

  lemma {:induction false} UnhitStays<T, U>(f: Family<T, U>, xs: seq<T>, us: seq<U>)
    requires !Hit(f, xs, us)
    ensures Updated(f, xs, us) == xs
    decreases |us|
  {
    if us != [] {
      var n := |us| - 1;
      assert us[..n + 1] == us;
      HitGrows(f, xs, us, n);
      UnhitStays(f, xs, us[..n]);
    }
  }

  lemma {:induction false} WithoutElements<T(!new)>(idOf: T -> nat, xs: seq<T>, id: nat)
    ensures forall x :: x in Without(idOf, xs, id) <==> x in xs && idOf(x) != id
    ensures |Without(idOf, xs, id)| <= |xs|
  {
    if xs != [] {
      assert forall x :: x in xs <==> x == xs[0] || x in xs[1..];
      WithoutElements(idOf, xs[1..], id);
    }
  }

  predicate ToldApart<T>(idOf: T -> nat, xs: seq<T>) {
    forall i, j :: 0 <= i < j < |xs| ==> idOf(xs[i]) != idOf(xs[j])
  }

  lemma ToldApartFirst<T>(idOf: T -> nat, x: T, rest: seq<T>)
    ensures ToldApart(idOf, [x] + rest) <==> ToldApart(idOf, rest) && forall i :: 0 <= i < |rest| ==> idOf(x) != idOf(rest[i])
  {
    var xs := [x] + rest;
    assert forall i :: 0 <= i < |rest| ==> xs[i + 1] == rest[i];
    if ToldApart(idOf, xs) {
      forall i | 0 <= i < |rest| ensures idOf(x) != idOf(rest[i]) {
        assert idOf(xs[0]) != idOf(xs[i + 1]);
      }
      forall i, j | 0 <= i < j < |rest| ensures idOf(rest[i]) != idOf(rest[j]) {
        assert idOf(xs[i + 1]) != idOf(xs[j + 1]);
      }
    }
  }

  /** Ids told apart before are told apart after. */
  lemma {:induction false} WithoutToldApart<T>(idOf: T -> nat, xs: seq<T>, id: nat)
    requires ToldApart(idOf, xs)
    ensures ToldApart(idOf, Without(idOf, xs, id))
    ensures forall i :: 0 <= i < |Without(idOf, xs, id)| ==> Without(idOf, xs, id)[i] in xs
  {
    hide ToldApart;
    if xs == [] {
      assert Without(idOf, xs, id) == xs;
    } else {
      var x, others := xs[0], xs[1..];
      var rest := Without(idOf, others, id);
      assert xs == [x] + others;
      ToldApartFirst(idOf, x, others);
      WithoutToldApart(idOf, others, id);
      if idOf(x) == id {
        assert Without(idOf, xs, id) == rest;
      } else {
        forall i | 0 <= i < |rest| ensures idOf(x) != idOf(rest[i]) {
          assert rest[i] in others;
        }
        ToldApartFirst(idOf, x, rest);
      }
    }
  }

  /** A list keeps its values except where its objects stand in another list too, whose values now are others. */
  function Seen<T>(own: seq<T>, share: seq<nat>, others: seq<T>): seq<T>
    requires |share| == |own|
  {
    seq(|own|, i requires 0 <= i < |own| => if share[i] < |others| then others[share[i]] else own[i])
  }
}
