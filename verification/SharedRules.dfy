/** Rule objects, which several session objects may hold at once. */
module SharedRules {
  import opened Options
  import opened RuleLists

  /** K tells apart kinds of object that carry the same data. */
  class Shared<T, K> {
    var value: T

    constructor (value: T)
      ensures this.value == value
    {
      this.value := value;
    }
  }

  function Values<T, K>(cells: seq<Shared<T, K>>): (vs: seq<T>)
    reads cells
    ensures |vs| == |cells| && forall i :: 0 <= i < |cells| ==> vs[i] == cells[i].value
  {
    seq(|cells|, i requires 0 <= i < |cells| reads cells => cells[i].value)
  }

  /** No object stands twice in the list. */
  predicate Once<T, K>(cells: seq<Shared<T, K>>) {
    forall i, j :: 0 <= i < j < |cells| ==> cells[i] != cells[j]
  }

  /** Applies each update in place, to the first object of the id it names. */
  method Patch<T(!new), K, U(!new)>(f: Family<T, U>, cells: seq<Shared<T, K>>, us: seq<U>) returns (updated: nat)
    requires Once(cells) && KeepsIds(f)
    modifies cells
    ensures Values(cells) == Updated(f, old(Values(cells)), us)
    ensures updated > 0 <==> Hit(f, old(Values(cells)), us)
    ensures updated == 0 ==> unchanged(cells)
  {
    hide Hit, Updated, At, KeepsIds;
    updated := 0;
    ghost var vs := Values(cells);
    NoUpdates(f, vs);
    for n := 0 to |us|
      invariant Values(cells) == Updated(f, vs, us[..n])
      invariant updated > 0 <==> Hit(f, vs, us[..n])
      invariant updated == 0 ==> unchanged(cells)
    {
      Turn(f, vs, us, n);
      var i := At(f.idOf, Values(cells), f.target(us[n]));
      if i < |cells| {
        ghost var before := Values(cells);
        cells[i].value := f.patch(cells[i].value, us[n]);
        assert Values(cells) == before[i := f.patch(before[i], us[n])];
        updated := updated + 1;
      }
    }
    assert us[..|us|] == us;
  }

  /** The objects that are not called id, in order. */
  function Erased<T, K>(idOf: T -> nat, cells: seq<Shared<T, K>>, id: nat): seq<Shared<T, K>>
    reads cells
  {
    if cells == [] then [] else (if idOf(cells[0].value) == id then [] else [cells[0]]) + Erased(idOf, cells[1..], id)
  }

  lemma {:induction false} ErasedValues<T, K>(idOf: T -> nat, cells: seq<Shared<T, K>>, id: nat)
    ensures Values(Erased(idOf, cells, id)) == Without(idOf, Values(cells), id)
  {
    if cells != [] {
      ErasedValues(idOf, cells[1..], id);
      assert Values(cells)[1..] == Values(cells[1..]);
    }
  }

  // ---------------------------------------------------------------- one list seen through another

  /** Where each object of own stands in others, or the length of others. */
  function Share<T, K>(own: seq<Shared<T, K>>, others: seq<Shared<T, K>>): (r: seq<nat>)
    ensures |r| == |own|
  {
    seq(|own|, i requires 0 <= i < |own| => Position(own[i], others))
  }

  function Position<T, K>(c: Shared<T, K>, cells: seq<Shared<T, K>>): (i: nat)
    ensures i <= |cells| && (i < |cells| ==> cells[i] == c) && (i == |cells| <==> c !in cells)
  {
    if cells == [] || cells[0] == c then 0 else 1 + Position(c, cells[1..])
  }

  /** Objects that changed only in others are seen changed in own. */
  lemma SeenChanged<T, K>(own: seq<Shared<T, K>>, others: seq<Shared<T, K>>, was: seq<T>)
    requires |was| == |own| && forall i :: 0 <= i < |own| && own[i] !in others ==> own[i].value == was[i]
    ensures Values(own) == Seen(was, Share(own, others), Values(others))
  {}
}
