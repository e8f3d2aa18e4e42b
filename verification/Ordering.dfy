/** Insertion into an ordered list of row ids: the ORDER BY of the candidate queries. */
module Ordering {

  type Precedes = (nat, nat) -> bool

  ghost predicate Ordered(before: Precedes, ids: seq<nat>) {
    forall i, j :: 0 <= i < j < |ids| ==> before(ids[i], ids[j])
  }

  ghost predicate Transitive(before: Precedes) {
    forall x, y, z :: before(x, y) && before(y, z) ==> before(x, z)
  }

  ghost predicate Distinct(ids: seq<nat>) {
    forall i, j :: 0 <= i < j < |ids| ==> ids[i] != ids[j]
  }

  function Insert(before: Precedes, id: nat, ids: seq<nat>): (r: seq<nat>)
    ensures forall x: nat :: x in r <==> x == id || x in ids
  {
    if ids == [] || before(id, ids[0]) then [id] + ids
    else [ids[0]] + Insert(before, id, ids[1..])
  }

  lemma {:induction false} InsertKeepsOrder(before: Precedes, id: nat, ids: seq<nat>)
    requires Transitive(before) && Ordered(before, ids)
    requires forall x :: x in ids ==> before(id, x) || before(x, id)
    ensures Ordered(before, Insert(before, id, ids))
  {
    if ids != [] {
      if before(id, ids[0]) {
        forall j | 0 <= j < |ids| ensures before(id, ids[j]) {}
      } else {
        var rest := Insert(before, id, ids[1..]);
        InsertKeepsOrder(before, id, ids[1..]);
        forall j | 0 <= j < |rest| ensures before(ids[0], rest[j]) {
          assert rest[j] == id || rest[j] in ids[1..];
        }
      }
    }
  }

  /** An order leaves one list only: the query's answer is determined. */
  lemma {:induction false} OrderIsUnique(before: Precedes, xs: seq<nat>, ys: seq<nat>)
    requires Transitive(before) && forall x :: !before(x, x)
    requires Ordered(before, xs) && Ordered(before, ys)
    requires forall x :: x in xs <==> x in ys
    ensures xs == ys
  {
    assert |xs| > 0 ==> xs[0] in xs;
    assert |ys| > 0 ==> ys[0] in ys;
    if xs != [] && ys != [] {
      FirstIsLeast(before, xs, ys[0]);
      FirstIsLeast(before, ys, xs[0]);
      forall x ensures x in xs[1..] <==> x in ys[1..] {
        assert x in xs <==> x == xs[0] || x in xs[1..];
        assert x in ys <==> x == ys[0] || x in ys[1..];
      }
      OrderIsUnique(before, xs[1..], ys[1..]);
      assert xs == [xs[0]] + xs[1..] && ys == [ys[0]] + ys[1..];
    }
  }

  lemma FirstIsLeast(before: Precedes, xs: seq<nat>, x: nat)
    requires Ordered(before, xs) && x in xs
    ensures xs[0] == x || before(xs[0], x)
  {
    var i :| 0 <= i < |xs| && xs[i] == x;
  }
}
