/**
 * An ordered map from price to quantity, as the `BTreeMap` the Rust book
 * reconstruction fills: a sequence of levels in strictly increasing price
 * order, where inserting at a price already present replaces its quantity.
 */
module LevelMap {
  import opened Wrappers
  import opened Records

  predicate Ascending(ls: seq<Level>)
  {
    forall i, j :: 0 <= i < j < |ls| ==> ls[i].price < ls[j].price
  }

  /** A price-keyed map: levels in strictly increasing price order. */
  type PriceMap = ls: seq<Level> | Ascending(ls) witness []

  predicate Descending(ls: seq<Level>)
  {
    forall i, j :: 0 <= i < j < |ls| ==> ls[i].price > ls[j].price
  }

  /** The quantity stored at price `p`, if any. */
  function Get(ls: seq<Level>, p: int): (r: Option<int>)
    ensures r.Some? ==> Level(p, r.value) in ls
    ensures r.None? ==> forall i :: 0 <= i < |ls| ==> ls[i].price != p
  {
    if ls == [] then None
    else if ls[0].price == p then Some(ls[0].quantity)
    else Get(ls[1..], p)
  }

  /** `BTreeMap::insert`: afterwards `p` maps to `q` and every other price keeps its quantity. */
  function Insert(ls: seq<Level>, p: int, q: int): (r: seq<Level>)
    requires Ascending(ls)
    ensures Ascending(r)
    ensures r != [] && r[0].price == if ls == [] || p < ls[0].price then p else ls[0].price
  {
    if ls == [] || p < ls[0].price then [Level(p, q)] + ls
    else if ls[0].price == p then [Level(p, q)] + ls[1..]
    else [ls[0]] + Insert(ls[1..], p, q)
  }

  lemma {:induction false} GetInsert(ls: seq<Level>, p: int, q: int, x: int)
    requires Ascending(ls)
    ensures Get(Insert(ls, p, q), x) == if x == p then Some(q) else Get(ls, x)
    decreases |ls|
  {
    var r := Insert(ls, p, q);
    if ls == [] || p < ls[0].price {
      assert r[1..] == ls;
    } else if ls[0].price == p {
      assert r[1..] == ls[1..];
    } else {
      assert r[1..] == Insert(ls[1..], p, q);
      GetInsert(ls[1..], p, q, x);
    }
  }

  /** In an ascending sequence a level is present exactly when its price looks up to its quantity. */
  lemma {:induction false} GetIff(ls: seq<Level>, p: int, q: int)
    requires Ascending(ls)
    ensures Get(ls, p) == Some(q) <==> Level(p, q) in ls
    decreases |ls|
  {
    if ls != [] && ls[0].price != p {
      GetIff(ls[1..], p, q);
      if Level(p, q) in ls {
        var i :| 0 <= i < |ls| && ls[i] == Level(p, q);
        assert ls[1..][i - 1] == ls[i];
      }
    }
  }

  /** Afterwards `p` is absent and every other price keeps its quantity (`dict.pop(p, None)`). */
  function Remove(ls: seq<Level>, p: int): (r: seq<Level>)
    requires Ascending(ls)
    ensures Ascending(r)
    ensures r != [] ==> ls != [] && r[0].price >= ls[0].price
  {
    if ls == [] then []
    else if ls[0].price == p then ls[1..]
    else [ls[0]] + Remove(ls[1..], p)
  }

  lemma {:induction false} GetRemove(ls: seq<Level>, p: int, x: int)
    requires Ascending(ls)
    ensures Get(Remove(ls, p), x) == if x == p then None else Get(ls, x)
    decreases |ls|
  {
    if ls != [] {
      if ls[0].price == p {
        if x == p {
          var r := ls[1..];
          assert forall i :: 0 <= i < |r| ==> r[i].price > p;
        }
      } else {
        var r := Remove(ls, p);
        assert r[1..] == Remove(ls[1..], p);
        GetRemove(ls[1..], p, x);
      }
    }
  }

  /** `Insert` and `Remove` change the lookup at one price only. */
  lemma Updates(ls: seq<Level>, p: int, q: int)
    requires Ascending(ls)
    ensures forall x :: Get(Insert(ls, p, q), x) == if x == p then Some(q) else Get(ls, x)
    ensures forall x :: Get(Remove(ls, p), x) == if x == p then None else Get(ls, x)
  {
    forall x
      ensures Get(Insert(ls, p, q), x) == if x == p then Some(q) else Get(ls, x)
      ensures Get(Remove(ls, p), x) == if x == p then None else Get(ls, x)
    {
      GetInsert(ls, p, q, x);
      GetRemove(ls, p, x);
    }
  }

  /** The first level has the lowest price present and the last level the highest. */
  lemma Extremes(ls: seq<Level>, x: int)
    requires Ascending(ls)
    requires Get(ls, x).Some?
    ensures ls[0].price <= x <= ls[|ls| - 1].price
  {
    var i :| 0 <= i < |ls| && ls[i] == Level(x, Get(ls, x).value);
  }

  /** The levels from the highest price down (`iter().rev()`). */
  function Reverse(ls: seq<Level>): (r: seq<Level>)
    ensures |r| == |ls|
    ensures forall i :: 0 <= i < |ls| ==> r[i] == ls[|ls| - 1 - i]
  {
    if ls == [] then [] else Reverse(ls[1..]) + [ls[0]]
  }

  lemma ReverseDescending(ls: seq<Level>)
    requires Ascending(ls)
    ensures Descending(Reverse(ls))
    ensures forall l :: l in Reverse(ls) <==> l in ls
  {
    var r := Reverse(ls);
    forall l | l in ls
      ensures l in r
    {
      var i :| 0 <= i < |ls| && ls[i] == l;
      assert r[|ls| - 1 - i] == l;
    }
  }
}
