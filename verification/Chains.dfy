/** The coalesced chains that all three tables of lualib-src/pbc/src/map.c keep: a key sits
    in its home slot or in a slot borrowed from elsewhere and linked in right behind the home
    slot, so that chains of different homes grow together. */
module Chains {
  import opened Words

  /** What the chains need of a slot: its key, if any, and one more than the index of the
      next slot, or zero. */
  datatype Cell<K> = Cell(key: Option<K>, next: nat)

  /** Where each key is, which chain each slot belongs to (named by the slot that opened it)
      and how far along the chain it is. */
  datatype Shape<!K> = Shape(where: map<K, nat>, chain: seq<nat>, rank: seq<real>)

  ghost predicate Used<K>(t: seq<Cell<K>>, i: int) { 0 <= i < |t| && t[i].key.Some? }

  ghost predicate Link<K>(t: seq<Cell<K>>, i: int, j: int) {
    0 <= i < |t| && 0 <= j < |t| && t[i].next == j + 1
  }

  /** Slot `i` comes before slot `j` in the chain of both. */
  ghost predicate Before<K>(t: seq<Cell<K>>, s: Shape<K>, i: int, j: int)
    requires |s.chain| == |s.rank| == |t|
  {
    Used(t, i) && Used(t, j) && s.chain[i] == s.chain[j] && s.rank[i] < s.rank[j]
  }

  ghost predicate KeysPlaced<K(!new)>(t: seq<Cell<K>>, s: Shape<K>) {
    && (forall k {:trigger k in s.where} :: k in s.where ==> Used(t, s.where[k]) && t[s.where[k]].key == Some(k))
    && (forall i {:trigger Used(t, i)} :: Used(t, i) ==> t[i].key.value in s.where && s.where[t[i].key.value] == i)
  }

  ghost predicate HomesReach<K(!new)>(t: seq<Cell<K>>, home: K -> nat, s: Shape<K>)
    requires |s.chain| == |s.rank| == |t| && KeysPlaced(t, s)
  {
    forall k {:trigger k in s.where} :: k in s.where ==>
      home(k) == s.where[k] || Before(t, s, home(k), s.where[k])
  }

  /** A link goes to the very next slot of the same chain. */
  ghost predicate Linked<K>(t: seq<Cell<K>>, s: Shape<K>)
    requires |s.chain| == |s.rank| == |t|
  {
    && (forall i {:trigger t[i].next} :: 0 <= i < |t| ==> t[i].next <= |t|)
    && (forall i {:trigger Used(t, i)} :: Used(t, i) ==> s.chain[i] < |t| && t[s.chain[i]].key.Some?)
    && (forall i, j {:trigger Link(t, i, j)} :: Link(t, i, j) ==> Before(t, s, i, j))
    && (forall i, j {:trigger Before(t, s, i, j)} :: Before(t, s, i, j) ==>
          0 < t[i].next <= |t| && s.rank[t[i].next - 1] <= s.rank[j])
    && (forall i, j {:trigger Used(t, i), Used(t, j)} ::
          Used(t, i) && Used(t, j) && s.chain[i] == s.chain[j] && i != j ==> s.rank[i] != s.rank[j])
  }

  ghost predicate Chained<K(!new)>(t: seq<Cell<K>>, home: K -> nat, s: Shape<K>) {
    && |s.chain| == |s.rank| == |t|
    && KeysPlaced(t, s)
    && HomesReach(t, home, s)
    && Linked(t, s)
  }

  ghost function EmptyShape<K>(n: nat): Shape<K> {
    Shape(map[], seq(n, i => 0), seq(n, i => 0.0))
  }

  lemma EmptyChained<K(!new)>(t: seq<Cell<K>>, home: K -> nat)
    requires forall i :: 0 <= i < |t| ==> t[i] == Cell(None, 0)
    ensures Chained(t, home, EmptyShape(|t|))
  {
    assert forall i :: !Used(t, i);
  }

  // ----- putting a key in its empty home slot -----------------------------------

  ghost function ShapeAtHome<K>(s: Shape<K>, k: K, h: nat): Shape<K>
    requires h < |s.chain| == |s.rank|
  {
    Shape(s.where[k := h], s.chain[h := h], s.rank)
  }

  lemma InsertAtHome<K(!new)>(t: seq<Cell<K>>, home: K -> nat, s: Shape<K>, k: K)
    requires Chained(t, home, s) && k !in s.where
    requires home(k) < |t| && t[home(k)] == Cell(None, 0)
    ensures Chained(t[home(k) := Cell(Some(k), 0)], home, ShapeAtHome(s, k, home(k)))
  {
    OrderAtHome(t, s, k, home(k));
    hide Before;
    KeysAtHome(t, home, s, k);
    LinksAtHome(t, s, k, home(k));
    hide Linked;
    hide KeysPlaced;
    hide HomesReach;
    hide ShapeAtHome;
  }

  /** The order of the slots in use stays, and the new one is alone in its chain. */
  lemma OrderAtHome<K(!new)>(t: seq<Cell<K>>, s: Shape<K>, k: K, h: nat)
    requires |s.chain| == |s.rank| == |t| && Linked(t, s) && h < |t| && t[h] == Cell(None, 0)
    ensures var (t', s') := (t[h := Cell(Some(k), 0)], ShapeAtHome(s, k, h));
            && (forall i :: Used(t', i) <==> i == h || Used(t, i))
            && (forall i :: Used(t, i) ==> s.chain[i] != h)
            && (forall i, j :: Before(t', s', i, j) <==> Before(t, s, i, j))
            && (forall i, j :: Link(t', i, j) ==> Link(t, i, j))
  {
    var t', s' := t[h := Cell(Some(k), 0)], ShapeAtHome(s, k, h);
    assert !Used(t, h);
    assert forall i :: Used(t', i) <==> i == h || Used(t, i);
    assert forall i :: Used(t, i) ==> s.chain[i] != h;
    hide Linked;
  }

  lemma KeysAtHome<K(!new)>(t: seq<Cell<K>>, home: K -> nat, s: Shape<K>, k: K)
    requires Chained(t, home, s) && k !in s.where && home(k) < |t| && t[home(k)] == Cell(None, 0)
    ensures var (t', s') := (t[home(k) := Cell(Some(k), 0)], ShapeAtHome(s, k, home(k)));
            |s'.chain| == |s'.rank| == |t'| && KeysPlaced(t', s') && HomesReach(t', home, s')
  {
    OrderAtHome(t, s, k, home(k));
    hide Linked;
    hide Before;
    assert !Used(t, home(k));
  }

  lemma LinksAtHome<K(!new)>(t: seq<Cell<K>>, s: Shape<K>, k: K, h: nat)
    requires |s.chain| == |s.rank| == |t| && Linked(t, s) && h < |t| && t[h] == Cell(None, 0)
    ensures Linked(t[h := Cell(Some(k), 0)], ShapeAtHome(s, k, h))
  {
    OrderAtHome(t, s, k, h);
    assert !Used(t, h);
    hide Before;
  }

  // ----- linking a borrowed slot in behind an occupied home slot ------------------

  ghost function RankBehind<K>(t: seq<Cell<K>>, s: Shape<K>, h: nat): real
    requires |s.rank| == |t| && h < |t| && t[h].next <= |t|
  {
    if t[h].next == 0 then s.rank[h] + 1.0 else (s.rank[h] + s.rank[t[h].next - 1]) / 2.0
  }

  ghost function ShapeBehind<K>(t: seq<Cell<K>>, s: Shape<K>, k: K, h: nat, e: nat): Shape<K>
    requires |s.chain| == |s.rank| == |t| && h < |t| && e < |t| && t[h].next <= |t|
  {
    Shape(s.where[k := e], s.chain[e := s.chain[h]], s.rank[e := RankBehind(t, s, h)])
  }

  function CellsBehind<K>(t: seq<Cell<K>>, k: K, h: nat, e: nat): (r: seq<Cell<K>>)
    requires h < |t| && e < |t|
    ensures |r| == |t|
  {
    t[e := Cell(Some(k), t[h].next)][h := t[h].(next := e + 1)]
  }

  /** Nothing else of the chain has its rank between the home slot and the slot behind it. */
  lemma RankFits<K(!new)>(t: seq<Cell<K>>, s: Shape<K>, h: nat, j: int)
    requires |s.chain| == |s.rank| == |t| && Linked(t, s)
    requires Used(t, h)
    ensures s.rank[h] < RankBehind(t, s, h)
    ensures Before(t, s, h, j) ==> t[h].next != 0 && RankBehind(t, s, h) < s.rank[j]
  {
    if t[h].next != 0 { assert Link(t, h, t[h].next - 1); }
  }

  /** The order of the slots already chained stays, and the new slot comes right behind `h`. */
  lemma OrderBehind<K(!new)>(t: seq<Cell<K>>, s: Shape<K>, k: K, h: nat, e: nat)
    requires |s.chain| == |s.rank| == |t| && Linked(t, s)
    requires Used(t, h) && e < |t| && t[e] == Cell(None, 0)
    ensures var (t', s') := (CellsBehind(t, k, h, e), ShapeBehind(t, s, k, h, e));
            && (forall i :: Used(t', i) <==> i == e || Used(t, i))
            && (forall i, j :: i != e && j != e ==> (Before(t', s', i, j) <==> Before(t, s, i, j)))
            && (forall j :: Before(t', s', e, j) <==> Before(t, s, h, j))
            && (forall i :: Before(t', s', i, e) <==> i == h || Before(t, s, i, h))
            && (forall i, j :: Link(t', i, j) ==>
                  if i == h then j == e else if i == e then Link(t, h, j) else Link(t, i, j))
  {
    var t', s' := CellsBehind(t, k, h, e), ShapeBehind(t, s, k, h, e);
    assert !Used(t, e);
    assert forall i :: Used(t', i) <==> i == e || Used(t, i);
    forall j ensures Before(t', s', e, j) <==> Before(t, s, h, j) { RankFits(t, s, h, j); }
    forall i ensures Before(t', s', i, e) <==> i == h || Before(t, s, i, h) {
      RankFits(t, s, h, i);
      if Before(t', s', i, e) { assert i == h || Before(t, s, h, i) || Before(t, s, i, h); }
    }
  }

  lemma NextBehind<K(!new)>(t: seq<Cell<K>>, s: Shape<K>, k: K, h: nat, e: nat, i: int, j: int)
    requires |s.chain| == |s.rank| == |t| && Linked(t, s)
    requires Used(t, h) && e < |t| && t[e] == Cell(None, 0)
    requires Before(CellsBehind(t, k, h, e), ShapeBehind(t, s, k, h, e), i, j)
    ensures var (t', s') := (CellsBehind(t, k, h, e), ShapeBehind(t, s, k, h, e));
            0 < t'[i].next <= |t| && s'.rank[t'[i].next - 1] <= s'.rank[j]
  {
    var t', s' := CellsBehind(t, k, h, e), ShapeBehind(t, s, k, h, e);
    OrderBehind(t, s, k, h, e);
    assert !Used(t, e);
    if i != h {
      var o := if i == e then h else i;
      var to := if j == e then h else j;
      assert Before(t, s, o, to);
      assert Link(t, o, t[o].next - 1);
      RankFits(t, s, h, h);
    } else if j != e {
      assert Before(t', s', e, j);
    }
  }

  lemma LinkBehind<K(!new)>(t: seq<Cell<K>>, s: Shape<K>, k: K, h: nat, e: nat, i: int, j: int)
    requires |s.chain| == |s.rank| == |t| && Linked(t, s)
    requires Used(t, h) && e < |t| && t[e] == Cell(None, 0) && t[h].next <= |t|
    requires Link(CellsBehind(t, k, h, e), i, j)
    ensures Before(CellsBehind(t, k, h, e), ShapeBehind(t, s, k, h, e), i, j)
  {
    OrderBehind(t, s, k, h, e);
    assert !Used(t, e);
    if i != h && i != e {
      assert Link(t, i, j);
      assert Before(t, s, i, j);
    }
  }

  lemma RanksDiffer<K(!new)>(t: seq<Cell<K>>, s: Shape<K>, k: K, h: nat, e: nat, i: int, j: int)
    requires |s.chain| == |s.rank| == |t| && Linked(t, s)
    requires Used(t, h) && e < |t| && t[e] == Cell(None, 0) && t[h].next <= |t|
    requires var t', s' := CellsBehind(t, k, h, e), ShapeBehind(t, s, k, h, e);
             Used(t', i) && Used(t', j) && s'.chain[i] == s'.chain[j] && i != j
    ensures ShapeBehind(t, s, k, h, e).rank[i] != ShapeBehind(t, s, k, h, e).rank[j]
  {
    var t', s' := CellsBehind(t, k, h, e), ShapeBehind(t, s, k, h, e);
    OrderBehind(t, s, k, h, e);
    assert !Used(t, e);
    var o := if i == e then j else i;
    if i == e || j == e {
      assert Used(t, o);
      assert o == h || Before(t, s, h, o) || Before(t, s, o, h);
      assert Before(t', s', o, e) || Before(t', s', e, o);
    } else {
      assert Used(t, i) && Used(t, j);
    }
  }

  lemma InsertBehindLinks<K(!new)>(t: seq<Cell<K>>, s: Shape<K>, k: K, h: nat, e: nat)
    requires |s.chain| == |s.rank| == |t| && Linked(t, s)
    requires Used(t, h) && e < |t| && t[e] == Cell(None, 0)
    ensures t[h].next <= |t| && Linked(CellsBehind(t, k, h, e), ShapeBehind(t, s, k, h, e))
  {
    var t', s' := CellsBehind(t, k, h, e), ShapeBehind(t, s, k, h, e);
    assert !Used(t, e);
    assert forall i :: Used(t', i) ==> i == e || Used(t, i);
    forall i, j | Link(t', i, j) ensures Before(t', s', i, j) { LinkBehind(t, s, k, h, e, i, j); }
    forall i, j | Before(t', s', i, j)
      ensures 0 < t'[i].next <= |t| && s'.rank[t'[i].next - 1] <= s'.rank[j]
    {
      OrderBehind(t, s, k, h, e);
      NextBehind(t, s, k, h, e, i, j);
    }
    forall i, j | Used(t', i) && Used(t', j) && s'.chain[i] == s'.chain[j] && i != j
      ensures s'.rank[i] != s'.rank[j]
    {
      RanksDiffer(t, s, k, h, e, i, j);
    }
    hide Before;
  }

  /** Slot `c` is the home slot of `k`, which is in use, or comes after it in its chain. */
  ghost predicate FromHome<K>(t: seq<Cell<K>>, home: K -> nat, s: Shape<K>, k: K, c: int)
    requires |s.chain| == |s.rank| == |t|
  {
    Used(t, home(k)) && Used(t, c) && (c == home(k) || Before(t, s, home(k), c))
  }

  /** A key may be linked in behind any slot of the chain of its home slot. */
  lemma InsertBehind<K(!new)>(t: seq<Cell<K>>, home: K -> nat, s: Shape<K>, k: K, c: nat, e: nat)
    requires Chained(t, home, s) && k !in s.where
    requires FromHome(t, home, s, k, c) && e < |t| && t[e] == Cell(None, 0)
    ensures t[c].next <= |t| && Chained(CellsBehind(t, k, c, e), home, ShapeBehind(t, s, k, c, e))
  {
    KeysBehind(t, home, s, k, c, e);
    InsertBehindLinks(t, s, k, c, e);
    hide Linked;
    hide KeysPlaced;
    hide HomesReach;
    hide CellsBehind;
    hide ShapeBehind;
  }

  /** The keys are where they were, and the new one is in its slot, in the chain of its home slot. */
  lemma KeysBehind<K(!new)>(t: seq<Cell<K>>, home: K -> nat, s: Shape<K>, k: K, c: nat, e: nat)
    requires Chained(t, home, s) && k !in s.where
    requires FromHome(t, home, s, k, c) && e < |t| && t[e] == Cell(None, 0)
    ensures t[c].next <= |t| && |ShapeBehind(t, s, k, c, e).chain| == |ShapeBehind(t, s, k, c, e).rank| == |t|
    ensures KeysPlaced(CellsBehind(t, k, c, e), ShapeBehind(t, s, k, c, e))
    ensures HomesReach(CellsBehind(t, k, c, e), home, ShapeBehind(t, s, k, c, e))
  {
    OrderBehind(t, s, k, c, e);
    hide Linked;
    hide Before;
    assert !Used(t, e);
  }

  // ----- looking a key up --------------------------------------------------------

  /** The slots that lie further along than slot `c`: walking a chain uses them up. */
  ghost function Ahead<K>(s: Shape<K>, c: nat): set<nat>
    requires c < |s.rank|
  {
    set j | 0 <= j < |s.rank| && s.rank[c] < s.rank[j]
  }

  /** `c` lies on the way from the home slot of `k` to `k` itself, if `k` is there. */
  ghost predicate OnTheWay<K>(t: seq<Cell<K>>, s: Shape<K>, k: K, c: nat)
    requires |s.chain| == |s.rank| == |t|
  {
    && c < |t|
    && (k in s.where ==> c == s.where[k] || Before(t, s, c, s.where[k]))
  }

  lemma AheadShrinks<K>(s: Shape<K>, c: nat, n: nat)
    requires c < |s.rank| && n < |s.rank| && s.rank[c] < s.rank[n]
    ensures Ahead(s, n) < Ahead(s, c)
  {
    assert n in Ahead(s, c) && n !in Ahead(s, n);
  }

  lemma WalkHere<K(!new)>(t: seq<Cell<K>>, s: Shape<K>, k: K, c: nat)
    requires |s.chain| == |s.rank| == |t| && KeysPlaced(t, s) && c < |t|
    ensures t[c].key == Some(k) <==> k in s.where && s.where[k] == c
  {
    assert t[c].key == Some(k) ==> Used(t, c);
  }

  /** The way to the key goes on along the link of a slot that does not hold it. */
  lemma WalkOn<K(!new)>(t: seq<Cell<K>>, s: Shape<K>, k: K, c: nat)
    requires |s.chain| == |s.rank| == |t| && KeysPlaced(t, s) && Linked(t, s) && OnTheWay(t, s, k, c)
    requires t[c].key != Some(k)
    ensures t[c].next == 0 ==> k !in s.where
    ensures t[c].next != 0 ==>
              && t[c].next <= |t|
              && OnTheWay(t, s, k, t[c].next - 1)
              && s.rank[c] < s.rank[t[c].next - 1]
              && Used(t, t[c].next - 1)
  {
    if k in s.where {
      assert Before(t, s, c, s.where[k]);
    }
    if t[c].next != 0 {
      var n := t[c].next - 1;
      assert Link(t, c, n);
      assert Before(t, s, c, n);
      if k in s.where {
        var w := s.where[k];
        assert s.rank[n] <= s.rank[w];
        assert n == w || Before(t, s, n, w);
      }
    }
  }

  lemma WalkStep<K(!new)>(t: seq<Cell<K>>, home: K -> nat, s: Shape<K>, k: K, c: nat)
    requires Chained(t, home, s) && OnTheWay(t, s, k, c)
    ensures t[c].key == Some(k) <==> k in s.where && s.where[k] == c
    ensures t[c].key != Some(k) && t[c].next == 0 ==> k !in s.where
    ensures t[c].key != Some(k) && t[c].next != 0 ==>
              && t[c].next <= |t|
              && OnTheWay(t, s, k, t[c].next - 1)
              && Ahead(s, t[c].next - 1) < Ahead(s, c)
              && Used(t, t[c].next - 1)
  {
    hide Linked;
    hide HomesReach;
    hide Ahead;
    hide KeysPlaced;
    WalkHere(t, s, k, c);
    if t[c].key != Some(k) {
      WalkOn(t, s, k, c);
      if t[c].next != 0 { AheadShrinks(s, c, t[c].next - 1); }
    }
  }

  /** Following a link stays in the chain of the home slot. */
  lemma WalkFromHome<K(!new)>(t: seq<Cell<K>>, home: K -> nat, s: Shape<K>, k: K, c: nat)
    requires Chained(t, home, s) && FromHome(t, home, s, k, c) && t[c].next != 0
    ensures t[c].next <= |t| && FromHome(t, home, s, k, t[c].next - 1)
  {
    hide KeysPlaced;
    hide HomesReach;
    assert Link(t, c, t[c].next - 1);
  }

  // ----- the shape of the links ----------------------------------------------------

  /** No two slots link to the same slot. */
  lemma InDegreeAtMostOne<K(!new)>(t: seq<Cell<K>>, home: K -> nat, s: Shape<K>, i: nat, j: nat)
    requires Chained(t, home, s) && i < |t| && j < |t|
    requires t[i].next == t[j].next != 0
    ensures i == j
  {
    var n := t[i].next - 1;
    assert Link(t, i, n) && Link(t, j, n);
    assert Before(t, s, i, n) && Before(t, s, j, n);
    assert !Before(t, s, i, j) && !Before(t, s, j, i);
  }

  /** The slot that `steps` links lead to. */
  ghost function Follow<K>(t: seq<Cell<K>>, i: int, steps: nat): Option<nat>
    decreases steps
  {
    if !(0 <= i < |t|) then None
    else if steps == 0 then Some(i)
    else if t[i].next == 0 then None
    else Follow(t, t[i].next - 1, steps - 1)
  }

  lemma {:induction false} FollowClimbs<K(!new)>(t: seq<Cell<K>>, home: K -> nat, s: Shape<K>, i: nat, steps: nat)
    requires Chained(t, home, s) && i < |t| == |s.rank|
    ensures match Follow(t, i, steps)
            case None => true
            case Some(j) => j < |t| == |s.rank| && s.rank[i] <= s.rank[j] && (steps > 0 ==> s.rank[i] < s.rank[j])
    decreases steps
  {
    hide *;
    FollowStep(t, i, steps);
    if steps > 0 && t[i].next != 0 {
      LinkClimbs(t, home, s, i);
      FollowClimbs(t, home, s, t[i].next - 1, steps - 1);
    }
  }

  lemma FollowStep<K>(t: seq<Cell<K>>, i: nat, steps: nat)
    requires i < |t|
    ensures Follow(t, i, steps)
         == if steps == 0 then Some(i) else if t[i].next == 0 then None else Follow(t, t[i].next - 1, steps - 1)
  {
  }

  lemma LinkClimbs<K(!new)>(t: seq<Cell<K>>, home: K -> nat, s: Shape<K>, i: nat)
    requires Chained(t, home, s) && i < |t| && t[i].next != 0
    ensures |s.rank| == |t| && t[i].next <= |t| && s.rank[i] < s.rank[t[i].next - 1]
  {
    hide KeysPlaced;
    hide HomesReach;
    assert Link(t, i, t[i].next - 1);
    assert Before(t, s, i, t[i].next - 1);
  }

  /** Links never lead back. */
  lemma {:induction false} Acyclic<K(!new)>(t: seq<Cell<K>>, home: K -> nat, s: Shape<K>, i: nat, steps: nat)
    requires Chained(t, home, s) && i < |t| && steps > 0
    ensures Follow(t, i, steps) != Some(i)
  {
    FollowClimbs(t, home, s, i, steps);
  }

  /** Every key can be reached from its home slot. */
  lemma {:induction false} KeyReachable<K(!new)>(t: seq<Cell<K>>, home: K -> nat, s: Shape<K>, k: K, c: nat)
    returns (steps: nat)
    requires Chained(t, home, s) && k in s.where && OnTheWay(t, s, k, c)
    ensures Follow(t, c, steps) == Some(s.where[k])
    decreases Ahead(s, c)
  {
    WalkStep(t, home, s, k, c);
    if s.where[k] == c {
      steps := 0;
    } else {
      var rest := KeyReachable(t, home, s, k, t[c].next - 1);
      steps := rest + 1;
    }
  }

  // ----- counting -----------------------------------------------------------------

  ghost function UsedBefore<K>(t: seq<Cell<K>>, n: nat): set<nat>
    requires n <= |t|
  {
    set i: nat | i < n && Used(t, i)
  }

  lemma {:induction false} PrefixKeys<K(!new)>(t: seq<Cell<K>>, s: Shape<K>, n: nat) returns (keys: set<K>)
    requires KeysPlaced(t, s) && n <= |t|
    ensures |keys| == |UsedBefore(t, n)| <= n
    ensures forall k :: k in keys <==> k in s.where && s.where[k] < n
  {
    hide *;
    if n == 0 {
      keys := {};
      UsedNone(t);
    } else {
      keys := PrefixKeys(t, s, n - 1);
      UsedStep(t, n - 1);
      KeyAt(t, s, n - 1);
      if t[n - 1].key.Some? { keys := keys + {t[n - 1].key.value}; }
    }
  }

  lemma UsedNone<K>(t: seq<Cell<K>>)
    ensures UsedBefore(t, 0) == {}
  {
  }

  lemma UsedStep<K>(t: seq<Cell<K>>, n: nat)
    requires n < |t|
    ensures n !in UsedBefore(t, n)
    ensures UsedBefore(t, n + 1) == if t[n].key.Some? then UsedBefore(t, n) + {n} else UsedBefore(t, n)
  {
  }

  lemma KeyAt<K(!new)>(t: seq<Cell<K>>, s: Shape<K>, n: nat)
    requires KeysPlaced(t, s) && n < |t|
    ensures t[n].key.Some? ==> t[n].key.value in s.where && s.where[t[n].key.value] == n
    ensures forall k :: k in s.where && s.where[k] == n ==> t[n].key == Some(k)
  {
    assert t[n].key.Some? ==> Used(t, n);
  }

  /** As many slots are occupied as there are keys, and no more than there are slots. */
  lemma KeyCount<K(!new)>(t: seq<Cell<K>>, s: Shape<K>)
    requires KeysPlaced(t, s)
    ensures |UsedBefore(t, |t|)| == |s.where| <= |t|
  {
    var keys := PrefixKeys(t, s, |t|);
    assert keys == s.where.Keys;
  }

  lemma {:induction false} AllUsed<K>(t: seq<Cell<K>>, n: nat)
    requires n <= |t| && forall i :: 0 <= i < n ==> Used(t, i)
    ensures |UsedBefore(t, n)| == n
  {
    if n > 0 {
      AllUsed(t, n - 1);
      assert UsedBefore(t, n) == UsedBefore(t, n - 1) + {n - 1};
    }
  }

  lemma {:induction false} UsedAtMost<K>(t: seq<Cell<K>>, n: nat)
    requires n <= |t|
    ensures |UsedBefore(t, n)| <= n
  {
    if n > 0 {
      UsedAtMost(t, n - 1);
      if Used(t, n - 1) {
        assert UsedBefore(t, n) == UsedBefore(t, n - 1) + {n - 1};
      } else {
        assert UsedBefore(t, n) == UsedBefore(t, n - 1);
      }
    }
  }

  lemma {:induction false} FullIsAll<K>(t: seq<Cell<K>>, n: nat)
    requires n <= |t| && |UsedBefore(t, n)| == n
    ensures forall i :: 0 <= i < n ==> Used(t, i)
  {
    if n > 0 {
      UsedAtMost(t, n - 1);
      if Used(t, n - 1) {
        assert UsedBefore(t, n) == UsedBefore(t, n - 1) + {n - 1};
        FullIsAll(t, n - 1);
      } else {
        assert UsedBefore(t, n) <= UsedBefore(t, n - 1);
        SubsetSize(UsedBefore(t, n), UsedBefore(t, n - 1));
      }
    }
  }

  /** A table with fewer keys than slots has an empty slot. */
  lemma EmptySlotExists<K(!new)>(t: seq<Cell<K>>, s: Shape<K>) returns (e: nat)
    requires KeysPlaced(t, s) && |s.where| < |t|
    ensures e < |t| && t[e].key.None?
  {
    KeyCount(t, s);
    if forall i :: 0 <= i < |t| ==> Used(t, i) {
      AllUsed(t, |t|);
      assert false;
    }
    e :| e < |t| && !Used(t, e);
  }
}
