/** Chains in which a key may be held more than once: an entry is known by its key and its slot, and
    the first entry of a key in its chain is the one that a walk for the key finds. */
module Copies {
  import opened Words
  import opened Chains

  /** The cells of a table, each key marked with its slot. */
  function Marked<K>(t: seq<Cell<K>>): (r: seq<Cell<(K, nat)>>)
    ensures |r| == |t|
    ensures forall i {:trigger r[i]} {:trigger t[i]} :: 0 <= i < |t| ==>
              r[i] == Cell(match t[i].key case None => None case Some(k) => Some((k, i)), t[i].next)
  {
    seq(|t|, i requires 0 <= i < |t| => Cell(match t[i].key case None => None case Some(k) => Some((k, i)), t[i].next))
  }

  function HomeOf<K>(hash: K -> nat, cap: nat): ((K, nat)) -> nat
    requires cap > 0
  {
    (c: (K, nat)) => hash(c.0) % cap
  }

  /** How the entries are chained, and which entry of a key comes first in its chain. */
  datatype Layout<!K> = Layout(links: Shape<(K, nat)>, first: map<K, nat>)

  function Bare<K>(): Cell<K> { Cell(None, 0) }

  /** Slot `i` holds the key, and no slot before it in the chain does. */
  ghost predicate IsFirst<K(!new)>(t: seq<Cell<K>>, links: Shape<(K, nat)>, k: K, i: nat)
    requires |links.rank| == |t|
  {
    && i < |t| && t[i].key == Some(k)
    && forall j {:trigger t[j]} :: 0 <= j < |t| && t[j].key == Some(k) && j != i ==> links.rank[i] < links.rank[j]
  }

  ghost predicate Firsts<K(!new)>(t: seq<Cell<K>>, s: Layout<K>) {
    && |s.links.rank| == |t|
    && (forall k {:trigger k in s.first} :: k in s.first ==> IsFirst(t, s.links, k, s.first[k]))
    && (forall i {:trigger t[i]} :: 0 <= i < |t| && t[i].key.Some? ==> t[i].key.value in s.first)
  }

  ghost predicate Kept<K(!new)>(t: seq<Cell<K>>, hash: K -> nat, s: Layout<K>) {
    && |t| > 0
    && Chained(Marked(t), HomeOf(hash, |t|), s.links)
    && Firsts(t, s)
    && (forall i {:trigger t[i]} :: 0 <= i < |t| && t[i].key.None? ==> t[i] == Bare())
  }

  lemma KeptNothing<K(!new)>(t: seq<Cell<K>>, hash: K -> nat)
    requires |t| > 0 && forall i {:trigger t[i]} :: 0 <= i < |t| ==> t[i] == Bare()
    ensures Kept(t, hash, Layout(EmptyShape(|t|), map[]))
  {
    EmptyChained(Marked(t), HomeOf(hash, |t|));
  }

  lemma KeptFirst<K(!new)>(t: seq<Cell<K>>, hash: K -> nat, s: Layout<K>)
    requires Kept(t, hash, s)
    ensures forall k :: k in s.first ==> s.first[k] < |t| && t[s.first[k]].key == Some(k)
    ensures forall i {:trigger t[i]} :: 0 <= i < |t| && t[i].key.Some? ==> t[i].key.value in s.first
    ensures forall i {:trigger t[i]} :: 0 <= i < |t| && t[i].key.None? ==> t[i] == Bare()
  {
    hide Chained;
  }

  /** As many entries as slots that are taken. */
  lemma KeptCount<K(!new)>(t: seq<Cell<K>>, hash: K -> nat, s: Layout<K>)
    requires Kept(t, hash, s)
    ensures |s.links.where| <= |t|
    ensures |s.links.where| == |t| ==> forall i {:trigger t[i]} :: 0 <= i < |t| ==> t[i].key.Some?
  {
    var m := Marked(t);
    KeyCount(m, s.links);
    if |s.links.where| == |t| {
      FullIsAll(m, |m|);
      forall i {:trigger t[i]} | 0 <= i < |t| ensures t[i].key.Some? { assert Used(m, i); }
    }
    hide *;
  }

  lemma KeptRoom<K(!new)>(t: seq<Cell<K>>, hash: K -> nat, s: Layout<K>) returns (e: nat)
    requires Kept(t, hash, s) && |s.links.where| < |t|
    ensures e < |t| && t[e].key.None?
  {
    hide Linked;
    hide HomesReach;
    hide Firsts;
    e := EmptySlotExists(Marked(t), s.links);
  }

  lemma OneElement<T>(s: set<T>, x: T, y: T)
    requires |s| == 1 && x in s && y in s
    ensures x == y
  {
    assert |s - {x}| == 0;
    assert y !in s - {x};
  }

  /** A slot that is taken has its entry. */
  lemma TakenPlaced<K(!new)>(t: seq<Cell<K>>, hash: K -> nat, s: Layout<K>, i: nat)
    requires Kept(t, hash, s) && i < |t| && t[i].key.Some?
    ensures (t[i].key.value, i) in s.links.where
  {
    hide Linked;
    hide HomesReach;
    hide Firsts;
    assert Used(Marked(t), i);
  }

  /** An entry that is the only one is in its home slot. */
  lemma OnlyOne<K(!new)>(t: seq<Cell<K>>, hash: K -> nat, s: Layout<K>)
    requires Kept(t, hash, s) && |s.links.where| == 1
    ensures |t| > 0
    ensures forall i {:trigger t[i]} :: 0 <= i < |t| && t[i].key.Some? ==>
              t[i].key.value in s.first && s.first[t[i].key.value] == i
    ensures forall k <- s.first :: t[hash(k) % |t|].key == Some(k)
  {
    KeptFirst(t, hash, s);
    var w := s.links.where.Keys;
    assert |t| > 0;
    hide Kept;
    forall i {:trigger t[i]} | 0 <= i < |t| && t[i].key.Some?
      ensures t[i].key.value in s.first && s.first[t[i].key.value] == i
    {
      var k := t[i].key.value;
      TakenPlaced(t, hash, s, i);
      TakenPlaced(t, hash, s, s.first[k]);
      OneElement(w, (k, i), (k, s.first[k]));
    }
    forall k <- s.first ensures t[hash(k) % |t|].key == Some(k) {
      var h := hash(k) % |t|;
      if t[h].key.None? { AbsentAtHome(t, hash, s, k); }
      TakenPlaced(t, hash, s, h);
      TakenPlaced(t, hash, s, s.first[k]);
      OneElement(w, (t[h].key.value, h), (k, s.first[k]));
    }
  }

  lemma NoCopy<K(!new)>(t: seq<Cell<K>>, hash: K -> nat, s: Layout<K>, k: K, e: nat)
    requires Kept(t, hash, s) && e < |t| && t[e].key.None?
    ensures (k, e) !in s.links.where
  {
    hide Linked;
    hide HomesReach;
    assert (k, e) in s.links.where ==> Used(Marked(t), s.links.where[(k, e)]);
  }

  /** Every entry of a key is in its home slot or comes after it in the chain. */
  lemma CopyBehindHome<K(!new)>(t: seq<Cell<K>>, hash: K -> nat, s: Layout<K>, k: K, j: nat)
    requires Kept(t, hash, s) && j < |t| && t[j].key == Some(k)
    ensures |s.links.chain| == |s.links.rank| == |t|
    ensures var h := hash(k) % |t|; j == h || Before(Marked(t), s.links, h, j)
  {
    hide Linked;
    assert Used(Marked(t), j);
    assert (k, j) in s.links.where;
  }

  /** No key has an empty home slot. */
  lemma AbsentAtHome<K(!new)>(t: seq<Cell<K>>, hash: K -> nat, s: Layout<K>, k: K)
    requires Kept(t, hash, s) && t[hash(k) % |t|].key.None?
    ensures k !in s.first
  {
    hide Linked;
    if k in s.first { CopyBehindHome(t, hash, s, k, s.first[k]); }
  }

  // ----- the two ways of entering a key ---------------------------------------------------------

  lemma EnterAtHome<K(!new)>(t: seq<Cell<K>>, hash: K -> nat, s: Layout<K>, k: K, h: nat) returns (s': Layout<K>)
    requires Kept(t, hash, s) && h == hash(k) % |t| && t[h].key.None?
    ensures k !in s.first && s'.first == s.first[k := h] && |s'.links.where| == |s.links.where| + 1
    ensures Kept(t[h := Cell(Some(k), 0)], hash, s')
  {
    NoCopy(t, hash, s, k, h);
    AbsentAtHome(t, hash, s, k);
    s' := Layout(ShapeAtHome(s.links, (k, h), h), s.first[k := h]);
    InsertAtHome(Marked(t), HomeOf(hash, |t|), s.links, (k, h));
    assert Marked(t[h := Cell(Some(k), 0)]) == Marked(t)[h := Cell(Some((k, h)), 0)];
    hide Chained;
    FirstsAtHome(t, s, k, h);
    hide Firsts;
  }

  lemma FirstsAtHome<K(!new)>(t: seq<Cell<K>>, s: Layout<K>, k: K, h: nat)
    requires Firsts(t, s) && k !in s.first && h < |t| && t[h] == Bare()
    requires |s.links.chain| == |t|
    ensures Firsts(t[h := Cell(Some(k), 0)], Layout(ShapeAtHome(s.links, (k, h), h), s.first[k := h]))
  {
  }

  /** Slot `c` is the home slot of `k`, or comes after it in its chain. */
  ghost predicate InChain<K(!new)>(t: seq<Cell<K>>, hash: K -> nat, s: Layout<K>, k: K, c: nat) {
    && |t| > 0 && |s.links.chain| == |s.links.rank| == |t| && c < |t|
    && FromHome(Marked(t), HomeOf(hash, |t|), s.links, (k, c), c)
  }

  lemma HomeInChain<K(!new)>(t: seq<Cell<K>>, hash: K -> nat, s: Layout<K>, k: K)
    requires Kept(t, hash, s) && t[hash(k) % |t|].key.Some?
    ensures InChain(t, hash, s, k, hash(k) % |t|)
  {
    hide Linked;
    hide Firsts;
  }

  lemma NextInChain<K(!new)>(t: seq<Cell<K>>, hash: K -> nat, s: Layout<K>, k: K, c: nat)
    requires Kept(t, hash, s) && InChain(t, hash, s, k, c) && t[c].next != 0
    ensures t[c].next <= |t| && InChain(t, hash, s, k, t[c].next - 1)
  {
    hide Firsts;
    WalkFromHome(Marked(t), HomeOf(hash, |t|), s.links, (k, c), c);
    hide Chained;
  }

  /** A key that is there already is linked in right behind its home slot only. */
  ghost predicate MayEnterBehind<K(!new)>(t: seq<Cell<K>>, hash: K -> nat, s: Layout<K>, k: K, c: nat) {
    InChain(t, hash, s, k, c) && (k in s.first ==> c == hash(k) % |t|)
  }

  /** The first entry of the key once one more is linked in behind slot `c`. */
  function FirstBehind<K(==)>(t: seq<Cell<K>>, first: map<K, nat>, k: K, c: nat, e: nat): map<K, nat>
    requires c < |t|
  {
    if t[c].key == Some(k) then first else first[k := e]
  }

  lemma EnterBehind<K(!new)>(t: seq<Cell<K>>, hash: K -> nat, s: Layout<K>, k: K, c: nat, e: nat)
    returns (s': Layout<K>)
    requires Kept(t, hash, s) && MayEnterBehind(t, hash, s, k, c)
    requires e < |t| && t[e].key.None?
    ensures c < |t| && c != e && t[c].key.Some?
    ensures s'.first == FirstBehind(t, s.first, k, c, e) && |s'.links.where| == |s.links.where| + 1
    ensures Kept(CellsBehind(t, k, c, e), hash, s')
  {
    hide *;
    var m := Marked(t);
    BehindFacts(t, hash, s, k, c, e);
    ChainedBehind(t, hash, s, k, c, e);
    s' := Layout(ShapeBehind(m, s.links, (k, e), c, e), FirstBehind(t, s.first, k, c, e));
    MarkedBehind(t, k, c, e);
    FirstsBehind(t, hash, s, k, c, e);
    KeptBehind(t, hash, s, s', k, c, e);
  }

  lemma ChainedBehind<K(!new)>(t: seq<Cell<K>>, hash: K -> nat, s: Layout<K>, k: K, c: nat, e: nat)
    requires Kept(t, hash, s) && MayEnterBehind(t, hash, s, k, c)
    requires e < |t| && t[e].key.None?
    ensures |t| > 0 && |s.links.chain| == |s.links.rank| == |t| && c < |t| && Marked(t)[c].next <= |t|
    ensures var m := Marked(t);
            && Chained(CellsBehind(m, (k, e), c, e), HomeOf(hash, |t|), ShapeBehind(m, s.links, (k, e), c, e))
            && |ShapeBehind(m, s.links, (k, e), c, e).where| == |s.links.where| + 1
  {
    hide Firsts;
    NoCopy(t, hash, s, k, e);
    InsertBehind(Marked(t), HomeOf(hash, |t|), s.links, (k, e), c, e);
    hide Chained;
    hide CellsBehind;
  }

  lemma MarkedBehind<K(!new)>(t: seq<Cell<K>>, k: K, c: nat, e: nat)
    requires c < |t| && e < |t| && t[e].key.None? && c != e
    ensures Marked(CellsBehind(t, k, c, e)) == CellsBehind(Marked(t), (k, e), c, e)
  {
  }

  lemma KeptBehind<K(!new)>(t: seq<Cell<K>>, hash: K -> nat, s: Layout<K>, s': Layout<K>, k: K, c: nat, e: nat)
    requires Kept(t, hash, s) && c < |t| && e < |t| && t[c].key.Some?
    requires var now := CellsBehind(t, k, c, e);
             Chained(Marked(now), HomeOf(hash, |now|), s'.links) && Firsts(now, s')
    ensures Kept(CellsBehind(t, k, c, e), hash, s')
  {
    hide Chained;
    hide Firsts;
  }

  /** The new entry comes right behind slot `c`, and so before all entries of the key but slot `c`. */
  lemma FirstsBehind<K(!new)>(t: seq<Cell<K>>, hash: K -> nat, s: Layout<K>, k: K, c: nat, e: nat)
    requires Kept(t, hash, s) && MayEnterBehind(t, hash, s, k, c)
    requires e < |t| && t[e].key.None?
    ensures |s.links.chain| == |s.links.rank| == |t| && c < |t| && Marked(t)[c].next <= |t|
    ensures Firsts(CellsBehind(t, k, c, e),
            Layout(ShapeBehind(Marked(t), s.links, (k, e), c, e), FirstBehind(t, s.first, k, c, e)))
  {
    hide *;
    var m := Marked(t);
    BehindFacts(t, hash, s, k, c, e);
    RankFits(m, s.links, c, c);
    var rank := RankBehind(m, s.links, c);
    forall j: nat | j < |t| && t[j].key == Some(k) && j != c ensures rank < s.links.rank[j] {
      KeyedBehind(t, hash, s, k, c, j);
      RankFits(m, s.links, c, j);
    }
    FirstsMore(t, s, k, c, e);
  }

  lemma BehindFacts<K(!new)>(t: seq<Cell<K>>, hash: K -> nat, s: Layout<K>, k: K, c: nat, e: nat)
    requires Kept(t, hash, s) && MayEnterBehind(t, hash, s, k, c)
    requires e < |t| && t[e].key.None?
    ensures |s.links.chain| == |s.links.rank| == |t| && c < |t| && c != e && t[c].key.Some?
    ensures Linked(Marked(t), s.links) && Used(Marked(t), c) && Marked(t)[c].next <= |t|
    ensures Firsts(t, s) && t[e] == Bare()
  {
    hide Firsts;
    hide KeysPlaced;
    hide HomesReach;
  }

  /** Slots that hold the key lie behind slot `c`. */
  lemma KeyedBehind<K(!new)>(t: seq<Cell<K>>, hash: K -> nat, s: Layout<K>, k: K, c: nat, j: nat)
    requires Kept(t, hash, s) && MayEnterBehind(t, hash, s, k, c)
    requires j < |t| && t[j].key == Some(k) && j != c
    ensures |s.links.chain| == |s.links.rank| == |t| && Before(Marked(t), s.links, c, j)
  {
    hide Chained;
    CopyBehindHome(t, hash, s, k, j);
    hide Before;
  }

  lemma FirstsMore<K(!new)>(t: seq<Cell<K>>, s: Layout<K>, k: K, c: nat, e: nat)
    requires Firsts(t, s) && c < |t| && e < |t| && t[e] == Bare() && t[c].key.Some?
    requires |s.links.chain| == |s.links.rank| == |t| && Marked(t)[c].next <= |t|
    requires s.links.rank[c] < RankBehind(Marked(t), s.links, c)
    requires forall j: nat {:trigger t[j]} :: j < |t| && t[j].key == Some(k) && j != c ==>
               RankBehind(Marked(t), s.links, c) < s.links.rank[j]
    ensures Firsts(CellsBehind(t, k, c, e),
            Layout(ShapeBehind(Marked(t), s.links, (k, e), c, e), FirstBehind(t, s.first, k, c, e)))
  {
    hide RankBehind;
    hide Marked;
  }

  // ----- the walk along a chain -----------------------------------------------------------------

  /** The entry that the walk for a key leads to, or none that there is. */
  ghost function Target<K>(t: seq<Cell<K>>, s: Layout<K>, k: K): (K, nat) {
    (k, if k in s.first then s.first[k] else |t|)
  }

  ghost predicate Walking<K>(t: seq<Cell<K>>, s: Layout<K>, k: K, c: nat) {
    |s.links.chain| == |s.links.rank| == |t| && OnTheWay(Marked(t), s.links, Target(t, s, k), c)
  }

  lemma TargetPlace<K(!new)>(t: seq<Cell<K>>, hash: K -> nat, s: Layout<K>, k: K)
    requires Kept(t, hash, s)
    ensures var p := Target(t, s, k);
            (p in s.links.where <==> k in s.first) && (k in s.first ==> p.1 < |t| && s.links.where[p] == p.1)
  {
    hide Linked;
    hide HomesReach;
    var p, m := Target(t, s, k), Marked(t);
    if k in s.first {
      assert Used(m, s.first[k]);
    } else {
      assert p in s.links.where ==> Used(m, s.links.where[p]);
    }
  }

  lemma WalkStart<K(!new)>(t: seq<Cell<K>>, hash: K -> nat, s: Layout<K>, k: K)
    requires Kept(t, hash, s)
    ensures Walking(t, s, k, hash(k) % |t|)
  {
    TargetPlace(t, hash, s, k);
    if k in s.first {
      KeptFirst(t, hash, s);
      CopyBehindHome(t, hash, s, k, s.first[k]);
    }
    hide Linked;
    hide Firsts;
    hide KeysPlaced;
    hide HomesReach;
  }

  /** At a slot on the way: the key is there exactly if this is its first entry, and otherwise the
      next slot of the chain is on the way, or the key is absent. */
  lemma WalkFurther<K(!new)>(t: seq<Cell<K>>, hash: K -> nat, s: Layout<K>, k: K, c: nat)
    requires Kept(t, hash, s) && Walking(t, s, k, c)
    ensures c < |t| == |s.links.rank|
    ensures var x := t[c];
            && (x.key == Some(k) <==> k in s.first && s.first[k] == c)
            && (x.key != Some(k) && x.next == 0 ==> k !in s.first)
            && (x.key != Some(k) && x.next != 0 ==>
                  && x.next <= |t| && t[x.next - 1].key.Some?
                  && Walking(t, s, k, x.next - 1) && Ahead(s.links, x.next - 1) < Ahead(s.links, c))
  {
    hide *;
    TargetPlace(t, hash, s, k);
    FirstHere(t, hash, s, k, c);
    LinkStep(t, hash, s, k, c);
  }

  lemma LinkStep<K(!new)>(t: seq<Cell<K>>, hash: K -> nat, s: Layout<K>, k: K, c: nat)
    requires Kept(t, hash, s) && Walking(t, s, k, c)
    ensures c < |t| == |s.links.rank|
    ensures var x, p := t[c], Target(t, s, k);
            var here := x.key == Some(k) && c == p.1;
            && (!here && x.next == 0 ==> p !in s.links.where)
            && (!here && x.next != 0 ==>
                  && x.next <= |t| && t[x.next - 1].key.Some?
                  && Walking(t, s, k, x.next - 1) && Ahead(s.links, x.next - 1) < Ahead(s.links, c))
    ensures Target(t, s, k).1 == if k in s.first then s.first[k] else |t|
  {
    hide Firsts;
    WalkStep(Marked(t), HomeOf(hash, |t|), s.links, Target(t, s, k), c);
    hide Chained;
    hide OnTheWay;
  }

  /** The way to the first entry of a key meets no other one. */
  lemma FirstHere<K(!new)>(t: seq<Cell<K>>, hash: K -> nat, s: Layout<K>, k: K, c: nat)
    requires Kept(t, hash, s) && Walking(t, s, k, c)
    ensures c < |t|
    ensures t[c].key == Some(k) <==> k in s.first && s.first[k] == c
  {
    TargetPlace(t, hash, s, k);
    KeptFirst(t, hash, s);
    hide Chained;
    if t[c].key == Some(k) {
      assert k in s.first;
      assert IsFirst(t, s.links, k, s.first[k]);
    }
  }

  /** A link leads to a slot that is taken. */
  lemma LinkTaken<K(!new)>(t: seq<Cell<K>>, hash: K -> nat, s: Layout<K>, c: nat)
    requires Kept(t, hash, s) && c < |t| && t[c].next != 0
    ensures t[c].next <= |t| && t[t[c].next - 1].key.Some?
  {
    hide Firsts;
    hide KeysPlaced;
    hide HomesReach;
    var n := t[c].next - 1;
    assert Marked(t)[c].next == n + 1;
    assert Link(Marked(t), c, n);
    assert Before(Marked(t), s.links, c, n);
  }
}
