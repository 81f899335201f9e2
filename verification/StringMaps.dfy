/** The growing table from strings to pointers, `struct map_sp` of lualib-src/pbc/src/map.c. */
module StringMaps {
  import opened Words
  import opened Chains
  import opened Copies

  /** `struct _pbcM_sp_slot`; `None` stands for NULL. */
  datatype Slot<+V> = Slot(key: Option<string>, hash: nat, pointer: Option<V>, next: nat)

  function EmptySlot<V>(): Slot<V> { Slot(None, 0, None, 0) }

  function Cells<V>(slots: seq<Slot<V>>): (t: seq<Cell<string>>)
    ensures |t| == |slots|
    ensures forall i {:trigger t[i]} {:trigger slots[i]} :: 0 <= i < |t| ==> t[i] == Cell(slots[i].key, slots[i].next)
  {
    seq(|slots|, i requires 0 <= i < |slots| => Cell(slots[i].key, slots[i].next))
  }

  ghost predicate HashesKept<V>(slots: seq<Slot<V>>, calcHash: string -> nat) {
    forall i {:trigger slots[i]} :: 0 <= i < |slots| ==>
      if slots[i].key.Some? then slots[i].hash == calcHash(slots[i].key.value)
      else slots[i] == EmptySlot()
  }

  ghost predicate Keeps<V>(slots: seq<Slot<V>>, calcHash: string -> nat, s: Layout<string>) {
    && |slots| > 0 && PowerOfTwo(|slots|)
    && Kept(Cells(slots), calcHash, s)
    && HashesKept(slots, calcHash)
  }

  ghost function Lookup<V>(slots: seq<Slot<V>>, first: map<string, nat>): map<string, Option<V>>
    requires forall k :: k in first ==> first[k] < |slots|
  {
    map k | k in first :: slots[first[k]].pointer
  }

  /** No key is held twice. */
  ghost predicate NoTwins<V>(slots: seq<Slot<V>>, first: map<string, nat>) {
    forall i {:trigger slots[i]} :: 0 <= i < |slots| && slots[i].key.Some? ==>
      slots[i].key.value in first && first[slots[i].key.value] == i
  }

  lemma KeepsFirst<V>(slots: seq<Slot<V>>, calcHash: string -> nat, s: Layout<string>)
    requires Keeps(slots, calcHash, s)
    ensures |slots| > 0
    ensures forall k :: k in s.first ==> s.first[k] < |slots| && slots[s.first[k]].key == Some(k)
    ensures forall i {:trigger slots[i]} :: 0 <= i < |slots| && slots[i].key.Some? ==> slots[i].key.value in s.first
    ensures forall i {:trigger slots[i]} :: 0 <= i < |slots| && slots[i].key.None? ==> slots[i] == EmptySlot()
  {
    KeptFirst(Cells(slots), calcHash, s);
    hide Kept;
    hide PowerOfTwo;
  }

  lemma KeepsCount<V>(slots: seq<Slot<V>>, calcHash: string -> nat, s: Layout<string>)
    requires Keeps(slots, calcHash, s)
    ensures |s.links.where| <= |slots|
  {
    KeptCount(Cells(slots), calcHash, s);
    hide *;
  }

  // ----- the two ways of storing an entry ---------------------------------------------------

  function StoredAtHome<V>(slots: seq<Slot<V>>, k: string, hash: nat, h: nat, v: Option<V>): (r: seq<Slot<V>>)
    requires h < |slots|
    ensures |r| == |slots|
  {
    slots[h := Slot(Some(k), hash, v, slots[h].next)]
  }

  function StoredBehind<V>(slots: seq<Slot<V>>, k: string, hash: nat, h: nat, e: nat, v: Option<V>): (r: seq<Slot<V>>)
    requires h < |slots| && e < |slots|
    ensures |r| == |slots|
  {
    slots[e := Slot(Some(k), hash, v, slots[h].next)][h := slots[h].(next := e + 1)]
  }

  lemma StoreAtHome<V>(slots: seq<Slot<V>>, calcHash: string -> nat, s: Layout<string>,
                       k: string, h: nat, v: Option<V>) returns (s': Layout<string>)
    requires Keeps(slots, calcHash, s)
    requires h == calcHash(k) % |slots| && slots[h] == EmptySlot()
    ensures k !in s.first && s'.first == s.first[k := h] && |s'.links.where| == |s.links.where| + 1
    ensures Keeps(StoredAtHome(slots, k, calcHash(k), h, v), calcHash, s')
  {
    hide PowerOfTwo;
    hide Kept;
    s' := EnterAtHome(Cells(slots), calcHash, s, k, h);
    assert Cells(StoredAtHome(slots, k, calcHash(k), h, v)) == Cells(slots)[h := Cell(Some(k), 0)];
  }

  /** Slot `i` lies on the way from slot `h` to slot `e`, which may go round the end of the table. */
  predicate Between(h: int, i: int, e: int) { if h < e then h < i < e else i > h || i < e }

  /** Slot `e` is the first empty one behind slot `h`, going round. */
  ghost predicate NextEmpty<V>(slots: seq<Slot<V>>, h: nat, e: nat) {
    && e < |slots| && slots[e].key.None?
    && forall i {:trigger slots[i]} :: 0 <= i < |slots| && Between(h, i, e) ==> slots[i].key.Some?
  }

  /** The entry took the home slot of its key, if that was empty, and else the next empty slot, which the home slot
      now leads to. */
  ghost predicate LaidIn<V>(was: seq<Slot<V>>, now: seq<Slot<V>>, k: string, hash: nat, v: Option<V>) {
    |was| > 0
    && var h := hash % |was|;
       if was[h].key.None? then now == StoredAtHome(was, k, hash, h, v)
       else exists e: nat :: NextEmpty(was, h, e) && now == StoredBehind(was, k, hash, h, e, v)
  }

  /** Where an entry of the key may be linked in: behind a slot of its chain, and if the key is there
      already, behind its home slot only. */
  ghost predicate MayGoBehind<V>(slots: seq<Slot<V>>, calcHash: string -> nat, s: Layout<string>, k: string, c: nat) {
    MayEnterBehind(Cells(slots), calcHash, s, k, c)
  }

  lemma StoreBehind<V>(slots: seq<Slot<V>>, calcHash: string -> nat, s: Layout<string>,
                       k: string, c: nat, e: nat, v: Option<V>) returns (s': Layout<string>)
    requires Keeps(slots, calcHash, s) && MayGoBehind(slots, calcHash, s, k, c)
    requires e < |slots| && slots[e] == EmptySlot()
    ensures c < |slots| && c != e && slots[c].key.Some?
    ensures s'.first == FirstBehind(Cells(slots), s.first, k, c, e) && |s'.links.where| == |s.links.where| + 1
    ensures Keeps(StoredBehind(slots, k, calcHash(k), c, e, v), calcHash, s')
  {
    hide PowerOfTwo;
    hide Kept;
    hide MayEnterBehind;
    hide FirstBehind;
    var t := Cells(slots);
    s' := EnterBehind(t, calcHash, s, k, c, e);
    assert Cells(StoredBehind(slots, k, calcHash(k), c, e, v)) == CellsBehind(t, k, c, e);
  }

  // ----- what is stored ----------------------------------------------------------------------

  /** The slots from `i` on that hold a non-null pointer, in slot order. */
  function EntriesFrom<V>(slots: seq<Slot<V>>, i: nat): seq<(string, V)>
    decreases |slots| - i
  {
    if i >= |slots| then []
    else if slots[i].pointer.Some? && slots[i].key.Some?
      then [(slots[i].key.value, slots[i].pointer.value)] + EntriesFrom(slots, i + 1)
      else EntriesFrom(slots, i + 1)
  }

  /** All entries of the first `n` slots, those of a key held twice included. */
  ghost function StoredBefore<V>(slots: seq<Slot<V>>, n: nat): multiset<(string, Option<V>)>
    requires n <= |slots|
  {
    if n == 0 then multiset{}
    else StoredBefore(slots, n - 1)
         + if slots[n - 1].key.Some? then multiset{(slots[n - 1].key.value, slots[n - 1].pointer)} else multiset{}
  }

  lemma {:induction false} StoredMore<V>(slots: seq<Slot<V>>, now: seq<Slot<V>>, at: nat, k: string, v: Option<V>,
                                         n: nat)
    requires |slots| == |now| && at < |slots| && n <= |slots|
    requires slots[at].key.None? && now[at].key == Some(k) && now[at].pointer == v
    requires forall i {:trigger now[i]} :: 0 <= i < |slots| && i != at ==>
               now[i].key == slots[i].key && now[i].pointer == slots[i].pointer
    ensures StoredBefore(now, n) == StoredBefore(slots, n) + if at < n then multiset{(k, v)} else multiset{}
  {
    if n > 0 {
      StoredMore(slots, now, at, k, v, n - 1);
      var a, a' := StoredBefore(slots, n - 1), StoredBefore(now, n - 1);
      StoredStep(slots, n - 1);
      StoredStep(now, n - 1);
      hide *;
      if n - 1 != at { assert now[n - 1].key == slots[n - 1].key && now[n - 1].pointer == slots[n - 1].pointer; }
    }
  }

  lemma StoredStep<V>(slots: seq<Slot<V>>, n: nat)
    requires n < |slots|
    ensures StoredBefore(slots, n + 1)
         == StoredBefore(slots, n)
            + if slots[n].key.Some? then multiset{(slots[n].key.value, slots[n].pointer)} else multiset{}
  {
  }

  lemma {:induction false} StoredNone<V>(slots: seq<Slot<V>>, n: nat)
    requires n <= |slots| && forall i {:trigger slots[i]} :: 0 <= i < |slots| ==> slots[i] == EmptySlot()
    ensures StoredBefore(slots, n) == multiset{}
  {
    if n > 0 { StoredNone(slots, n - 1); }
  }

  lemma {:induction false} StoredAt<V>(slots: seq<Slot<V>>, k: string, n: nat)
    requires n <= |slots|
    ensures forall i :: 0 <= i < n && slots[i].key == Some(k) ==> (k, slots[i].pointer) in StoredBefore(slots, n)
    ensures forall p :: (k, p) in StoredBefore(slots, n) ==>
              exists i :: 0 <= i < n && slots[i].key == Some(k) && slots[i].pointer == p
  {
    if n > 0 {
      StoredAt(slots, k, n - 1);
      forall p | (k, p) in StoredBefore(slots, n)
        ensures exists i :: 0 <= i < n && slots[i].key == Some(k) && slots[i].pointer == p
      {
        if (k, p) in StoredBefore(slots, n - 1) {
          var i :| 0 <= i < n - 1 && slots[i].key == Some(k) && slots[i].pointer == p;
          assert 0 <= i < n;
        } else {
          assert slots[n - 1].key == Some(k) && slots[n - 1].pointer == p;
        }
      }
    }
  }

  /** Tables that store the same entries hold the same keys. */
  lemma {:induction false} SameKeys<V>(a: seq<Slot<V>>, b: seq<Slot<V>>, calcHash: string -> nat, s: Layout<string>,
                                       s': Layout<string>)
    requires Keeps(a, calcHash, s) && Keeps(b, calcHash, s') && StoredBefore(a, |a|) == StoredBefore(b, |b|)
    ensures s.first.Keys == s'.first.Keys
  {
    KeepsFirst(a, calcHash, s);
    KeepsFirst(b, calcHash, s');
    hide *;
    forall k ensures k in s.first <==> k in s'.first {
      StoredAt(a, k, |a|);
      StoredAt(b, k, |b|);
      if k in s.first {
        assert (k, a[s.first[k]].pointer) in StoredBefore(b, |b|);
        var i :| 0 <= i < |b| && b[i].key == Some(k);
        assert b[i].key.value in s'.first;
      }
      if k in s'.first {
        assert (k, b[s'.first[k]].pointer) in StoredBefore(a, |a|);
        var i :| 0 <= i < |a| && a[i].key == Some(k);
        assert a[i].key.value in s.first;
      }
    }
  }

  /** Storing at `at` an entry that comes first, and changing no other pointer, gives its key its value. */
  lemma LookupStored<V>(slots: seq<Slot<V>>, now: seq<Slot<V>>, first: map<string, nat>, k: string, at: nat,
                        v: Option<V>)
    requires forall x :: x in first ==> first[x] < |slots| && first[x] != at
    requires at < |slots| == |now| && now[at].pointer == v
    requires forall i {:trigger now[i]} :: 0 <= i < |slots| && i != at ==> now[i].pointer == slots[i].pointer
    ensures Lookup(now, first[k := at]) == Lookup(slots, first)[k := v]
    ensures Lookup(now, first) == Lookup(slots, first)
  {
    var l, l' := Lookup(slots, first), Lookup(now, first[k := at]);
    assert l'.Keys == l.Keys + {k};
  }

  /** What the table stands for once one more entry is linked in behind slot `c`. */
  lemma LookupBehind<V>(slots: seq<Slot<V>>, calcHash: string -> nat, s: Layout<string>, k: string, c: nat, e: nat,
                        v: Option<V>)
    requires Keeps(slots, calcHash, s) && c < |slots| && e < |slots| && c != e && slots[e] == EmptySlot()
    ensures forall x :: x in s.first ==> s.first[x] < |slots|
    ensures var now, first := StoredBehind(slots, k, calcHash(k), c, e, v), FirstBehind(Cells(slots), s.first, k, c, e);
            && (forall x :: x in first ==> first[x] < |now|)
            && Lookup(now, first)
               == (if slots[c].key == Some(k) then Lookup(slots, s.first) else Lookup(slots, s.first)[k := v])
            && StoredBefore(now, |now|) == StoredBefore(slots, |slots|) + multiset{(k, v)}
            && KeysStay(slots, now)
            && (k !in s.first && slots[c].key != Some(k) && NoTwins(slots, s.first) ==> NoTwins(now, first))
  {
    hide Keeps;
    KeepsFirst(slots, calcHash, s);
    var now := StoredBehind(slots, k, calcHash(k), c, e, v);
    StoredMore(slots, now, e, k, v, |slots|);
    LookupStored(slots, now, s.first, k, e, v);
    hide Lookup;
    hide StoredBefore;
  }

  lemma LookupAtHome<V>(slots: seq<Slot<V>>, calcHash: string -> nat, s: Layout<string>, k: string, h: nat,
                        v: Option<V>)
    requires Keeps(slots, calcHash, s) && h < |slots| && slots[h] == EmptySlot() && k !in s.first
    ensures forall x :: x in s.first ==> s.first[x] < |slots|
    ensures var now, first := StoredAtHome(slots, k, calcHash(k), h, v), s.first[k := h];
            && Lookup(now, first) == Lookup(slots, s.first)[k := v]
            && StoredBefore(now, |now|) == StoredBefore(slots, |slots|) + multiset{(k, v)}
            && KeysStay(slots, now)
            && (NoTwins(slots, s.first) ==> NoTwins(now, first))
  {
    hide Keeps;
    KeepsFirst(slots, calcHash, s);
    var now := StoredAtHome(slots, k, calcHash(k), h, v);
    StoredMore(slots, now, h, k, v, |slots|);
    LookupStored(slots, now, s.first, k, h, v);
    hide Lookup;
    hide StoredBefore;
  }

  /** Slots that are taken keep their keys. */
  ghost predicate KeysStay<V>(was: seq<Slot<V>>, now: seq<Slot<V>>) {
    && |was| == |now|
    && forall i {:trigger now[i]} {:trigger was[i]} :: 0 <= i < |was| && was[i].key.Some? ==> now[i].key == was[i].key
  }

  /** They do, and each of the keys is in its home slot now if it was before. */
  ghost predicate HomesStay<V>(was: seq<Slot<V>>, now: seq<Slot<V>>, calcHash: string -> nat, keys: set<string>) {
    && KeysStay(was, now) && (keys != {} ==> |was| > 0)
    && forall x <- keys :: now[calcHash(x) % |now|].key == Some(x) <==> was[calcHash(x) % |was|].key == Some(x)
  }

  lemma HomesKept<V>(was: seq<Slot<V>>, now: seq<Slot<V>>, calcHash: string -> nat, s: Layout<string>)
    requires Keeps(was, calcHash, s) && KeysStay(was, now)
    ensures HomesStay(was, now, calcHash, s.first.Keys)
  {
    forall x <- s.first ensures was[calcHash(x) % |was|].key.Some? { HomeFacts(was, calcHash, s, x); }
    KeepsFirst(was, calcHash, s);
    hide Keeps;
  }

  /** The first entries of the keys, as far as they lie in the first `n` slots. */
  ghost function Moved<V>(slots: seq<Slot<V>>, first: map<string, nat>, n: nat): map<string, Option<V>>
    requires forall k :: k in first ==> first[k] < |slots|
  {
    map k | k in first && first[k] < n :: slots[first[k]].pointer
  }

  lemma MovedOneMore<V>(slots: seq<Slot<V>>, calcHash: string -> nat, s: Layout<string>, n: nat)
    requires Keeps(slots, calcHash, s) && n < |slots| && slots[n].key.Some?
    ensures forall x :: x in s.first ==> s.first[x] < |slots|
    ensures NoTwins(slots, s.first) ==>
              && slots[n].key.value !in Moved(slots, s.first, n)
              && Moved(slots, s.first, n + 1) == Moved(slots, s.first, n)[slots[n].key.value := slots[n].pointer]
    ensures StoredBefore(slots, n + 1) == StoredBefore(slots, n) + multiset{(slots[n].key.value, slots[n].pointer)}
  {
    hide Keeps;
    KeepsFirst(slots, calcHash, s);
    var key := slots[n].key.value;
    forall k | k in s.first && s.first[k] == n ensures k == key { assert slots[s.first[k]].key == Some(k); }
  }

  lemma PointerKeeps<V>(slots: seq<Slot<V>>, calcHash: string -> nat, s: Layout<string>, at: nat, v: Option<V>)
    requires Keeps(slots, calcHash, s) && at < |slots| && slots[at].key.Some?
    ensures Keeps(slots[at := slots[at].(pointer := v)], calcHash, s)
  {
    hide PowerOfTwo;
    hide Kept;
    assert Cells(slots[at := slots[at].(pointer := v)]) == Cells(slots);
  }

  /** Storing through the pointer to the first entry of a key changes what the key maps to. */
  lemma StorePointer<V>(slots: seq<Slot<V>>, calcHash: string -> nat, s: Layout<string>, k: string, v: Option<V>)
    requires Keeps(slots, calcHash, s) && k in s.first
    ensures forall x :: x in s.first ==> s.first[x] < |slots|
    ensures var at := s.first[k];
            && slots[at].key == Some(k)
            && Keeps(slots[at := slots[at].(pointer := v)], calcHash, s)
            && Lookup(slots[at := slots[at].(pointer := v)], s.first) == Lookup(slots, s.first)[k := v]
  {
    hide Keeps;
    KeepsFirst(slots, calcHash, s);
    PointerKeeps(slots, calcHash, s, s.first[k], v);
    forall x | x in s.first && x != k ensures s.first[x] != s.first[k] { assert slots[s.first[x]].key == Some(x); }
  }

  // ----- the walk along a chain -----------------------------------------------------------------

  ghost predicate OnWay<V>(slots: seq<Slot<V>>, s: Layout<string>, k: string, c: nat) { Walking(Cells(slots), s, k, c) }

  lemma FindStart<V>(slots: seq<Slot<V>>, calcHash: string -> nat, s: Layout<string>, k: string)
    requires Keeps(slots, calcHash, s)
    ensures OnWay(slots, s, k, calcHash(k) % |slots|)
  {
    hide Kept;
    hide PowerOfTwo;
    WalkStart(Cells(slots), calcHash, s, k);
  }

  lemma FindStep<V>(slots: seq<Slot<V>>, calcHash: string -> nat, s: Layout<string>, k: string, c: nat)
    requires Keeps(slots, calcHash, s) && OnWay(slots, s, k, c)
    ensures c < |slots| == |s.links.rank|
    ensures var x := slots[c];
            var here := x.hash == calcHash(k) && x.key == Some(k);
            && (here <==> k in s.first && s.first[k] == c)
            && (x.key == Some(k) ==> here)
            && (x.key.None? ==> x == EmptySlot())
            && (!here && x.next == 0 ==> k !in s.first)
            && (!here && x.next != 0 ==>
                  && x.next <= |slots| && slots[x.next - 1].key.Some?
                  && OnWay(slots, s, k, x.next - 1) && Ahead(s.links, x.next - 1) < Ahead(s.links, c))
  {
    hide Kept;
    hide PowerOfTwo;
    hide Walking;
    WalkFurther(Cells(slots), calcHash, s, k, c);
  }

  // ----- the comparison with a key that is NULL ----------------------------------------------------

  /** The slot that the walk for a key looks at after `steps` links. */
  ghost function Visited<V>(slots: seq<Slot<V>>, hashFull: nat, k: string, c: int, steps: nat): Option<nat>
    decreases steps
  {
    if !(0 <= c < |slots|) then None
    else if steps == 0 then Some(c)
    else if (slots[c].hash == hashFull && slots[c].key == Some(k)) || slots[c].next == 0 then None
    else Visited(slots, hashFull, k, slots[c].next - 1, steps - 1)
  }

  /** The walk for a key hands a NULL key to `strcmp`. */
  ghost predicate ComparesNull<V>(slots: seq<Slot<V>>, calcHash: string -> nat, k: string)
    requires |slots| > 0
  {
    exists steps: nat, c: nat {:trigger NullMet(slots, calcHash, k, steps, c)} :: NullMet(slots, calcHash, k, steps, c)
  }

  ghost predicate NullMet<V>(slots: seq<Slot<V>>, calcHash: string -> nat, k: string, steps: nat, c: nat)
    requires |slots| > 0
  {
    && Visited(slots, calcHash(k), k, calcHash(k) % |slots|, steps) == Some(c) && c < |slots|
    && slots[c].hash == calcHash(k) && slots[c].key.None?
  }

  /** The walk may be made: a key of hash zero must have a home slot that is taken, since an empty
      slot, too, has the hash zero. */
  predicate Askable<V>(slots: seq<Slot<V>>, calcHash: string -> nat, k: string)
    requires |slots| > 0
  {
    calcHash(k) != 0 || slots[calcHash(k) % |slots|].key.Some?
  }

  lemma {:induction false} LinkedTaken<V>(slots: seq<Slot<V>>, calcHash: string -> nat, s: Layout<string>, k: string,
                                          c: nat, steps: nat)
    requires Keeps(slots, calcHash, s) && c < |slots| && (steps > 0 || slots[c].key.Some?)
    ensures match Visited(slots, calcHash(k), k, c, steps)
            case None => true
            case Some(d) => d < |slots| && slots[d].key.Some?
    decreases steps
  {
    hide PowerOfTwo;
    hide HashesKept;
    hide Kept;
    if steps > 0 && slots[c].next != 0 {
      LinkTaken(Cells(slots), calcHash, s, c);
      LinkedTaken(slots, calcHash, s, k, slots[c].next - 1, steps - 1);
    }
  }

  /** Exactly when the walk for a key compares with NULL. */
  lemma NullCompared<V>(slots: seq<Slot<V>>, calcHash: string -> nat, s: Layout<string>, k: string)
    requires Keeps(slots, calcHash, s)
    ensures ComparesNull(slots, calcHash, k) <==> !Askable(slots, calcHash, k)
  {
    hide Keeps;
    hide Visited;
    KeepsFirst(slots, calcHash, s);
    var h := calcHash(k) % |slots|;
    if !Askable(slots, calcHash, k) {
      assert Visited(slots, calcHash(k), k, h, 0) == Some(h) by { VisitedFirst(slots, calcHash(k), k, h); }
      assert NullMet(slots, calcHash, k, 0, h);
    }
    if ComparesNull(slots, calcHash, k) {
      var steps: nat, c: nat :| NullMet(slots, calcHash, k, steps, c);
      VisitedFirst(slots, calcHash(k), k, h);
      if steps > 0 || slots[h].key.Some? { LinkedTaken(slots, calcHash, s, k, h, steps); }
    }
  }

  lemma VisitedFirst<V>(slots: seq<Slot<V>>, hashFull: nat, k: string, c: nat)
    requires c < |slots|
    ensures Visited(slots, hashFull, k, c, 0) == Some(c)
  {
  }

  /** The table of a message without fields, asked for the empty key, whose hash is zero. */
  lemma NullInEmptyTable<V>(calcHash: string -> nat)
    requires calcHash("") == 0
    ensures ComparesNull<V>([EmptySlot()], calcHash, "")
  {
    assert NullMet<V>([EmptySlot()], calcHash, "", 0, 0);
  }

  lemma LookupIs<V>(slots: seq<Slot<V>>, first: map<string, nat>, k: string)
    requires (forall x :: x in first ==> first[x] < |slots|) && k in first
    ensures Lookup(slots, first).Keys == first.Keys && Lookup(slots, first)[k] == slots[first[k]].pointer
  {
  }

  lemma HeldSomewhere<V>(slots: seq<Slot<V>>, k: string, p: Option<V>) returns (i: nat)
    requires (k, p) in StoredBefore(slots, |slots|)
    ensures i < |slots| && slots[i].key == Some(k) && slots[i].pointer == p
  {
    StoredAt(slots, k, |slots|);
    i :| 0 <= i < |slots| && slots[i].key == Some(k) && slots[i].pointer == p;
  }

  /** Without repeated keys, what is stored is what queries give. */
  lemma StoredOnce<V>(slots: seq<Slot<V>>, first: map<string, nat>)
    requires (forall x :: x in first ==> first[x] < |slots|) && NoTwins(slots, first)
    ensures forall e :: e in StoredBefore(slots, |slots|) ==>
              e.0 in Lookup(slots, first) && Lookup(slots, first)[e.0] == e.1
  {
    hide StoredBefore;
    forall e | e in StoredBefore(slots, |slots|)
      ensures e.0 in Lookup(slots, first) && Lookup(slots, first)[e.0] == e.1
    {
      var k, p := e.0, e.1;
      assert e == (k, p);
      var i := HeldSomewhere(slots, k, p);
    }
  }

  lemma AloneAtHome<V>(slots: seq<Slot<V>>, calcHash: string -> nat, s: Layout<string>)
    requires Keeps(slots, calcHash, s) && |s.links.where| == 1
    ensures NoTwins(slots, s.first)
    ensures |slots| > 0 && forall k <- s.first :: slots[calcHash(k) % |slots|].key == Some(k)
  {
    hide Kept;
    hide PowerOfTwo;
    OnlyOne(Cells(slots), calcHash, s);
  }

  lemma WrapAround(i: nat, cap: nat)
    requires i < cap
    ensures (i + 1) % cap == if i + 1 == cap then 0 else i + 1
  {
    if i + 1 == cap { RemainderUnique(cap, cap, 1, 0); } else { RemainderUnique(i + 1, cap, 0, i + 1); }
  }

  lemma NextEmptyIs<V>(slots: seq<Slot<V>>, h: nat, e: nat)
    requires e < |slots| && slots[e].key.None?
    requires forall i {:trigger slots[i]} ::
               0 <= i < |slots| && (if h < e then h < i < e else i > h || i < e) ==> slots[i].key.Some?
    ensures NextEmpty(slots, h, e)
  {
  }

  lemma LaidInIs<V>(was: seq<Slot<V>>, now: seq<Slot<V>>, k: string, hash: nat, v: Option<V>, e: nat)
    requires |was| > 0
    requires var h := hash % |was|;
      if was[h].key.None? then now == StoredAtHome(was, k, hash, h, v)
      else NextEmpty(was, h, e) && now == StoredBehind(was, k, hash, h, e, v)
    ensures LaidIn(was, now, k, hash, v)
  {
    hide NextEmpty;
    hide StoredAtHome;
    hide StoredBehind;
  }

  lemma SomeEmpty<V>(slots: seq<Slot<V>>, calcHash: string -> nat, s: Layout<string>) returns (e: nat)
    requires Keeps(slots, calcHash, s) && |s.links.where| < |slots|
    ensures e < |slots| && slots[e].key.None?
  {
    hide PowerOfTwo;
    hide HashesKept;
    hide Kept;
    e := KeptRoom(Cells(slots), calcHash, s);
  }

  lemma KeepsPower<V>(slots: seq<Slot<V>>, calcHash: string -> nat, s: Layout<string>)
    requires Keeps(slots, calcHash, s)
    ensures PowerOfTwo(|slots|)
  {
    hide Kept;
    hide HashesKept;
  }

  /** Slot `c` belongs to the chain of the key. */
  ghost predicate ChainOf<V>(slots: seq<Slot<V>>, calcHash: string -> nat, s: Layout<string>, k: string, c: nat) {
    InChain(Cells(slots), calcHash, s, k, c)
  }

  lemma ChainStarts<V>(slots: seq<Slot<V>>, calcHash: string -> nat, s: Layout<string>, k: string)
    requires Keeps(slots, calcHash, s) && slots[calcHash(k) % |slots|].key.Some?
    ensures ChainOf(slots, calcHash, s, k, calcHash(k) % |slots|)
  {
    hide Kept;
    hide PowerOfTwo;
    hide InChain;
    HomeInChain(Cells(slots), calcHash, s, k);
  }

  lemma ChainGoesOn<V>(slots: seq<Slot<V>>, calcHash: string -> nat, s: Layout<string>, k: string, c: nat)
    requires Keeps(slots, calcHash, s) && ChainOf(slots, calcHash, s, k, c) && c < |slots| && slots[c].next != 0
    ensures slots[c].next <= |slots| && ChainOf(slots, calcHash, s, k, slots[c].next - 1)
  {
    hide Kept;
    hide PowerOfTwo;
    hide InChain;
    NextInChain(Cells(slots), calcHash, s, k, c);
  }

  class StringMap<V> {
    /** Any hash function does; the source's is `calc_hash`. */
    const calcHash: string -> nat
    var cap: nat
    var size: nat
    var slot: array<Slot<V>>
    ghost var shape: Layout<string>

    ghost predicate Valid()
      reads this, slot
    {
      && slot.Length == cap && cap > 0
      && Keeps(slot[..], calcHash, shape)
      && size == |shape.links.where| <= cap
    }

    /** The finite map that the table stands for: what a query gives for each key. */
    ghost function Model(): (m: map<string, Option<V>>)
      reads this, slot
      requires Valid()
      ensures m.Keys == shape.first.Keys
    {
      KeepsFirst(slot[..], calcHash, shape);
      Lookup(slot[..], shape.first)
    }

    /** All entries, those that no query gives included. */
    ghost function Stored(): multiset<(string, Option<V>)>
      reads this, slot
    {
      StoredBefore(slot[..], slot.Length)
    }

    /** No key is held twice. */
    ghost predicate Distinct()
      reads this, slot
    {
      NoTwins(slot[..], shape.first)
    }

    /** The key sits in its home slot. */
    ghost predicate AtHome(key: string)
      reads this, slot
    {
      slot.Length > 0 && slot[calcHash(key) % slot.Length].key == Some(key)
    }

    /** The key can be looked for without a comparison with NULL. */
    predicate CanAsk(key: string)
      reads this, slot
    {
      slot.Length > 0 && Askable(slot[..], calcHash, key)
    }

    lemma ValidFacts()
      requires Valid()
      ensures slot.Length == cap > 0 && |slot[..]| == cap && Keeps(slot[..], calcHash, shape)
      ensures size == |shape.links.where| <= cap && PowerOfTwo(cap)
      ensures forall k :: k in shape.first ==> shape.first[k] < cap && slot[shape.first[k]].key == Some(k)
      ensures Model() == Lookup(slot[..], shape.first)
    {
      KeepsPower(slot[..], calcHash, shape);
      KeepsFirst(slot[..], calcHash, shape);
      hide Keeps;
      hide Lookup;
    }

    /** `_pbcM_sp_new` */
    constructor (calcHash: string -> nat, max: nat)
      ensures Valid() && fresh(slot) && this.calcHash == calcHash
      ensures Model() == map[] && size == 0 && max <= cap && Distinct() && Stored() == multiset{}
      ensures cap == 1 || cap < 2 * max
    {
      var c := 1;
      while c < max
        invariant c > 0 && PowerOfTwo(c) && (c == 1 || c < 2 * max)
      {
        DoublePower(c);
        c := c * 2;
      }
      this.calcHash := calcHash;
      cap, size := c, 0;
      slot := new Slot<V>[c](_ => EmptySlot());
      shape := Layout(EmptyShape(c), map[]);
      new;
      KeptNothing(Cells(slot[..]), calcHash);
      StoredNone(slot[..], c);
    }

    /** `x & (cap - 1)` */
    method Mask(x: nat) returns (h: nat)
      requires cap > 0 && PowerOfTwo(cap)
      ensures h == x % cap < cap
    {
      MaskIsRemainder(x, cap);
      h := And(x, cap - 1);
    }

    /** The probe for an empty slot, starting right after the home slot and going round. */
    method FindEmpty(hash: nat) returns (empty: nat)
      requires Valid() && size < cap && hash < cap && slot[hash].key.Some?
      ensures empty < cap && slot[empty] == EmptySlot() && NextEmpty(slot[..], hash, empty)
    {
      hide *;
      ValidFacts();
      ghost var slots := slot[..];
      ghost var e := SomeEmpty(slots, calcHash, shape);
      KeepsFirst(slots, calcHash, shape);
      assert slot[e] == slots[e];
      WrapAround(hash, cap);
      empty := Mask(hash + 1);
      while slot[empty].key.Some?
        invariant empty < cap == |slots| && empty != hash
        invariant forall i {:trigger slots[i]} ::
                    0 <= i < cap && (if hash < empty then hash < i < empty else i > hash || i < empty) ==>
                      slots[i].key.Some?
        decreases if empty <= e then e - empty else e + cap - empty
      {
        WrapAround(empty, cap);
        assert slot[empty] == slots[empty];
        empty := Mask(empty + 1);
      }
      assert slot[empty] == slots[empty];
      NextEmptyIs(slots, hash, empty);
    }

    /** An entry takes the empty home slot of its key. */
    method PlaceAtHome(key: string, hashFull: nat, value: Option<V>, hash: nat)
      requires Valid() && size < cap && hashFull == calcHash(key)
      requires hash == hashFull % cap && slot[hash].key.None?
      modifies this, slot
      ensures Valid() && slot == old(slot) && cap == old(cap) && size == old(size) + 1
      ensures slot[..] == StoredAtHome(old(slot[..]), key, hashFull, hash, value)
      ensures key !in old(Model()) && Model() == old(Model())[key := value] && shape.first[key] == hash
      ensures Stored() == old(Stored()) + multiset{(key, value)} && KeysStay(old(slot[..]), slot[..])
      ensures old(Distinct()) ==> Distinct()
    {
      hide Keeps;
      hide Lookup;
      hide StoredBefore;
      hide NoTwins;
      hide KeysStay;
      ghost var was := slot[..];
      KeepsFirst(was, calcHash, shape);
      assert was[hash] == slot[hash];
      ghost var s' := StoreAtHome(was, calcHash, shape, key, hash, value);
      LookupAtHome(was, calcHash, shape, key, hash, value);
      slot[hash] := Slot(Some(key), hashFull, value, slot[hash].next);
      assert slot[..] == StoredAtHome(was, key, hashFull, hash, value);
      hide StoredAtHome;
      shape := s';
      KeepsCount(slot[..], calcHash, shape);
      size := size + 1;
    }

    /** An entry takes an empty slot, linked in behind slot `c` of the chain of its key. */
    method PlaceBehind(key: string, hashFull: nat, value: Option<V>, hash: nat, c: nat) returns (empty: nat)
      requires Valid() && size < cap && hashFull == calcHash(key)
      requires hash < cap && slot[hash].key.Some? && MayGoBehind(slot[..], calcHash, shape, key, c)
      modifies this, slot
      ensures Valid() && slot == old(slot) && cap == old(cap) && size == old(size) + 1
      ensures c < cap && NextEmpty(old(slot[..]), hash, empty)
      ensures slot[..] == StoredBehind(old(slot[..]), key, hashFull, c, empty, value)
      ensures c < cap && Model() == if old(slot[c]).key == Some(key) then old(Model()) else old(Model())[key := value]
      ensures old(slot[c]).key != Some(key) ==> shape.first[key] == empty
      ensures Stored() == old(Stored()) + multiset{(key, value)} && KeysStay(old(slot[..]), slot[..])
      ensures old(Distinct() && key !in Model()) ==> Distinct()
    {
      hide *;
      ValidFacts();
      ghost var was := slot[..];
      empty := FindEmpty(hash);
      ghost var s' := StoreBehind(was, calcHash, shape, key, c, empty, value);
      HeldHere(was, calcHash, shape, key, c);
      LookupBehind(was, calcHash, shape, key, c, empty, value);
      Reading();
      FirstOf(was, shape.first, key, c, empty);
      WriteBehind(key, hashFull, value, c, empty);
      shape := s';
      KeepsCount(slot[..], calcHash, shape);
      size := size + 1;
      Reading();
      BecomesValid();
      ValidFacts();
    }

    /** The writes to the two slots. */
    method WriteBehind(key: string, hashFull: nat, value: Option<V>, c: nat, empty: nat)
      requires c < slot.Length && empty < slot.Length && c != empty
      modifies slot
      ensures slot[..] == StoredBehind(old(slot[..]), key, hashFull, c, empty, value)
    {
      slot[empty] := Slot(Some(key), hashFull, value, slot[c].next);
      slot[c] := slot[c].(next := empty + 1);
    }

    /** What the abbreviations stand for. */
    lemma Reading()
      ensures Stored() == StoredBefore(slot[..], |slot[..]|) && (Distinct() <==> NoTwins(slot[..], shape.first))
    {
      hide StoredBefore;
      hide NoTwins;
    }

    lemma BecomesValid()
      requires slot.Length == cap > 0 && Keeps(slot[..], calcHash, shape) && size == |shape.links.where| <= cap
      ensures Valid()
    {
      hide Keeps;
    }

    /** `_pbcM_sp_insert_hash`. The table does not look for the key first: a key that is there already
        is entered once more, right behind its home slot. A query then gives the new value, unless
        the home slot itself holds the key. */
    method InsertHash(key: string, hashFull: nat, value: Option<V>)
      requires Valid() && hashFull == calcHash(key)
      modifies this, slot
      ensures Valid() && size == old(size) + 1
      ensures slot == old(slot) || fresh(slot)
      ensures cap == (if old(cap > size) then old(cap) else 2 * old(cap))
      ensures Stored() == old(Stored()) + multiset{(key, value)}
      ensures old(cap > size) ==>
                && slot == old(slot) && LaidIn(old(slot[..]), slot[..], key, hashFull, value)
                && HomesStay(old(slot[..]), slot[..], calcHash, old(Model()).Keys)
                && Model() == old(Model())[key := if old(key in Model() && AtHome(key)) then old(Model())[key]
                                                  else value]
      ensures old(Distinct()) ==>
                && key in Model() && Model() == old(Model())[key := Model()[key]]
                && (key in old(Model()) ==> Model()[key] == value || Model()[key] == old(Model())[key])
                && (key !in old(Model()) ==> Model()[key] == value && Distinct())
      ensures old(size == 1 && key in Model()) ==> Model() == old(Model())
      decreases if cap > size then 0 else 2
    {
      hide *;
      ValidFacts();
      if size == 1 { Alone(); }
      if cap > size {
        InsertRoom(key, hashFull, value);
        return;
      }
      Rehash();
      InsertHash(key, hashFull, value);
    }

    /** The branch for a table with room. */
    method InsertRoom(key: string, hashFull: nat, value: Option<V>)
      requires Valid() && size < cap && hashFull == calcHash(key)
      modifies this, slot
      ensures Valid() && size == old(size) + 1 && slot == old(slot) && cap == old(cap)
      ensures Stored() == old(Stored()) + multiset{(key, value)}
      ensures HomesStay(old(slot[..]), slot[..], calcHash, old(Model()).Keys)
      ensures LaidIn(old(slot[..]), slot[..], key, hashFull, value)
      ensures Model() == old(Model())[key := if old(key in Model() && AtHome(key)) then old(Model())[key] else value]
      ensures old(Distinct() && key !in Model()) ==> Distinct()
      decreases 0
    {
      hide *;
      ValidFacts();
      var hash := Mask(hashFull);
      assert slot[hash] == slot[..][hash];
      HomeFacts(slot[..], calcHash, shape, key);
      AtHomesAre();
      ghost var was := slot[..];
      var e := hash;
      if slot[hash].key == None {
        PlaceAtHome(key, hashFull, value, hash);
      } else {
        e := PlaceBehind(key, hashFull, value, hash, hash);
      }
      LaidInIs(was, slot[..], key, hashFull, value, e);
      HomesKept(was, slot[..], calcHash, old(shape));
    }

    /** An entry that is the only one is in its home slot. */
    lemma Alone()
      requires Valid() && size == 1
      ensures Distinct() && forall k <- Model() :: AtHome(k)
      ensures forall e :: e in Stored() ==> e.0 in Model() && Model()[e.0] == e.1
    {
      hide *;
      ValidFacts();
      Reading();
      AtHomesAre();
      AloneAtHome(slot[..], calcHash, shape);
      StoredOnce(slot[..], shape.first);
    }

    /** Unless there is a rehash, a name that can be asked for stays one. */
    twostate lemma AskStays(x: string)
      requires old(Valid()) && HomesStay(old(slot[..]), slot[..], calcHash, old(Model()).Keys)
      ensures old(CanAsk(x)) ==> CanAsk(x)
    {
      hide StringMap.Valid;
      hide StringMap.Model;
      if old(CanAsk(x)) && calcHash(x) != 0 { assert slot.Length == old(slot.Length); }
      if old(CanAsk(x)) && calcHash(x) == 0 {
        var h := calcHash(x) % old(slot.Length);
        assert old(slot[..])[h] == old(slot[h]) && slot[..][h] == slot[h];
      }
    }

    /** What is stored, and what queries give. */
    lemma StoredMeans()
      requires Valid()
      ensures forall e :: e in Stored() ==> e.0 in Model()
      ensures forall k <- Model() :: (k, Model()[k]) in Stored()
    {
      hide *;
      ValidFacts();
      Reading();
      KeepsFirst(slot[..], calcHash, shape);
      forall e | e in Stored() ensures e.0 in Model() {
        var k, p := e.0, e.1;
        assert e == (k, p);
        var i := HeldSomewhere(slot[..], k, p);
        assert slot[..][i].key.value in shape.first;
      }
      forall k <- Model() ensures (k, Model()[k]) in Stored() {
        StoredAt(slot[..], k, |slot[..]|);
        LookupIs(slot[..], shape.first, k);
      }
    }

    lemma ModelKeys()
      requires Valid()
      ensures Model().Keys == shape.first.Keys
    {
      hide Keeps;
    }

    /** A key that is held can be asked for. */
    lemma HeldCanAsk(k: string)
      requires Valid() && k in Model()
      ensures CanAsk(k)
    {
      hide *;
      ValidFacts();
      KeepsFirst(slot[..], calcHash, shape);
      HeldAskable(slot[..], calcHash, shape, shape.first[k]);
      CanAskMeans(k);
    }

    lemma CanAskMeans(key: string)
      ensures slot.Length > 0 ==> (CanAsk(key) <==> Askable(slot[..], calcHash, key))
      ensures CanAsk(key) <==> slot.Length > 0 && (calcHash(key) != 0 || slot[calcHash(key) % slot.Length].key.Some?)
    {
    }

    lemma AtHomesAre()
      ensures slot.Length > 0 ==> forall x :: AtHome(x) <==> slot[..][calcHash(x) % slot.Length].key == Some(x)
    {
    }

    twostate lemma SameHomes()
      requires old(Valid()) && HomesStay(old(slot[..]), slot[..], calcHash, old(Model()).Keys)
      ensures forall k <- old(Model()) :: AtHome(k) <==> old(AtHome(k))
    {
      hide Keeps;
      forall k <- old(Model()) ensures AtHome(k) <==> old(AtHome(k)) {
        var h := calcHash(k) % slot.Length;
        assert slot[..][h] == slot[h] && old(slot[..])[h] == old(slot[h]);
      }
    }

    /** Swaps in a zeroed slot array of `c` slots. */
    method Renew(c: nat)
      requires c > 0 && PowerOfTwo(c)
      modifies this
      ensures Valid() && fresh(slot) && cap == c && size == 0 && Model() == map[]
      ensures Stored() == multiset{} && Distinct()
    {
      size := 0;
      cap := c;
      slot := new Slot<V>[c](_ => EmptySlot());
      shape := Layout(EmptyShape(c), map[]);
      KeptNothing(Cells(slot[..]), calcHash);
      StoredNone(slot[..], c);
    }

    /** `_pbcM_sp_rehash`: a full table moves, slot by slot, to an array twice as long. The entries stay;
        and so does the map, unless a key is held twice. */
    method Rehash()
      requires Valid() && size == cap
      modifies this
      ensures Valid() && fresh(slot) && size == old(size) && cap == 2 * old(cap)
      ensures Stored() == old(Stored()) && Model().Keys == old(Model()).Keys
      ensures old(Distinct()) ==> Distinct() && Model() == old(Model())
      decreases 1
    {
      hide *;
      ValidFacts();
      ghost var full, was, distinct := slot[..], shape, Distinct();
      AllKeys(full, calcHash, was);
      var oldSlot, n := slot, size;
      Reading();
      DoublePower(cap);
      MovedEnds(full, was.first);
      Renew(cap * 2);
      var i := 0;
      while i < n
        invariant 0 <= i <= n == oldSlot.Length && oldSlot[..] == full
        invariant Valid() && fresh(slot) && oldSlot != slot && size == i && cap == 2 * n
        invariant forall k :: k in was.first ==> was.first[k] < |full|
        invariant Stored() == StoredBefore(full, i)
        invariant distinct ==> Distinct() && Model() == Moved(full, was.first, i)
      {
        var x := oldSlot[i];
        assert x == full[i];
        MovedOneMore(full, calcHash, was, i);
        MoveEntry(x);
        i := i + 1;
      }
      ValidFacts();
      Reading();
      SameKeys(full, slot[..], calcHash, was, shape);
    }

    /** One turn of the loop of `_pbcM_sp_rehash`. */
    method MoveEntry(x: Slot<V>)
      requires Valid() && size < cap && x.key.Some? && x.hash == calcHash(x.key.value)
      modifies this, slot
      ensures Valid() && size == old(size) + 1 && slot == old(slot) && cap == old(cap)
      ensures Stored() == old(Stored()) + multiset{(x.key.value, x.pointer)}
      ensures old(Distinct() && x.key.value !in Model()) ==>
                Distinct() && Model() == old(Model())[x.key.value := x.pointer]
      decreases 1, 0
    {
      InsertHash(x.key.value, x.hash, x.pointer);
    }

    /** The walk along the chain that every query makes. Its comparison of keys is one of strings, so
        that the key of the slot must not be NULL. */
    method Find(key: string, hashFull: nat) returns (at: Option<nat>)
      requires Valid() && hashFull == calcHash(key) && CanAsk(key)
      ensures match at
              case None => key !in Model()
              case Some(i) => i < cap && slot[i].key == Some(key) && key in Model() && shape.first[key] == i
    {
      hide *;
      ValidFacts();
      ghost var slots := slot[..];
      FindStart(slots, calcHash, shape, key);
      var c: nat := Mask(hashFull);
      FindStep(slots, calcHash, shape, key, c);
      CanAskIs(key);
      EmptyHash<V>();
      while true
        invariant c < cap == |shape.links.rank| && OnWay(slots, shape, key, c)
        invariant slot[c].hash == hashFull ==> slot[c].key.Some?
        decreases Ahead(shape.links, c)
      {
        FindStep(slots, calcHash, shape, key, c);
        assert slot[c] == slots[c];
        if slot[c].hash == hashFull && slot[c].key.value == key { return Some(c); }
        if slot[c].next == 0 { return None; }
        assert slot[slot[c].next - 1] == slots[slot[c].next - 1];
        c := slot[c].next - 1;
      }
    }

    lemma CanAskIs(key: string)
      requires CanAsk(key)
      ensures slot.Length > 0 && (calcHash(key) != 0 || slot[calcHash(key) % slot.Length].key.Some?)
    {
    }

    /** `_pbcM_sp_query`: NULL when the key is absent, and also when NULL is stored under it. */
    method Query(key: string) returns (value: Option<V>)
      requires Valid() && CanAsk(key)
      ensures value == if key in Model() then Model()[key] else None
    {
      hide Keeps;
      var at := Find(key, calcHash(key));
      value := match at case None => None case Some(i) => slot[i].pointer;
    }

    /** `_pbcM_sp_insert` */
    method Insert(key: string, value: Option<V>)
      requires Valid()
      modifies this, slot
      ensures Valid() && size == old(size) + 1
      ensures slot == old(slot) || fresh(slot)
      ensures cap == (if old(cap > size) then old(cap) else 2 * old(cap))
      ensures Stored() == old(Stored()) + multiset{(key, value)}
      ensures old(cap > size) ==>
                && slot == old(slot) && HomesStay(old(slot[..]), slot[..], calcHash, old(Model()).Keys)
                && Model() == old(Model())[key := if old(key in Model() && AtHome(key)) then old(Model())[key]
                                                  else value]
      ensures old(Distinct()) ==>
                && key in Model() && Model() == old(Model())[key := Model()[key]]
                && (key in old(Model()) ==> Model()[key] == value || Model()[key] == old(Model())[key])
                && (key !in old(Model()) ==> Model()[key] == value && Distinct())
      ensures old(size == 1 && key in Model()) ==> Model() == old(Model())
    {
      InsertHash(key, calcHash(key), value);
    }

    /** The walk of `_pbcM_sp_query_insert_hash` from an occupied home slot: it ends at the key or
        at the last slot of the chain. */
    method WalkToEnd(key: string, hashFull: nat, hash: nat) returns (found: bool, c: nat)
      requires Valid() && hashFull == calcHash(key)
      requires hash == hashFull % cap && slot[hash].key.Some?
      ensures c < cap
      ensures found ==> key in Model() && shape.first[key] == c
      ensures !found ==> key !in Model() && slot[c].key != Some(key) && MayGoBehind(slot[..], calcHash, shape, key, c)
    {
      hide *;
      ValidFacts();
      ghost var slots := slot[..];
      FindStart(slots, calcHash, shape, key);
      ChainStarts(slots, calcHash, shape, key);
      FindStep(slots, calcHash, shape, key, hash);
      c := hash;
      while true
        invariant c < cap == |shape.links.rank| && slot[c].key.Some?
        invariant OnWay(slots, shape, key, c) && ChainOf(slots, calcHash, shape, key, c)
        decreases Ahead(shape.links, c)
      {
        FindStep(slots, calcHash, shape, key, c);
        assert slot[c] == slots[c];
        if slot[c].hash == hashFull && slot[c].key.value == key { return true, c; }
        if slot[c].next == 0 {
          NewMayGo(slots, calcHash, shape, key, c);
          return false, c;
        }
        ChainGoesOn(slots, calcHash, shape, key, c);
        assert slot[slot[c].next - 1] == slots[slot[c].next - 1];
        c := slot[c].next - 1;
      }
    }

    /** `_pbcM_sp_query_insert_hash`: the slot of the key, entered with NULL if it was absent, then
        at the end of its chain. The caller stores through the pointer that the source returns. */
    method QueryInsertHash(key: string, hashFull: nat) returns (at: nat)
      requires Valid() && hashFull == calcHash(key)
      modifies this, slot
      ensures Valid() && (slot == old(slot) || fresh(slot))
      ensures key in Model() && shape.first[key] == at < cap
      ensures size == old(size) + if key in old(Model()) then 0 else 1
      ensures Stored() == old(Stored()) + if key in old(Model()) then multiset{} else multiset{(key, None)}
      ensures old(key in Model()) ==> slot[..] == old(slot[..])
      ensures old(key in Model() || cap > size) ==>
                && slot == old(slot) && cap == old(cap)
                && HomesStay(old(slot[..]), slot[..], calcHash, old(Model()).Keys)
      ensures old(key in Model() || cap > size || Distinct()) ==>
                Model() == if key in old(Model()) then old(Model()) else old(Model())[key := None]
      ensures old(Distinct()) ==> Distinct()
      decreases if cap > size then 0 else 1
    {
      hide *;
      ValidFacts();
      var hash := Mask(hashFull);
      assert slot[hash] == slot[..][hash];
      HomeFacts(slot[..], calcHash, shape, key);
      Same(slot[..]);
      HomesKept(slot[..], slot[..], calcHash, shape);
      ghost var was := slot[..];
      if slot[hash].key == None {
        if cap <= size {
          Rehash();
          at := QueryInsertHash(key, hashFull);
          return;
        }
        PlaceAtHome(key, hashFull, None, hash);
        HomesKept(was, slot[..], calcHash, old(shape));
        return hash;
      }
      var found, c := WalkToEnd(key, hashFull, hash);
      if found { return c; }
      if cap <= size {
        Rehash();
        at := QueryInsertHash(key, hashFull);
        return;
      }
      assert slot[c].key != Some(key);
      at := PlaceBehind(key, hashFull, None, hash, c);
      ValidFacts();
      HomesKept(was, slot[..], calcHash, old(shape));
    }

    /** `_pbcM_sp_query_insert` */
    method QueryInsert(key: string) returns (at: nat)
      requires Valid()
      modifies this, slot
      ensures Valid() && (slot == old(slot) || fresh(slot))
      ensures key in Model() && shape.first[key] == at < cap
      ensures size == old(size) + if key in old(Model()) then 0 else 1
      ensures Stored() == old(Stored()) + if key in old(Model()) then multiset{} else multiset{(key, None)}
      ensures old(key in Model()) ==> slot[..] == old(slot[..])
      ensures old(key in Model() || cap > size) ==>
                && slot == old(slot) && cap == old(cap)
                && HomesStay(old(slot[..]), slot[..], calcHash, old(Model()).Keys)
      ensures old(key in Model() || cap > size || Distinct()) ==>
                Model() == if key in old(Model()) then old(Model()) else old(Model())[key := None]
      ensures old(Distinct()) ==> Distinct()
    {
      at := QueryInsertHash(key, calcHash(key));
    }

    /** `*v` for the pointer `v` that `_pbcM_sp_query_insert` returned for `key`. */
    method Load(at: nat, ghost key: string) returns (value: Option<V>)
      requires Valid() && key in Model() && shape.first[key] == at < cap
      ensures value == Model()[key]
    {
      ValidFacts();
      hide Keeps;
      value := slot[at].pointer;
    }

    /** `*v = value` for that pointer. */
    method Store(at: nat, ghost key: string, value: Option<V>)
      requires Valid() && key in Model() && shape.first[key] == at < cap
      modifies slot
      ensures Valid() && Model() == old(Model())[key := value]
      ensures HomesStay(old(slot[..]), slot[..], calcHash, old(Model()).Keys) && (old(Distinct()) ==> Distinct())
    {
      hide *;
      ValidFacts();
      Reading();
      ghost var was := slot[..];
      StorePointer(was, calcHash, shape, key, value);
      slot[at] := slot[at].(pointer := value);
      assert slot[..] == was[at := was[at].(pointer := value)];
      BecomesValid();
      ValidFacts();
      Reading();
      PointerStays(was, shape.first, at, value);
      HomesKept(was, slot[..], calcHash, shape);
    }

    /** `_pbcM_sp_foreach_ud`, with a function that collects what it is called for. */
    method List() returns (all: seq<(string, V)>)
      requires Valid()
      ensures all == EntriesFrom(slot[..], 0)
    {
      hide Keeps;
      all := [];
      ghost var slots := slot[..];
      KeepsFirst(slots, calcHash, shape);
      var i := 0;
      while i < cap
        invariant 0 <= i <= cap
        invariant EntriesFrom(slots, 0) == all + EntriesFrom(slots, i)
      {
        assert slot[i] == slots[i];
        if slot[i].pointer.Some? {
          ghost var rest := EntriesFrom(slots, i + 1);
          assert all + ([(slot[i].key.value, slot[i].pointer.value)] + rest)
                 == all + [(slot[i].key.value, slot[i].pointer.value)] + rest;
          all := all + [(slot[i].key.value, slot[i].pointer.value)];
        }
        i := i + 1;
      }
    }

    /** What is listed is the map, when no key is held twice. */
    lemma Listed(all: seq<(string, V)>)
      requires Valid() && Distinct() && all == EntriesFrom(slot[..], 0)
      ensures forall k, v :: (k, v) in all <==> k in Model() && Model()[k] == Some(v)
      ensures forall e <- all :: e.0 in Model() && Model()[e.0] == Some(e.1)
      ensures forall k <- Model() :: Model()[k].Some? ==> (k, Model()[k].value) in all
      ensures forall i, j :: 0 <= i < j < |all| ==> all[i].0 != all[j].0
    {
      hide *;
      Reading();
      ValidFacts();
      EntriesAreTheMap(slot[..], calcHash, shape);
      forall e <- all ensures e.0 in Model() && Model()[e.0] == Some(e.1) { assert (e.0, e.1) in all; }
    }

    /** What is listed is what is stored with a pointer, also when keys are held twice. */
    lemma ListedAll(all: seq<(string, V)>)
      requires Valid() && all == EntriesFrom(slot[..], 0)
      ensures forall e <- all :: (e.0, Some(e.1)) in Stored()
      ensures forall e :: e in Stored() && e.1.Some? ==> (e.0, e.1.value) in all
    {
      hide *;
      Reading();
      ghost var slots := slot[..];
      EntriesHeld(slots, 0);
      forall e <- all ensures (e.0, Some(e.1)) in Stored() {
        var i :| 0 <= i < |slots| && slots[i].key == Some(e.0) && slots[i].pointer == Some(e.1);
        StoredAt(slots, e.0, |slots|);
      }
      forall e | e in Stored() && e.1.Some? ensures (e.0, e.1.value) in all {
        var k, p := e.0, e.1;
        assert e == (k, p);
        var i := HeldSomewhere(slots, k, p);
        EntryListed(slots, 0, i);
      }
    }

    /** `_find_first` and the tail of `_find_next`: the first slot from `i` on with a pointer. */
    method FirstFrom(i: nat) returns (idx: nat)
      requires Valid() && i <= cap
      ensures i <= idx <= cap
      ensures idx == cap ==> EntriesFrom(slot[..], i) == []
      ensures idx < cap ==>
                && slot[idx].pointer.Some? && slot[idx].key.Some?
                && EntriesFrom(slot[..], i)
                   == [(slot[idx].key.value, slot[idx].pointer.value)] + EntriesFrom(slot[..], idx + 1)
    {
      hide Keeps;
      ghost var slots := slot[..];
      idx := i;
      while idx < cap && slot[idx].pointer.None?
        invariant i <= idx <= cap
        invariant EntriesFrom(slots, i) == EntriesFrom(slots, idx)
      {
        assert slot[idx] == slots[idx];
        idx := idx + 1;
      }
      if idx < cap {
        assert slot[idx] == slots[idx];
        KeepsFirst(slots, calcHash, shape);
      }
    }

    /** The slot behind the one that a query for the key finds. */
    ghost function After(key: Option<string>): nat
      reads this
    {
      if key.None? then 0 else if key.value in shape.first then shape.first[key.value] + 1 else cap
    }

    /** `_pbcM_sp_next`: steps from a key, or from NULL, to the next entry in slot order behind the
        entry that a query for the key finds. The ghost result is the slot of the entry shown. */
    method Next(key: Option<string>) returns (key': Option<string>, value: Option<V>, ghost at: nat)
      requires Valid() && (key.Some? ==> CanAsk(key.value))
      ensures var entries := EntriesFrom(slot[..], After(key));
              && key' == (if entries == [] then None else Some(entries[0].0))
              && value == if entries == [] then None else Some(entries[0].1)
      ensures var entries := EntriesFrom(slot[..], After(key));
              entries != [] ==>
                  After(key) <= at < cap && slot[at].key == key' && entries[1..] == EntriesFrom(slot[..], at + 1)
    {
      hide Keeps;
      var from := 0;
      at := 0;
      if key.Some? {
        var f := Find(key.value, calcHash(key.value));
        if f.None? { return None, None, 0; }
        from := f.value + 1;
      }
      var idx := FirstFrom(from);
      if idx == cap { return None, None, 0; }
      return slot[idx].key, slot[idx].pointer, idx;
    }

    /** Calling `_pbcM_sp_next` from NULL until it answers NULL shows every entry that holds a
        pointer, once, in slot order, and stops, when no key is held twice. */
    method Traverse() returns (shown: seq<(string, V)>)
      requires Valid() && Distinct()
      ensures shown == EntriesFrom(slot[..], 0)
    {
      hide Keeps;
      hide EntriesFrom;
      shown := [];
      var key, value, at := Next(None);
      while key.Some?
        invariant key.None? ==> shown == EntriesFrom(slot[..], 0)
        invariant key.Some? ==> value.Some? && at < cap && slot[at].key == key
        invariant key.Some? ==>
                    EntriesFrom(slot[..], 0) == shown + [(key.value, value.value)] + EntriesFrom(slot[..], at + 1)
        decreases if key.None? then 0 else cap - at + 1
      {
        shown := shown + [(key.value, value.value)];
        assert slot[..][at].key == key;
        HeldAskable(slot[..], calcHash, shape, at);
        assert shown + [] == shown;
        key, value, at := Next(key);
      }
    }
  }

  lemma EmptyHash<V>()
    ensures EmptySlot<V>().hash == 0 && EmptySlot<V>().key == None
  {
  }

  lemma Same<V>(slots: seq<Slot<V>>)
    ensures KeysStay(slots, slots)
  {
  }

  lemma PointerStays<V>(slots: seq<Slot<V>>, first: map<string, nat>, at: nat, v: Option<V>)
    requires at < |slots|
    ensures KeysStay(slots, slots[at := slots[at].(pointer := v)])
    ensures NoTwins(slots, first) ==> NoTwins(slots[at := slots[at].(pointer := v)], first)
  {
  }

  lemma FirstOf<V>(slots: seq<Slot<V>>, first: map<string, nat>, k: string, c: nat, e: nat)
    requires c < |slots|
    ensures slots[c].key != Some(k) ==> FirstBehind(Cells(slots), first, k, c, e) == first[k := e]
  {
  }

  lemma HeldHere<V>(slots: seq<Slot<V>>, calcHash: string -> nat, s: Layout<string>, k: string, c: nat)
    requires Keeps(slots, calcHash, s) && c < |slots|
    ensures slots[c].key == Some(k) ==> k in s.first
  {
    KeepsFirst(slots, calcHash, s);
  }

  /** What the home slot of a key tells. */
  lemma HomeFacts<V>(slots: seq<Slot<V>>, calcHash: string -> nat, s: Layout<string>, k: string)
    requires Keeps(slots, calcHash, s)
    ensures |slots| > 0
    ensures var h := calcHash(k) % |slots|;
            && (slots[h].key.None? ==> k !in s.first)
            && (slots[h].key.Some? ==> MayGoBehind(slots, calcHash, s, k, h))
            && (slots[h].key == Some(k) ==> k in s.first)
  {
    KeepsFirst(slots, calcHash, s);
    if slots[calcHash(k) % |slots|].key.None? {
      AbsentAtHome(Cells(slots), calcHash, s, k);
    } else {
      HomeInChain(Cells(slots), calcHash, s, k);
    }
    hide Kept;
    hide InChain;
  }

  lemma NewMayGo<V>(slots: seq<Slot<V>>, calcHash: string -> nat, s: Layout<string>, k: string, c: nat)
    requires ChainOf(slots, calcHash, s, k, c) && k !in s.first
    ensures MayGoBehind(slots, calcHash, s, k, c)
  {
  }

  lemma MovedEnds<V>(slots: seq<Slot<V>>, first: map<string, nat>)
    requires forall k :: k in first ==> first[k] < |slots|
    ensures Moved(slots, first, 0) == map[] && Moved(slots, first, |slots|) == Lookup(slots, first)
    ensures StoredBefore(slots, 0) == multiset{}
  {
  }

  /** A key that the table holds may be looked for. */
  lemma HeldAskable<V>(slots: seq<Slot<V>>, calcHash: string -> nat, s: Layout<string>, at: nat)
    requires Keeps(slots, calcHash, s) && at < |slots| && slots[at].key.Some?
    ensures Askable(slots, calcHash, slots[at].key.value)
  {
    HomeFacts(slots, calcHash, s, slots[at].key.value);
    KeepsFirst(slots, calcHash, s);
    hide Keeps;
  }

  /** The entries are the keys of the map under which a pointer is stored, each once. */
  lemma EntriesAreTheMap<V>(slots: seq<Slot<V>>, calcHash: string -> nat, s: Layout<string>)
    requires Keeps(slots, calcHash, s) && NoTwins(slots, s.first)
    ensures forall x :: x in s.first ==> s.first[x] < |slots|
    ensures forall k, v :: (k, v) in EntriesFrom(slots, 0) <==>
              k in Lookup(slots, s.first) && Lookup(slots, s.first)[k] == Some(v)
    ensures forall k <- s.first :: slots[s.first[k]].pointer.Some? ==>
              (k, slots[s.first[k]].pointer.value) in EntriesFrom(slots, 0)
    ensures Lookup(slots, s.first).Keys == s.first.Keys
            && forall k <- s.first :: Lookup(slots, s.first)[k] == slots[s.first[k]].pointer
    ensures forall i, j :: 0 <= i < j < |EntriesFrom(slots, 0)| ==>
              EntriesFrom(slots, 0)[i].0 != EntriesFrom(slots, 0)[j].0
  {
    KeepsFirst(slots, calcHash, s);
    hide Keeps;
    EntriesFromMeaning(slots, s.first, 0);
    forall k, v
      ensures (k, v) in EntriesFrom(slots, 0) <==> k in Lookup(slots, s.first) && Lookup(slots, s.first)[k] == Some(v)
    {
      if k in s.first { assert slots[s.first[k]].key == Some(k); }
    }
    forall k <- s.first | slots[s.first[k]].pointer.Some?
      ensures (k, slots[s.first[k]].pointer.value) in EntriesFrom(slots, 0)
    {
      assert slots[s.first[k]].key == Some(k);
    }
  }

  lemma {:induction false} EntriesFromMeaning<V>(slots: seq<Slot<V>>, first: map<string, nat>, from: nat)
    requires NoTwins(slots, first)
    ensures forall i :: 0 <= i < |EntriesFrom(slots, from)| ==>
              EntriesFrom(slots, from)[i].0 in first && first[EntriesFrom(slots, from)[i].0] >= from
    ensures forall k, v :: (k, v) in EntriesFrom(slots, from) <==>
              && k in first && from <= first[k] < |slots|
              && slots[first[k]].key == Some(k) && slots[first[k]].pointer == Some(v)
    ensures forall i, j :: 0 <= i < j < |EntriesFrom(slots, from)| ==>
              EntriesFrom(slots, from)[i].0 != EntriesFrom(slots, from)[j].0
    decreases |slots| - from
  {
    if from < |slots| {
      EntriesFromMeaning(slots, first, from + 1);
    }
  }

  lemma {:induction false} EntriesHeld<V>(slots: seq<Slot<V>>, from: nat)
    ensures forall e <- EntriesFrom(slots, from) ::
              exists i :: from <= i < |slots| && slots[i].key == Some(e.0) && slots[i].pointer == Some(e.1)
    decreases |slots| - from
  {
    if from < |slots| {
      EntriesHeld(slots, from + 1);
      forall e | e in EntriesFrom(slots, from)
        ensures exists i :: from <= i < |slots| && slots[i].key == Some(e.0) && slots[i].pointer == Some(e.1)
      {
        if e in EntriesFrom(slots, from + 1) {
          var i :| from + 1 <= i < |slots| && slots[i].key == Some(e.0) && slots[i].pointer == Some(e.1);
          assert from <= i;
        } else {
          assert slots[from].key == Some(e.0) && slots[from].pointer == Some(e.1);
        }
      }
    }
  }

  lemma {:induction false} EntryListed<V>(slots: seq<Slot<V>>, from: nat, i: nat)
    requires from <= i < |slots| && slots[i].key.Some? && slots[i].pointer.Some?
    ensures (slots[i].key.value, slots[i].pointer.value) in EntriesFrom(slots, from)
    decreases i - from
  {
    if from < i { EntryListed(slots, from + 1, i); }
  }

  /** When a key is held twice and the next entry behind its first one is its second, the step from the
      key leads back to the key, so that an iteration that comes there never ends. */
  lemma TwinsLoop<V>(slots: seq<Slot<V>>, calcHash: string -> nat, s: Layout<string>, k: string, v: V)
    requires Keeps(slots, calcHash, s) && k in s.first
    requires var from := s.first[k] + 1; from < |slots| && slots[from].key == Some(k) && slots[from].pointer == Some(v)
    ensures !NoTwins(slots, s.first)
    ensures EntriesFrom(slots, s.first[k] + 1) != [] && EntriesFrom(slots, s.first[k] + 1)[0] == (k, v)
  {
    hide Keeps;
  }

  /** In a full table every slot holds a key, with its hash. */
  lemma AllKeys<V>(slots: seq<Slot<V>>, calcHash: string -> nat, s: Layout<string>)
    requires Keeps(slots, calcHash, s) && |s.links.where| == |slots|
    ensures forall i {:trigger slots[i]} :: 0 <= i < |slots| ==>
              && slots[i].key.Some? && slots[i].hash == calcHash(slots[i].key.value)
  {
    KeptCount(Cells(slots), calcHash, s);
    hide Kept;
    hide PowerOfTwo;
  }
}
