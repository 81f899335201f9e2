/** Loading a set of schema files whose order does not follow their dependencies
    (lualib-src/pbc/src/register.c). */
module Registers {
  import opened Words
  import opened StringMaps

  /** A file descriptor, as far as the order of loading goes. */
  datatype File = File(name: string, deps: seq<string>)

  /** `struct _stringpool`, as far as the table of files goes: it holds the file's name. */
  datatype Pool = Pool(name: string)

  datatype Check = CheckOk | CheckExists | CheckDependency

  // ----- what can be loaded --------------------------------------------------------------------

  /** All dependencies of `f` are among `s`. */
  predicate Ready(f: File, s: set<string>) { forall d <- f.deps :: d in s }

  /** `s` holds what was known at first, and every file whose dependencies it holds, unless its name is
      dead: such a name stays unknown although the file is loaded. */
  ghost predicate Closed(s: set<string>, known: set<string>, dead: set<string>, fs: seq<File>) {
    known <= s && forall f <- fs :: Ready(f, s) && f.name !in dead ==> f.name in s
  }

  /** The least set of that kind. */
  ghost predicate Loadable(name: string, known: set<string>, dead: set<string>, fs: seq<File>) {
    forall s: set<string> :: Closed(s, known, dead, fs) ==> name in s
  }

  /** All dependencies of the file can be loaded. */
  ghost predicate Reachable(f: File, known: set<string>, dead: set<string>, fs: seq<File>) {
    forall d <- f.deps :: Loadable(d, known, dead, fs)
  }

  function Names(log: seq<File>): (s: set<string>) { set f <- log :: f.name }

  function Done(known: set<string>, dead: set<string>, log: seq<File>): set<string> { known + (Names(log) - dead) }

  /** Every file in `log` comes after all of its dependencies, and once. */
  ghost predicate InOrder(log: seq<File>, known: set<string>, dead: set<string>) {
    forall k {:trigger log[k]} :: 0 <= k < |log| ==>
      && Ready(log[k], Done(known, dead, log[..k]))
      && log[k].name !in Done(known, dead, log[..k])
  }

  /** The same, but for files that come again. */
  ghost predicate Backwards(log: seq<File>, known: set<string>) {
    forall k {:trigger log[k]} :: 0 <= k < |log| ==> Ready(log[k], Done(known, {}, log[..k]))
  }

  lemma NamesOneMore(log: seq<File>, f: File)
    ensures Names(log + [f]) == Names(log) + {f.name}
  {
    assert forall g <- log :: g in log + [f];
    assert f in log + [f];
  }

  lemma OneMore(log: seq<File>, known: set<string>, dead: set<string>, f: File)
    requires InOrder(log, known, dead) && Ready(f, Done(known, dead, log)) && f.name !in Done(known, dead, log)
    ensures InOrder(log + [f], known, dead)
  {
    forall k | 0 <= k < |log| + 1 ensures (log + [f])[..k] == log[..k] { }
  }

  lemma OneMoreBack(log: seq<File>, known: set<string>, f: File)
    requires Backwards(log, known) && Ready(f, Done(known, {}, log))
    ensures Backwards(log + [f], known)
  {
    forall k | 0 <= k < |log| + 1 ensures (log + [f])[..k] == log[..k] { }
  }

  /** What has been loaded with all dependencies there is in every closed set. */
  lemma {:induction false} LoadedBelongs(log: seq<File>, known: set<string>, dead: set<string>, fs: seq<File>,
                                         s: set<string>, n: nat)
    requires forall k :: 0 <= k < |log| ==> Ready(log[k], Done(known, dead, log[..k]))
    requires Closed(s, known, dead, fs) && n <= |log| && forall f <- log :: f in fs
    ensures Done(known, dead, log[..n]) <= s
  {
    if n > 0 {
      LoadedBelongs(log, known, dead, fs, s, n - 1);
      var f := log[n - 1];
      assert log[..n] == log[..n - 1] + [f];
      NamesOneMore(log[..n - 1], f);
      assert Ready(f, Done(known, dead, log[..n - 1])) && f in fs;
    }
  }

  lemma LoadedCanBe(log: seq<File>, known: set<string>, dead: set<string>, fs: seq<File>)
    requires forall k :: 0 <= k < |log| ==> Ready(log[k], Done(known, dead, log[..k]))
    requires forall f <- log :: f in fs
    ensures forall name <- Done(known, dead, log) :: Loadable(name, known, dead, fs)
  {
    forall name | name in Done(known, dead, log) ensures Loadable(name, known, dead, fs) {
      forall s: set<string> | Closed(s, known, dead, fs) ensures name in s {
        LoadedBelongs(log, known, dead, fs, s, |log|);
        assert log[..|log|] == log;
      }
    }
  }

  /** The loaded names, once they are closed, are exactly the loadable ones. */
  lemma ClosedIsLeast(log: seq<File>, known: set<string>, dead: set<string>, fs: seq<File>)
    requires InOrder(log, known, dead) && (forall f <- log :: f in fs)
             && Closed(Done(known, dead, log), known, dead, fs)
    ensures forall name :: name in Done(known, dead, log) <==> Loadable(name, known, dead, fs)
  {
    LoadedCanBe(log, known, dead, fs);
  }

  /** Dead names that no file bears make no difference. */
  lemma DeadIdle(known: set<string>, dead: set<string>, fs: seq<File>)
    requires forall f <- fs :: f.name !in dead
    ensures forall name :: Loadable(name, known, dead, fs) <==> Loadable(name, known, {}, fs)
  {
    forall s: set<string> ensures Closed(s, known, dead, fs) <==> Closed(s, known, {}, fs) { }
  }

  /** A file that depends on a dead name cannot be loaded, whatever else is in the set. */
  lemma DeadBlocks(known: set<string>, dead: set<string>, fs: seq<File>, f: File, d: string)
    requires d in f.deps && d in dead && d !in known
    ensures !Loadable(d, known, dead, fs) && !Reachable(f, known, dead, fs)
    ensures f.name !in known && (forall g <- fs :: g.name == f.name ==> d in g.deps) ==>
              !Loadable(f.name, known, dead, fs)
  {
    var most := known + Names(fs) - {d};
    forall g | g in fs && Ready(g, most) && g.name !in dead ensures g.name in most { assert g.name in Names(fs); }
    assert Closed(most, known, dead, fs);
    if f.name !in known && forall g <- fs :: g.name == f.name ==> d in g.deps {
      var less := known + Names(fs) - {d, f.name};
      forall g | g in fs && Ready(g, less) && g.name !in dead ensures g.name in less { assert g.name in Names(fs); }
      assert Closed(less, known, dead, fs);
    }
  }

  // ----- the table of files ---------------------------------------------------------------------

  /** What there is to say about the table at one time: its entries, what queries give, and which keys
      sit in their home slots. */
  datatype Table = Table(
    stored: multiset<(string, Option<Pool>)>, model: map<string, Option<Pool>>, home: set<string>, cap: nat, size: nat)

  ghost predicate Sound(t: Table) {
    && (forall e :: e in t.stored ==> e.0 in t.model)
    && (forall k <- t.model :: (k, t.model[k]) in t.stored)
    && t.home <= t.model.Keys && t.size <= t.cap
    && (t.size == 1 ==> t.home == t.model.Keys && forall e :: e in t.stored ==> t.model[e.0] == e.1)
  }

  /** Names for which a query gives a pool; the source takes the others to be unknown. */
  ghost function Known(t: Table): set<string> { set k | k in t.model && t.model[k].Some? }

  ghost predicate HasPool(t: Table, k: string) { exists p :: (k, Some(p)) in t.stored }

  /** Names that are held with a pool. */
  ghost function Backed(t: Table): set<string> { set k | k in t.model && HasPool(t, k) }

  /** Names that are held with NULL. */
  ghost function Nulled(t: Table): set<string> { set k | k in t.model && (k, None) in t.stored }

  /** Names that are held with NULL in their home slots: queries go on giving NULL. */
  ghost function Dead(t: Table): set<string> { set k | k in t.model && t.model[k].None? && k in t.home }

  lemma KnownIsBacked(t: Table)
    requires Sound(t)
    ensures Known(t) <= Backed(t) && Dead(t) <= Nulled(t)
    ensures forall x :: x !in Nulled(t) ==> (x in Known(t) <==> x in Backed(t))
  {
    forall x | x in Known(t) ensures x in Backed(t) { assert (x, Some(t.model[x].value)) in t.stored; }
    forall x | x !in Nulled(t) && x in Backed(t) ensures x in Known(t) {
      assert (x, t.model[x]) in t.stored;
    }
  }

  /** A file is entered under its name, whether or not the name is there already. */
  ghost predicate Entered(t: Table, t': Table, name: string) {
    && t'.stored == t.stored + multiset{(name, Some(Pool(name)))}
    && t'.size == t.size + 1 && t'.cap == (if t.cap > t.size then t.cap else 2 * t.cap)
    && (t.cap > t.size ==>
          && t'.model == t.model[name := if name in t.model && name in t.home then t.model[name] else Some(Pool(name))]
          && forall k <- t.model :: k in t'.home <==> k in t.home)
    && (t.size == 1 && name in t.model ==> t'.model == t.model)
  }

  lemma EnteredSets(t: Table, t': Table, name: string)
    requires Sound(t) && Sound(t') && Entered(t, t', name)
    ensures Backed(t') == Backed(t) + {name} && Nulled(t') == Nulled(t) && t.model.Keys <= t'.model.Keys
  {
    forall k | k in t.model ensures k in t'.model { assert (k, t.model[k]) in t'.stored; }
    assert (name, Some(Pool(name))) in t'.stored;
    forall x ensures x in Backed(t') <==> x in Backed(t) + {name} {
      if x in Backed(t) {
        var p :| (x, Some(p)) in t.stored;
        assert (x, Some(p)) in t'.stored;
      }
      if x in Backed(t') && x != name {
        var p :| (x, Some(p)) in t'.stored;
        assert (x, Some(p)) in t.stored;
      }
    }
    forall x ensures x in Nulled(t') <==> x in Nulled(t) {
      if (x, None) in t'.stored { assert (x, None) in t.stored; }
    }
  }

  /** What may be asked for in the course of loading. */
  ghost predicate Asked(fs: seq<File>, x: string) { exists f <- fs :: f.name == x || x in f.deps }

  // ----- when the outcome does not depend on the layout of the table ------------------------------

  ghost predicate Borne(fs: seq<File>, n: string) { exists f <- fs :: f.name == n }

  ghost predicate Wanted(fs: seq<File>, n: string) { exists f <- fs :: n in f.deps }

  /** Names held with NULL do not get in the way: no file bears such a name, or one file does and none
      depends on it; and where the name is held with a pool as well, it is not asked for. */
  ghost predicate Untangled(fs: seq<File>, t: Table) {
    forall n <- Nulled(t) ::
      && (n in Backed(t) ==> !Borne(fs, n) && !Wanted(fs, n))
      && (Borne(fs, n) ==> !Wanted(fs, n) && forall i, j :: 0 <= i < j < |fs| && fs[i].name == n ==> fs[j].name != n)
  }

  /** The places of the files that can be loaded. */
  ghost function Loads(fs: seq<File>, t: Table): set<int> {
    set i | 0 <= i < |fs| && Reachable(fs[i], Known(t), Dead(t), fs)
  }

  /** All of them fit without a rehash while a name may be held twice. */
  ghost predicate Roomy(fs: seq<File>, t: Table) {
    t.size + |Loads(fs, t)| <= t.cap || (t.size == t.cap == 1 && |Loads(fs, t)| <= 1)
  }

  ghost predicate Steady(fs: seq<File>, t: Table) { Untangled(fs, t) || Roomy(fs, t) }

  // ----- the course of loading ---------------------------------------------------------------------

  /** The places of the files loaded, and the files in the order of loading. */
  datatype Course = Course(gone: set<int>, log: seq<File>)

  ghost predicate Tracks(fs: seq<File>, c: Course) {
    && (forall i <- c.gone :: 0 <= i < |fs| && fs[i] in c.log)
    && (forall f <- c.log :: exists i <- c.gone :: 0 <= i < |fs| && fs[i] == f)
  }

  ghost predicate Remaining(files: seq<Option<File>>, fs: seq<File>, gone: set<int>) {
    && |files| == |fs|
    && forall i :: 0 <= i < |fs| ==> files[i] == if i in gone then None else Some(fs[i])
  }

  /** From the table `t0` to the table `t`. */
  ghost predicate Grown(fs: seq<File>, t0: Table, t: Table, c: Course) {
    && Sound(t0) && Sound(t) && Tracks(fs, c)
    && t.size == t0.size + |c.gone| && t0.model.Keys <= t.model.Keys
    && Backed(t) == Backed(t0) + Names(c.log) && Nulled(t) == Nulled(t0)
    && Backwards(c.log, Backed(t0))
  }

  ghost function DoneBy(t0: Table, c: Course): set<string> { Done(Known(t0), Dead(t0), c.log) }

  /** The layout at first is that of now, as far as it matters. */
  ghost predicate LaidOut(fs: seq<File>, t0: Table, t: Table, c: Course) {
    && Known(t) == DoneBy(t0, c)
    && if t0.size + |Loads(fs, t0)| <= t0.cap then
         && t.cap == t0.cap && (forall k <- t0.model :: k in t.home <==> k in t0.home)
         && (forall k <- t.model :: k in t0.model || k in Known(t))
       else c.gone == {} ==> t == t0
  }

  ghost predicate Firm(fs: seq<File>, t0: Table, t: Table, c: Course) {
    && InOrder(c.log, Known(t0), Dead(t0))
    && Steady(fs, t0) && (Roomy(fs, t0) ==> LaidOut(fs, t0, t, c))
  }

  ghost predicate Going(fs: seq<File>, t0: Table, t: Table, c: Course) {
    Grown(fs, t0, t, c) && (Steady(fs, t0) ==> Firm(fs, t0, t, c))
  }

  lemma Starts(fs: seq<File>, t: Table)
    requires Sound(t)
    ensures Going(fs, t, t, Course({}, []))
    ensures DoneBy(t, Course({}, [])) == Known(t)
  {
    assert Names([]) == {};
  }

  lemma TracksMore(fs: seq<File>, c: Course, i: nat)
    requires Tracks(fs, c) && i < |fs|
    ensures Tracks(fs, Course(c.gone + {i}, c.log + [fs[i]]))
  {
    var c' := Course(c.gone + {i}, c.log + [fs[i]]);
    forall f | f in c'.log ensures exists j <- c'.gone :: 0 <= j < |fs| && fs[j] == f {
      if f in c.log {
        var j :| j in c.gone && 0 <= j < |fs| && fs[j] == f;
        assert j in c'.gone;
      } else {
        assert i in c'.gone && fs[i] == f;
      }
    }
  }

  /** One more file has been loaded. */
  lemma GrownMore(fs: seq<File>, t0: Table, t: Table, t': Table, c: Course, i: nat)
    requires Grown(fs, t0, t, c) && i < |fs| && i !in c.gone && Ready(fs[i], Known(t))
    requires Sound(t') && Entered(t, t', fs[i].name)
    ensures Grown(fs, t0, t', Course(c.gone + {i}, c.log + [fs[i]]))
  {
    hide *;
    GrownParts(fs, t0, t, c);
    TracksMore(fs, c, i);
    EnteredSets(t, t', fs[i].name);
    EnteredSize(t, t', fs[i].name);
    NamesOneMore(c.log, fs[i]);
    KnownIsBacked(t);
    ReadyMore(fs[i], Known(t), Done(Backed(t0), {}, c.log), Backed(t0) + Names(c.log));
    OneMoreBack(c.log, Backed(t0), fs[i]);
    GrownParts(fs, t0, t', Course(c.gone + {i}, c.log + [fs[i]]));
  }

  lemma GrownParts(fs: seq<File>, t0: Table, t: Table, c: Course)
    ensures Grown(fs, t0, t, c) <==>
              && Sound(t0) && Sound(t) && Tracks(fs, c)
              && t.size == t0.size + |c.gone| && t0.model.Keys <= t.model.Keys
              && Backed(t) == Backed(t0) + Names(c.log) && Nulled(t) == Nulled(t0)
              && Backwards(c.log, Backed(t0))
    ensures Done(Backed(t0), {}, c.log) == Backed(t0) + Names(c.log)
  {
    hide Sound;
    hide Tracks;
    hide Backed;
    hide Nulled;
    hide Names;
    hide Backwards;
  }

  lemma EnteredSize(t: Table, t': Table, name: string)
    requires Entered(t, t', name)
    ensures t'.size == t.size + 1
  {
  }

  lemma ReadyMore(f: File, s: set<string>, s': set<string>, s'': set<string>)
    requires Ready(f, s) && s <= s'' == s'
    ensures Ready(f, s')
  {
  }

  /** The file may still ask for the name, or bears it and has not been loaded. */
  ghost predicate Pending(fs: seq<File>, c: Course, x: string) {
    Wanted(fs, x) || exists i :: 0 <= i < |fs| && i !in c.gone && fs[i].name == x
  }

  /** A name that is held with NULL and may be asked for has no pool. */
  lemma NotYet(fs: seq<File>, t0: Table, c: Course, x: string)
    requires Untangled(fs, t0) && Tracks(fs, c) && x in Nulled(t0) && Pending(fs, c, x)
    ensures x !in Backed(t0) && x !in Names(c.log)
  {
    forall f | f in fs ensures Borne(fs, f.name) { }
    forall j | j in c.gone ensures fs[j].name != x {
      assert fs[j] in fs;
      if !Wanted(fs, x) {
        var i :| 0 <= i < |fs| && i !in c.gone && fs[i].name == x;
        assert i < j || j < i;
      }
    }
    if !Wanted(fs, x) {
      var i :| 0 <= i < |fs| && i !in c.gone && fs[i].name == x;
      assert fs[i] in fs;
    }
  }

  /** Queries give what has been loaded, for all names that may still be asked for. */
  lemma AsExpected(fs: seq<File>, t0: Table, t: Table, c: Course, x: string)
    requires Grown(fs, t0, t, c) && Firm(fs, t0, t, c) && (Roomy(fs, t0) || x !in Nulled(t0) || Pending(fs, c, x))
    ensures x in Known(t) <==> x in DoneBy(t0, c)
  {
    KnownIsBacked(t0);
    KnownIsBacked(t);
    if !Roomy(fs, t0) && x in Nulled(t0) { NotYet(fs, t0, c, x); }
    hide Sound;
    hide Tracks;
    hide Roomy;
    hide Untangled;
  }

  lemma LogFromSet(fs: seq<File>, c: Course)
    requires Tracks(fs, c)
    ensures forall f <- c.log :: f in fs
    ensures forall i <- c.gone :: 0 <= i < |fs| && exists k :: 0 <= k < |c.log| && c.log[k] == fs[i]
  {
    forall f | f in c.log ensures f in fs {
      var j :| j in c.gone && 0 <= j < |fs| && fs[j] == f;
    }
  }

  /** Every file loaded can be loaded. */
  lemma GoneAreLoads(fs: seq<File>, t0: Table, c: Course)
    requires Tracks(fs, c) && InOrder(c.log, Known(t0), Dead(t0))
    ensures c.gone <= Loads(fs, t0)
  {
    LogFromSet(fs, c);
    hide Tracks;
    hide Loadable;
    hide Known;
    hide Dead;
    hide Done;
    LoadedCanBe(c.log, Known(t0), Dead(t0), fs);
    forall i | i in c.gone ensures Reachable(fs[i], Known(t0), Dead(t0), fs) {
      var k :| 0 <= k < |c.log| && c.log[k] == fs[i];
      DoneGrows(Known(t0), Dead(t0), c.log, k);
    }
  }

  lemma DoneGrows(known: set<string>, dead: set<string>, log: seq<File>, k: nat)
    requires k <= |log|
    ensures Done(known, dead, log[..k]) <= Done(known, dead, log)
  {
    assert forall f <- log[..k] :: f in log;
  }

  /** There is room for one more file that can be loaded. */
  lemma RoomLeft(fs: seq<File>, t0: Table, c: Course, i: nat)
    requires Tracks(fs, c) && InOrder(c.log, Known(t0), Dead(t0)) && i < |fs| && i !in c.gone
    requires Ready(fs[i], DoneBy(t0, c))
    ensures |c.gone| + 1 <= |Loads(fs, t0)|
  {
    GoneAreLoads(fs, t0, c);
    LogFromSet(fs, c);
    hide Tracks;
    hide Loadable;
    hide Known;
    hide Dead;
    hide Done;
    LoadedCanBe(c.log, Known(t0), Dead(t0), fs);
    assert Reachable(fs[i], Known(t0), Dead(t0), fs);
    SubsetSize(c.gone + {i}, Loads(fs, t0));
  }

  lemma LaidOutMore(fs: seq<File>, t0: Table, t: Table, t': Table, c: Course, i: nat)
    requires Grown(fs, t0, t, c) && InOrder(c.log, Known(t0), Dead(t0)) && Roomy(fs, t0) && LaidOut(fs, t0, t, c)
    requires i < |fs| && i !in c.gone && fs[i].name !in Known(t) && Ready(fs[i], Known(t))
    requires Sound(t') && Entered(t, t', fs[i].name)
    ensures LaidOut(fs, t0, t', Course(c.gone + {i}, c.log + [fs[i]]))
  {
    hide *;
    RoomParts(fs, t0, t, c);
    RoomLeft(fs, t0, c, i);
    DoneMore(t0, c, i, fs[i]);
    if t0.size + |Loads(fs, t0)| <= t0.cap {
      RoomInside(t0, t, t', c, fs[i]);
    } else {
      RoomAlone(t0, t', c, fs[i]);
    }
    RoomIs(fs, t0, t', Course(c.gone + {i}, c.log + [fs[i]]));
  }

  lemma DoneMore(t0: Table, c: Course, i: nat, f: File)
    ensures DoneBy(t0, Course(c.gone + {i}, c.log + [f])) == DoneBy(t0, c) + ({f.name} - Dead(t0))
    ensures c.gone == {} ==> c.log == [] ==> DoneBy(t0, c) == Known(t0)
  {
    NamesOneMore(c.log, f);
  }

  lemma RoomParts(fs: seq<File>, t0: Table, t: Table, c: Course)
    requires Grown(fs, t0, t, c) && Roomy(fs, t0) && LaidOut(fs, t0, t, c)
    ensures Sound(t0) && Sound(t) && Tracks(fs, c) && t.size == t0.size + |c.gone| && t0.model.Keys <= t.model.Keys
    ensures Known(t) == DoneBy(t0, c)
    ensures t0.size + |Loads(fs, t0)| <= t0.cap ==>
              && t.cap == t0.cap && (forall k <- t0.model :: k in t.home <==> k in t0.home)
              && (forall k <- t.model :: k in t0.model || k in Known(t))
    ensures t0.size + |Loads(fs, t0)| > t0.cap ==>
              t0.size == t0.cap == 1 && |Loads(fs, t0)| <= 1 && (c.gone == {} ==> t == t0 && c.log == [])
    ensures |c.gone| == 0 ==> c.gone == {}
  {
    hide Sound;
    hide Loads;
    hide Known;
    hide DoneBy;
    if c.gone == {} && c.log != [] { assert c.log[0] in c.log; }
  }

  lemma RoomIs(fs: seq<File>, t0: Table, t: Table, c: Course)
    requires Known(t) == DoneBy(t0, c)
    requires if t0.size + |Loads(fs, t0)| <= t0.cap then
               && t.cap == t0.cap && (forall k <- t0.model :: k in t.home <==> k in t0.home)
               && (forall k <- t.model :: k in t0.model || k in Known(t))
             else c.gone != {}
    ensures LaidOut(fs, t0, t, c)
  {
    hide Loads;
    hide Known;
    hide DoneBy;
  }

  /** The name is entered in a table with room. */
  lemma RoomInside(t0: Table, t: Table, t': Table, c: Course, f: File)
    requires Sound(t0) && Sound(t) && t0.model.Keys <= t.model.Keys && Known(t) == DoneBy(t0, c)
    requires (forall k <- t0.model :: k in t.home <==> k in t0.home)
             && forall k <- t.model :: k in t0.model || k in Known(t)
    requires t.cap == t0.cap && t.cap > t.size && Entered(t, t', f.name) && f.name !in Known(t)
    ensures t'.cap == t.cap && Known(t') == Known(t) + ({f.name} - Dead(t0))
    ensures (forall k <- t0.model :: k in t'.home <==> k in t0.home)
            && forall k <- t'.model :: k in t0.model || k in Known(t')
  {
    hide *;
    var name := f.name;
    EnteredInside(t, t', name);
    DeadStays(t0, t, c, name);
    KnownAfter(t, t', name);
    RoomStays(t0, t, t', name);
  }

  lemma RoomStays(t0: Table, t: Table, t': Table, name: string)
    requires t0.model.Keys <= t.model.Keys && forall k <- t.model :: k in t'.home <==> k in t.home
    requires (forall k <- t0.model :: k in t.home <==> k in t0.home)
             && forall k <- t.model :: k in t0.model || k in Known(t)
    requires Known(t) <= Known(t') && forall k <- t'.model :: k in t.model || k in Known(t')
    ensures (forall k <- t0.model :: k in t'.home <==> k in t0.home)
            && forall k <- t'.model :: k in t0.model || k in Known(t')
  {
    hide Known;
  }

  lemma EnteredInside(t: Table, t': Table, name: string)
    requires Entered(t, t', name) && t.cap > t.size
    ensures t'.cap == t.cap && forall k <- t.model :: k in t'.home <==> k in t.home
    ensures t'.model == t.model[name := if name in t.model && name in t.home then t.model[name] else Some(Pool(name))]
  {
  }

  lemma KnownAfter(t: Table, t': Table, name: string)
    requires name !in Known(t)
    requires t'.model == t.model[name := if name in t.model && name in t.home then t.model[name] else Some(Pool(name))]
    ensures Known(t') == Known(t) + (if name in t.model && name in t.home then {} else {name})
    ensures forall k <- t'.model :: k in t.model || k in Known(t')
  {
    forall x ensures x in Known(t') <==> x in Known(t) || (x == name && !(name in t.model && name in t.home)) { }
  }

  /** A name that is unknown and in its home slot was so at first. */
  lemma DeadStays(t0: Table, t: Table, c: Course, name: string)
    requires Sound(t0) && t0.model.Keys <= t.model.Keys && Known(t) == DoneBy(t0, c) && name !in Known(t)
    requires (forall k <- t0.model :: k in t.home <==> k in t0.home)
             && forall k <- t.model :: k in t0.model || k in Known(t)
    ensures name in Dead(t0) <==> name in t.model && name in t.home
  {
    assert Known(t0) <= Known(t);
    assert name in t0.model ==> t0.model[name].None?;
  }

  /** The name is entered in a table of one slot that is taken. */
  lemma RoomAlone(t0: Table, t': Table, c: Course, f: File)
    requires Sound(t0) && Sound(t') && t0.size == t0.cap == 1 && c.log == [] && f.name !in Known(t0)
    requires Entered(t0, t', f.name)
    ensures Known(t') == Known(t0) + ({f.name} - Dead(t0))
  {
    EnteredSets(t0, t', f.name);
    KnownIsBacked(t0);
    KnownIsBacked(t');
    if f.name !in t0.model {
      forall x | x in t0.model ensures t'.model[x] == t0.model[x] {
        assert (x, t'.model[x]) in t'.stored;
      }
    }
  }

  /** One more file has been loaded. */
  lemma GoingMore(fs: seq<File>, t0: Table, t: Table, t': Table, c: Course, i: nat)
    requires Going(fs, t0, t, c) && i < |fs| && i !in c.gone
    requires fs[i].name !in Known(t) && Ready(fs[i], Known(t)) && Sound(t') && Entered(t, t', fs[i].name)
    ensures Going(fs, t0, t', Course(c.gone + {i}, c.log + [fs[i]]))
  {
    hide *;
    GoingParts(fs, t0, t, c);
    GrownMore(fs, t0, t, t', c, i);
    if Steady(fs, t0) {
      FileAsExpected(fs, t0, t, c, i);
      FirmParts(fs, t0, t, c);
      OneMore(c.log, Known(t0), Dead(t0), fs[i]);
      if Roomy(fs, t0) { LaidOutMore(fs, t0, t, t', c, i); }
      FirmParts(fs, t0, t', Course(c.gone + {i}, c.log + [fs[i]]));
    }
    GoingParts(fs, t0, t', Course(c.gone + {i}, c.log + [fs[i]]));
  }

  lemma GoingParts(fs: seq<File>, t0: Table, t: Table, c: Course)
    ensures Going(fs, t0, t, c) <==> Grown(fs, t0, t, c) && (Steady(fs, t0) ==> Firm(fs, t0, t, c))
  {
    hide Grown;
    hide Steady;
    hide Firm;
  }

  lemma FirmParts(fs: seq<File>, t0: Table, t: Table, c: Course)
    ensures Firm(fs, t0, t, c)
       <==> InOrder(c.log, Known(t0), Dead(t0)) && Steady(fs, t0) && (Roomy(fs, t0) ==> LaidOut(fs, t0, t, c))
  {
    hide InOrder;
    hide Steady;
    hide Roomy;
    hide LaidOut;
    hide Known;
    hide Dead;
  }

  /** A file that has not been loaded is known or ready if it ought to be. */
  lemma FileAsExpected(fs: seq<File>, t0: Table, t: Table, c: Course, i: nat)
    requires Grown(fs, t0, t, c) && Firm(fs, t0, t, c) && i < |fs| && i !in c.gone
    ensures fs[i].name in Known(t) <==> fs[i].name in DoneBy(t0, c)
    ensures Ready(fs[i], Known(t)) <==> Ready(fs[i], DoneBy(t0, c))
    ensures DoneBy(t0, c) == Done(Known(t0), Dead(t0), c.log)
  {
    hide Grown;
    hide Firm;
    hide Known;
    hide Done;
    hide Dead;
    assert fs[i] in fs;
    AsExpected(fs, t0, t, c, fs[i].name);
    forall d | d in fs[i].deps ensures d in Known(t) <==> d in DoneBy(t0, c) {
      assert Wanted(fs, d);
      AsExpected(fs, t0, t, c, d);
    }
  }

  // ----- one pass --------------------------------------------------------------------------

  /** After `n` files of a pass: those not counted as blocked have been loaded or are held with a pool. */
  ghost predicate Checked(fs: seq<File>, t: Table, gone: set<int>, blocked: set<int>, n: nat) {
    && n <= |fs| && (forall j :: j in blocked ==> 0 <= j < n)
    && forall j: nat {:trigger fs[j]} :: j < n && j !in blocked ==> j in gone || fs[j].name in Backed(t)
  }

  /** After `n` files of a pass that began with the names `was`: those counted as blocked were neither
      known nor ready then, all others are known or have been loaded, and every new name is that of a file
      not counted. */
  ghost predicate Pass(fs: seq<File>, was: set<string>, done: set<string>, gone: set<int>, blocked: set<int>, n: nat) {
    && n <= |fs|
    && (forall j :: j in blocked ==> 0 <= j < n && fs[j].name !in was && !Ready(fs[j], was))
    && (forall j: nat {:trigger fs[j]} :: j < n && j !in blocked ==> fs[j].name in done || j in gone)
    && forall name :: name in done && name !in was ==> Counted(fs, blocked, n, name)
  }

  /** A file among the first `n` that is not blocked has this name. */
  ghost predicate Counted(fs: seq<File>, blocked: set<int>, n: nat, name: string)
    requires n <= |fs|
  {
    exists j: nat :: j < n && j !in blocked && fs[j].name == name
  }

  lemma PassStarts(fs: seq<File>, t: Table, done: set<string>, gone: set<int>)
    ensures Pass(fs, done, done, gone, {}, 0) && Checked(fs, t, gone, {}, 0)
  {
  }

  lemma PassStep(fs: seq<File>, was: set<string>, done: set<string>, done': set<string>,
                 gone: set<int>, gone': set<int>, blocked: set<int>, i: nat)
    requires Pass(fs, was, done, gone, blocked, i) && i < |fs| && gone <= gone' && done <= done' <= done + {fs[i].name}
    requires fs[i].name in done' || i in gone'
    ensures Pass(fs, was, done', gone', blocked, i + 1)
  {
    assert i !in blocked;
    forall name | name in done' && name !in was ensures Counted(fs, blocked, i + 1, name) {
      if name in done {
        var j: nat :| j < i && j !in blocked && fs[j].name == name;
        assert j < i + 1;
      } else {
        assert fs[i].name == name;
      }
    }
  }

  lemma PassBlocked(fs: seq<File>, was: set<string>, done: set<string>, gone: set<int>, blocked: set<int>, i: nat)
    requires Pass(fs, was, done, gone, blocked, i) && i < |fs| && was <= done
    requires fs[i].name !in done && !Ready(fs[i], done)
    ensures Pass(fs, was, done, gone, blocked + {i}, i + 1)
  {
    forall name | name in done && name !in was ensures Counted(fs, blocked + {i}, i + 1, name) {
      var j: nat :| j < i && j !in blocked && fs[j].name == name;
      assert j < i + 1 && j !in blocked + {i};
    }
  }

  ghost function Places(n: nat): (s: set<int>)
    ensures |s| == n && forall i :: i in s <==> 0 <= i < n
  {
    if n == 0 then {} else Places(n - 1) + {n - 1}
  }

  /** What the pass before has left to do. */
  ghost predicate Left(fs: seq<File>, done: set<string>, gone: set<int>, before: set<int>) {
    forall j: nat {:trigger fs[j]} :: j < |fs| && j !in before ==> fs[j].name in done || j in gone
  }

  /** Files loaded are known, unless their names are dead. */
  lemma GoneAreDone(fs: seq<File>, t0: Table, c: Course)
    requires Tracks(fs, c)
    ensures forall j <- c.gone :: 0 <= j < |fs| && (fs[j].name in DoneBy(t0, c) || fs[j].name in Dead(t0))
    ensures Dead(t0) !! Known(t0) && forall x <- DoneBy(t0, c) :: x in Dead(t0) ==> x in Known(t0)
  {
    forall j <- c.gone ensures fs[j].name in Names(c.log) { assert fs[j] in c.log; }
  }

  /** What is blocked was blocked before. */
  lemma PassEnd(fs: seq<File>, t0: Table, c0: Course, c: Course, blocked: set<int>, before: set<int>)
    requires Tracks(fs, c0) && Pass(fs, DoneBy(t0, c0), DoneBy(t0, c), c.gone, blocked, |fs|)
    requires blocked !! c0.gone && Left(fs, DoneBy(t0, c0), c0.gone, before)
    ensures blocked <= before && Left(fs, DoneBy(t0, c), c.gone, blocked)
  {
    forall j | j in blocked ensures j in before { assert fs[j].name !in DoneBy(t0, c0); }
  }

  /** A pass that blocks as many files as the one before has loaded nothing new. */
  lemma StuckIsClosed(fs: seq<File>, t0: Table, c0: Course, c: Course, blocked: set<int>, before: set<int>)
    requires Tracks(fs, c0) && Tracks(fs, c) && Pass(fs, DoneBy(t0, c0), DoneBy(t0, c), c.gone, blocked, |fs|)
    requires blocked <= before && |blocked| == |before| && Left(fs, DoneBy(t0, c0), c0.gone, before)
    requires DoneBy(t0, c0) <= DoneBy(t0, c)
    ensures DoneBy(t0, c) == DoneBy(t0, c0) && Closed(DoneBy(t0, c), Known(t0), Dead(t0), fs)
    ensures forall j <- blocked :: 0 <= j < |fs| && fs[j].name !in DoneBy(t0, c) && !Ready(fs[j], DoneBy(t0, c))
  {
    SubsetSize(blocked, before);
    GoneAreDone(fs, t0, c0);
    GoneAreDone(fs, t0, c);
    var was, done := DoneBy(t0, c0), DoneBy(t0, c);
    assert Known(t0) <= was && Known(t0) <= done;
    hide DoneBy;
    hide Tracks;
    hide Known;
    hide Dead;
    forall name | Counted(fs, blocked, |fs|, name) ensures name in was || name in Dead(t0) {
      var j: nat :| j < |fs| && j !in blocked && fs[j].name == name;
    }
    forall name | name in done ensures name in was { }
    assert done == was;
    AllLeft(fs, t0, c, blocked);
  }

  /** Once the blocked files are not ready, what is done is closed. */
  lemma AllLeft(fs: seq<File>, t0: Table, c: Course, blocked: set<int>)
    requires Tracks(fs, c) && Left(fs, DoneBy(t0, c), c.gone, blocked)
    requires forall j <- blocked :: 0 <= j < |fs| ==> !Ready(fs[j], DoneBy(t0, c))
    ensures Closed(DoneBy(t0, c), Known(t0), Dead(t0), fs)
  {
    GoneAreDone(fs, t0, c);
    var done := DoneBy(t0, c);
    assert Known(t0) <= done;
    hide DoneBy;
    hide Tracks;
    forall f | f in fs && Ready(f, done) && f.name !in Dead(t0) ensures f.name in done {
      var j: nat :| j < |fs| && fs[j] == f;
    }
  }

  /** Every file is loadable, or can be loaded although its name is dead. */
  ghost predicate AllCanBe(fs: seq<File>, t0: Table) {
    forall f <- fs :: Loadable(f.name, Known(t0), Dead(t0), fs) || Reachable(f, Known(t0), Dead(t0), fs)
  }

  /** At the end what is done is what can be loaded. */
  lemma DoneAtLast(fs: seq<File>, t0: Table, t: Table, c: Course)
    requires Grown(fs, t0, t, c) && Firm(fs, t0, t, c) && Closed(DoneBy(t0, c), Known(t0), Dead(t0), fs)
    ensures forall x :: x in DoneBy(t0, c) <==> Loadable(x, Known(t0), Dead(t0), fs)
    ensures forall f :: Reachable(f, Known(t0), Dead(t0), fs) <==> Ready(f, DoneBy(t0, c))
    ensures forall x :: Roomy(fs, t0) || x !in Nulled(t0) ==>
              (x in Known(t) <==> Loadable(x, Known(t0), Dead(t0), fs))
  {
    FirmParts(fs, t0, t, c);
    GrownTracks(fs, t0, t, c);
    LogFromSet(fs, c);
    hide *;
    DoneByIs(t0, c);
    ClosedIsLeast(c.log, Known(t0), Dead(t0), fs);
    forall f ensures Reachable(f, Known(t0), Dead(t0), fs) <==> Ready(f, DoneBy(t0, c)) {
      ReachableIs(f, Known(t0), Dead(t0), fs, DoneBy(t0, c));
    }
    forall x | Roomy(fs, t0) || x !in Nulled(t0) ensures x in Known(t) <==> x in DoneBy(t0, c) {
      AsExpected(fs, t0, t, c, x);
    }
  }

  lemma ReachableIs(f: File, known: set<string>, dead: set<string>, fs: seq<File>, s: set<string>)
    requires forall x :: x in s <==> Loadable(x, known, dead, fs)
    ensures Reachable(f, known, dead, fs) <==> Ready(f, s)
  {
    hide Loadable;
  }

  lemma DoneByIs(t0: Table, c: Course)
    ensures DoneBy(t0, c) == Done(Known(t0), Dead(t0), c.log)
  {
  }

  lemma GrownTracks(fs: seq<File>, t0: Table, t: Table, c: Course)
    requires Grown(fs, t0, t, c)
    ensures Tracks(fs, c) && Backwards(c.log, Backed(t0)) && Backed(t) == Backed(t0) + Names(c.log)
  {
    hide Tracks;
    hide Backwards;
    hide Backed;
  }

  /** The pass has blocked as many files as the one before. */
  lemma StuckFails(fs: seq<File>, t0: Table, t: Table, c0: Course, c: Course, blocked: set<int>, before: set<int>)
    requires Grown(fs, t0, t, c) && Firm(fs, t0, t, c) && Tracks(fs, c0)
    requires Pass(fs, DoneBy(t0, c0), DoneBy(t0, c), c.gone, blocked, |fs|)
    requires blocked <= before && |blocked| == |before| > 0 && Left(fs, DoneBy(t0, c0), c0.gone, before)
    requires DoneBy(t0, c0) <= DoneBy(t0, c)
    ensures !AllCanBe(fs, t0) && Closed(DoneBy(t0, c), Known(t0), Dead(t0), fs)
  {
    GrownTracks(fs, t0, t, c);
    hide *;
    StuckIsClosed(fs, t0, c0, c, blocked, before);
    DoneAtLast(fs, t0, t, c);
    var j := Member(blocked);
    NotAll(fs, t0, j);
  }

  lemma NotAll(fs: seq<File>, t0: Table, j: int)
    requires 0 <= j < |fs| && !Loadable(fs[j].name, Known(t0), Dead(t0), fs)
             && !Reachable(fs[j], Known(t0), Dead(t0), fs)
    ensures !AllCanBe(fs, t0)
  {
    hide Loadable;
    hide Reachable;
    assert fs[j] in fs;
  }

  lemma Member<T>(s: set<T>) returns (x: T)
    requires |s| > 0
    ensures x in s
  {
    x :| x in s;
  }

  /** A pass has blocked no file. */
  lemma NoneLeft(fs: seq<File>, t0: Table, t: Table, c: Course)
    requires Grown(fs, t0, t, c) && Firm(fs, t0, t, c) && Left(fs, DoneBy(t0, c), c.gone, {})
    ensures AllCanBe(fs, t0) && Closed(DoneBy(t0, c), Known(t0), Dead(t0), fs)
  {
    GrownTracks(fs, t0, t, c);
    FirmParts(fs, t0, t, c);
    hide *;
    AllLeft(fs, t0, c, {});
    DoneAtLast(fs, t0, t, c);
    GoneAreLoads(fs, t0, c);
    AllGone(fs, t0, c);
  }

  lemma AllGone(fs: seq<File>, t0: Table, c: Course)
    requires Left(fs, DoneBy(t0, c), c.gone, {}) && c.gone <= Loads(fs, t0)
    requires forall x <- DoneBy(t0, c) :: Loadable(x, Known(t0), Dead(t0), fs)
    ensures AllCanBe(fs, t0)
  {
    hide Loadable;
    hide Reachable;
    hide DoneBy;
    forall f | f in fs ensures Loadable(f.name, Known(t0), Dead(t0), fs) || Reachable(f, Known(t0), Dead(t0), fs) {
      var j: nat :| j < |fs| && fs[j] == f;
    }
  }

  /** Whatever the layout, files are loaded only if they can be. */
  lemma OnlyLoadable(fs: seq<File>, t0: Table, t: Table, c: Course)
    requires Grown(fs, t0, t, c) && Checked(fs, t, c.gone, {}, |fs|)
    ensures forall f <- fs :: Loadable(f.name, Backed(t0), {}, fs)
  {
    GrownTracks(fs, t0, t, c);
    LogFromSet(fs, c);
    LoadedCanBe(c.log, Backed(t0), {}, fs);
    hide Loadable;
    hide Grown;
    hide Backed;
    hide Backwards;
    forall f | f in fs ensures f.name in Done(Backed(t0), {}, c.log) {
      var j: nat :| j < |fs| && fs[j] == f;
    }
  }

  /** What happens to the file at place `i`: it is counted as blocked, it is loaded, or there is nothing
      to do. */
  ghost predicate Turn(fs: seq<File>, i: nat, t: Table, t': Table, c: Course, c': Course, counted: bool)
    requires i < |fs|
  {
    if counted then
      t' == t && c' == c && i !in c.gone && fs[i].name !in Known(t) && !Ready(fs[i], Known(t))
    else
      || (t' == t && c' == c && (i in c.gone || fs[i].name in Known(t)))
      || (i !in c.gone && c' == Course(c.gone + {i}, c.log + [fs[i]]) && Entered(t, t', fs[i].name)
          && fs[i].name !in Known(t) && Ready(fs[i], Known(t)))
  }

  /** After `n` files of a pass that began with the table `was` and the course `c0`. */
  ghost predicate Passing(fs: seq<File>, t0: Table, was: Table, t: Table, c0: Course, c: Course,
                          blocked: set<int>, n: nat)
  {
    && Checked(fs, t, c.gone, blocked, n) && blocked !! c0.gone && c0.gone <= c.gone
    && (c.gone == c0.gone ==> t == was && c == c0)
    && (Steady(fs, t0) ==>
          && DoneBy(t0, c0) <= DoneBy(t0, c)
          && Pass(fs, DoneBy(t0, c0), DoneBy(t0, c), c.gone, blocked, n))
  }

  lemma PassingStarts(fs: seq<File>, t0: Table, t: Table, c: Course)
    ensures Passing(fs, t0, t, t, c, c, {}, 0)
  {
    PassStarts(fs, t, DoneBy(t0, c), c.gone);
    hide Pass;
    hide Checked;
    hide Steady;
  }

  lemma TurnTaken(fs: seq<File>, t0: Table, was: Table, t: Table, t': Table, c0: Course, c: Course, c': Course,
                  blocked: set<int>, i: nat, counted: bool)
    requires i < |fs| && Going(fs, t0, t, c) && Going(fs, t0, t', c') && Turn(fs, i, t, t', c, c', counted)
    requires Passing(fs, t0, was, t, c0, c, blocked, i)
    ensures counted ==> i !in blocked
    ensures Passing(fs, t0, was, t', c0, c', if counted then blocked + {i} else blocked, i + 1)
  {
    hide *;
    GoingParts(fs, t0, t, c);
    GoingParts(fs, t0, t', c');
    PassingParts(fs, t0, was, t, c0, c, blocked, i);
    CheckedTurn(fs, t0, t, t', c, c', blocked, i, counted);
    if Steady(fs, t0) { PassTurn(fs, t0, t, t', c0, c, c', blocked, i, counted); }
    TurnGone(fs, i, t, t', c, c', counted);
    PassingParts(fs, t0, was, t', c0, c', if counted then blocked + {i} else blocked, i + 1);
  }

  lemma PassingParts(fs: seq<File>, t0: Table, was: Table, t: Table, c0: Course, c: Course, blocked: set<int>, n: nat)
    ensures Passing(fs, t0, was, t, c0, c, blocked, n) <==>
              && Checked(fs, t, c.gone, blocked, n) && blocked !! c0.gone && c0.gone <= c.gone
              && (c.gone == c0.gone ==> t == was && c == c0)
              && (Steady(fs, t0) ==>
                    && DoneBy(t0, c0) <= DoneBy(t0, c)
                    && Pass(fs, DoneBy(t0, c0), DoneBy(t0, c), c.gone, blocked, n))
    ensures Checked(fs, t, c.gone, blocked, n) ==> n <= |fs| && forall j :: j in blocked ==> 0 <= j < n
  {
    hide Steady;
    hide Pass;
    hide DoneBy;
    hide Backed;
  }

  lemma TurnGone(fs: seq<File>, i: nat, t: Table, t': Table, c: Course, c': Course, counted: bool)
    requires i < |fs| && Turn(fs, i, t, t', c, c', counted)
    ensures c.gone <= c'.gone && (c'.gone == c.gone ==> t' == t && c' == c)
    ensures counted ==> i !in c.gone && t' == t && c' == c
  {
    hide Known;
    hide Entered;
    hide Ready;
  }

  lemma CheckedTurn(fs: seq<File>, t0: Table, t: Table, t': Table, c: Course, c': Course,
                    blocked: set<int>, i: nat, counted: bool)
    requires i < |fs| && Grown(fs, t0, t, c) && Grown(fs, t0, t', c') && Turn(fs, i, t, t', c, c', counted)
    requires Checked(fs, t, c.gone, blocked, i)
    ensures Checked(fs, t', c'.gone, if counted then blocked + {i} else blocked, i + 1)
  {
    KnownIsBacked(t);
    TurnGone(fs, i, t, t', c, c', counted);
    if c' != c { EnteredSets(t, t', fs[i].name); }
    hide Sound;
    hide Tracks;
    hide Backwards;
    hide Known;
    hide Backed;
    hide Nulled;
    hide Entered;
  }

  lemma PassTurn(fs: seq<File>, t0: Table, t: Table, t': Table, c0: Course, c: Course, c': Course,
                 blocked: set<int>, i: nat, counted: bool)
    requires i < |fs| && Grown(fs, t0, t, c) && Firm(fs, t0, t, c) && Turn(fs, i, t, t', c, c', counted)
    requires DoneBy(t0, c0) <= DoneBy(t0, c) && Pass(fs, DoneBy(t0, c0), DoneBy(t0, c), c.gone, blocked, i)
    ensures DoneBy(t0, c) <= DoneBy(t0, c')
    ensures Pass(fs, DoneBy(t0, c0), DoneBy(t0, c'), c'.gone, if counted then blocked + {i} else blocked, i + 1)
  {
    if i !in c.gone { FileAsExpected(fs, t0, t, c, i); }
    DoneMore(t0, c, i, fs[i]);
    TurnGone(fs, i, t, t', c, c', counted);
    hide Grown;
    hide Firm;
    hide Known;
    hide Pass;
    hide DoneBy;
    hide Ready;
    hide Entered;
    if counted {
      PassBlocked(fs, DoneBy(t0, c0), DoneBy(t0, c), c.gone, blocked, i);
    } else {
      PassStep(fs, DoneBy(t0, c0), DoneBy(t0, c), DoneBy(t0, c'), c.gone, c'.gone, blocked, i);
    }
  }

  /** The number of places that are gone. */
  lemma GoneCount(fs: seq<File>, c: Course)
    requires Tracks(fs, c)
    ensures |c.gone| <= |fs|
  {
    SubsetSize(c.gone, Places(|fs|));
  }

  /** How many files there are left to load. */
  ghost function Rest(fs: seq<File>, c: Course): nat { if |c.gone| <= |fs| then |fs| - |c.gone| else 0 }

  lemma RestLess(fs: seq<File>, c: Course, i: nat)
    requires Tracks(fs, c) && i < |fs| && i !in c.gone
    ensures Rest(fs, c) == Rest(fs, Course(c.gone + {i}, c.log + [fs[i]])) + 1
  {
    SubsetSize(c.gone + {i}, Places(|fs|));
  }

  lemma GoneMore(c0: Course, c: Course)
    requires c0.gone <= c.gone
    ensures |c0.gone| <= |c.gone| && (|c0.gone| == |c.gone| ==> c0.gone == c.gone)
  {
    SubsetSize(c0.gone, c.gone);
  }

  // ----- the calls -------------------------------------------------------------------------------

  /** How many of the first `n` files are neither loaded nor known nor ready. */
  ghost function Refused(files: seq<Option<File>>, known: set<string>, n: nat): nat
    requires n <= |files|
  {
    if n == 0 then 0
    else
      Refused(files, known, n - 1)
      + match files[n - 1]
        case None => 0
        case Some(f) => if f.name !in known && !Ready(f, known) then 1 else 0
  }

  /** What the names that are asked for must be like: the query for one of them is to compare with no NULL
      key, be it that its hash is not zero, that the table holds it, or that its home slot is taken and
      there is room for all the files that are `left`. */
  ghost predicate MayAsk(files: StringMap<Pool>, x: string, left: nat)
    reads files, files.slot
    requires files.Valid()
  {
    files.calcHash(x) != 0 || x in files.Model() || (files.size + left <= files.cap && files.CanAsk(x))
  }

  lemma MayAskNow(files: StringMap<Pool>, x: string, left: nat)
    requires files.Valid() && MayAsk(files, x, left)
    ensures files.CanAsk(x)
  {
    if x in files.Model() { files.HeldCanAsk(x); }
    files.ValidFacts();
    hide *;
    files.CanAskMeans(x);
    MayAskIs(files, x, left);
  }

  lemma MayAskIs(files: StringMap<Pool>, x: string, left: nat)
    requires files.Valid()
    ensures MayAsk(files, x, left)
       <==> files.calcHash(x) != 0 || x in files.Model() || (files.size + left <= files.cap && files.CanAsk(x))
  {
    hide StringMap.Valid;
    hide StringMap.Model;
    hide StringMap.CanAsk;
  }

  /** The part of `struct pbc_env` that matters here: the table of the files loaded, and, in a ghost,
      the course of the loading. */
  class Registry {
    const files: StringMap<Pool>
    ghost var course: Course

    /** The table as it is now. */
    ghost function Now(): Table
      reads files, files.slot
      requires files.Valid()
    {
      Table(files.Stored(), files.Model(), (set k | k in files.Model() && files.AtHome(k)), files.cap, files.size)
    }

    /** `pbc_new`: the schema of schemas is loaded, and its name entered with NULL (bootstrap.c). */
    constructor (calcHash: string -> nat)
      ensures fresh(files) && fresh(files.slot) && files.Valid() && files.calcHash == calcHash
      ensures Now() == Table(multiset{("descriptor", None)}, map["descriptor" := None], {"descriptor"}, 1, 1)
    {
      hide *;
      var table := new StringMap<Pool>(calcHash, 0);
      files := table;
      new;
      table.ValidFacts();
      table.Insert("descriptor", None);
      table.Alone();
      NowIs();
    }

    lemma NowIs()
      requires files.Valid()
      ensures Now().stored == files.Stored() && Now().model == files.Model()
      ensures Now().home <= files.Model().Keys && forall k <- files.Model() :: k in Now().home <==> files.AtHome(k)
      ensures Now().cap == files.cap && Now().size == files.size
    {
      hide StringMap.Valid;
      hide StringMap.Model;
      hide StringMap.Stored;
      hide StringMap.AtHome;
    }

    lemma NowSound()
      requires files.Valid()
      ensures Sound(Now())
    {
      hide *;
      NowIs();
      files.StoredMeans();
      files.ValidFacts();
      if files.size == 1 {
        files.Alone();
        assert Now().home == Now().model.Keys;
      }
      SoundIs(Now());
    }

    /** What the query for a name gives, in terms of the table. */
    lemma KnownNow(x: string)
      requires files.Valid()
      ensures x in Known(Now()) <==> x in files.Model() && files.Model()[x].Some?
    {
      hide StringMap.Valid;
      hide StringMap.Model;
      hide StringMap.Stored;
      hide StringMap.AtHome;
    }

    /** `_check_file_name` */
    method CheckFileName(f: File) returns (r: Check)
      requires files.Valid() && files.CanAsk(f.name) && forall d <- f.deps :: files.CanAsk(d)
      ensures r == if f.name in Known(Now()) then CheckExists
              else if Ready(f, Known(Now())) then CheckOk else CheckDependency
    {
      hide StringMap.Valid;
      hide StringMap.Model;
      hide StringMap.CanAsk;
      hide Known;
      KnownNow(f.name);
      var pool := files.Query(f.name);
      if pool.Some? { return CheckExists; }
      for i := 0 to |f.deps|
        invariant forall k :: 0 <= k < i ==> f.deps[k] in Known(Now())
      {
        KnownNow(f.deps[i]);
        pool := files.Query(f.deps[i]);
        if pool == None { return CheckDependency; }
      }
      r := CheckOk;
    }

    /** A file is entered in the table. */
    method Enter(name: string)
      requires files.Valid()
      modifies files, files.slot
      ensures files.Valid() && (files.slot == old(files.slot) || fresh(files.slot))
      ensures Entered(old(Now()), Now(), name) && Sound(Now())
      ensures forall x, left: nat {:trigger MayAsk(files, x, left)} :: old(MayAsk(files, x, left + 1)) ==>
                MayAsk(files, x, left)
    {
      hide *;
      NowIs();
      NowSound();
      ghost var t, slots := Now(), files.slot[..];
      files.ValidFacts();
      files.Insert(name, Some(Pool(name)));
      NowIs();
      NowSound();
      files.ValidFacts();
      if t.cap > t.size { files.SameHomes(); }
      EnteredIs(t, Now(), name);
      EnteredSets(t, Now(), name);
      AsksStay();
    }

    ghost predicate Valid(left: seq<Option<File>>, fs: seq<File>, t0: Table)
      reads this`course, files, files.slot
    {
      && files.Valid() && Going(fs, t0, Now(), course) && Remaining(left, fs, course.gone)
      && forall x :: Asked(fs, x) ==> MayAsk(files, x, Rest(fs, course))
    }

    lemma ValidIs(left: seq<Option<File>>, fs: seq<File>, t0: Table)
      ensures Valid(left, fs, t0) <==>
                && files.Valid() && Going(fs, t0, Now(), course) && Remaining(left, fs, course.gone)
                && forall x :: Asked(fs, x) ==> MayAsk(files, x, Rest(fs, course))
    {
      hide StringMap.Valid;
      hide Going;
      hide Remaining;
      hide MayAsk;
    }

    /** The names in file `i` can be asked for. */
    lemma CanAskFor(fs: seq<File>, i: nat)
      requires files.Valid() && i < |fs| && forall x :: Asked(fs, x) ==> MayAsk(files, x, Rest(fs, course))
      ensures files.CanAsk(fs[i].name) && forall d <- fs[i].deps :: files.CanAsk(d)
    {
      assert fs[i] in fs;
      hide StringMap.Valid;
      hide StringMap.CanAsk;
      hide MayAsk;
      assert Asked(fs, fs[i].name);
      MayAskNow(files, fs[i].name, Rest(fs, course));
      forall d | d in fs[i].deps ensures files.CanAsk(d) {
        assert Asked(fs, d);
        MayAskNow(files, d, Rest(fs, course));
      }
    }

    /** One turn of the loop of `_register_no_dependency`. */
    method RegisterOne(left: array<Option<File>>, i: nat, ghost fs: seq<File>, ghost t0: Table) returns (counted: bool)
      requires Valid(left[..], fs, t0) && i < left.Length
      modifies this`course, files, files.slot, left
      ensures Valid(left[..], fs, t0) && (files.slot == old(files.slot) || fresh(files.slot))
      ensures i < |fs| && Turn(fs, i, old(Now()), Now(), old(course), course, counted)
      ensures course == old(course) ==> left[..] == old(left[..])
      ensures old(left[i]) == Some(fs[i]) || i in old(course).gone
    {
      hide *;
      ValidIs(left[..], fs, t0);
      RemainingAt(left[..], fs, course.gone, i);
      if left[i] == None {
        NoTurn(fs, i, Now(), course);
        return false;
      }
      var f := left[i].value;
      CanAskFor(fs, i);
      var err := CheckFileName(f);
      if err == CheckExists {
        NoTurn(fs, i, Now(), course);
        return false;
      }
      if err == CheckDependency {
        BlockedTurn(fs, i, Now(), course);
        return true;
      }
      ghost var t, c := Now(), course;
      GoingParts(fs, t0, t, c);
      GrownTracks(fs, t0, t, c);
      RestLess(fs, c, i);
      Enter(f.name);
      LoadTurn(fs, i, t, Now(), c);
      GoingMore(fs, t0, t, Now(), c, i);
      course := Course(c.gone + {i}, c.log + [f]);
      left[i] := None;
      assert left[..] == old(left[..])[i := None];
      RemainingNone(old(left[..]), fs, c.gone, i);
      ValidIs(left[..], fs, t0);
      counted := false;
    }

    /** `_register_no_dependency`: one pass over the files not yet loaded. `blocked` are the places of the
        files that are counted. */
    method RegisterNoDependency(left: array<Option<File>>, ghost fs: seq<File>, ghost t0: Table)
      returns (r: nat, ghost blocked: set<int>)
      requires Valid(left[..], fs, t0)
      modifies this`course, files, files.slot, left
      ensures Valid(left[..], fs, t0) && (files.slot == old(files.slot) || fresh(files.slot))
      ensures r == |blocked| && Passing(fs, t0, old(Now()), Now(), old(course), course, blocked, |fs|)
      ensures course.gone == old(course).gone ==>
                left[..] == old(left[..]) && r == Refused(left[..], Known(Now()), |fs|)
    {
      hide *;
      ValidIs(left[..], fs, t0);
      ghost var was, c0, places := Now(), course, left[..];
      r, blocked := 0, {};
      RemainingSize(left[..], fs, course.gone);
      PassingStarts(fs, t0, was, c0);
      RefusedNone(left[..], Known(was));
      for i := 0 to left.Length
        invariant files.Valid() && Valid(left[..], fs, t0) && left.Length == |fs|
                  && (files.slot == old(files.slot) || fresh(files.slot))
        invariant r == |blocked| && Passing(fs, t0, was, Now(), c0, course, blocked, i)
        invariant course.gone == c0.gone ==>
                    left[..] == places && Now() == was && course == c0 && r == Refused(places, Known(was), i)
      {
        ghost var t, c := Now(), course;
        ValidIs(left[..], fs, t0);
        PassingParts(fs, t0, was, t, c0, c, blocked, i);
        var counted := RegisterOne(left, i, fs, t0);
        ValidIs(left[..], fs, t0);
        TurnTaken(fs, t0, was, t, Now(), c0, c, course, blocked, i, counted);
        TurnGone(fs, i, t, Now(), c, course, counted);
        if c.gone == c0.gone { RefusedStep(places, fs, t, Now(), c, course, i, counted); }
        if counted { r, blocked := r + 1, blocked + {i}; }
        PassingParts(fs, t0, was, Now(), c0, course, blocked, i + 1);
      }
    }

    /** `pbc_register`, once the files have been read. It ends and loads only what can be loaded, whatever the
        table is like. As long as names held with NULL do not get in the way, or no rehash does, it succeeds
        exactly when every file can be loaded, and what is known in the end is what can be loaded. */
    method Register(fs: seq<File>) returns (r: int)
      requires files.Valid() && forall x :: Asked(fs, x) ==> MayAsk(files, x, |fs|)
      modifies this`course, files, files.slot
      ensures files.Valid() && (files.slot == old(files.slot) || fresh(files.slot))
      ensures r == 0 || r == 1
      ensures fs == [] ==> r == 1 && Now() == old(Now())
      ensures r == 0 ==> forall f <- fs :: Loadable(f.name, Backed(old(Now())), {}, fs)
      ensures fs != [] && Steady(fs, old(Now())) ==> (r == 0 <==> AllCanBe(fs, old(Now())))
      ensures fs != [] && Steady(fs, old(Now())) ==>
                var t0 := old(Now());
                && InOrder(course.log, Known(t0), Dead(t0)) && (forall f <- course.log :: f in fs)
                && forall x :: Roomy(fs, t0) || x !in Nulled(t0) ==>
                     (x in Known(Now()) <==> Loadable(x, Known(t0), Dead(t0), fs))
    {
      hide *;
      if fs == [] { return 1; }
      ghost var t0 := Now();
      var n := |fs|;
      var left := new Option<File>[n](i requires 0 <= i < n => Some(fs[i]));
      course := Course({}, []);
      NowSound();
      Starts(fs, t0);
      NothingGone(left[..], fs);
      RestIs(fs, course);
      ValidIs(left[..], fs, t0);
      ghost var before := Places(n);
      AllOfThem(fs, t0, course, before);
      var count := n;
      while true
        invariant files.Valid() && Valid(left[..], fs, t0) && n == |fs| == left.Length
        invariant files.slot == old(files.slot) || fresh(files.slot)
        invariant count == |before| > 0
        invariant Steady(fs, t0) ==> Left(fs, DoneBy(t0, course), course.gone, before)
        decreases Rest(fs, course), if count == Refused(left[..], Known(Now()), |fs|) then 0 else 1
      {
        ghost var was, c0 := Now(), course;
        ValidIs(left[..], fs, t0);
        GoingParts(fs, t0, was, c0);
        var rr;
        ghost var blocked;
        rr, blocked := RegisterNoDependency(left, fs, t0);
        ValidIs(left[..], fs, t0);
        PassDone(fs, t0, was, Now(), c0, course, blocked, before);
        if rr == count { return 1; }
        if rr == 0 {
          assert blocked == {};
          return 0;
        }
        count, before := rr, blocked;
      }
    }

    twostate lemma AsksStay()
      requires old(files.Valid()) && files.Valid() && files.size == old(files.size) + 1
      requires old(files.Model()).Keys <= files.Model().Keys
      requires old(files.cap > files.size) ==>
                 files.cap == old(files.cap)
                   && HomesStay(old(files.slot[..]), files.slot[..], files.calcHash, old(files.Model()).Keys)
      ensures forall x, left: nat {:trigger MayAsk(files, x, left)} :: old(MayAsk(files, x, left + 1)) ==>
                MayAsk(files, x, left)
    {
      hide StringMap.Valid;
      hide StringMap.Model;
      hide StringMap.CanAsk;
      hide HomesStay;
      forall x, left: nat {:trigger MayAsk(files, x, left)} | old(MayAsk(files, x, left + 1))
        ensures MayAsk(files, x, left)
      {
        if old(files.cap > files.size) { files.AskStays(x); }
      }
    }
  }

  lemma NothingGone(left: seq<Option<File>>, fs: seq<File>)
    requires |left| == |fs| && forall i :: 0 <= i < |fs| ==> left[i] == Some(fs[i])
    ensures Remaining(left, fs, {})
  {
  }

  lemma RestIs(fs: seq<File>, c: Course)
    ensures |c.gone| <= |fs| ==> Rest(fs, c) == |fs| - |c.gone|
  {
  }

  lemma AllOfThem(fs: seq<File>, t0: Table, c: Course, before: set<int>)
    requires before == Places(|fs|)
    ensures Left(fs, DoneBy(t0, c), c.gone, before)
  {
    hide DoneBy;
  }

  /** What a pass over all files comes to. */
  lemma PassDone(fs: seq<File>, t0: Table, was: Table, t: Table, c0: Course, c: Course, blocked: set<int>,
                 before: set<int>)
    requires Going(fs, t0, was, c0) && Going(fs, t0, t, c) && Passing(fs, t0, was, t, c0, c, blocked, |fs|)
    requires Steady(fs, t0) ==> Left(fs, DoneBy(t0, c0), c0.gone, before)
    ensures if c.gone == c0.gone then t == was && c == c0 else Rest(fs, c) < Rest(fs, c0)
    ensures blocked == {} ==> forall f <- fs :: Loadable(f.name, Backed(t0), {}, fs)
    ensures Steady(fs, t0) ==> Left(fs, DoneBy(t0, c), c.gone, blocked)
    ensures Steady(fs, t0) && (blocked == {} || |blocked| == |before| > 0) ==>
              && (AllCanBe(fs, t0) <==> blocked == {})
              && InOrder(c.log, Known(t0), Dead(t0)) && (forall f <- c.log :: f in fs)
              && forall x :: Roomy(fs, t0) || x !in Nulled(t0) ==>
                   (x in Known(t) <==> Loadable(x, Known(t0), Dead(t0), fs))
  {
    hide *;
    GoingParts(fs, t0, was, c0);
    GoingParts(fs, t0, t, c);
    GrownTracks(fs, t0, was, c0);
    GrownTracks(fs, t0, t, c);
    PassingParts(fs, t0, was, t, c0, c, blocked, |fs|);
    GoneCount(fs, c0);
    GoneCount(fs, c);
    GoneMore(c0, c);
    RestIs(fs, c0);
    RestIs(fs, c);
    if blocked == {} { OnlyLoadable(fs, t0, t, c); }
    if Steady(fs, t0) {
      FirmParts(fs, t0, t, c);
      LogFromSet(fs, c);
      PassEnd(fs, t0, c0, c, blocked, before);
      if blocked == {} {
        NoneLeft(fs, t0, t, c);
        DoneAtLast(fs, t0, t, c);
      } else if |blocked| == |before| {
        StuckFails(fs, t0, t, c0, c, blocked, before);
        DoneAtLast(fs, t0, t, c);
      }
    }
  }

  lemma RemainingAt(left: seq<Option<File>>, fs: seq<File>, gone: set<int>, i: nat)
    requires Remaining(left, fs, gone) && i < |left|
    ensures |fs| == |left| && left[i] == if i in gone then None else Some(fs[i])
  {
  }

  lemma RemainingSize(left: seq<Option<File>>, fs: seq<File>, gone: set<int>)
    requires Remaining(left, fs, gone)
    ensures |fs| == |left|
  {
  }

  lemma RemainingNone(left: seq<Option<File>>, fs: seq<File>, gone: set<int>, i: nat)
    requires Remaining(left, fs, gone) && i < |left| && i !in gone
    ensures Remaining(left[i := None], fs, gone + {i}) && |gone + {i}| == |gone| + 1
  {
  }

  lemma NoTurn(fs: seq<File>, i: nat, t: Table, c: Course)
    requires i < |fs| && (i in c.gone || fs[i].name in Known(t))
    ensures Turn(fs, i, t, t, c, c, false)
  {
    hide Known;
  }

  lemma BlockedTurn(fs: seq<File>, i: nat, t: Table, c: Course)
    requires i < |fs| && i !in c.gone && fs[i].name !in Known(t) && !Ready(fs[i], Known(t))
    ensures Turn(fs, i, t, t, c, c, true)
  {
    hide Known;
    hide Ready;
  }

  lemma LoadTurn(fs: seq<File>, i: nat, t: Table, t': Table, c: Course)
    requires i < |fs| && i !in c.gone && fs[i].name !in Known(t) && Ready(fs[i], Known(t)) && Entered(t, t', fs[i].name)
    ensures Turn(fs, i, t, t', c, Course(c.gone + {i}, c.log + [fs[i]]), false)
  {
    hide Known;
    hide Ready;
    hide Entered;
  }

  lemma RefusedNone(left: seq<Option<File>>, known: set<string>)
    ensures Refused(left, known, 0) == 0
  {
  }

  /** The count of a pass that loads nothing is that of the files refused. */
  lemma RefusedStep(left: seq<Option<File>>, fs: seq<File>, t: Table, t': Table, c: Course, c': Course, i: nat,
                    counted: bool)
    requires i < |left| == |fs| && Turn(fs, i, t, t', c, c', counted)
    requires Remaining(left, fs, c.gone)
    ensures c'.gone == c.gone ==>
              Refused(left, Known(t), i + 1) == Refused(left, Known(t), i) + if counted then 1 else 0
  {
    hide Known;
  }

  lemma SoundIs(t: Table)
    ensures Sound(t) <==>
              && (forall e :: e in t.stored ==> e.0 in t.model)
              && (forall k <- t.model :: (k, t.model[k]) in t.stored)
              && t.home <= t.model.Keys && t.size <= t.cap
              && (t.size == 1 ==> t.home == t.model.Keys && forall e :: e in t.stored ==> t.model[e.0] == e.1)
  {
  }

  lemma EnteredIs(t: Table, t': Table, name: string)
    ensures Entered(t, t', name) <==>
              && t'.stored == t.stored + multiset{(name, Some(Pool(name)))}
              && t'.size == t.size + 1 && t'.cap == (if t.cap > t.size then t.cap else 2 * t.cap)
              && (t.cap > t.size ==>
                    && t'.model == t.model[name := if name in t.model && name in t.home then t.model[name]
                                                   else Some(Pool(name))]
                    && forall k <- t.model :: k in t'.home <==> k in t.home)
              && (t.size == 1 && name in t.model ==> t'.model == t.model)
  {
  }

  // ----- the name of the schema of schemas ---------------------------------------------------------

  /** The table of a fresh environment. */
  ghost function Fresh(): Table {
    Table(multiset{("descriptor", None)}, map["descriptor" := None], {"descriptor"}, 1, 1)
  }

  lemma FreshSets()
    ensures Known(Fresh()) == {} && Dead(Fresh()) == {"descriptor"}
  {
  }

  /** With a file of the name that depends on nothing, all other files depending on it, nothing gets known. */
  lemma NothingKnown(fs: seq<File>)
    requires forall f <- fs :: if f.name == "descriptor" then f.deps == [] else "descriptor" in f.deps
    ensures forall x :: !Loadable(x, {}, {"descriptor"}, fs)
    ensures forall f <- fs :: Reachable(f, {}, {"descriptor"}, fs) <==> f.name == "descriptor"
  {
    assert Closed({}, {}, {"descriptor"}, fs);
  }

  /** A set of one file "descriptor" and files that depend on it. */
  lemma DescriptorInput(fs: seq<File>)
    requires forall f <- fs :: if f.name == "descriptor" then f.deps == [] else "descriptor" in f.deps
    requires forall i, j :: 0 <= i < j < |fs| ==> fs[i].name != "descriptor" || fs[j].name != "descriptor"
    ensures Steady(fs, Fresh()) && Roomy(fs, Fresh()) && forall x :: !Loadable(x, Known(Fresh()), Dead(Fresh()), fs)
    ensures AllCanBe(fs, Fresh()) <==> forall f <- fs :: f.name == "descriptor"
  {
    FreshSets();
    NothingKnown(fs);
    hide Loadable;
    hide Known;
    hide Dead;
    hide Untangled;
    var loads := Loads(fs, Fresh());
    if loads != {} {
      var i :| i in loads;
      assert loads == {i};
    }
  }

  lemma FreshIs()
    ensures Fresh() == Table(multiset{("descriptor", None)}, map["descriptor" := None], {"descriptor"}, 1, 1)
  {
  }

  lemma AskedOf(fs: seq<File>, x: string)
    requires Asked(fs, x)
    ensures exists f <- fs :: f.name == x || x in f.deps
  {
  }

  lemma FreshAsks(files: StringMap<Pool>, fs: seq<File>)
    requires files.Valid() && "descriptor" in files.Model()
    requires forall x :: Asked(fs, x) ==> x == "descriptor" || files.calcHash(x) != 0
    ensures forall x :: Asked(fs, x) ==> MayAsk(files, x, |fs|)
  {
    hide StringMap.Valid;
    hide StringMap.Model;
    hide Asked;
  }

  /** The file "descriptor" again, which is entered but stays unknown, and a file that depends on it. */
  method DescriptorWanted(calcHash: string -> nat) returns (r: int)
    requires calcHash("foo") != 0
    ensures r == 1
  {
    hide *;
    var env := new Registry(calcHash);
    var fs := [File("descriptor", []), File("foo", ["descriptor"])];
    DescriptorInput(fs);
    env.NowIs();
    FreshIs();
    assert fs[1].name == "foo" && fs[1] in fs;
    forall x | Asked(fs, x) ensures x in {"descriptor", "foo"} { AskedOf(fs, x); }
    FreshAsks(env.files, fs);
    r := env.Register(fs);
  }

  /** The file alone is registered, but unknown to the next call. */
  method DescriptorAlone(calcHash: string -> nat) returns (r: int, env: Registry)
    ensures r == 0 && env.files.Valid() && "descriptor" !in Known(env.Now())
  {
    hide *;
    env := new Registry(calcHash);
    var fs := [File("descriptor", [])];
    DescriptorInput(fs);
    env.NowIs();
    FreshIs();
    forall x | Asked(fs, x) ensures x == "descriptor" { AskedOf(fs, x); }
    FreshAsks(env.files, fs);
    r := env.Register(fs);
  }
}
