/** Vectors filed under keys, each with storage of its own. */
module VectorMaps {
  import opened Vectors

  ghost function Members<T(0)>(vs: map<string, Vector<T>>): set<object> { set k <- vs :: vs[k] as object }

  /** The vectors and their storage. */
  ghost function Prints<T(0)>(vs: map<string, Vector<T>>): set<object>
    reads Members(vs)
  {
    Members(vs) + set k <- vs :: vs[k].a as object
  }

  ghost predicate Hold<T(0)>(vs: map<string, Vector<T>>, c: map<string, seq<T>>)
    reads Members(vs), Prints(vs)
  {
    vs.Keys == c.Keys && forall k <- vs :: vs[k].Valid() && vs[k].Contents() == c[k]
  }

  /** No storage is shared. */
  ghost predicate Unshared<T(0)>(vs: map<string, Vector<T>>)
    reads Members(vs)
  {
    forall j <- vs, k <- vs :: j != k ==> vs[j] != vs[k] && vs[j].a != vs[k].a
  }

  lemma HoldLess<T(0)>(vs: map<string, Vector<T>>, c: map<string, seq<T>>, k: string)
    requires Hold(vs, c) && Unshared(vs)
    ensures vs.Keys == c.Keys && Members(vs - {k}) <= Prints(vs - {k}) <= Prints(vs)
    ensures Hold(vs - {k}, c - {k}) && Unshared(vs - {k})
    ensures k in vs ==>
              && vs[k].Valid() && k in c && vs[k].Contents() == c[k] && {vs[k], vs[k].a} <= Prints(vs)
              && {vs[k], vs[k].a} !! Prints(vs - {k})
  {
    hide Vector.Valid;
    hide Vector.Contents;
  }

  lemma HoldMore<T(0)>(vs: map<string, Vector<T>>, c: map<string, seq<T>>, k: string, v: Vector<T>)
    requires Hold(vs, c) && Unshared(vs) && k !in vs && v.Valid() && v !in Prints(vs) && v.a !in Prints(vs)
    ensures Hold(vs[k := v], c[k := v.Contents()]) && Unshared(vs[k := v])
    ensures Members(vs[k := v]) <= Prints(vs[k := v]) <= Prints(vs) + {v, v.a}
  {
    hide Vector.Valid;
    hide Vector.Contents;
  }

  lemma Counted<T(0)>(v: Vector<T>)
    requires v.Valid()
    ensures |v.Contents()| == v.number
  {
  }

  lemma HeldAt<T(0)>(vs: map<string, Vector<T>>, c: map<string, seq<T>>, k: string)
    requires Hold(vs, c)
    ensures vs.Keys == c.Keys && (k in vs ==> vs[k].Valid() && vs[k].Contents() == c[k] && |c[k]| == vs[k].number)
  {
    if k in vs { Counted(vs[k]); }
  }

  lemma ContentsSize<T(0)>(v: Vector<T>)
    requires v.Valid()
    ensures v.Contents() == [] <==> v.number == 0
  {
  }
}
