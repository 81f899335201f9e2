/** The vector of lualib-src/pbc/src/array.c, which keeps no record of its capacity. */
module Vectors {
  import opened Words

  /** `INNER_FIELD`, how many elements fit the object itself: 64 bytes less a header of 24, in
      elements of 16. */
  const INNER_FIELD := 2

  lemma {:induction false} XorSelf(n: nat)
    ensures Xor(n, n) == 0
  {
    if n > 0 { XorSelf(n / 2); }
  }

  /** Adding one changes all bits of `n`, and one more, exactly when `n` is all ones. */
  lemma {:induction false} XorCarry(n: nat)
    ensures Xor(n + 1, n) > n <==> PowerOfTwo(n + 1)
  {
    var m := n / 2;
    if n % 2 == 0 {
      XorSelf(m);
      assert (n + 1) / 2 == m;
    } else {
      XorCarry(m);
      assert (n + 1) / 2 == m + 1;
    }
  }

  /** The least power of two above `n`. */
  predicate LeastAbove(cap: nat, n: nat) { PowerOfTwo(cap) && cap / 2 <= n < cap }

  lemma {:induction false} OnlyPower(a: nat, b: nat)
    requires PowerOfTwo(a) && PowerOfTwo(b) && a / 2 < b <= a
    ensures a == b
  {
    if a > 1 && b > 1 { OnlyPower(a / 2, b / 2); }
  }

  /** A vector with room for `cap` elements is full but for one exactly when the test on the count
      says so. */
  lemma FullButOne(cap: nat, n: nat)
    requires LeastAbove(cap, n)
    ensures Xor(n + 1, n) > n <==> n + 1 == cap
  {
    XorCarry(n);
    if PowerOfTwo(n + 1) { OnlyPower(cap, n + 1); }
  }

  /** The capacity with which a vector leaves the inner storage. */
  method FirstCapacity(n: nat) returns (cap: nat)
    ensures LeastAbove(cap, n)
  {
    cap := 1;
    while cap <= n
      invariant PowerOfTwo(cap) && cap / 2 <= n
      decreases n - cap
    {
      DoublePower(cap);
      cap := cap * 2;
    }
  }

  class Vector<T(0)> {
    const inner: array<T>
    var number: nat
    var a: array<T>

    ghost predicate Valid()
      reads this
    {
      && inner.Length == INNER_FIELD
      && if number <= INNER_FIELD then a == inner else a != inner && LeastAbove(a.Length, number)
    }

    ghost function Contents(): (s: seq<T>)
      reads this, a
      requires Valid()
    {
      a[..number]
    }

    /** `_pbcA_open` */
    constructor ()
      ensures Valid() && Contents() == [] && fresh(a)
    {
      inner := new T[INNER_FIELD];
      number := 0;
      a := inner;
    }

    /** `_pbcA_push`: storage is found to be too small from the count alone. */
    method Push(v: T)
      requires Valid()
      modifies this, a
      ensures Valid() && Contents() == old(Contents()) + [v]
      ensures if number <= 2 then a == inner && a.Length == 2
              else PowerOfTwo(a.Length) && a.Length / 2 <= number < a.Length
      ensures a == old(a) || fresh(a)
    {
      if number == 0 {
        a := inner;
      } else if number >= INNER_FIELD {
        MakeRoom();
      }
      assert number < a.Length;
      ghost var was := a[..number];
      assert was == old(Contents());
      a[number] := v;
      number := number + 1;
      assert a[..number] == was + [v];
    }

    method MakeRoom()
      requires Valid() && number >= INNER_FIELD
      modifies this`a
      ensures number < a.Length && LeastAbove(a.Length, number + 1) && a != inner
      ensures a[..number] == old(a[..number]) && (a == old(a) || fresh(a))
    {
      if number == INNER_FIELD {
        var cap := FirstCapacity(number + 1);
        var outer := Copy(cap, INNER_FIELD);
        a := outer;
      } else {
        var size := number;
        FullButOne(a.Length, size);
        if Xor(size + 1, size) > size {
          XorCarry(size);
          DoublePower(size + 1);
          var more := Copy((size + 1) * 2, size);
          a := more;
        }
      }
    }

    /** New storage with the first `n` elements. */
    method Copy(cap: nat, n: nat) returns (b: array<T>)
      requires n <= a.Length && n <= cap
      ensures fresh(b) && b.Length == cap && b[..n] == a[..n]
    {
      b := new T[cap];
      forall i | 0 <= i < n { b[i] := a[i]; }
    }

    /** `_pbcA_index` */
    method Index(i: nat) returns (v: T)
      requires Valid() && i < number
      ensures v == Contents()[i]
    {
      v := a[i];
    }
  }
}
