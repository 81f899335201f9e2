/** Machine words of the codec, as ranges of the mathematical integers, and the
    two bit operations the sources use for more than selecting a field. */
module Words {
  type byte = x: int | 0 <= x < 0x100
  type u32 = x: int | 0 <= x < 0x1_0000_0000
  type u64 = x: int | 0 <= x < 0x1_0000_0000_0000_0000
  type i32 = x: int | -0x8000_0000 <= x < 0x8000_0000
  type i64 = x: int | -0x8000_0000_0000_0000 <= x < 0x8000_0000_0000_0000

  datatype Option<+T> = None | Some(value: T)

  /** `struct longlong`: a 64-bit word kept as two halves. */
  datatype LongLong = LongLong(low: u32, hi: u32)

  function Join(r: LongLong): u64 { r.low + 0x1_0000_0000 * r.hi }

  function Halves(n: u64): LongLong { LongLong(n % 0x1_0000_0000, n / 0x1_0000_0000) }

  lemma HalvesJoin(r: LongLong)
    ensures Halves(Join(r)) == r
  {
  }

  /** Two's complement reading of a word, and its inverse. */
  function Signed32(x: u32): i32 { if x < 0x8000_0000 then x else x - 0x1_0000_0000 }

  function Unsigned32(x: i32): u32 { if x >= 0 then x else x + 0x1_0000_0000 }

  function Unsigned64(x: i64): u64 { if x >= 0 then x else x + 0x1_0000_0000_0000_0000 }

  /** `x ^ m`, where the mask `m` is all ones or all zeros. */
  function Flip32(x: u32, ones: bool): u32 { if ones then 0xFFFF_FFFF - x else x }

  function Flip64(x: u64, ones: bool): u64 { if ones then 0xFFFF_FFFF_FFFF_FFFF - x else x }

  function Xor(a: nat, b: nat): nat {
    if a == 0 && b == 0 then 0
    else 2 * Xor(a / 2, b / 2) + (if a % 2 != b % 2 then 1 else 0)
  }

  function And(a: nat, b: nat): nat {
    if a == 0 || b == 0 then 0
    else 2 * And(a / 2, b / 2) + (if a % 2 == 1 && b % 2 == 1 then 1 else 0)
  }

  predicate PowerOfTwo(n: nat)
  {
    n == 1 || (n > 1 && n % 2 == 0 && PowerOfTwo(n / 2))
  }

  lemma DoublePower(n: nat)
    requires PowerOfTwo(n)
    ensures PowerOfTwo(2 * n)
  {
    assert (2 * n) / 2 == n;
  }

  /** Masking with a power of two less one is the remainder. */
  lemma {:induction false} MaskIsRemainder(x: nat, cap: nat)
    requires PowerOfTwo(cap)
    ensures And(x, cap - 1) == x % cap
  {
    if cap == 1 {
    } else if x == 0 {
      RemainderUnique(0, cap, 0, 0);
    } else {
      var half := cap / 2;
      assert cap == 2 * half;
      calc {
        And(x, 2 * half - 1);
      == { MaskStep(x, half); }
        2 * And(x / 2, half - 1) + x % 2;
      == { MaskIsRemainder(x / 2, half); }
        2 * ((x / 2) % half) + x % 2;
      == { RemainderByHalf(x, half); }
        x % (2 * half);
      }
    }
  }

  lemma MaskStep(x: nat, half: nat)
    requires half > 0 && x > 0
    ensures And(x, 2 * half - 1) == 2 * And(x / 2, half - 1) + x % 2
  {
    assert (2 * half - 1) / 2 == half - 1 && (2 * half - 1) % 2 == 1;
  }

  lemma RemainderByHalf(x: nat, half: nat)
    requires half > 0
    ensures x % (2 * half) == 2 * ((x / 2) % half) + x % 2
  {
    var q, r := (x / 2) / half, (x / 2) % half;
    var d := 2 * half;
    assert q * d == 2 * (q * half);
    RemainderUnique(x, d, q, 2 * r + x % 2);
  }

  lemma RemainderUnique(x: int, d: int, q: int, r: int)
    requires 0 <= r < d && x == q * d + r
    ensures x % d == r && x / d == q
  {
    var q', r' := x / d, x % d;
    DivisionLaw(x, d);
    assert (q - q') * d == q * d - q' * d;
    SmallMultiple(q - q', d);
  }

  lemma DivisionLaw(x: int, d: int)
    requires d > 0
    ensures x == (x / d) * d + x % d && 0 <= x % d < d
  {
  }

  lemma SmallMultiple(k: int, d: int)
    requires d > 0 && -d < k * d < d
    ensures k == 0
  {
  }

  /** `s` with the bytes `b` written over it from index `at` on. */
  function Splice<T>(s: seq<T>, at: nat, b: seq<T>): (r: seq<T>)
    requires at + |b| <= |s|
    ensures |r| == |s|
  {
    s[..at] + b + s[at + |b|..]
  }

  /** A C string up to its NUL. */
  function CString(b: seq<byte>): seq<byte> {
    if b == [] || b[0] == 0 then [] else [b[0]] + CString(b[1..])
  }

  /** It is what comes before the first zero byte, or all of it when there is none. */
  lemma {:induction false} CStringIs(b: seq<byte>)
    ensures CString(b) <= b && 0 !in CString(b)
    ensures |CString(b)| < |b| ==> b[|CString(b)|] == 0
  {
    if b != [] && b[0] != 0 { CStringIs(b[1..]); }
  }

  /** Bytes as the characters of a name. */
  function Chars(b: seq<byte>): (s: string)
    ensures |s| == |b| && forall i :: 0 <= i < |b| ==> s[i] == b[i] as char
  {
    seq(|b|, i requires 0 <= i < |b| => b[i] as char)
  }

  lemma {:induction false} SubsetSize<T>(a: set<T>, b: set<T>)
    requires a <= b
    ensures |a| <= |b| && (|a| == |b| ==> a == b)
  {
    if a != {} {
      var x :| x in a;
      SubsetSize(a - {x}, b - {x});
      assert a == (a - {x}) + {x} && b == (b - {x}) + {x};
    } else if b != {} {
      assert |b| > 0;
    }
  }

  /** `memcpy(buffer + at, b, |b|)` */
  method Overwrite(buffer: array<byte>, at: nat, b: seq<byte>)
    requires at + |b| <= buffer.Length
    modifies buffer
    ensures buffer[..] == Splice(old(buffer[..]), at, b)
  {
    forall i | 0 <= i < |b| { buffer[at + i] := b[i]; }
  }

  /** `memmove(buffer + to, buffer + from, n)` */
  method Move(buffer: array<byte>, to: nat, from: nat, n: nat)
    requires to + n <= buffer.Length && from + n <= buffer.Length
    modifies buffer
    ensures buffer[..] == Splice(old(buffer[..]), to, old(buffer[..])[from..from + n])
  {
    forall i | 0 <= i < n { buffer[to + i] := buffer[from + i]; }
  }
}
