/** Base-128 varints and ZigZag (lualib-src/pbc/src/varint.c). */
module Varints {
  import opened Words

  // ----- what the format says ------------------------------------------------

  /** The shortest little-endian base-128 form of `n`: every byte but the last
      carries the continuation bit. */
  function Varint(n: nat): (b: seq<byte>)
    ensures |b| >= 1
  {
    if n < 0x80 then [n] else [n % 0x80 + 0x80] + Varint(n / 0x80)
  }

  /** The number that the low seven bits of the bytes spell, first byte least. */
  function Groups(b: seq<byte>): nat {
    if b == [] then 0 else b[0] % 0x80 + 0x80 * Groups(b[1..])
  }

  /** How many bytes carry the continuation bit before one does not. */
  function Lead(b: seq<byte>): (k: nat)
    ensures k <= |b|
    ensures forall i :: 0 <= i < k ==> b[i] >= 0x80
    ensures k < |b| ==> b[k] < 0x80
  {
    if b == [] || b[0] < 0x80 then 0 else 1 + Lead(b[1..])
  }

  predicate Continued(b: seq<byte>, k: nat)
    requires k <= |b|
  {
    forall i :: 0 <= i < k ==> b[i] >= 0x80
  }

  /** The two words of a number cut to 64 bits. */
  function Cut64(n: nat): LongLong {
    if n < 0x1_0000_0000_0000_0000 then Halves(n) else Cut64(n - 0x1_0000_0000_0000_0000)
  }

  lemma {:induction false} Cut64IsModulo(n: nat)
    ensures Join(Cut64(n)) == n % 0x1_0000_0000_0000_0000
  {
    hide *;
    Cut64Step(n);
    var full := 0x1_0000_0000_0000_0000;
    if n >= full {
      var m := n - full;
      Cut64IsModulo(m);
      DivisionLaw(m, full);
      RemainderUnique(n, full, m / full + 1, m % full);
    } else {
      RemainderUnique(n, full, 0, n);
    }
  }

  lemma Cut64Step(n: nat)
    ensures n >= 0x1_0000_0000_0000_0000 ==> Cut64(n) == Cut64(n - 0x1_0000_0000_0000_0000)
    ensures n < 0x1_0000_0000_0000_0000 ==> Join(Cut64(n)) == n
  {
  }

  /** What a decoder that looks at ten bytes must answer: the length, and the value
      modulo 2^64; ten continuation bytes count as a ten-byte zero. */
  function Decoded(b: seq<byte>): (r: (nat, LongLong))
    requires |b| >= 10
    ensures 1 <= r.0 <= 10
  {
    var k := Lead(b[..10]);
    if k == 10 then (10, LongLong(0, 0))
    else (k + 1, Cut64(Groups(b[..k + 1])))
  }

  /** `x << (7 * k)`. */
  function Shl7(x: nat, k: nat): nat { if k == 0 then x else 0x80 * Shl7(x, k - 1) }

  lemma {:induction false} Shl7Sum(x: nat, y: nat, k: nat)
    ensures Shl7(x + 0x80 * y, k) == Shl7(x, k) + Shl7(y, k + 1)
  {
    if k > 0 { Shl7Sum(x, y, k - 1); }
  }

  lemma {:induction false} GroupsSplit(a: seq<byte>, b: seq<byte>)
    ensures Groups(a + b) == Groups(a) + Shl7(Groups(b), |a|)
  {
    if a == [] {
      assert a + b == b;
    } else {
      assert (a + b)[1..] == a[1..] + b;
      GroupsSplit(a[1..], b);
    }
  }

  lemma {:induction false} GroupsBound(b: seq<byte>)
    ensures Groups(b) < Shl7(1, |b|)
  {
    if b != [] { GroupsBound(b[1..]); }
  }

  /** The same number, accumulated upwards: `b[from..to]` read byte after byte. */
  function Gathered(b: seq<byte>, from: nat, to: nat): nat
    requires from <= to <= |b|
  {
    if from == to then 0 else Gathered(b, from, to - 1) + Shl7(b[to - 1] % 0x80, to - 1 - from)
  }

  lemma {:induction false} GatheredIsGroups(b: seq<byte>, from: nat, to: nat)
    requires from <= to <= |b|
    ensures Gathered(b, from, to) == Groups(b[from..to]) < Shl7(1, to - from)
  {
    GroupsBound(b[from..to]);
    if from < to {
      GatheredIsGroups(b, from, to - 1);
      assert b[from..to] == b[from..to - 1] + [b[to - 1]];
      GroupsSplit(b[from..to - 1], [b[to - 1]]);
      assert [b[to - 1]][1..] == [];
    }
  }

  // ----- encoding ------------------------------------------------------------

  lemma VarintSteps(n: nat)
    ensures n >= 0x80 ==> Varint(n) == [n % 0x80 + 0x80] + Varint(n / 0x80)
    ensures n < 0x80 ==> Varint(n) == [n]
  {
  }

  /** `_pbcV_encode32`, writing at `buffer + at`. */
  method Encode32(number: u32, buffer: array<byte>, at: nat) returns (len: nat)
    requires at + |Varint(number)| <= buffer.Length
    modifies buffer
    ensures len == |Varint(number)|
    ensures buffer[..] == Splice(old(buffer[..]), at, Varint(number))
  {
    VarintSteps(number);
    if number < 0x80 {
      buffer[at] := number;
      return 1;
    }
    buffer[at] := number % 0x80 + 0x80;
    VarintSteps(number / 0x80);
    if number < 0x4000 {
      buffer[at + 1] := number / 0x80;
      return 2;
    }
    buffer[at + 1] := number / 0x80 % 0x80 + 0x80;
    VarintSteps(number / 0x4000);
    assert number / 0x80 / 0x80 == number / 0x4000;
    if number < 0x20_0000 {
      buffer[at + 2] := number / 0x4000;
      return 3;
    }
    buffer[at + 2] := number / 0x4000 % 0x80 + 0x80;
    VarintSteps(number / 0x20_0000);
    assert number / 0x4000 / 0x80 == number / 0x20_0000;
    if number < 0x1000_0000 {
      buffer[at + 3] := number / 0x20_0000;
      return 4;
    }
    buffer[at + 3] := number / 0x20_0000 % 0x80 + 0x80;
    VarintSteps(number / 0x1000_0000);
    assert number / 0x20_0000 / 0x80 == number / 0x1000_0000;
    buffer[at + 4] := number / 0x1000_0000;
    return 5;
  }

  /** `_pbcV_encode`: the loop shifts seven bits out at a time. */
  method Encode64(number: u64, buffer: array<byte>, at: nat) returns (len: nat)
    requires at + |Varint(number)| <= buffer.Length
    modifies buffer
    ensures len == |Varint(number)|
    ensures buffer[..] == Splice(old(buffer[..]), at, Varint(number))
  {
    if number % 0x1_0000_0000 == number {
      len := Encode32(number, buffer, at);
      return;
    }
    assert number >= 0x80;
    hide *;
    ghost var start, done: seq<byte> := buffer[..], [];
    var n, i := number, 0;
    SpliceNothing(start, at);
    while i == 0 || n >= 0x80
      invariant |done| == i && at + i + |Varint(n)| <= buffer.Length == |start|
      invariant Varint(number) == done + Varint(n) && buffer[..] == Splice(start, at, done)
      invariant i == 0 ==> n == number >= 0x80
      decreases n
    {
      FirstByte(number, n, done);
      StoreByte(buffer, at, i, start, done, n % 0x80 + 0x80);
      done := done + [n % 0x80 + 0x80];
      n := n / 0x80;
      i := i + 1;
    }
    LastByte(number, n, done);
    StoreByte(buffer, at, i, start, done, n);
    len := i + 1;
  }

  /** One more byte behind those stored. */
  method StoreByte(buffer: array<byte>, at: nat, i: nat, ghost start: seq<byte>, ghost done: seq<byte>, x: byte)
    requires |done| == i && at + i < buffer.Length == |start| && buffer[..] == Splice(start, at, done)
    modifies buffer
    ensures buffer[..] == Splice(start, at, done + [x])
  {
    buffer[at + i] := x;
  }

  lemma FirstByte(number: nat, n: nat, done: seq<byte>)
    requires n >= 0x80 && Varint(number) == done + Varint(n)
    ensures n / 0x80 < n && |Varint(n)| == |Varint(n / 0x80)| + 1
    ensures Varint(number) == done + [n % 0x80 + 0x80] + Varint(n / 0x80)
  {
    VarintSteps(n);
    hide *;
    assert done + ([n % 0x80 + 0x80] + Varint(n / 0x80)) == done + [n % 0x80 + 0x80] + Varint(n / 0x80);
  }

  lemma LastByte(number: nat, n: nat, done: seq<byte>)
    requires n < 0x80 && Varint(number) == done + Varint(n)
    ensures |Varint(n)| == 1 && Varint(number) == done + [n]
  {
  }

  lemma SpliceNothing(s: seq<byte>, at: nat)
    requires at <= |s|
    ensures Splice(s, at, []) == s
  {
  }

  // ----- decoding ------------------------------------------------------------

  /** `_pbcV_decode`: three loops of the same shape, over bytes 0, 1-3 and 4-9. */
  method Decode(buffer: seq<byte>) returns (len: nat, result: LongLong)
    requires |buffer| >= 10
    ensures (len, result) == Decoded(buffer)
  {
    if buffer[0] < 0x80 {
      ShortAnswer(buffer, 0);
      return 1, LongLong(buffer[0], 0);
    }
    var r, i := buffer[0] % 0x80, 1;
    while i < 4
      invariant 1 <= i <= 4 && Continued(buffer, i)
      invariant r == Gathered(buffer, 0, i)
    {
      r := r + Shl7(buffer[i] % 0x80, i);
      if buffer[i] < 0x80 {
        ShortAnswer(buffer, i);
        return i + 1, LongLong(r, 0);
      }
      i := i + 1;
    }
    var lr := 0;
    while i < 10
      invariant 4 <= i <= 10 && Continued(buffer, i)
      invariant lr == Gathered(buffer, 4, i)
    {
      lr := lr + Shl7(buffer[i] % 0x80, i - 4);
      if buffer[i] < 0x80 {
        LongAnswer(buffer, i);
        return i + 1, WideWord(r, lr);
      }
      i := i + 1;
    }
    DecodedIs(buffer, 10);
    return 10, LongLong(0, 0);
  }

  /** The two words of `r | lr << 28`, cut to 64 bits. */
  function WideWord(r: nat, lr: nat): LongLong
    requires r < 0x1000_0000
  {
    LongLong(r + lr % 0x10 * 0x1000_0000, lr / 0x10 % 0x1_0000_0000)
  }

  lemma ShortAnswer(b: seq<byte>, k: nat)
    requires |b| >= 10 && k < 4 && b[k] < 0x80
    requires Continued(b, k)
    ensures Gathered(b, 0, k + 1) < 0x1000_0000
    ensures Decoded(b) == (k + 1, LongLong(Gathered(b, 0, k + 1), 0))
    ensures k == 0 ==> Gathered(b, 0, k + 1) == b[0]
  {
    GatheredIsGroups(b, 0, k + 1);
    Shl7Grows(1, k + 1, 4);
    Shl7Four(1);
    SmallCut(Gathered(b, 0, k + 1));
    DecodedIs(b, k);
    assert Shl7(b[0] % 0x80, 0) == b[0] % 0x80;
  }

  lemma SmallCut(n: nat)
    requires n < 0x1000_0000
    ensures Cut64(n) == LongLong(n, 0)
  {
  }

  lemma LongAnswer(b: seq<byte>, k: nat)
    requires |b| >= 10 && 4 <= k < 10 && b[k] < 0x80
    requires Continued(b, k)
    ensures Gathered(b, 0, 4) < 0x1000_0000
    ensures Decoded(b) == (k + 1, WideWord(Gathered(b, 0, 4), Gathered(b, 4, k + 1)))
  {
    hide Groups;
    hide Gathered;
    hide Decoded;
    hide WideWord;
    hide Cut64;
    GatheredIsGroups(b, 0, 4);
    GatheredIsGroups(b, 4, k + 1);
    TwoParts(b, k);
    WideValue(Groups(b[0..4]), Groups(b[4..k + 1]));
    DecodedIs(b, k);
  }

  lemma TwoParts(b: seq<byte>, k: nat)
    requires 4 <= k < |b|
    ensures Groups(b[0..4]) < 0x1000_0000
    ensures Groups(b[0..k + 1]) == Groups(b[0..4]) + 0x1000_0000 * Groups(b[4..k + 1])
  {
    Shl7Four(1);
    GroupsBound(b[0..4]);
    assert b[0..k + 1] == b[0..4] + b[4..k + 1];
    GroupsSplit(b[0..4], b[4..k + 1]);
    Shl7Four(Groups(b[4..k + 1]));
  }

  lemma Shl7Four(x: nat)
    ensures Shl7(x, 4) == 0x1000_0000 * x
  {
    assert Shl7(x, 1) == 0x80 * x;
    assert Shl7(x, 2) == 0x80 * Shl7(x, 1);
    assert Shl7(x, 3) == 0x80 * Shl7(x, 2);
  }

  lemma {:induction false} LeadUnique(b: seq<byte>, k: nat)
    requires k <= |b| && (forall i :: 0 <= i < k ==> b[i] >= 0x80) && (k < |b| ==> b[k] < 0x80)
    ensures Lead(b) == k
  {
  }

  /** Unfolds `Decoded` once the number `k` of leading continuation bytes is known. */
  lemma DecodedIs(b: seq<byte>, k: nat)
    requires |b| >= 10 && k <= 10
    requires Continued(b, k)
    requires k < 10 ==> b[k] < 0x80
    ensures k == 10 ==> Decoded(b) == (10, LongLong(0, 0))
    ensures k < 10 ==> Decoded(b) == (k + 1, Cut64(Groups(b[0..k + 1])))
  {
    LeadUnique(b[..10], k);
    if k < 10 { assert b[0..k + 1] == b[..k + 1]; }
  }

  lemma WideValue(r: nat, lr: nat)
    requires r < 0x1000_0000
    ensures Cut64(r + 0x1000_0000 * lr) == WideWord(r, lr)
  {
    Cut64IsModulo(r + 0x1000_0000 * lr);
    WideRemainder(r, lr);
    HalvesJoin(WideWord(r, lr));
    HalvesJoin(Cut64(r + 0x1000_0000 * lr));
  }

  lemma WideRemainder(r: nat, lr: nat)
    requires r < 0x1000_0000
    ensures (r + 0x1000_0000 * lr) % 0x1_0000_0000_0000_0000
         == r + lr % 0x10 * 0x1000_0000 + 0x1_0000_0000 * (lr / 0x10 % 0x1_0000_0000)
  {
  }

  // ----- decoding undoes encoding ---------------------------------------------

  lemma {:induction false} GroupsOfVarint(n: nat)
    ensures Groups(Varint(n)) == n
  {
    if n < 0x80 {
      assert [n][1..] == [];
    } else {
      GroupsOfVarint(n / 0x80);
      assert Varint(n)[1..] == Varint(n / 0x80);
    }
  }

  lemma {:induction false} LeadOfVarint(n: nat, tail: seq<byte>)
    ensures Lead(Varint(n) + tail) == |Varint(n)| - 1
  {
    if n >= 0x80 {
      LeadOfVarint(n / 0x80, tail);
      assert (Varint(n) + tail)[1..] == Varint(n / 0x80) + tail;
    }
  }

  /** The length counts the seven-bit groups of the number. */
  lemma {:induction false} LengthOfVarint(n: nat)
    ensures n < Shl7(1, |Varint(n)|)
    ensures |Varint(n)| > 1 ==> Shl7(1, |Varint(n)| - 1) <= n
  {
    if n >= 0x80 { LengthOfVarint(n / 0x80); }
  }

  /** `x >> (7 * k)`. */
  function Shr7(x: nat, k: nat): nat { if k == 0 then x else Shr7(x / 0x80, k - 1) }

  /** Byte `k` holds the seven bits from bit `7 * k` on, and says whether another byte follows. */
  lemma {:induction false} VarintBytes(n: nat, k: nat)
    requires k < |Varint(n)|
    ensures Varint(n)[k] == Shr7(n, k) % 0x80 + if k + 1 < |Varint(n)| then 0x80 else 0
  {
    if k > 0 { VarintBytes(n / 0x80, k - 1); }
  }

  lemma {:induction false} Shl7Grows(x: nat, j: nat, k: nat)
    requires j <= k
    ensures Shl7(x, j) <= Shl7(x, k)
    decreases k - j
  {
    if j < k { Shl7Grows(x, j, k - 1); }
  }

  lemma {:induction false} VarintWidth(n: nat, k: nat)
    requires n < Shl7(1, k) && k > 0
    ensures |Varint(n)| <= k
  {
    LengthOfVarint(n);
    if |Varint(n)| > k { Shl7Grows(1, k, |Varint(n)| - 1); }
  }

  lemma Widths(n: u64)
    ensures |Varint(n)| <= 10
    ensures n < 0x1_0000_0000 ==> |Varint(n)| <= 5
  {
    Shl7Four(1);
    assert Shl7(1, 5) == 0x8_0000_0000;
    assert Shl7(1, 6) == 0x80 * Shl7(1, 5);
    assert Shl7(1, 7) == 0x80 * Shl7(1, 6);
    assert Shl7(1, 8) == 0x80 * Shl7(1, 7);
    assert Shl7(1, 9) == 0x80 * Shl7(1, 8);
    assert Shl7(1, 10) == 0x80 * Shl7(1, 9);
    VarintWidth(n, 10);
    if n < 0x1_0000_0000 { VarintWidth(n, 5); }
  }

  /** No byte string that ends at its first clear continuation bit spells `n` in
      fewer bytes than the encoder uses. */
  lemma {:induction false} VarintMinimal(n: nat, b: seq<byte>)
    requires Lead(b) == |b| - 1 && Groups(b) == n
    ensures |Varint(n)| <= |b|
  {
    GroupsBound(b);
    VarintWidth(n, |b|);
  }

  /** Reading a varint from a buffer of any length: `None` when it is cut short. */
  function ReadVarint(b: seq<byte>): (r: Option<(nat, LongLong)>)
    ensures r.Some? ==> 1 <= r.value.0 <= |b| && r.value.0 <= 10
  {
    if |b| >= 10 then Some(Decoded(b))
    else if Lead(b) == |b| then None
    else Some((Lead(b) + 1, Cut64(Groups(b[..Lead(b) + 1]))))
  }

  lemma ReadEncoded(n: u64, tail: seq<byte>)
    ensures ReadVarint(Varint(n) + tail) == Some((|Varint(n)|, Halves(n)))
  {
    assert Cut64(n) == Halves(n);
    hide Varint;
    hide Groups;
    hide Cut64;
    hide Halves;
    hide Lead;
    var b, k := Varint(n) + tail, |Varint(n)|;
    GroupsOfVarint(n);
    LeadOfVarint(n, tail);
    Widths(n);
    assert b[..k] == Varint(n);
    if |b| >= 10 {
      assert Lead(b) == k - 1 < |b| && b[k - 1] < 0x80;
      LeadUnique(b[..10], k - 1);
      assert b[..10][..k] == b[..k];
    }
  }

  /** The decoder reads back both words of any encoded number and consumes exactly the
      encoding, whatever follows it. */
  lemma DecodeEncoded(n: u64, tail: seq<byte>)
    requires |Varint(n) + tail| >= 10
    ensures Decoded(Varint(n) + tail) == (|Varint(n)|, Halves(n))
    ensures 1 <= |Varint(n)| <= 10
  {
    ReadEncoded(n, tail);
  }

  /** Decoding a ten-byte scratch copy whose tail is undefined: the answer is either
      longer than the copied part or independent of that tail. */
  lemma ScratchCopy(b: seq<byte>, temp: seq<byte>)
    requires |b| < 10 == |temp| && temp[..|b|] == b
    ensures ReadVarint(b) == (if Decoded(temp).0 > |b| then None else Some(Decoded(temp)))
  {
    var k := Lead(temp);
    assert temp[..10] == temp;
    forall i | 0 <= i < |b| ensures b[i] == temp[i] { assert temp[..|b|][i] == temp[i]; }
    if k < |b| {
      LeadUnique(b, k);
      assert b[..k + 1] == temp[..k + 1];
    } else {
      LeadUnique(b, |b|);
    }
  }

  /** What is decoded: the sum of all groups of seven bits, the first the lowest, cut to 64 bits, also when it could
      have been said in fewer bytes; zero when ten bytes go on; and nothing when fewer than ten bytes go on and end. */
  lemma DecodedInNumerals(b: seq<byte>, k: nat)
    requires k <= 10 && k <= |b| && forall i :: 0 <= i < k ==> b[i] >= 0x80
    ensures k < 10 && k < |b| && b[k] < 0x80 ==>
              && ReadVarint(b).Some? && ReadVarint(b).value.0 == k + 1
              && Join(ReadVarint(b).value.1) == Gathered(b, 0, k + 1) % 0x1_0000_0000_0000_0000
    ensures k == 10 ==> ReadVarint(b) == Some((10, LongLong(0, 0)))
    ensures k == |b| < 10 ==> ReadVarint(b) == None
    ensures |b| >= 10 ==> ReadVarint(b) == Some(Decoded(b))
  {
    if k < 10 && k < |b| && b[k] < 0x80 {
      LeadUnique(b, k);
      if |b| >= 10 { LeadUnique(b[..10], k); }
      GatheredIsGroups(b, 0, k + 1);
      Cut64IsModulo(Groups(b[..k + 1]));
      if |b| >= 10 { assert b[..10][..k + 1] == b[..k + 1]; }
      assert b[0..k + 1] == b[..k + 1];
      hide Cut64;
      hide Groups;
      hide Gathered;
      hide Join;
    } else if k == 10 {
      LeadUnique(b[..10], 10);
    } else if k == |b| {
      LeadUnique(b, k);
    }
  }

  // ----- ZigZag ---------------------------------------------------------------

  /** `(n << 1) ^ (n >> 31)` on the word that holds the signed number `n`. */
  function ZigZag32(n: u32): u32 { Flip32(n * 2 % 0x1_0000_0000, n >= 0x8000_0000) }

  function ZigZag64(n: u64): u64 {
    Flip64(n * 2 % 0x1_0000_0000_0000_0000, n >= 0x8000_0000_0000_0000)
  }

  /** `_pbcV_dezigzag64`, word by word as the C does it. */
  function Dezigzag64(r: LongLong): LongLong {
    LongLong(Flip32(r.low / 2 + r.hi % 2 * 0x8000_0000, r.low % 2 == 1),
             Flip32(r.hi / 2, r.low % 2 == 1))
  }

  /** `_pbcV_dezigzag32`: the high word comes from the word before decoding. */
  function Dezigzag32(r: LongLong): LongLong {
    LongLong(Flip32(r.low / 2, r.low % 2 == 1), if r.low >= 0x8000_0000 then 0xFFFF_FFFF else 0)
  }

  /** Small numbers of either sign get small codes: 0, -1, 1, -2, ... become 0, 1, 2, 3, ... */
  lemma ZigZagMeaning(n: i64)
    ensures ZigZag64(Unsigned64(n)) == if n >= 0 then 2 * n else -2 * n - 1
    ensures -0x8000_0000 <= n < 0x8000_0000 ==>
              ZigZag32(Unsigned32(n)) == if n >= 0 then 2 * n else -2 * n - 1
  {
  }

  lemma DezigzagZigzag64(n: u64)
    ensures Join(Dezigzag64(Halves(ZigZag64(n)))) == n
  {
  }

  lemma DezigzagZigzag32(n: u32, hi: u32)
    ensures Dezigzag32(LongLong(ZigZag32(n), hi)).low == n
  {
  }

  /** The high word is the sign extension of the decoded number exactly when the number
      lies in 0 .. 2^30-1 or below -2^30. */
  lemma Dezigzag32HighWord(n: i32, hi: u32)
    ensures Dezigzag32(LongLong(ZigZag32(Unsigned32(n)), hi)).hi == (if n < 0 then 0xFFFF_FFFF else 0)
        <==> 0 <= n < 0x4000_0000 || n < -0x4000_0000
  {
  }

  lemma Dezigzag32HighWordOfMinusOne()
    ensures Dezigzag32(LongLong(ZigZag32(Unsigned32(-1)), 0)) == LongLong(0xFFFF_FFFF, 0)
  {
  }
}
