/** The record format that the parser of lualib-src/pbc/src/context.c accepts and that
    the writers of wmessage.c and pattern.c produce. */
module Wire {
  import opened Words
  import opened Varints

  const WT_VARINT := 0
  const WT_BIT64 := 1
  const WT_LEND := 2
  const WT_BIT32 := 5

  /** `struct atom`. The two words of the union hold a number, low word first, or the
      start and end of a slice. */
  datatype Atom = Atom(wireId: i32, low: u32, hi: u32) {
    /** `wire_id >> 3`, an arithmetic shift. */
    function Id(): int { wireId / 8 }

    function WireType(): nat { wireId % 8 }

    function Number(): LongLong { LongLong(low, hi) }

    predicate SliceIn(from: nat, to: nat) { from <= low <= hi <= to }

    /** The slice as the ints of `struct slice`: where it starts, and `end - start`. */
    function Start(): i32 { Signed32(low) }

    function Size(): i32 { Signed32((hi - low) % 0x1_0000_0000) }
  }

  function Word32(b: seq<byte>): u32
    requires |b| == 4
  {
    b[0] as int + 0x100 * b[1] as int + 0x1_0000 * b[2] as int + 0x100_0000 * b[3] as int
  }

  function Bytes32(n: u32): (b: seq<byte>)
    ensures |b| == 4
  {
    [n % 0x100, n / 0x100 % 0x100, n / 0x1_0000 % 0x100, n / 0x100_0000]
  }

  function Bytes64(n: LongLong): (b: seq<byte>)
    ensures |b| == 8
  {
    Bytes32(n.low) + Bytes32(n.hi)
  }

  lemma WordOfBytes(n: u32)
    ensures Word32(Bytes32(n)) == n
  {
    var q, r := n / 0x100, n / 0x1_0000;
    assert n == 0x100 * q + n % 0x100;
    assert q == 0x100 * (q / 0x100) + q % 0x100;
    Quotients(n);
    assert r == 0x100 * (r / 0x100) + r % 0x100;
  }

  lemma Quotients(n: nat)
    ensures n / 0x1_0000 == n / 0x100 / 0x100 && n / 0x100_0000 == n / 0x1_0000 / 0x100
  {
  }

  // ----- the reference parser ---------------------------------------------------

  /** One record at the head of `b`, which lies `start` bytes into the message: the atom
      and the number of bytes it takes up. */
  function ParseRecord(b: seq<byte>, start: nat): (r: Option<(Atom, nat)>)
    requires start + |b| < 0x8000_0000
    ensures r.Some? ==> 2 <= r.value.1 <= |b|
  {
    match ReadVarint(b)
    case None => None
    case Some((len, tag)) =>
      if tag.hi != 0 then None else ParseBody(Signed32(tag.low), b[len..], start + len, len)
  }

  function ParseBody(wireId: i32, b: seq<byte>, start: nat, used: nat): (r: Option<(Atom, nat)>)
    requires start + |b| < 0x8000_0000
    ensures r.Some? ==> used < r.value.1 <= used + |b|
  {
    var wt := wireId % 8;
    if wt == WT_VARINT then
      match ReadVarint(b)
      case None => None
      case Some((n, v)) => Some((Atom(wireId, v.low, v.hi), used + n))
    else if wt == WT_BIT64 then
      if |b| < 8 then None
      else Some((Atom(wireId, Word32(b[..4]), Word32(b[4..8])), used + 8))
    else if wt == WT_LEND then
      match ReadVarint(b)
      case None => None
      case Some((n, v)) =>
        if |b| < n + v.low || v.hi != 0 then None
        else Some((Atom(wireId, start + n, start + n + v.low), used + n + v.low))
    else if wt == WT_BIT32 then
      if |b| < 4 then None
      else Some((Atom(wireId, Word32(b[..4]), 0), used + 4))
    else None
  }

  // ----- the length that wraps ----------------------------------------------------

  /** What a scratch buffer of ten bytes holds before a short input is copied to it. */
  type Tail = s: seq<byte> | |s| == 10 witness [0, 0, 0, 0, 0, 0, 0, 0, 0, 0]

  /** What the scratch buffer holds when the record that begins at a given place is taken up. */
  type Junk = nat -> Tail

  /** The scratch buffer after `b` has gone through it, if `b` is short. */
  function Copied(b: seq<byte>, tail: Tail): Tail { if |b| >= 10 then tail else b + tail[|b|..] }

  /** What `_pbcV_decode` makes of the head of `b`, by way of a scratch buffer if `b` is short. */
  function Scratched(b: seq<byte>, tail: Tail): (r: (nat, LongLong))
    ensures 1 <= r.0 <= 10
  {
    Decoded(if |b| >= 10 then b else Copied(b, tail))
  }

  lemma ScratchedReads(b: seq<byte>, tail: Tail)
    ensures ReadVarint(b) == if Scratched(b, tail).0 <= |b| then Some(Scratched(b, tail)) else None
  {
    hide Decoded;
    hide Lead;
    if |b| < 10 {
      var temp := Copied(b, tail);
      assert temp[..|b|] == b;
      ScratchCopy(b, temp);
    }
    hide Groups;
    hide Cut64;
  }

  /** `b` begins with a length to which its own width is added, in 32 bits, to at most `|b|`, although
      the sum is larger. */
  predicate LengthWraps(b: seq<byte>, tail: Tail) {
    var (n, v) := Scratched(b, tail);
    v.hi == 0 && 0x1_0000_0000 <= n + v.low <= 0x1_0000_0000 + |b|
  }

  /** The record at the head of `b` is length-delimited, and its length wraps. The length is decoded by way
      of the scratch buffer that the whole of a short record has gone through before. */
  predicate RunsAway(b: seq<byte>, tail: Tail) {
    match ReadVarint(b)
    case None => false
    case Some((len, tag)) => tag.hi == 0 && tag.low % 8 == WT_LEND && LengthWraps(b[len..], Copied(b, tail))
  }

  /** The record that `wiretype_decode` takes at the head of `b`, with the number of bytes to move
      on: a record that runs away is taken, too. */
  function TakeRecord(b: seq<byte>, start: nat, tail: Tail): (r: Option<(Atom, nat)>)
    requires start + |b| < 0x8000_0000
    ensures r.Some? ==> r.value.1 >= 2
  {
    if RunsAway(b, tail) then
      var (len, tag) := ReadVarint(b).value;
      var (n, v) := Scratched(b[len..], Copied(b, tail));
      Some((Atom(Signed32(tag.low), start + len + n, (start + len + n + v.low) % 0x1_0000_0000), len + n + v.low))
    else ParseRecord(b, start)
  }

  /** What comes of a message: its atoms, or a refusal behind some good records, or nothing that could be
      told, because the parser goes on four gigabytes behind it. */
  datatype Outcome = All(atoms: seq<Atom>) | Refused(good: nat) | Lost

  /** The same for the records behind `done`. */
  function Behind(done: seq<Atom>, rest: Outcome): Outcome {
    match rest
    case All(atoms) => All(done + atoms)
    case Refused(good) => Refused(|done| + good)
    case Lost => Lost
  }

  /** The loops of `_pbcC_open`. What is left of the message is an int: behind a record that runs away it is
      what 32 bits show of it, and if that is nothing the message is over. */
  function TakeAll(b: seq<byte>, start: nat, junk: Junk): Outcome
    requires start + |b| < 0x8000_0000
    decreases |b|
  {
    if b == [] then All([])
    else match TakeRecord(b, start, junk(start))
         case None => Refused(0)
         case Some((a, n)) =>
           if n <= |b| then Behind([a], TakeAll(b[n..], start + n, junk))
           else if n - 0x1_0000_0000 == |b| then All([a])
           else Lost
  }

  /** What comes of a message when the scratch buffer holds zeros at first. */
  function Taken(b: seq<byte>): Outcome
    requires |b| < 0x8000_0000
  {
    TakeAll(b, 0, _ => [0, 0, 0, 0, 0, 0, 0, 0, 0, 0])
  }

  /** The same comes of the message whatever the scratch buffer holds, and it is not lost. */
  ghost predicate Tame(b: seq<byte>)
    requires |b| < 0x8000_0000
  {
    Taken(b) != Lost && forall junk: Junk :: TakeAll(b, 0, junk) == Taken(b)
  }

  /** One of the records that the parser comes to runs away. */
  predicate Astray(b: seq<byte>, start: nat, junk: Junk)
    requires start + |b| < 0x8000_0000
    decreases |b|
  {
    && b != []
    && (RunsAway(b, junk(start))
        || match ParseRecord(b, start)
           case None => false
           case Some((_, n)) => Astray(b[n..], start + n, junk))
  }

  /** A record that runs away is one that the format does not allow, and it is the only kind that is
      taken wrongly: the slice ends before it begins, and the next record would lie outside `b`. */
  lemma TakenWrongly(b: seq<byte>, start: nat, tail: Tail)
    requires start + |b| < 0x8000_0000
    ensures TakeRecord(b, start, tail) == ParseRecord(b, start) <==> !RunsAway(b, tail)
    ensures RunsAway(b, tail) ==>
              && ParseRecord(b, start) == None
              && TakeRecord(b, start, tail).Some?
              && var (a, n) := TakeRecord(b, start, tail).value;
                 a.WireType() == WT_LEND && a.hi < a.low && 0x1_0000_0000 < n <= 0x1_0000_0000 + |b|
    ensures !RunsAway(b, tail) && TakeRecord(b, start, tail).Some? ==>
              var (a, n) := TakeRecord(b, start, tail).value;
              n <= |b| && (a.WireType() == WT_LEND ==> a.SliceIn(start + 2, start + n))
  {
    hide *;
    if RunsAway(b, tail) {
      AwayRejected(b, start, tail);
      AwayTaken(b, start, tail);
    } else {
      OtherwiseParsed(b, start, tail);
      if ParseRecord(b, start).Some? { RecordSliceInside(b, start); }
    }
  }

  lemma AwayRejected(b: seq<byte>, start: nat, tail: Tail)
    requires start + |b| < 0x8000_0000 && RunsAway(b, tail)
    ensures ParseRecord(b, start) == None
  {
    hide *;
    AwayParts(b, tail);
    var (len, tag) := ReadVarint(b).value;
    ScratchedReads(b[len..], Copied(b, tail));
    TooLong(b, start, len, tag);
  }

  lemma AwayParts(b: seq<byte>, tail: Tail)
    requires RunsAway(b, tail)
    ensures ReadVarint(b).Some?
    ensures var (len, tag) := ReadVarint(b).value;
            var (n, v) := Scratched(b[len..], Copied(b, tail));
            tag.hi == 0 && tag.low % 8 == WT_LEND && v.hi == 0 && n + v.low >= 0x1_0000_0000
  {
    hide ReadVarint;
    hide Scratched;
    hide Copied;
  }

  /** A length that is cut short or passes the end. */
  lemma TooLong(b: seq<byte>, start: nat, len: nat, tag: LongLong)
    requires start + |b| < 0x8000_0000 && ReadVarint(b) == Some((len, tag)) && tag.hi == 0 && tag.low % 8 == WT_LEND
    requires len <= |b| && match ReadVarint(b[len..]) case None => true case Some((n, v)) => n + v.low > |b| - len
    ensures ParseRecord(b, start) == None
  {
    hide ReadVarint;
  }

  lemma AwayTaken(b: seq<byte>, start: nat, tail: Tail)
    requires start + |b| < 0x8000_0000 && RunsAway(b, tail)
    ensures TakeRecord(b, start, tail).Some?
    ensures var (a, n) := TakeRecord(b, start, tail).value;
            a.WireType() == WT_LEND && a.hi < a.low && 0x1_0000_0000 < n <= 0x1_0000_0000 + |b|
  {
    hide ReadVarint;
    hide Scratched;
    hide Copied;
  }

  lemma OtherwiseParsed(b: seq<byte>, start: nat, tail: Tail)
    requires start + |b| < 0x8000_0000 && !RunsAway(b, tail)
    ensures TakeRecord(b, start, tail) == ParseRecord(b, start)
  {
    hide RunsAway;
    hide ParseRecord;
  }

  /** What the format makes of a message. */
  function Formatted(b: seq<byte>, start: nat): Outcome
    requires start + |b| < 0x8000_0000
  {
    match ParseAll(b, start)
    case None => Refused(GoodRecords(b, start))
    case Some(atoms) => All(atoms)
  }

  /** The parser goes by the format exactly on the messages in which no record runs away. */
  lemma {:induction false} TakenAsFormatted(b: seq<byte>, start: nat, junk: Junk)
    requires start + |b| < 0x8000_0000
    ensures TakeAll(b, start, junk) == Formatted(b, start) <==> !Astray(b, start, junk)
    decreases |b|
  {
    hide *;
    if b != [] {
      TakenWrongly(b, start, junk(start));
      TakeStep(b, start, junk);
      AstrayStep(b, start, junk);
      FormattedStep(b, start);
      if ParseRecord(b, start).Some? {
        var (a, n) := ParseRecord(b, start).value;
        TakenAsFormatted(b[n..], start + n, junk);
        BehindOne(a, TakeAll(b[n..], start + n, junk), Formatted(b[n..], start + n));
      }
    } else {
      NotAstray(start, junk);
    }
  }

  lemma BehindOne(a: Atom, x: Outcome, y: Outcome)
    ensures Behind([a], x) == Behind([a], y) <==> x == y
  {
    if x.All? && y.All? && [a] + x.atoms == [a] + y.atoms {
      assert ([a] + x.atoms)[1..] == x.atoms && ([a] + y.atoms)[1..] == y.atoms;
    }
  }

  lemma TakeStep(b: seq<byte>, start: nat, junk: Junk)
    requires start + |b| < 0x8000_0000 && b != []
    ensures TakeAll(b, start, junk)
         == match TakeRecord(b, start, junk(start))
            case None => Refused(0)
            case Some((a, n)) =>
              if n <= |b| then Behind([a], TakeAll(b[n..], start + n, junk))
              else if n - 0x1_0000_0000 == |b| then All([a])
              else Lost
  {
    hide TakeRecord;
    hide Behind;
  }

  lemma FormattedStep(b: seq<byte>, start: nat)
    requires start + |b| < 0x8000_0000 && b != []
    ensures Formatted(b, start)
         == match ParseRecord(b, start)
            case None => Refused(0)
            case Some((a, n)) => Behind([a], Formatted(b[n..], start + n))
  {
    hide ParseRecord;
  }

  lemma NotAstray(start: nat, junk: Junk)
    requires start < 0x8000_0000
    ensures !Astray([], start, junk) && TakeAll([], start, junk) == Formatted([], start) == All([])
  {
  }

  lemma AstrayStep(b: seq<byte>, start: nat, junk: Junk)
    requires start + |b| < 0x8000_0000 && b != []
    ensures Astray(b, start, junk)
       <==> RunsAway(b, junk(start))
            || (ParseRecord(b, start).Some?
               && Astray(b[ParseRecord(b, start).value.1..], start + ParseRecord(b, start).value.1, junk))
  {
    hide RunsAway;
    hide ParseRecord;
  }

  /** Messages that the format allows do not go astray. */
  lemma {:induction false} AllowedIsTame(b: seq<byte>, start: nat, junk: Junk)
    requires start + |b| < 0x8000_0000 && ParseAll(b, start).Some?
    ensures !Astray(b, start, junk)
    decreases |b|
  {
    hide *;
    if b != [] {
      RestParsed(b, start);
      TakenWrongly(b, start, junk(start));
      var n := ParseRecord(b, start).value.1;
      AllowedIsTame(b[n..], start + n, junk);
      AstrayStep(b, start, junk);
    } else {
      NotAstray(start, junk);
    }
  }

  lemma ParsedIsTame(b: seq<byte>)
    requires |b| < 0x8000_0000 && ParseAll(b, 0).Some?
    ensures Tame(b) && Taken(b) == All(ParseAll(b, 0).value)
  {
    hide *;
    FormattedIs(b);
    forall junk: Junk ensures !Astray(b, 0, junk) { AllowedIsTame(b, 0, junk); }
    NeverAstrayIsTame(b);
  }

  lemma FormattedIs(b: seq<byte>)
    requires |b| < 0x8000_0000
    ensures Formatted(b, 0) != Lost
    ensures match ParseAll(b, 0)
            case None => Formatted(b, 0) == Refused(GoodRecords(b, 0))
            case Some(atoms) => Formatted(b, 0) == All(atoms)
  {
    hide ParseAll;
    hide GoodRecords;
  }

  lemma TameIs(b: seq<byte>, o: Outcome)
    requires |b| < 0x8000_0000 && o != Lost && forall junk: Junk :: TakeAll(b, 0, junk) == o
    ensures Tame(b) && Taken(b) == o
  {
    hide TakeAll;
  }

  /** The rest of a message from its first bad record on. */
  function FirstBad(b: seq<byte>, start: nat): (r: seq<byte>)
    requires start + |b| < 0x8000_0000
    ensures |r| <= |b|
    decreases |b|
  {
    if b == [] then []
    else match ParseRecord(b, start)
         case None => b
         case Some((_, n)) => FirstBad(b[n..], start + n)
  }

  /** Of a message that the format does not allow, the first bad record alone decides whether it goes
      astray. */
  lemma {:induction false} FirstBadDecides(b: seq<byte>, start: nat, junk: Junk)
    requires start + |b| < 0x8000_0000 && ParseAll(b, start) == None
    ensures FirstBad(b, start) != []
    ensures var bad := FirstBad(b, start); Astray(b, start, junk) <==> RunsAway(bad, junk(start + |b| - |bad|))
    decreases |b|
  {
    hide RunsAway;
    hide ParseRecord;
    if ParseRecord(b, start).Some? {
      var n := ParseRecord(b, start).value.1;
      TakenWrongly(b, start, junk(start));
      FirstBadDecides(b[n..], start + n, junk);
    }
  }

  /** Unless a record that runs away comes up, whatever the scratch buffer holds, a message is tame. */
  lemma NeverAstrayIsTame(b: seq<byte>)
    requires |b| < 0x8000_0000 && forall junk: Junk :: !Astray(b, 0, junk)
    ensures Tame(b) && Taken(b) == Formatted(b, 0)
  {
    hide *;
    FormattedIs(b);
    forall junk: Junk ensures TakeAll(b, 0, junk) == Formatted(b, 0) { TakenAsFormatted(b, 0, junk); }
    TameIs(b, Formatted(b, 0));
  }

  // ----- inputs ---------------------------------------------------------------------

  /** A length of 2^32 - 1: the record is taken, and four gigabytes are passed over, whatever the
      scratch buffers hold. */
  lemma LengthOfFourGigabytes(junk: Junk)
    ensures TakeAll([0x0A, 0xFF, 0xFF, 0xFF, 0xFF, 0x0F], 0, junk) == Lost
  {
    var b, tail := [0x0A, 0xFF, 0xFF, 0xFF, 0xFF, 0x0F], junk(0);
    assert b[1..] == [0xFF, 0xFF, 0xFF, 0xFF, 0x0F];
    var m := Copied(b[1..], Copied(b, tail));
    assert m[..5] == [0xFF, 0xFF, 0xFF, 0xFF, 0x0F];
    FiveBytes(0xFF, m);
    TagAlone(b);
    LengthTaken(b, junk, 5, 0xFFFF_FFFF);
  }

  lemma TagAlone(b: seq<byte>)
    requires b != [] && b[0] == 0x0A
    ensures ReadVarint(b) == Some((1, LongLong(10, 0)))
  {
    assert [b[0]] + b[1..] == b;
    assert Varint(10) == [10];
    ReadEncoded(10, b[1..]);
  }

  /** A message of one record with the tag 0A: the length `low` takes `n` bytes. */
  lemma LengthTaken(b: seq<byte>, junk: Junk, n: nat, low: u32)
    requires 0 < |b| < 0x8000_0000 && ReadVarint(b) == Some((1, LongLong(10, 0)))
    requires Scratched(b[1..], Copied(b, junk(0))) == (n, LongLong(low, 0))
    ensures 0x1_0000_0000 <= n + low <= 0xFFFF_FFFF + |b| ==>
              TakeAll(b, 0, junk) == if n + low == 0xFFFF_FFFF + |b|
                                     then All([Atom(10, 1 + n, (1 + n + low) % 0x1_0000_0000)]) else Lost
    ensures |b| - 1 < n && n + low < 0x1_0000_0000 ==> TakeAll(b, 0, junk) == Refused(0)
  {
    hide *;
    TagNumbers();
    TakeStep(b, 0, junk);
    LendRecord(b, junk(0), 1, LongLong(10, 0), n, LongLong(low, 0));
    assert Signed32(10) == 10 by { SignedSmall(10); }
  }

  lemma SignedSmall(n: u32)
    requires n < 0x8000_0000
    ensures Signed32(n) == n
  {
  }

  /** What is taken of a length-delimited record at the beginning of a message. */
  lemma LendRecord(b: seq<byte>, tail: Tail, len: nat, tag: LongLong, n: nat, v: LongLong)
    requires |b| < 0x8000_0000 && ReadVarint(b) == Some((len, tag)) && tag.hi == 0 && tag.low % 8 == WT_LEND
    requires len <= |b| && Scratched(b[len..], Copied(b, tail)) == (n, v)
    ensures v.hi == 0 && 0x1_0000_0000 <= n + v.low <= 0x1_0000_0000 + |b| - len ==>
              TakeRecord(b, 0, tail)
              == Some((Atom(Signed32(tag.low), len + n, (len + n + v.low) % 0x1_0000_0000), len + n + v.low))
    ensures |b| - len < n && (v.hi != 0 || n + v.low < 0x1_0000_0000 || n + v.low > 0x1_0000_0000 + |b| - len) ==>
              TakeRecord(b, 0, tail) == None
  {
    hide *;
    var body := b[len..];
    ScratchedReads(body, Copied(b, tail));
    Away(b, tail, len, tag, n, v);
    if ReadVarint(body) == None { TooLong(b, 0, len, tag); }
    if !RunsAway(b, tail) { OtherwiseParsed(b, 0, tail); }
  }

  lemma Away(b: seq<byte>, tail: Tail, len: nat, tag: LongLong, n: nat, v: LongLong)
    requires |b| < 0x8000_0000 && ReadVarint(b) == Some((len, tag)) && tag.hi == 0 && tag.low % 8 == WT_LEND
    requires len <= |b| && Scratched(b[len..], Copied(b, tail)) == (n, v)
    ensures RunsAway(b, tail) <==> v.hi == 0 && 0x1_0000_0000 <= n + v.low <= 0x1_0000_0000 + |b| - len
    ensures RunsAway(b, tail) ==>
              TakeRecord(b, 0, tail)
              == Some((Atom(Signed32(tag.low), len + n, (len + n + v.low) % 0x1_0000_0000), len + n + v.low))
  {
    hide ReadVarint;
    hide Scratched;
    hide Copied;
  }

  /** A length just below 2^32 takes five bytes. */
  lemma FiveBytes(x: byte, m: seq<byte>)
    requires 0x80 <= x && |m| >= 10 && m[..5] == [x, 0xFF, 0xFF, 0xFF, 0x0F]
    ensures Decoded(m) == (5, LongLong(0xFFFF_FF00 + x, 0))
  {
    var n := 0xFFFF_FF00 + x;
    VarintSteps(n);
    VarintSteps(0x1FF_FFFF);
    VarintSteps(0x3_FFFF);
    VarintSteps(0x7FF);
    VarintSteps(0xF);
    hide Varint;
    assert n / 0x80 == 0x1FF_FFFF && n % 0x80 == x - 0x80;
    assert Varint(n) == [x, 0xFF, 0xFF, 0xFF, 0x0F];
    assert m == Varint(n) + m[5..];
    DecodeEncoded(n, m[5..]);
  }

  /** A message that ends with a length cut short, 0A FB FF or 0A FD FF: it is refused, or the parser is
      lost, or one atom is taken, whose slice ends before it begins, as the scratch buffer has it. */
  lemma ScratchDecides(x: byte, junk: Junk)
    requires x == 0xFB || x == 0xFD
    ensures junk(0)[3..5] == [0xFF, 0x0F] ==>
              TakeAll([0x0A, x, 0xFF], 0, junk) == if x == 0xFD then All([Atom(10, 6, 3)]) else Lost
    ensures junk(0)[3] == 0 ==> TakeAll([0x0A, x, 0xFF], 0, junk) == Refused(0)
  {
    var b, tail := [0x0A, x, 0xFF], junk(0);
    TagAlone(b);
    assert b[1..] == [x, 0xFF];
    var m := Copied(b[1..], Copied(b, tail));
    assert m[..3] == [x, 0xFF, 0xFF] && m[3..] == tail[3..];
    if tail[3..5] == [0xFF, 0x0F] {
      assert m[3] == tail[3..][0] && m[4] == tail[3..][1] && tail[3..5][0] == tail[3] && tail[3..5][1] == tail[4];
      assert m[..5] == [x, 0xFF, 0xFF, 0xFF, 0x0F];
      FiveBytes(x, m);
      LengthTaken(b, junk, 5, 0xFFFF_FF00 + x);
    }
    if tail[3] == 0 {
      FourBytes(x, m);
      LengthTaken(b, junk, 4, 0x1F_FF80 + x - 0x80);
    }
  }

  lemma FourBytes(x: byte, m: seq<byte>)
    requires 0x80 <= x && |m| >= 10 && m[..3] == [x, 0xFF, 0xFF] && m[3] == 0
    ensures Decoded(m) == (4, LongLong(0x1F_FF80 + x - 0x80, 0))
  {
    assert m[..3][0] == m[0] && m[..3][1] == m[1] && m[..3][2] == m[2];
    LeadUnique(m[..10], 3);
    var b := m[..4];
    assert b == [x, 0xFF, 0xFF, 0];
    assert b[1..] == [0xFF, 0xFF, 0] && b[1..][1..] == [0xFF, 0] && b[1..][1..][1..] == [0];
    assert Groups([0]) == 0 && Groups([0xFF, 0]) == 0x7F && Groups([0xFF, 0xFF, 0]) == 0x3FFF;
    assert Groups(b) == 0x1F_FF80 + x - 0x80;
    hide Groups;
    hide Lead;
  }

  /** A message that is a length-delimited tag and nothing more. It is refused, whatever the scratch buffer
      holds, unless the tag takes all of the ten bytes, when the scratch buffer decides, or is FFFFFFFA in
      six bytes: one atom is taken of that message, whose slice ends before it begins. */
  lemma EndsWithTag(b: seq<byte>, junk: Junk)
    requires ReadVarint(b).Some? && ReadVarint(b).value.0 == |b|
    requires ReadVarint(b).value.1.hi == 0 && ReadVarint(b).value.1.low % 8 == WT_LEND
    ensures var tag := ReadVarint(b).value.1.low;
            var (n, v) := if |b| < 10 then (|b|, LongLong(tag, 0)) else Decoded(junk(0));
            TakeAll(b, 0, junk) == if v.hi == 0 && n + v.low == 0x1_0000_0000
                                   then All([Atom(Signed32(tag), |b| + n, |b|)]) else Refused(0)
    ensures |b| < 10 ==>
              TakeAll(b, 0, junk) == if |b| == 6 && ReadVarint(b).value.1.low == 0xFFFF_FFFA
                                     then All([Atom(-6, 12, 6)]) else Refused(0)
  {
    hide *;
    var tag := ReadVarint(b).value.1;
    TagThrough(b, junk(0));
    var (n, v) := Scratched(b[|b|..], Copied(b, junk(0)));
    TakeStep(b, 0, junk);
    LendRecord(b, junk(0), |b|, tag, n, v);
    assert WT_LEND == 2 && Signed32(0xFFFF_FFFA) == -6 by { TagNumbers(); }
  }

  lemma TagNumbers()
    ensures WT_LEND == 2 && Signed32(0xFFFF_FFFA) == -6
  {
  }

  /** What the scratch buffer holds behind a tag that is the whole message. */
  lemma TagThrough(b: seq<byte>, tail: Tail)
    requires ReadVarint(b).Some? && ReadVarint(b).value.0 == |b|
    ensures 0 < |b| <= 10
    ensures Scratched(b[|b|..], Copied(b, tail)) == if |b| < 10 then ReadVarint(b).value else Decoded(tail)
  {
    ScratchedReads(b, tail);
    assert b[|b|..] == [] && [] + Copied(b, tail)[0..] == Copied(b, tail);
    assert Scratched([], Copied(b, tail)) == Decoded(Copied(b, tail));
    hide ReadVarint;
    hide Decoded;
  }

  lemma SixBytes(junk: Junk)
    ensures TakeAll([0xFA, 0xFF, 0xFF, 0xFF, 0x8F, 0], 0, junk) == All([Atom(-6, 12, 6)])
    ensures Tame([0xFA, 0xFF, 0xFF, 0xFF, 0x8F, 0])
    ensures Taken([0xFA, 0xFF, 0xFF, 0xFF, 0x8F, 0]) == All([Atom(-6, 12, 6)])
  {
    var b: seq<byte> := [0xFA, 0xFF, 0xFF, 0xFF, 0x8F, 0];
    LeadUnique(b, 5);
    assert b[..6] == b;
    SixGroups(b);
    assert ReadVarint(b) == Some((6, LongLong(0xFFFF_FFFA, 0)));
    hide *;
    TagNumbers();
    forall j: Junk ensures TakeAll(b, 0, j) == All([Atom(-6, 12, 6)]) { EndsWithTag(b, j); }
    TameIs(b, All([Atom(-6, 12, 6)]));
  }

  lemma SixGroups(b: seq<byte>)
    requires b == [0xFA, 0xFF, 0xFF, 0xFF, 0x8F, 0]
    ensures Groups(b) == 0xFFFF_FFFA
  {
    var c: seq<byte> := [0xFF, 0xFF, 0x8F, 0];
    assert c[1..] == [0xFF, 0x8F, 0] && c[1..][1..] == [0x8F, 0] && c[1..][1..][1..] == [0];
    assert Groups([0]) == 0 && Groups([0x8F, 0]) == 0xF && Groups([0xFF, 0x8F, 0]) == 0x7FF;
    assert Groups(c) == 0x3_FFFF;
    assert b[1..] == [0xFF] + c && ([0xFF] + c)[1..] == c;
  }

  /** A length whose first byte is below 0x76, but for the continuation bit, does not wrap. */
  lemma NoWrap(b: seq<byte>, tail: Tail)
    requires b != [] && b[0] % 0x80 < 0x76
    ensures !LengthWraps(b, tail)
  {
    var m := if |b| >= 10 then b else Copied(b, tail);
    assert m[0] == b[0];
    LowGroup(m);
    hide Decoded;
  }

  lemma LowGroup(m: seq<byte>)
    requires |m| >= 10
    ensures var (n, v) := Decoded(m); v.low == 0 || v.low % 0x80 == m[0] % 0x80
  {
    var k := Lead(m[..10]);
    if k < 10 {
      var b := m[..k + 1];
      assert b[0] == m[0];
      CutLow(Groups(b), m[0] % 0x80, Groups(b[1..]));
      hide Cut64;
    }
  }

  lemma {:induction false} CutLow(n: nat, g: nat, q: nat)
    requires n == g + 0x80 * q && g < 0x80
    ensures Cut64(n).low % 0x80 == g
  {
    if n >= 0x1_0000_0000_0000_0000 {
      CutLow(n - 0x1_0000_0000_0000_0000, g, q - 0x200_0000_0000_0000);
    } else {
      var w := n % 0x1_0000_0000;
      assert n == n / 0x1_0000_0000 * 0x1_0000_0000 + w;
      assert w == g + 0x80 * (q - n / 0x1_0000_0000 * 0x200_0000);
    }
  }

  /** The first bad record of the message is not one whose length could wrap. */
  predicate PlainlyBad(bad: seq<byte>) {
    match ReadVarint(bad)
    case None => true
    case Some((len, tag)) =>
      || tag.hi != 0 || tag.low % 8 != WT_LEND
      || (len < |bad| && bad[len] % 0x80 < 0x76)
      || (len == |bad| < 10 && !(len == 6 && tag.low == 0xFFFF_FFFA))
  }

  /** Such a message is refused, whatever the scratch buffer holds. */
  lemma PlainlyRefused(b: seq<byte>)
    requires |b| < 0x8000_0000 && ParseAll(b, 0) == None && PlainlyBad(FirstBad(b, 0))
    ensures Tame(b) && Taken(b) == Refused(GoodRecords(b, 0))
  {
    hide *;
    var bad := FirstBad(b, 0);
    forall junk: Junk ensures !Astray(b, 0, junk) {
      FirstBadDecides(b, 0, junk);
      PlainlyStays(bad, junk(|b| - |bad|));
    }
    NeverAstrayIsTame(b);
    FormattedIs(b);
  }

  lemma PlainlyStays(bad: seq<byte>, tail: Tail)
    requires PlainlyBad(bad) && |bad| < 0x8000_0000
    ensures !RunsAway(bad, tail)
  {
    if ReadVarint(bad).Some? {
      var (len, tag) := ReadVarint(bad).value;
      if len < |bad| {
        if bad[len] % 0x80 < 0x76 { NoWrap(bad[len..], Copied(bad, tail)); }
      } else if tag.hi == 0 && tag.low % 8 == WT_LEND && len < 10 {
        EndsWithTag(bad, _ => tail);
        TakenWrongly(bad, 0, tail);
        TakeStep(bad, 0, _ => tail);
      }
    }
    hide ReadVarint;
    hide LengthWraps;
    hide Copied;
  }

  /** A message is a sequence of records and nothing else. */
  function ParseAll(b: seq<byte>, start: nat): (r: Option<seq<Atom>>)
    requires start + |b| < 0x8000_0000
    decreases |b|
  {
    if b == [] then Some([]) else
    match ParseRecord(b, start)
    case None => None
    case Some((a, n)) =>
      match ParseAll(b[n..], start + n)
      case None => None
      case Some(rest) => Some([a] + rest)
  }

  /** How many records are good before the first bad one. */
  function GoodRecords(b: seq<byte>, start: nat): nat
    requires start + |b| < 0x8000_0000
    decreases |b|
  {
    if b == [] then 0 else
    match ParseRecord(b, start)
    case None => 0
    case Some((_, n)) => 1 + GoodRecords(b[n..], start + n)
  }

  lemma {:induction false} GoodRecordsCountsAll(b: seq<byte>, start: nat)
    requires start + |b| < 0x8000_0000
    ensures ParseAll(b, start).Some? ==> |ParseAll(b, start).value| == GoodRecords(b, start)
    ensures ParseAll(b, start).Some? && b != [] ==> GoodRecords(b, start) > 0
    decreases |b|
  {
    hide ParseRecord;
    if b != [] && ParseRecord(b, start).Some? {
      var n := ParseRecord(b, start).value.1;
      GoodRecordsCountsAll(b[n..], start + n);
    }
  }

  lemma RecordSliceInside(b: seq<byte>, start: nat)
    requires start + |b| < 0x8000_0000 && ParseRecord(b, start).Some?
    ensures var (a, n) := ParseRecord(b, start).value;
            a.WireType() == WT_LEND ==> a.SliceIn(start + 2, start + n)
  {
    hide ReadVarint;
  }

  /** Every slice of an accepted message lies inside the message and is shorter than it by
      at least the two bytes of its own tag and length. */
  lemma {:induction false} SlicesInside(b: seq<byte>, start: nat, k: nat)
    requires start + |b| < 0x8000_0000
    requires ParseAll(b, start).Some? && k < |ParseAll(b, start).value|
    ensures var a := ParseAll(b, start).value[k];
            a.WireType() == WT_LEND ==> a.SliceIn(start + 2, start + |b|)
    decreases |b|
  {
    hide ParseRecord;
    var (a, n) := ParseRecord(b, start).value;
    RecordSliceInside(b, start);
    if k > 0 { SlicesInside(b[n..], start + n, k - 1); }
  }

  /** The atoms of a message with the bytes `b` have their slices inside it. */
  predicate Inside(a: Atom, b: seq<byte>) { a.WireType() == WT_LEND ==> a.SliceIn(2, |b|) }

  predicate AllInside(atoms: seq<Atom>, b: seq<byte>) { forall a :: a in atoms ==> Inside(a, b) }

  lemma ParsedInside(b: seq<byte>, atoms: seq<Atom>)
    requires |b| < 0x8000_0000 && ParseAll(b, 0) == Some(atoms)
    ensures AllInside(atoms, b)
  {
    hide ParseAll;
    forall a | a in atoms ensures Inside(a, b) {
      var k: nat :| k < |atoms| && atoms[k] == a;
      SlicesInside(b, 0, k);
    }
  }

  /** Where record `k` begins, as long as the records before it are good. */
  function Offset(b: seq<byte>, start: nat, k: nat): (n: nat)
    requires start + |b| < 0x8000_0000
    ensures n <= |b|
    decreases k
  {
    if k == 0 then 0
    else match ParseRecord(b, start)
         case None => 0
         case Some((_, n)) => n + Offset(b[n..], start + n, k - 1)
  }

  lemma RestParsed(b: seq<byte>, start: nat)
    requires start + |b| < 0x8000_0000 && ParseAll(b, start).Some? && b != []
    ensures ParseRecord(b, start).Some?
    ensures ParseAll(b[ParseRecord(b, start).value.1..], start + ParseRecord(b, start).value.1).Some?
    ensures ParseAll(b, start).value == [ParseRecord(b, start).value.0]
            + ParseAll(b[ParseRecord(b, start).value.1..], start + ParseRecord(b, start).value.1).value
  {
    hide ParseRecord;
  }

  lemma OffsetSteps(b: seq<byte>, start: nat, k: nat)
    requires start + |b| < 0x8000_0000 && ParseRecord(b, start).Some?
    ensures Offset(b, start, 0) == 0
    ensures var n := ParseRecord(b, start).value.1;
            Offset(b, start, k + 1) == n + Offset(b[n..], start + n, k)
  {
    hide ParseRecord;
  }

  /** Accepted records tile the message: each begins where the one before ends, and the last ends
      where the message ends. */
  lemma {:induction false} RecordsTile(b: seq<byte>, start: nat, k: nat)
    requires start + |b| < 0x8000_0000 && ParseAll(b, start).Some? && k <= |ParseAll(b, start).value|
    ensures var atoms := ParseAll(b, start).value;
            if k == |atoms| then Offset(b, start, k) == |b|
            else
              var at, end := Offset(b, start, k), Offset(b, start, k + 1);
              at + 2 <= end && ParseRecord(b[at..], start + at) == Some((atoms[k], end - at))
    decreases k
  {
    hide *;
    if b != [] {
      RestParsed(b, start);
      var (a, n) := ParseRecord(b, start).value;
      OffsetSteps(b, start, k);
      if k > 0 {
        OffsetSteps(b, start, k - 1);
        RecordsTile(b[n..], start + n, k - 1);
        var at := Offset(b[n..], start + n, k - 1);
        assert b[n..][at..] == b[n + at..];
      } else {
        OffsetSteps(b, start, 0);
        FirstOffset(b[n..], start + n);
        assert b[0..] == b;
      }
    } else {
      FirstOffset(b, start);
      NothingParsed(start);
    }
  }

  lemma FirstOffset(b: seq<byte>, start: nat)
    requires start + |b| < 0x8000_0000
    ensures Offset(b, start, 0) == 0
  {
  }

  lemma NothingParsed(start: nat)
    requires start < 0x8000_0000
    ensures ParseAll([], start) == Some([])
  {
  }

  // ----- records as values --------------------------------------------------------

  datatype Payload =
    | VarintValue(n: u64)
    | Fixed64Value(w: LongLong)
    | Fixed32Value(word: u32)
    | Bytes(b: seq<byte>)

  /** A field id with what is stored under it. */
  datatype Record = Record(id: nat, payload: Payload) {
    /** Ids whose tag fits an int, and lengths that fit one. */
    predicate Valid() { id < 0x1000_0000 && (payload.Bytes? ==> |payload.b| < 0x8000_0000) }
  }

  function WireTypeOf(p: Payload): nat {
    match p
    case VarintValue(_) => WT_VARINT
    case Fixed64Value(_) => WT_BIT64
    case Fixed32Value(_) => WT_BIT32
    case Bytes(_) => WT_LEND
  }

  function Tag(r: Record): nat { 8 * r.id + WireTypeOf(r.payload) }

  function PayloadBytes(p: Payload): seq<byte> {
    match p
    case VarintValue(n) => Varint(n)
    case Fixed64Value(w) => Bytes64(w)
    case Fixed32Value(n) => Bytes32(n)
    case Bytes(b) => Varint(|b|) + b
  }

  function RecordBytes(r: Record): (b: seq<byte>) {
    Varint(Tag(r)) + PayloadBytes(r.payload)
  }

  function Encode(rs: seq<Record>): seq<byte> {
    if rs == [] then [] else RecordBytes(rs[0]) + Encode(rs[1..])
  }

  /** The atom that the parser makes of a record found at `start`. */
  function AtomOf(r: Record, start: nat): Atom
    requires r.Valid() && start + |RecordBytes(r)| < 0x8000_0000
  {
    var at := start + |Varint(Tag(r))|;
    match r.payload
    case VarintValue(n) => Atom(Tag(r), Halves(n).low, Halves(n).hi)
    case Fixed64Value(w) => Atom(Tag(r), w.low, w.hi)
    case Fixed32Value(n) => Atom(Tag(r), n, 0)
    case Bytes(b) => Atom(Tag(r), at + |Varint(|b|)|, at + |Varint(|b|)| + |b|)
  }

  predicate AllValid(rs: seq<Record>) { forall r :: r in rs ==> r.Valid() }

  function AtomsOf(rs: seq<Record>, start: nat): (atoms: seq<Atom>)
    requires AllValid(rs) && start + |Encode(rs)| < 0x8000_0000
    ensures |atoms| == |rs|
  {
    if rs == [] then [] else
    [AtomOf(rs[0], start)] + AtomsOf(rs[1..], start + |RecordBytes(rs[0])|)
  }

  // ----- the format in numerals -----------------------------------------------------

  /** The bytes of a record: eight times the id, and 0 for a varint, 1 for eight bytes, 2 for a length and
      bytes, 5 for four bytes; words come with the lowest byte first. */
  lemma RecordInNumerals(r: Record)
    requires r.Valid()
    ensures match r.payload
            case VarintValue(n) => RecordBytes(r) == Varint(8 * r.id) + Varint(n)
            case Fixed64Value(w) =>
              RecordBytes(r) == Varint(8 * r.id + 1)
                + [w.low % 0x100, w.low / 0x100 % 0x100, w.low / 0x1_0000 % 0x100, w.low / 0x100_0000 % 0x100]
                + [w.hi % 0x100, w.hi / 0x100 % 0x100, w.hi / 0x1_0000 % 0x100, w.hi / 0x100_0000 % 0x100]
            case Fixed32Value(n) =>
              RecordBytes(r) == Varint(8 * r.id + 5)
                + [n % 0x100, n / 0x100 % 0x100, n / 0x1_0000 % 0x100, n / 0x100_0000 % 0x100]
            case Bytes(b) => RecordBytes(r) == Varint(8 * r.id + 2) + Varint(|b|) + b
  {
    hide Varint;
    match r.payload {
      case VarintValue(_) =>
      case Fixed64Value(w) =>
        BytesInNumerals(w.low);
        BytesInNumerals(w.hi);
        hide Bytes32;
      case Fixed32Value(n) =>
        BytesInNumerals(n);
        hide Bytes32;
      case Bytes(_) =>
    }
  }

  lemma BytesInNumerals(n: u32)
    ensures Bytes32(n) == [n % 0x100, n / 0x100 % 0x100, n / 0x1_0000 % 0x100, n / 0x100_0000 % 0x100]
  {
  }

  /** What the parser takes of one record, by its tag modulo eight: 0, 1, 2 and 5 are known, and
      3, 4, 6 and 7 are refused. */
  lemma TakenInNumerals(b: seq<byte>, start: nat, tail: Tail)
    requires start + |b| < 0x8000_0000
    ensures match ReadVarint(b)
            case None => TakeRecord(b, start, tail) == None
            case Some((len, tag)) =>
              var id, at := Signed32(tag.low), start + len;
              if tag.hi != 0 then TakeRecord(b, start, tail) == None
              else
                match tag.low % 8
                case 0 =>
                  TakeRecord(b, start, tail)
                  == (match ReadVarint(b[len..])
                      case None => None
                      case Some((n, v)) => Some((Atom(id, v.low, v.hi), len + n)))
                case 1 =>
                  TakeRecord(b, start, tail)
                  == (if |b| < len + 8 then None
                      else Some((Atom(id, Word32(b[len..len + 4]), Word32(b[len + 4..len + 8])), len + 8)))
                case 2 =>
                  !RunsAway(b, tail) ==>
                    TakeRecord(b, start, tail)
                    == (match ReadVarint(b[len..])
                        case None => None
                        case Some((n, v)) =>
                          if v.hi != 0 || |b| < len + n + v.low then None
                          else Some((Atom(id, at + n, at + n + v.low), len + n + v.low)))
                case 5 =>
                  TakeRecord(b, start, tail)
                  == (if |b| < len + 4 then None
                      else Some((Atom(id, Word32(b[len..len + 4]), 0), len + 4)))
                case _ => TakeRecord(b, start, tail) == None
    ensures RunsAway(b, tail) ==> ReadVarint(b).Some? && ReadVarint(b).value.1.low % 8 == 2
    ensures forall w: seq<byte> | |w| == 4 ::
              Word32(w) == w[0] as int + 0x100 * w[1] as int + 0x1_0000 * w[2] as int + 0x100_0000 * w[3] as int
  {
    hide ReadVarint;
    hide LengthWraps;
    hide Scratched;
    hide Copied;
    if ReadVarint(b).Some? {
      var (len, tag) := ReadVarint(b).value;
      SameKind(tag.low);
      TakenBody(Signed32(tag.low), b, len, start);
      hide ParseBody;
    }
  }

  lemma SameKind(n: u32)
    ensures Signed32(n) % 8 == n % 8
  {
  }

  lemma TakenBody(wireId: i32, b: seq<byte>, len: nat, start: nat)
    requires len <= |b| && start + |b| < 0x8000_0000
    ensures var r, at := ParseBody(wireId, b[len..], start + len, len), start + len;
            match wireId % 8
            case 0 =>
              r == (match ReadVarint(b[len..])
                    case None => None
                    case Some((n, v)) => Some((Atom(wireId, v.low, v.hi), len + n)))
            case 1 =>
              r == (if |b| < len + 8 then None
                    else Some((Atom(wireId, Word32(b[len..len + 4]), Word32(b[len + 4..len + 8])), len + 8)))
            case 2 =>
              r == (match ReadVarint(b[len..])
                    case None => None
                    case Some((n, v)) =>
                      if v.hi != 0 || |b| < len + n + v.low then None
                      else Some((Atom(wireId, at + n, at + n + v.low), len + n + v.low)))
            case 5 =>
              r == (if |b| < len + 4 then None
                    else Some((Atom(wireId, Word32(b[len..len + 4]), 0), len + 4)))
            case _ => r == None
  {
    hide ReadVarint;
    var rest := b[len..];
    if |rest| >= 8 { assert rest[..4] == b[len..len + 4] && rest[4..8] == b[len + 4..len + 8]; }
    if |rest| >= 4 { assert rest[..4] == b[len..len + 4]; }
  }

  // ----- parsing undoes encoding --------------------------------------------------

  lemma ReadTag(r: Record, tail: seq<byte>)
    requires r.Valid()
    ensures Tag(r) < 0x8000_0000
    ensures ReadVarint(RecordBytes(r) + tail) == Some((|Varint(Tag(r))|, LongLong(Tag(r), 0)))
  {
    hide ReadVarint;
    var t := Varint(Tag(r));
    ReadEncoded(Tag(r), PayloadBytes(r.payload) + tail);
    assert RecordBytes(r) + tail == t + (PayloadBytes(r.payload) + tail);
  }

  lemma ParseEncodedBody(r: Record, tail: seq<byte>, start: nat, used: nat)
    requires r.Valid() && used == |Varint(Tag(r))|
    requires start + |RecordBytes(r)| + |tail| < 0x8000_0000
    ensures ParseBody(Tag(r), PayloadBytes(r.payload) + tail, start + used, used)
         == Some((AtomOf(r, start), |RecordBytes(r)|))
  {
    hide ReadVarint;
    hide Varint;
    hide Word32;
    hide Bytes32;
    var b := PayloadBytes(r.payload) + tail;
    match r.payload {
      case VarintValue(n) => ReadEncoded(n, tail);
      case Fixed64Value(w) =>
        assert b[..4] == Bytes32(w.low) && b[4..8] == Bytes32(w.hi);
        WordOfBytes(w.low);
        WordOfBytes(w.hi);
      case Fixed32Value(n) =>
        assert b[..4] == Bytes32(n);
        WordOfBytes(n);
      case Bytes(p) =>
        ReadEncoded(|p|, p + tail);
        assert b == Varint(|p|) + (p + tail);
        SmallHalves(|p|);
    }
  }

  lemma SmallHalves(n: u32)
    ensures Halves(n) == LongLong(n, 0)
  {
  }

  lemma ParseEncoded(r: Record, tail: seq<byte>, start: nat)
    requires r.Valid() && start + |RecordBytes(r)| + |tail| < 0x8000_0000
    ensures ParseRecord(RecordBytes(r) + tail, start) == Some((AtomOf(r, start), |RecordBytes(r)|))
  {
    hide ReadVarint;
    hide ParseBody;
    hide PayloadBytes;
    hide AtomOf;
    hide Varint;
    var t := Varint(Tag(r));
    ReadTag(r, tail);
    assert (RecordBytes(r) + tail)[|t|..] == PayloadBytes(r.payload) + tail;
    ParseEncodedBody(r, tail, start, |t|);
  }

  /** The parser accepts what the writer produced and finds exactly the records written:
      same ids, wire types and numbers, in order. */
  lemma {:induction false} ParseEncodedAll(rs: seq<Record>, start: nat)
    requires AllValid(rs) && start + |Encode(rs)| < 0x8000_0000
    ensures ParseAll(Encode(rs), start) == Some(AtomsOf(rs, start))
  {
    hide ParseRecord;
    hide RecordBytes;
    hide AtomOf;
    if rs != [] {
      var n := |RecordBytes(rs[0])|;
      ParseEncoded(rs[0], Encode(rs[1..]), start);
      assert Encode(rs)[n..] == Encode(rs[1..]);
      ParseEncodedAll(rs[1..], start + n);
    }
  }

  lemma {:induction false} EncodeConcat(a: seq<Record>, b: seq<Record>)
    ensures Encode(a + b) == Encode(a) + Encode(b)
  {
    hide RecordBytes;
    if a == [] {
      assert a + b == b;
    } else {
      assert (a + b)[1..] == a[1..] + b;
      EncodeConcat(a[1..], b);
    }
  }

  /** Atom `a` carries the id, wire type and number of record `r`, and when `r` holds
      bytes, its slice of the message is those bytes. */
  predicate Matches(a: Atom, r: Record, message: seq<byte>) {
    && a.Id() == r.id && a.WireType() == WireTypeOf(r.payload)
    && match r.payload
       case VarintValue(n) => a.Number() == Halves(n)
       case Fixed64Value(w) => a.Number() == w
       case Fixed32Value(n) => a.Number() == LongLong(n, 0)
       case Bytes(b) => a.SliceIn(0, |message|) && message[a.low..a.hi] == b
  }

  lemma AtomOfMatches(r: Record, before: seq<byte>, after: seq<byte>)
    requires r.Valid() && |before| + |RecordBytes(r)| < 0x8000_0000
    ensures Matches(AtomOf(r, |before|), r, before + RecordBytes(r) + after)
  {
    hide Varint;
    hide Halves;
    if r.payload.Bytes? {
      var a := AtomOf(r, |before|);
      assert RecordBytes(r)[a.low - |before|..] == r.payload.b;
    }
  }

  lemma {:induction false} AtomsMatchRecords(rs: seq<Record>, before: seq<byte>, k: nat)
    requires AllValid(rs) && |before| + |Encode(rs)| < 0x8000_0000 && k < |rs|
    ensures Matches(AtomsOf(rs, |before|)[k], rs[k], before + Encode(rs))
  {
    hide RecordBytes;
    hide AtomOf;
    hide Matches;
    var head, rest := RecordBytes(rs[0]), Encode(rs[1..]);
    assert before + Encode(rs) == before + head + rest;
    if k > 0 {
      AtomsMatchRecords(rs[1..], before + head, k - 1);
    } else {
      AtomOfMatches(rs[0], before, rest);
    }
  }
}
