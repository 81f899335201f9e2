/** Unpacking a message into the members of a C struct, and how that undoes packing
    (lualib-src/pbc/src/pattern.c). */
module PatternTrips {
  import opened Words
  import opened Varints
  import opened Wire
  import opened Contexts
  import opened Schemas
  import opened Writers
  import opened PackedArrays
  import opened NumberTrips
  import opened Reals
  import opened Patterns

  // ----- one member -------------------------------------------------------------------------

  /** An atom together with the slice of the message that its words make, and the size of that. */
  datatype Datum = Datum(id: int, wt: nat, number: LongLong, bytes: seq<byte>, size: int)

  function DatumOf(a: Atom, b: seq<byte>): Datum {
    Datum(a.Id(), a.WireType(), a.Number(), SliceOf(b, a.Start(), a.Size()), a.Size())
  }

  /** Memory of the kind that the field is unpacked into. */
  predicate OutFits(pf: PatternField, slot: Slot) {
    && (IsText(pf.ptype) || IsNumber(pf.ptype))
    && match pf.ctype
       case CArray => slot.Array?
       case CPacked => slot.Array? && IsNumber(pf.ptype)
       case CVar => slot.Single? && IsText(pf.ptype)
       case _ => slot.Scalar? && slot.n < Limit(pf.ctype) && IsNumber(pf.ptype) && pf.ctype in ScalarTypes(pf.ptype)
  }

  predicate AllOut(pat: seq<PatternField>, slots: seq<Slot>) {
    |slots| == |pat| && forall k :: 0 <= k < |pat| ==> OutFits(pat[k], slots[k])
  }

  /** `write_longlong` and `write_real`; of an int16 only the low byte is written. */
  function Store(ctype: CType, v: LongLong, was: u64): u64 {
    match ctype
    case CInt32 => v.low
    case CBool => if v.low != 0 then 1 else 0
    case CInt8 => v.low % 0x100
    case CInt16 => was / 0x100 * 0x100 + v.low % 0x100
    case CFloat => Narrow(v)
    case _ => Join(v)
  }

  /** `unpack_field` for a `union _pbc_var`. */
  function ReadVar(ptype: PType, d: Datum): Option<Var> {
    if IsText(ptype) then (if d.wt == WT_LEND then Some(Text(Some(d.bytes), |d.bytes|)) else None)
    else if ptype == SInt64 && d.wt != WT_LEND then None
    else Some(Number(Raw(ptype, d.number)))
  }

  function Vars(s: seq<LongLong>): (r: seq<Var>)
    ensures |r| == |s| && forall k :: 0 <= k < |s| ==> r[k] == Number(s[k])
  {
    seq(|s|, k requires 0 <= k < |s| => Number(s[k]))
  }

  /** `unpack_field`: the new contents of a member, `None` for an error. */
  function UnpackOne(pf: PatternField, d: Datum, slot: Slot): (r: Option<Slot>)
    requires OutFits(pf, slot)
    ensures r.Some? ==> OutFits(pf, r.value)
  {
    match pf.ctype
    case CPacked =>
      if CountOf(pf.ptype, d.bytes, d.size) < 0 then None
      else Some(Array(slot.items + Vars(Unpacked(pf.ptype, d.bytes))))
    case CArray =>
      (match ReadVar(pf.ptype, d) case None => None case Some(v) => Some(Array(slot.items + [v])))
    case CVar =>
      (match ReadVar(pf.ptype, d) case None => None case Some(v) => Some(Single(v)))
    case _ =>
      match ReadVar(pf.ptype, d)
      case None => None
      case Some(v) => StoreFits(pf.ctype, v.v, slot.n); Some(Scalar(Store(pf.ctype, v.v, slot.n)))
  }

  lemma StoreFits(ctype: CType, v: LongLong, was: u64)
    requires was < Limit(ctype)
    ensures Store(ctype, v, was) < Limit(ctype)
  {
  }

  /** `set_default_v` for an integer member. */
  function DefaultNumber(pf: PatternField): (n: u64)
    ensures n < Limit(pf.ctype)
  {
    match pf.ctype
    case CInt32 => pf.default.low
    case CBool => if pf.default.low != 0 then 1 else 0
    case CInt8 => pf.default.low % 0x100
    case CInt16 => pf.default.low % 0x1_0000
    case CFloat => Narrow(pf.default)
    case _ => Join(pf.default)
  }

  /** The default of a string, bytes or message member. The source has no default but the empty one for bytes,
      and makes NULL of another; of a message it sets the pointer only. */
  function DefaultSlice(pf: PatternField): (v: Var)
    ensures v.Text?
  {
    match pf.ptype
    case String => Text(Some(pf.defaultText), |pf.defaultText|)
    case Bytes => Text(if pf.defaultText == [] then Some([]) else None, 0)
    case _ => Text(None, pf.defaultLen)
  }

  /** `_pattern_set_default` */
  function Default(pf: PatternField, slot: Slot): (r: Slot)
    requires OutFits(pf, slot)
    ensures OutFits(pf, r)
  {
    match pf.ctype
    case CArray => Array([])
    case CPacked => Array([])
    case CVar => Single(DefaultSlice(pf))
    case _ => Scalar(DefaultNumber(pf))
  }

  // ----- the whole struct, one atom after the other ---------------------------------------------

  /** The ids are in strictly ascending order. */
  predicate Sorted(pat: seq<PatternField>) { forall j, k :: 0 <= j < k < |pat| ==> pat[j].id < pat[k].id }

  /** Where a field with the given id stands. */
  function Place(pat: seq<PatternField>, id: int): (r: Option<nat>)
    ensures r.Some? ==> r.value < |pat| && pat[r.value].id == id
    ensures r.None? ==> forall k :: 0 <= k < |pat| ==> pat[k].id != id
  {
    if pat == [] then None
    else if pat[|pat| - 1].id == id then Some(|pat| - 1)
    else Place(pat[..|pat| - 1], id)
  }

  /** The members so far, which of them have been seen, and how many atoms have been read; or the
      atom that could not be unpacked. */
  datatype State = Good(slots: seq<Slot>, seen: seq<bool>, read: nat) | Bad(at: nat)

  ghost predicate StateFits(pat: seq<PatternField>, st: State) {
    st.Good? ==> AllOut(pat, st.slots) && |st.seen| == |pat|
  }

  /** An array is emptied when its field is first seen. */
  function Opened(pf: PatternField, slot: Slot, seen: bool): Slot {
    if !seen && (pf.ctype == CArray || pf.ctype == CPacked) then Array([]) else slot
  }

  function Feed(pat: seq<PatternField>, st: State, d: Datum): (r: State)
    requires StateFits(pat, st)
    ensures StateFits(pat, r)
  {
    if st.Bad? then st
    else
      match Place(pat, d.id)
      case None => st.(read := st.read + 1)
      case Some(k) =>
        match UnpackOne(pat[k], d, Opened(pat[k], st.slots[k], st.seen[k]))
        case None => Bad(st.read)
        case Some(slot) => Good(st.slots[k := slot], st.seen[k := true], st.read + 1)
  }

  function Run(pat: seq<PatternField>, st: State, ds: seq<Datum>): (r: State)
    requires StateFits(pat, st)
    ensures StateFits(pat, r)
  {
    if ds == [] then st else Feed(pat, Run(pat, st, ds[..|ds| - 1]), ds[|ds| - 1])
  }

  function Data(b: seq<byte>, atoms: seq<Atom>): (r: seq<Datum>)
    ensures |r| == |atoms| && forall k :: 0 <= k < |atoms| ==> r[k] == DatumOf(atoms[k], b)
  {
    seq(|atoms|, k requires 0 <= k < |atoms| => DatumOf(atoms[k], b))
  }

  function Start(pat: seq<PatternField>, slots: seq<Slot>): State { Good(slots, seq(|pat|, _ => false), 0) }

  /** Members never seen get their defaults. */
  function Finished(pat: seq<PatternField>, slots: seq<Slot>, seen: seq<bool>): (r: seq<Slot>)
    requires AllOut(pat, slots) && |seen| == |pat|
    ensures |r| == |pat|
    ensures forall k :: 0 <= k < |pat| ==> r[k] == if seen[k] then slots[k] else Default(pat[k], slots[k])
  {
    seq(|pat|, k requires 0 <= k < |pat| => if seen[k] then slots[k] else Default(pat[k], slots[k]))
  }

  /** The message may be handed to the unpacker: what comes of it does not hang on the scratch buffer, the
      parser is not lost, and all that is read of packed fields is there. */
  ghost predicate SafeToUnpack(pat: seq<PatternField>, b: seq<byte>, beyond: seq<byte>)
    requires |b| < 0x8000_0000
  {
    Tame(b) && (Taken(b).All? ==> forall a <- Taken(b).atoms :: AtomSafe(pat, a, b, beyond))
  }

  /** A packed field in the atom can be read, and a text in it lies in the message. */
  predicate AtomSafe(pat: seq<PatternField>, a: Atom, b: seq<byte>, beyond: seq<byte>) {
    forall k :: 0 <= k < |pat| && pat[k].id == a.Id() ==>
      if pat[k].ctype == CPacked then PackedSafe(pat[k].ptype, a, b, beyond)
      else IsText(pat[k].ptype) ==> Inside(a, b)
  }

  /** A message that is plainly bad may be handed to the unpacker, which refuses it. */
  lemma RefusedSafely(pat: seq<PatternField>, b: seq<byte>, beyond: seq<byte>, was: seq<Slot>, now: seq<Slot>, r: int)
    requires |b| < 0x8000_0000 && ParseAll(b, 0) == None && PlainlyBad(FirstBad(b, 0)) && AllOut(pat, was)
    ensures SafeToUnpack(pat, b, beyond)
    ensures UnpackResult(pat, b, was, now, r) <==> r == -(GoodRecords(b, 0) as int) - 1
  {
    PlainlyRefused(b);
    hide Tame;
    hide Taken;
    hide PlainlyBad;
    hide ParseAll;
    hide FirstBad;
    hide AllOut;
  }

  /** `bsearch_pattern` */
  method Search(pat: seq<PatternField>, id: int) returns (r: Option<nat>)
    requires Sorted(pat)
    ensures r == Place(pat, id)
  {
    var begin, end := 0, |pat|;
    while begin < end
      invariant 0 <= begin <= end <= |pat|
      invariant forall k :: 0 <= k < begin ==> pat[k].id < id
      invariant forall k :: end <= k < |pat| ==> id < pat[k].id
    {
      var mid := (begin + end) / 2;
      if id == pat[mid].id { return Some(mid); }
      if id < pat[mid].id {
        end := mid;
      } else {
        begin := mid + 1;
      }
    }
    r := None;
  }

  /** `unpack_field` */
  method UnpackField(pf: PatternField, a: Atom, b: seq<byte>, beyond: seq<byte>, slot: Slot) returns (r: Option<Slot>)
    requires |b| < 0x8000_0000 && OutFits(pf, slot)
    requires if pf.ctype == CPacked then PackedSafe(pf.ptype, a, b, beyond) else IsText(pf.ptype) ==> Inside(a, b)
    ensures r == UnpackOne(pf, DatumOf(a, b), slot)
  {
    hide Unpacked;
    hide CountOf;
    hide Raw;
    hide SliceOf;
    hide PackedSafe;
    if pf.ctype == CPacked {
      SafeIsReadable(pf.ptype, a, b, beyond);
      var n, numbers := UnpackPacked(b + beyond, a.Start(), a.Size(), pf.ptype, []);
      var bytes := SliceOf(b, a.Start(), a.Size());
      assert [] + Unpacked(pf.ptype, bytes) == Unpacked(pf.ptype, bytes);
      if n < 0 { return None; }
      return Some(Array(slot.items + Vars(numbers)));
    }
    var v := ReadVar(pf.ptype, DatumOf(a, b));
    if v == None { return None; }
    if pf.ctype == CArray { return Some(Array(slot.items + [v.value])); }
    if pf.ctype == CVar { return Some(Single(v.value)); }
    StoreFits(pf.ctype, v.value.v, slot.n);
    r := Some(Scalar(Store(pf.ctype, v.value.v, slot.n)));
  }

  function Count(s: seq<bool>): (n: nat)
    ensures n <= |s|
  {
    if s == [] then 0 else Count(s[..|s| - 1]) + if s[|s| - 1] then 1 else 0
  }

  lemma {:induction false} CountSet(s: seq<bool>, k: nat)
    requires k < |s| && !s[k]
    ensures Count(s[k := true]) == Count(s) + 1
  {
    var n := |s| - 1;
    if k < n {
      CountSet(s[..n], k);
      assert s[k := true][..n] == s[..n][k := true];
    } else {
      assert s[k := true][..n] == s[..n];
    }
  }

  lemma {:induction false} CountAll(s: seq<bool>, k: nat)
    requires Count(s) == |s| && k < |s|
    ensures s[k]
  {
    if k < |s| - 1 { CountAll(s[..|s| - 1], k); }
  }

  lemma {:induction false} CountNone(n: nat)
    ensures Count(seq(n, _ => false)) == 0
  {
    if n > 0 {
      var s := seq(n, _ => false);
      assert s[..n - 1] == seq(n - 1, _ => false);
      CountNone(n - 1);
    }
  }

  /** The end of an unpacking: the first atom that could not be unpacked is in the result, or the
      members are filled in. */
  ghost predicate Ended(pat: seq<PatternField>, st: State, now: seq<Slot>, r: int) {
    && StateFits(pat, st)
    && if st.Bad? then r == -(st.at as int) - 1 else r == 0 && now == Finished(pat, st.slots, st.seen)
  }

  /** What the members are after an unpacking that succeeds, and what the call returns. */
  ghost predicate UnpackResult(pat: seq<PatternField>, b: seq<byte>, was: seq<Slot>, now: seq<Slot>, r: int)
    requires |b| < 0x8000_0000 && AllOut(pat, was)
  {
    match Taken(b)
    case Lost => false
    case Refused(good) => r == -(good as int) - 1
    case All(atoms) => Ended(pat, Run(pat, Start(pat, was), Data(b, atoms)), now, r)
  }

  /** The loop over the atoms; `fc` counts the fields seen. */
  method ReadAtoms(pat: seq<PatternField>, b: seq<byte>, ctx: Context, ghost atoms: seq<Atom>,
                   field: array<bool>, out: array<Slot>, beyond: seq<byte>) returns (r: int, fc: nat)
    requires Sorted(pat) && AllOut(pat, out[..]) && |b| < 0x8000_0000
    requires ctx.a != null && ctx.number == |atoms| <= ctx.a.Length
             && ctx.a[..ctx.number] == atoms
    requires forall a <- atoms :: AtomSafe(pat, a, b, beyond)
    requires field.Length == |pat| && field[..] == Start(pat, out[..]).seen
    modifies out, field
    ensures match Run(pat, Start(pat, old(out[..])), Data(b, atoms))
            case Bad(at) => r == -(at as int) - 1
            case Good(slots, seen, _) => r == 0 && out[..] == slots && field[..] == seen && fc == Count(seen)
  {
    hide *;
    ghost var start, data := Start(pat, out[..]), Data(b, atoms);
    StartIs(pat, out[..]);
    CountNone(|pat|);
    assert data[..0] == [];
    RunNone(pat, start);
    fc := 0;
    var i := 0;
    while i < ctx.number
      invariant 0 <= i <= ctx.number == |atoms| && ctx.a != null && |atoms| <= ctx.a.Length
      invariant ctx.a[..ctx.number] == atoms && AllOut(pat, out[..]) && field.Length == |pat|
      invariant Run(pat, start, data[..i]) == Good(out[..], field[..], i) && fc == Count(field[..])
    {
      var a := ctx.a[i];
      assert a == atoms[i];
      RunStep(pat, start, b, atoms, i, out[..], field[..]);
      var k := Search(pat, a.Id());
      if k.Some? {
        var ok, added := ReadAtom(pat, k.value, a, b, field, out, beyond, i);
        if !ok {
          BadStays(pat, start, data, i + 1);
          return -i - 1, fc;
        }
        fc := fc + added;
      }
      i := i + 1;
    }
    assert data[..i] == data;
    r := 0;
  }

  lemma RunStep(pat: seq<PatternField>, st: State, b: seq<byte>, atoms: seq<Atom>, i: nat, slots: seq<Slot>,
                seen: seq<bool>)
    requires StateFits(pat, st) && i < |atoms| && StateFits(pat, Good(slots, seen, i))
    requires Run(pat, st, Data(b, atoms)[..i]) == Good(slots, seen, i)
    ensures Run(pat, st, Data(b, atoms)[..i + 1]) == Feed(pat, Good(slots, seen, i), DatumOf(atoms[i], b))
    ensures Place(pat, atoms[i].Id()) == None ==>
              Feed(pat, Good(slots, seen, i), DatumOf(atoms[i], b)) == Good(slots, seen, i + 1)
  {
    hide *;
    var data := Data(b, atoms);
    RunOneMore(pat, st, data, i);
    FeedUnknown(pat, Good(slots, seen, i), DatumOf(atoms[i], b));
    IdOf(atoms[i], b);
  }

  lemma StartIs(pat: seq<PatternField>, slots: seq<Slot>)
    requires AllOut(pat, slots)
    ensures Start(pat, slots) == Good(slots, seq(|pat|, _ => false), 0) && StateFits(pat, Start(pat, slots))
    ensures |slots| == |pat|
  {
    hide OutFits;
  }

  lemma InsideOne(atoms: seq<Atom>, b: seq<byte>, i: nat)
    requires AllInside(atoms, b) && i < |atoms|
    ensures Inside(atoms[i], b)
  {
    hide Inside;
  }

  lemma IdOf(a: Atom, b: seq<byte>)
    ensures DatumOf(a, b).id == a.Id()
  {
  }

  lemma RunOneMore(pat: seq<PatternField>, st: State, ds: seq<Datum>, i: nat)
    requires StateFits(pat, st) && i < |ds|
    ensures Run(pat, st, ds[..i + 1]) == Feed(pat, Run(pat, st, ds[..i]), ds[i])
  {
    hide Feed;
    assert ds[..i + 1][..i] == ds[..i] && ds[..i + 1][i] == ds[i];
  }

  lemma FeedUnknown(pat: seq<PatternField>, st: State, d: Datum)
    requires StateFits(pat, st) && st.Good?
    ensures Place(pat, d.id) == None ==> Feed(pat, st, d) == Good(st.slots, st.seen, st.read + 1)
  {
    hide UnpackOne;
    hide StateFits;
  }

  /** One turn of the loop, for an atom whose field stands at `k`. */
  method ReadAtom(pat: seq<PatternField>, k: nat, a: Atom, b: seq<byte>, field: array<bool>, out: array<Slot>,
                  beyond: seq<byte>, ghost i: nat) returns (ok: bool, added: nat)
    requires AllOut(pat, out[..]) && |b| < 0x8000_0000
    requires k < |pat| == field.Length && Place(pat, a.Id()) == Some(k) && AtomSafe(pat, a, b, beyond)
    modifies out, field
    ensures ok ==>
              && AllOut(pat, out[..])
              && Feed(pat, Good(old(out[..]), old(field[..]), i), DatumOf(a, b)) == Good(out[..], field[..], i + 1)
              && Count(field[..]) == Count(old(field[..])) + added
    ensures !ok ==> Feed(pat, Good(old(out[..]), old(field[..]), i), DatumOf(a, b)) == Bad(i)
  {
    assert DatumOf(a, b).id == a.Id();
    hide UnpackOne;
    hide OutFits;
    hide DatumOf;
    ghost var slots, seen := out[..], field[..];
    assert OutFits(pat[k], slots[k]);
    added := 0;
    var pf := pat[k];
    OpenedFits(pf, slots[k], seen[k]);
    if !field[k] {
      CountSet(seen, k);
      field[k] := true;
      added := 1;
      if pf.ctype == CArray || pf.ctype == CPacked { out[k] := Array([]); }
    }
    assert field[..] == seen[k := true];
    assert out[k] == Opened(pf, slots[k], seen[k]);
    var slot := UnpackField(pf, a, b, beyond, out[k]);
    if slot == None { return false, added; }
    out[k] := slot.value;
    assert out[..] == slots[k := slot.value];
    assert seen[k] ==> seen[k := true] == seen;
    ok := true;
  }

  lemma OpenedFits(pf: PatternField, slot: Slot, seen: bool)
    requires OutFits(pf, slot)
    ensures OutFits(pf, Opened(pf, slot, seen))
  {
  }

  lemma {:induction false} BadStays(pat: seq<PatternField>, st: State, ds: seq<Datum>, n: nat)
    requires StateFits(pat, st) && n <= |ds| && Run(pat, st, ds[..n]).Bad?
    ensures Run(pat, st, ds) == Run(pat, st, ds[..n])
    decreases |ds| - n
  {
    hide Feed;
    if n < |ds| {
      assert ds[..n + 1][..n] == ds[..n];
      FeedBad(pat, Run(pat, st, ds[..n]), ds[n]);
      BadStays(pat, st, ds, n + 1);
    } else {
      assert ds[..n] == ds;
    }
  }

  lemma FeedBad(pat: seq<PatternField>, st: State, d: Datum)
    requires st.Bad?
    ensures Feed(pat, st, d) == st
  {
  }

  /** The first atom that fails decides: those before it went to their members, and it comes for a field of the
      struct whose member cannot take it. */
  lemma {:induction false} BadIsFirst(pat: seq<PatternField>, slots: seq<Slot>, ds: seq<Datum>)
    requires AllOut(pat, slots)
    ensures match Run(pat, Start(pat, slots), ds)
            case Good(now, seen, read) => read == |ds|
            case Bad(at) =>
              && at < |ds|
              && var st := Run(pat, Start(pat, slots), ds[..at]);
                 && st.Good? && AllOut(pat, st.slots) && |st.seen| == |pat|
                 && exists k :: 0 <= k < |pat| && pat[k].id == ds[at].id
                      && UnpackOne(pat[k], ds[at], Opened(pat[k], st.slots[k], st.seen[k])) == None
    decreases |ds|
  {
    hide UnpackOne;
    hide Opened;
    StartIs(pat, slots);
    if ds != [] {
      var n := |ds| - 1;
      BadIsFirst(pat, slots, ds[..n]);
      var st := Run(pat, Start(pat, slots), ds[..n]);
      if st.Bad? { assert ds[..n][..st.at] == ds[..st.at]; }
    }
    hide OutFits;
    hide Start;
  }

  /** The loop that fills in what the message did not mention. */
  method SetDefaults(pat: seq<PatternField>, field: array<bool>, out: array<Slot>)
    requires AllOut(pat, out[..]) && field.Length == |pat|
    modifies out
    ensures out[..] == Finished(pat, old(out[..]), field[..])
  {
    ghost var was := out[..];
    for i := 0 to |pat|
      invariant out.Length == |pat|
      invariant forall k :: 0 <= k < i ==> out[k] == if field[k] then was[k] else Default(pat[k], was[k])
      invariant forall k :: i <= k < |pat| ==> out[k] == was[k]
    {
      assert OutFits(pat[i], was[i]);
      if !field[i] { out[i] := Default(pat[i], out[i]); }
    }
  }

  /** `pbc_pattern_unpack` */
  method Unpack(pat: seq<PatternField>, b: seq<byte>, out: array<Slot>, beyond: seq<byte>) returns (r: int)
    requires Sorted(pat) && AllOut(pat, out[..]) && |b| < 0x8000_0000 && SafeToUnpack(pat, b, beyond)
    modifies out
    ensures UnpackResult(pat, b, old(out[..]), out[..], r)
  {
    hide *;
    ghost var was := out[..];
    var field := NoneSeen(pat, was);
    if b == [] {
      SetDefaults(pat, field, out);
      NothingRead(pat, was, out[..]);
      return 0;
    }
    var ctx := new Context();
    var junk: Junk := *;
    TameNow(pat, b, beyond, junk);
    var answer := ctx.Open(b, junk);
    var count := answer.value;
    if count <= 0 {
      Rejected(pat, b, was, out[..], count - 1);
      return count - 1;
    }
    ghost var atoms := Taken(b).atoms;
    ctx.HoldsIs(ctx.a, atoms);
    r := UnpackAtoms(pat, b, ctx, atoms, field, out, beyond);
    Unpacking(pat, b, atoms, was, out[..], r);
  }

  method NoneSeen(pat: seq<PatternField>, ghost slots: seq<Slot>) returns (field: array<bool>)
    ensures fresh(field) && field.Length == |pat| && field[..] == Start(pat, slots).seen
  {
    field := new bool[|pat|](_ => false);
  }

  /** What comes behind `_pbcC_open`. */
  method UnpackAtoms(pat: seq<PatternField>, b: seq<byte>, ctx: Context, ghost atoms: seq<Atom>,
                     field: array<bool>, out: array<Slot>, beyond: seq<byte>) returns (r: int)
    requires Sorted(pat) && AllOut(pat, out[..]) && |b| < 0x8000_0000
    requires ctx.a != null && ctx.number == |atoms| <= ctx.a.Length
             && ctx.a[..ctx.number] == atoms
    requires forall a <- atoms :: AtomSafe(pat, a, b, beyond)
    requires field.Length == |pat| && field[..] == Start(pat, out[..]).seen
    modifies out, field
    ensures StateFits(pat, Start(pat, old(out[..])))
    ensures Ended(pat, Run(pat, Start(pat, old(out[..])), Data(b, atoms)), out[..], r)
  {
    hide *;
    ghost var start := Start(pat, out[..]);
    StartIs(pat, out[..]);
    var fc;
    r, fc := ReadAtoms(pat, b, ctx, atoms, field, out, beyond);
    ghost var st := Run(pat, start, Data(b, atoms));
    OutcomeIs(pat, st, out[..], r);
    if r < 0 { return; }
    SlotsFit(pat, st);
    if fc != |pat| {
      SetDefaults(pat, field, out);
    } else {
      AllSeenAlready(pat, out[..], field[..]);
    }
    OutcomeIs(pat, st, out[..], r);
  }

  lemma OutcomeIs(pat: seq<PatternField>, st: State, now: seq<Slot>, r: int)
    requires StateFits(pat, st)
    ensures st.Bad? ==> (Ended(pat, st, now, r) <==> r == -(st.at as int) - 1)
    ensures st.Good? ==>
              && AllOut(pat, st.slots) && |st.seen| == |pat|
              && (Ended(pat, st, now, r) <==> r == 0 && now == Finished(pat, st.slots, st.seen))
  {
    hide AllOut;
    hide Finished;
  }

  lemma SlotsFit(pat: seq<PatternField>, st: State)
    requires StateFits(pat, st)
    ensures st.Good? ==> AllOut(pat, st.slots) && |st.seen| == |pat|
  {
    hide AllOut;
  }

  lemma Rejected(pat: seq<PatternField>, b: seq<byte>, was: seq<Slot>, now: seq<Slot>, r: int)
    requires |b| < 0x8000_0000 && AllOut(pat, was) && Taken(b).Refused? && r == -(Taken(b).good as int) - 1
    ensures UnpackResult(pat, b, was, now, r)
  {
    hide Taken;
    hide AllOut;
  }

  lemma Unpacking(pat: seq<PatternField>, b: seq<byte>, atoms: seq<Atom>, was: seq<Slot>, now: seq<Slot>, r: int)
    requires |b| < 0x8000_0000 && AllOut(pat, was) && Taken(b) == All(atoms)
    requires StateFits(pat, Start(pat, was)) && Ended(pat, Run(pat, Start(pat, was), Data(b, atoms)), now, r)
    ensures UnpackResult(pat, b, was, now, r)
  {
    hide Taken;
    hide AllOut;
    hide Ended;
    hide Run;
    hide Data;
    hide Start;
    hide StateFits;
  }

  lemma TameNow(pat: seq<PatternField>, b: seq<byte>, beyond: seq<byte>, junk: Junk)
    requires |b| < 0x8000_0000 && SafeToUnpack(pat, b, beyond)
    ensures TakeAll(b, 0, junk) == Taken(b) != Lost
    ensures Taken(b).All? ==> forall a <- Taken(b).atoms :: AtomSafe(pat, a, b, beyond)
  {
    hide TakeAll;
    hide Taken;
    hide AtomSafe;
  }

  lemma AllSeenAlready(pat: seq<PatternField>, slots: seq<Slot>, seen: seq<bool>)
    requires AllOut(pat, slots) && |seen| == |pat| == Count(seen)
    ensures Finished(pat, slots, seen) == slots
  {
    forall k | 0 <= k < |pat| ensures seen[k] { CountAll(seen, k); }
  }

  lemma NothingRead(pat: seq<PatternField>, was: seq<Slot>, now: seq<Slot>)
    requires AllOut(pat, was) && now == Finished(pat, was, Start(pat, was).seen)
    ensures UnpackResult(pat, [], was, now, 0)
  {
    assert Taken([]) == All([]);
    assert Data([], []) == [];
    hide Taken;
    hide TakeRecord;
  }

  // ----- unpacking undoes packing -------------------------------------------------------------

  function RecordDatum(r: Record): Datum {
    var bytes := if r.payload.Bytes? then r.payload.b else [];
    Datum(r.id, WireTypeOf(r.payload), PayloadNumber(r.payload), bytes, |bytes|)
  }

  function RecordData(rs: seq<Record>): (r: seq<Datum>)
    ensures |r| == |rs| && forall k :: 0 <= k < |rs| ==> r[k] == RecordDatum(rs[k])
  {
    seq(|rs|, k requires 0 <= k < |rs| => RecordDatum(rs[k]))
  }

  lemma {:induction false} RunConcat(pat: seq<PatternField>, st: State, a: seq<Datum>, b: seq<Datum>)
    requires StateFits(pat, st)
    ensures Run(pat, st, a + b) == Run(pat, Run(pat, st, a), b)
  {
    hide *;
    if b == [] {
      assert a + b == a;
      RunNone(pat, Run(pat, st, a));
    } else {
      var n := |b| - 1;
      RunConcat(pat, st, a, b[..n]);
      RunOneMore(pat, Run(pat, st, a), b, n);
      RunOneMore(pat, st, a + b, |a| + n);
      assert (a + b)[..|a| + n] == a + b[..n] && b[..n + 1] == b && (a + b)[..|a| + n + 1] == a + b;
    }
  }

  lemma RunNone(pat: seq<PatternField>, st: State)
    requires StateFits(pat, st)
    ensures Run(pat, st, []) == st
  {
  }

  /** A value of a member, seen by a reader. */
  function SeenVar(ptype: PType, v: Var): Var
    requires VarFits(ptype, v)
  {
    if IsText(ptype) then Text(Some(TextBytes(v)), |TextBytes(v)|) else Number(Seen(ptype, v.v))
  }

  function SeenVars(ptype: PType, items: seq<Var>): (r: seq<Var>)
    requires forall v <- items :: VarFits(ptype, v)
    ensures |r| == |items| && forall k :: 0 <= k < |items| ==> r[k] == SeenVar(ptype, items[k])
  {
    seq(|items|, k requires 0 <= k < |items| => SeenVar(ptype, items[k]))
  }

  /** What becomes of a member that is packed and unpacked again into memory that holds `out`;
      `None` when the unpacking fails. */
  function FieldBack(pf: PatternField, slot: Slot, out: Slot): Option<Slot>
    requires SlotFits(pf, slot) && OutFits(pf, out)
  {
    match pf.rule
    case Repeated =>
      if pf.ptype == SInt64 && slot.items != [] then None else Some(Array(SeenVars(pf.ptype, slot.items)))
    case Packed => Some(Array(Vars(AllSeen(Widened(pf.ptype), NumbersOf(slot.items)))))
    case _ =>
      if pf.rule == Optional && IsDefault(pf, slot) then Some(Default(pf, out))
      else if pf.ptype == SInt64 then None
      else if IsText(pf.ptype) then Some(Single(SeenVar(pf.ptype, slot.v)))
      else Some(Scalar(Store(pf.ctype, Seen(pf.ptype, Load(pf.ctype, slot.n)), out.n)))
  }

  /** The record of a value. */
  function VarRecord(pf: PatternField, v: Var): Record
    requires pf.id >= 0 && VarFits(pf.ptype, v) && (IsText(pf.ptype) || IsNumber(pf.ptype))
  {
    Record(pf.id, if IsText(pf.ptype) then Payload.Bytes(TextBytes(v)) else ValuePayload(pf.ptype, v.v).value)
  }

  lemma VarRecordIs(pf: PatternField, v: Var)
    requires pf.id >= 0 && VarFits(pf.ptype, v) && (IsText(pf.ptype) || IsNumber(pf.ptype))
    ensures VarRecords(pf, v) == [VarRecord(pf, v)]
  {
    hide TextBytes;
    hide CString;
  }

  /** One record of a value, fed to its field. */
  lemma VarFed(pf: PatternField, v: Var, slot: Slot)
    requires pf.id >= 0 && VarFits(pf.ptype, v) && OutFits(pf, slot) && pf.ctype != CPacked
    ensures UnpackOne(pf, RecordDatum(VarRecord(pf, v)), slot)
         == if pf.ptype == SInt64 then None
            else if pf.ctype == CArray then Some(Array(slot.items + [SeenVar(pf.ptype, v)]))
            else if pf.ctype == CVar then Some(Single(SeenVar(pf.ptype, v)))
            else Some(Scalar(Store(pf.ctype, Seen(pf.ptype, v.v), slot.n)))
  {
    if IsText(pf.ptype) {
      TextFed(pf, v, slot);
    } else {
      NumberFed(pf, v.v, slot);
    }
  }

  lemma TextFed(pf: PatternField, v: Var, slot: Slot)
    requires pf.id >= 0 && VarFits(pf.ptype, v) && OutFits(pf, slot) && IsText(pf.ptype)
    ensures UnpackOne(pf, RecordDatum(VarRecord(pf, v)), slot)
         == Some(if pf.ctype == CArray then Array(slot.items + [SeenVar(pf.ptype, v)])
                 else Single(SeenVar(pf.ptype, v)))
  {
    hide *;
    var d := RecordDatum(VarRecord(pf, v));
    TextRead(pf, v);
    ReadOne(pf, d, slot);
  }

  /** What is read of an atom goes to the array or to the slice. */
  lemma ReadOne(pf: PatternField, d: Datum, slot: Slot)
    requires OutFits(pf, slot) && IsText(pf.ptype) && ReadVar(pf.ptype, d).Some?
    ensures pf.ctype == CArray ==> slot.Array?
    ensures UnpackOne(pf, d, slot)
         == Some(if pf.ctype == CArray then Array(slot.items + [ReadVar(pf.ptype, d).value])
                 else Single(ReadVar(pf.ptype, d).value))
  {
    hide ReadVar;
    hide Store;
    hide CountOf;
    hide Unpacked;
  }

  lemma TextRead(pf: PatternField, v: Var)
    requires pf.id >= 0 && VarFits(pf.ptype, v) && IsText(pf.ptype)
    ensures ReadVar(pf.ptype, RecordDatum(VarRecord(pf, v))) == Some(SeenVar(pf.ptype, v))
  {
    hide TextBytes;
    hide CString;
    hide PayloadNumber;
    hide ValuePayload;
  }

  /** One number record, fed to its field. */
  lemma NumberFed(pf: PatternField, v: LongLong, slot: Slot)
    requires pf.id >= 0 && OutFits(pf, slot) && IsNumber(pf.ptype)
             && pf.ctype != CPacked && ValuePayload(pf.ptype, v).Some?
    ensures var d := RecordDatum(Record(pf.id, ValuePayload(pf.ptype, v).value));
            UnpackOne(pf, d, slot)
            == if pf.ptype == SInt64 then None
               else if pf.ctype == CArray then Some(Array(slot.items + [Number(Seen(pf.ptype, v))]))
               else Some(Scalar(Store(pf.ctype, Seen(pf.ptype, v), slot.n)))
  {
    ValueComesBack(pf.ptype, v);
    var p := ValuePayload(pf.ptype, v).value;
    assert WireTypeOf(p) != WT_LEND;
    hide ValuePayload;
    hide PayloadNumber;
    hide Raw;
    hide Seen;
    hide Store;
  }

  /** One packed record, fed to its field. */
  lemma PackedFed(pf: PatternField, data: seq<LongLong>, slot: Slot)
    requires pf.id >= 0 && OutFits(pf, slot) && IsNumber(pf.ptype) && pf.ctype == CPacked
    ensures var d := RecordDatum(Record(pf.id, Payload.Bytes(PatternPayload(pf.ptype, data))));
            UnpackOne(pf, d, slot) == Some(Array(slot.items + Vars(AllSeen(Widened(pf.ptype), data))))
  {
    PatternComesBack(pf.ptype, data);
    hide PatternPayload;
    hide Unpacked;
    hide UnpackedCount;
    hide AllSeen;
  }

  lemma PatternComesBack(ptype: PType, data: seq<LongLong>)
    requires IsNumber(ptype)
    ensures Unpacked(ptype, PatternPayload(ptype, data)) == AllSeen(Widened(ptype), data)
    ensures UnpackedCount(ptype, PatternPayload(ptype, data)) >= 0
  {
    var b := PatternPayload(ptype, data);
    PayloadIs(ptype, data);
    hide *;
    PackedComesBack(Widened(ptype), data);
    UnpackedWidened(ptype, b);
    if IsVarint(ptype) {
      WholePayload(Widened(ptype), data);
      CountIs(ptype, b);
    } else {
      FixedCount(ptype, data);
    }
  }

  lemma PayloadIs(ptype: PType, data: seq<LongLong>)
    requires IsNumber(ptype)
    ensures PatternPayload(ptype, data) == PackedPayload(Widened(ptype), data) && IsNumeric(Widened(ptype))
    ensures IsVarint(ptype) ==>
              IsVarint(Widened(ptype)) && PatternPayload(ptype, data) == VarintPayload(Widened(ptype), data)
  {
    hide VarintPayload;
    hide FixedPayload;
    hide NarrowPayload;
  }

  lemma UnpackedWidened(ptype: PType, b: seq<byte>)
    ensures Unpacked(ptype, b) == Unpacked(Widened(ptype), b)
  {
    hide VarintNumbers;
    hide FixedWords;
    SameNumbers(b);
  }

  lemma CountIs(ptype: PType, b: seq<byte>)
    requires IsVarint(ptype) && WholeVarints(b)
    ensures UnpackedCount(ptype, b) >= 0
  {
    hide WholeVarints;
    hide VarintNumbers;
  }

  lemma AlignedCount(ptype: PType, b: seq<byte>, n: nat)
    requires IsFixed64(ptype) || IsFixed32(ptype)
    requires |b| == if IsFixed64(ptype) then n * 8 else n * 4
    ensures UnpackedCount(ptype, b) >= 0
  {
    hide VarintNumbers;
    hide FixedWords;
  }

  lemma FixedCount(ptype: PType, data: seq<LongLong>)
    requires IsNumber(ptype) && !IsVarint(ptype)
    ensures UnpackedCount(ptype, PatternPayload(ptype, data)) >= 0
  {
    KindOf(ptype);
    var width := if IsFixed64(ptype) then 8 else 4;
    FixedSize(ptype, width, data);
    hide PatternPayload;
    AlignedCount(ptype, PatternPayload(ptype, data), |data|);
  }

  lemma {:induction false} SameNumbers(b: seq<byte>)
    ensures VarintNumbers(Int32, b) == VarintNumbers(Int64, b)
    decreases |b|
  {
    hide ReadVarint;
    if b != [] && ReadVarint(b).Some? { SameNumbers(b[ReadVarint(b).value.0..]); }
  }

  lemma {:induction false} PlaceOf(pat: seq<PatternField>, k: nat)
    requires Sorted(pat) && k < |pat|
    ensures Place(pat, pat[k].id) == Some(k)
  {
    var r := Place(pat, pat[k].id);
    hide Place;
  }

  lemma FeedKnown(pat: seq<PatternField>, k: nat, st: State, d: Datum)
    requires Sorted(pat) && k < |pat| && d.id == pat[k].id && st.Good? && StateFits(pat, st)
    ensures OutFits(pat[k], Opened(pat[k], st.slots[k], st.seen[k]))
    ensures Feed(pat, st, d)
         == match UnpackOne(pat[k], d, Opened(pat[k], st.slots[k], st.seen[k]))
            case None => Bad(st.read)
            case Some(slot) => Good(st.slots[k := slot], st.seen[k := true], st.read + 1)
  {
    PlaceOf(pat, k);
    hide UnpackOne;
    hide Place;
    hide Sorted;
  }

  /** The values of a repeated field, fed one after the other. */
  lemma {:induction false} ItemsFed(pat: seq<PatternField>, k: nat, st: State, items: seq<Var>)
    requires Sorted(pat) && k < |pat| && st.Good? && StateFits(pat, st) && !st.seen[k]
    requires pat[k].id >= 0 && pat[k].ctype == CArray && (IsText(pat[k].ptype) || IsNumber(pat[k].ptype))
    requires forall v <- items :: VarFits(pat[k].ptype, v)
    requires items != []
    ensures |ItemRecords(pat[k], items)| == |items|
    ensures Run(pat, st, RecordData(ItemRecords(pat[k], items)))
         == if pat[k].ptype == SInt64 then Bad(st.read)
            else Good(st.slots[k := Array(SeenVars(pat[k].ptype, items))], st.seen[k := true], st.read + |items|)
  {
    hide *;
    var pf, n := pat[k], |items| - 1;
    ItemsSplit(pf, items);
    var rs, d := ItemRecords(pf, items[..n]), RecordDatum(VarRecord(pf, items[n]));
    var mid := Run(pat, st, RecordData(rs));
    RunOneMore(pat, st, RecordData(rs) + [d], |rs|);
    assert (RecordData(rs) + [d])[..|rs|] == RecordData(rs)
           && (RecordData(rs) + [d])[..|rs| + 1] == RecordData(rs) + [d];
    if n > 0 {
      ItemsFed(pat, k, st, items[..n]);
    } else {
      RunNone(pat, st);
      assert RecordData(rs) == [];
    }
    ItemFed(pat, k, st, mid, items, d);
  }

  lemma ItemsSplit(pf: PatternField, items: seq<Var>)
    requires pf.id >= 0 && (IsText(pf.ptype) || IsNumber(pf.ptype))
             && items != [] && forall v <- items :: VarFits(pf.ptype, v)
    ensures var n := |items| - 1;
            var r := VarRecord(pf, items[n]);
            && ItemRecords(pf, items) == ItemRecords(pf, items[..n]) + [r]
            && RecordData(ItemRecords(pf, items)) == RecordData(ItemRecords(pf, items[..n])) + [RecordDatum(r)]
            && RecordDatum(r).id == r.id == pf.id
    ensures |items| == 1 ==> ItemRecords(pf, items[..|items| - 1]) == []
  {
    hide *;
    var n := |items| - 1;
    var r := VarRecord(pf, items[n]);
    VarRecordIs(pf, items[n]);
    ItemsLast(pf, items);
    RecordDataConcat(ItemRecords(pf, items[..n]), [r]);
    assert RecordData([r]) == [RecordDatum(r)];
    DatumId(r);
    RecordId(pf, items[n]);
  }

  lemma ItemsLast(pf: PatternField, items: seq<Var>)
    requires pf.id >= 0 && items != [] && forall v <- items :: VarFits(pf.ptype, v)
    ensures var n := |items| - 1;
            && ItemRecords(pf, items) == ItemRecords(pf, items[..n]) + VarRecords(pf, items[n])
            && (n == 0 ==> ItemRecords(pf, items[..n]) == [])
  {
    hide VarRecords;
    hide VarFits;
  }

  lemma RecordDataConcat(a: seq<Record>, b: seq<Record>)
    ensures RecordData(a + b) == RecordData(a) + RecordData(b)
  {
    hide *;
  }

  lemma DatumId(r: Record)
    ensures RecordDatum(r).id == r.id
  {
  }

  lemma RecordId(pf: PatternField, v: Var)
    requires pf.id >= 0 && VarFits(pf.ptype, v) && (IsText(pf.ptype) || IsNumber(pf.ptype))
    ensures VarRecord(pf, v).id == pf.id
  {
  }

  lemma ItemFed(pat: seq<PatternField>, k: nat, st: State, mid: State, items: seq<Var>, d: Datum)
    requires Sorted(pat) && k < |pat| && st.Good? && StateFits(pat, st) && !st.seen[k] && StateFits(pat, mid)
    requires pat[k].id >= 0 && pat[k].ctype == CArray && (IsText(pat[k].ptype) || IsNumber(pat[k].ptype))
    requires items != [] && forall v <- items :: VarFits(pat[k].ptype, v)
    requires var pf, n := pat[k], |items| - 1;
      && d == RecordDatum(VarRecord(pf, items[n])) && d.id == pf.id
      && mid == if n == 0 then st
                else if pf.ptype == SInt64 then Bad(st.read)
                else Good(st.slots[k := Array(SeenVars(pf.ptype, items[..n]))], st.seen[k := true], st.read + n)
    ensures Feed(pat, mid, d)
         == if pat[k].ptype == SInt64 then Bad(st.read)
            else Good(st.slots[k := Array(SeenVars(pat[k].ptype, items))], st.seen[k := true], st.read + |items|)
  {
    var pf, n := pat[k], |items| - 1;
    hide *;
    if mid.Bad? {
      FeedBad(pat, mid, d);
    } else {
      var slot := Opened(pf, mid.slots[k], mid.seen[k]);
      OpenedArray(pf, mid.slots[k], mid.seen[k]);
      FeedKnown(pat, k, mid, d);
      VarFed(pf, items[n], slot);
      SeenMore(pf.ptype, items);
    }
  }

  lemma SeenMore(ptype: PType, items: seq<Var>)
    requires items != [] && forall v <- items :: VarFits(ptype, v)
    ensures var n := |items| - 1; SeenVars(ptype, items) == SeenVars(ptype, items[..n]) + [SeenVar(ptype, items[n])]
    ensures |items| == 1 ==> SeenVars(ptype, items[..0]) == [] && SeenVars(ptype, items) == [SeenVar(ptype, items[0])]
  {
    hide SeenVar;
    hide VarFits;
  }

  lemma OpenedArray(pf: PatternField, slot: Slot, seen: bool)
    requires pf.ctype == CArray
    ensures Opened(pf, slot, seen) == if seen then slot else Array([])
  {
  }

  /** All the records of a member, fed to the unpacker. */
  lemma MemberFed(pat: seq<PatternField>, k: nat, st: State, slot: Slot)
    requires Sorted(pat) && k < |pat| && st.Good? && StateFits(pat, st) && !st.seen[k]
    requires SlotFits(pat[k], slot)
    ensures OutFits(pat[k], st.slots[k])
    ensures var rs, back := FieldRecords(pat[k], slot), FieldBack(pat[k], slot, st.slots[k]);
            && (rs == [] ==> back == Some(Default(pat[k], st.slots[k])))
            && Run(pat, st, RecordData(rs))
               == if rs == [] then st
                  else match back
                       case None => Bad(st.read)
                       case Some(v) => Good(st.slots[k := v], st.seen[k := true], st.read + |rs|)
  {
    hide *;
    OutFitsAt(pat, k, st);
    RunNone(pat, st);
    assert RecordData([]) == [];
    var pf, rs := pat[k], FieldRecords(pat[k], slot);
    if pf.rule == Repeated {
      RepeatedCase(pf, slot, st.slots[k]);
      if slot.items != [] { ItemsFed(pat, k, st, slot.items); }
    } else if pf.rule == Packed {
      PackedCase(pf, slot, st.slots[k]);
      if slot.items != [] {
        OneFed(pat, k, st, rs[0]);
        PackedFed(pf, NumbersOf(slot.items), Array([]));
      }
    } else {
      SingleCase(pf, slot, st.slots[k]);
      if !(pf.rule == Optional && IsDefault(pf, slot)) {
        RecordId(pf, ValueOf(pf, slot));
        OneFed(pat, k, st, rs[0]);
        VarFed(pf, ValueOf(pf, slot), st.slots[k]);
      }
    }
  }

  lemma OutFitsAt(pat: seq<PatternField>, k: nat, st: State)
    requires k < |pat| && st.Good? && StateFits(pat, st)
    ensures |st.slots| == |st.seen| == |pat| && OutFits(pat[k], st.slots[k])
  {
    hide OutFits;
  }

  lemma OneFed(pat: seq<PatternField>, k: nat, st: State, r: Record)
    requires Sorted(pat) && k < |pat| && st.Good? && StateFits(pat, st) && !st.seen[k] && r.id == pat[k].id
    ensures OutFits(pat[k], Opened(pat[k], st.slots[k], false))
    ensures Run(pat, st, RecordData([r]))
         == match UnpackOne(pat[k], RecordDatum(r), Opened(pat[k], st.slots[k], false))
            case None => Bad(st.read)
            case Some(slot) => Good(st.slots[k := slot], st.seen[k := true], st.read + 1)
  {
    hide *;
    DatumId(r);
    var ds := RecordData([r]);
    RunOneMore(pat, st, ds, 0);
    assert ds[..0] == [] && ds[..1] == ds;
    RunNone(pat, st);
    FeedKnown(pat, k, st, RecordDatum(r));
  }

  lemma RepeatedCase(pf: PatternField, slot: Slot, out: Slot)
    requires SlotFits(pf, slot) && OutFits(pf, out) && pf.rule == Repeated
    ensures slot.Array? && pf.ctype == CArray && pf.id >= 0 && (IsText(pf.ptype) || IsNumber(pf.ptype))
    ensures forall v <- slot.items :: VarFits(pf.ptype, v)
    ensures FieldRecords(pf, slot) == ItemRecords(pf, slot.items)
    ensures slot.items == [] ==> ItemRecords(pf, slot.items) == [] && FieldBack(pf, slot, out) == Some(Default(pf, out))
    ensures slot.items != [] ==>
              FieldBack(pf, slot, out)
                == if pf.ptype == SInt64 then None else Some(Array(SeenVars(pf.ptype, slot.items)))
  {
    assert slot.items == [] ==> ItemRecords(pf, slot.items) == [];
    hide ItemRecords;
    hide SeenVar;
    hide VarFits;
    if slot.items == [] { assert SeenVars(pf.ptype, slot.items) == []; }
  }

  lemma PackedCase(pf: PatternField, slot: Slot, out: Slot)
    requires SlotFits(pf, slot) && OutFits(pf, out) && pf.rule == Packed
    ensures slot.Array? && pf.ctype == CPacked && IsNumber(pf.ptype)
            && (forall v <- slot.items :: v.Number?) && pf.id >= 0
    ensures Opened(pf, out, false) == Array([]) && OutFits(pf, Array([]))
    ensures slot.items == [] ==> FieldRecords(pf, slot) == [] && FieldBack(pf, slot, out) == Some(Default(pf, out))
    ensures slot.items != [] ==>
              var data := NumbersOf(slot.items);
              && FieldRecords(pf, slot) == [Record(pf.id, Payload.Bytes(PatternPayload(pf.ptype, data)))]
              && FieldBack(pf, slot, out) == Some(Array([] + Vars(AllSeen(Widened(pf.ptype), data))))
  {
    hide PatternPayload;
    hide PackedSeen;
    var data := NumbersOf(slot.items);
    assert [] + Vars(AllSeen(Widened(pf.ptype), data)) == Vars(AllSeen(Widened(pf.ptype), data));
    if slot.items == [] { assert Vars(AllSeen(Widened(pf.ptype), data)) == []; }
  }

  lemma SingleCase(pf: PatternField, slot: Slot, out: Slot)
    requires SlotFits(pf, slot) && OutFits(pf, out) && pf.rule != Packed && pf.rule != Repeated
    ensures !slot.Array? && pf.id >= 0 && (IsText(pf.ptype) || IsNumber(pf.ptype))
    ensures pf.ctype != CPacked && pf.ctype != CArray && (pf.ctype == CVar <==> IsText(pf.ptype))
    ensures Opened(pf, out, false) == out
    ensures pf.rule == Optional && IsDefault(pf, slot) ==>
              FieldRecords(pf, slot) == [] && FieldBack(pf, slot, out) == Some(Default(pf, out))
    ensures !(pf.rule == Optional && IsDefault(pf, slot)) ==>
              var v := ValueOf(pf, slot);
              && VarFits(pf.ptype, v) && FieldRecords(pf, slot) == [VarRecord(pf, v)]
              && (IsNumber(pf.ptype) ==> slot.Scalar? && out.Scalar? && v.Number?)
              && FieldBack(pf, slot, out)
                 == if pf.ptype == SInt64 then None
                    else if IsText(pf.ptype) then Some(Single(SeenVar(pf.ptype, v)))
                    else Some(Scalar(Store(pf.ctype, Seen(pf.ptype, v.v), out.n)))
  {
    hide IsDefault;
    hide Load;
    hide Seen;
    hide Store;
    hide Join;
    hide TextFits;
    hide TextBytes;
    hide VarRecords;
    hide DefaultReadable;
    if !(pf.rule == Optional && IsDefault(pf, slot)) { VarRecordIs(pf, ValueOf(pf, slot)); }
  }

  // ----- the whole struct there and back ------------------------------------------------------------

  /** The members, fed up to field `n`. */
  ghost predicate Halfway(pat: seq<PatternField>, input: seq<Slot>, out: seq<Slot>, n: nat, st: State)
    requires Fits(pat, input) && AllOut(pat, out) && n <= |pat|
  {
    && StateFits(pat, st)
    && match st
       case Bad(_) => exists k :: 0 <= k < n && FieldBack(pat[k], input[k], out[k]).None?
       case Good(slots, seen, _) =>
         && (forall k :: 0 <= k < n ==> FieldBack(pat[k], input[k], out[k]).Some?)
         && (forall k :: 0 <= k < |pat| ==>
               if seen[k] then k < n && FieldBack(pat[k], input[k], out[k]) == Some(slots[k])
               else
                 && slots[k] == out[k]
                 && (k < n ==> FieldBack(pat[k], input[k], out[k]) == Some(Default(pat[k], out[k]))))
  }

  lemma HalfwayStep(pat: seq<PatternField>, input: seq<Slot>, out: seq<Slot>, n: nat, st: State)
    requires Fits(pat, input) && AllOut(pat, out) && Sorted(pat) && n < |pat|
    requires Halfway(pat, input, out, n, st)
    ensures Halfway(pat, input, out, n + 1, Run(pat, st, RecordData(FieldRecords(pat[n], input[n]))))
  {
    var rs := FieldRecords(pat[n], input[n]);
    if st.Good? {
      MemberFed(pat, n, st, input[n]);
    } else {
      BadStays(pat, st, RecordData(rs), 0);
      RunNone(pat, st);
      assert RecordData(rs)[..0] == [];
    }
    hide *;
    HalfwayNext(pat, input, out, n, st, Run(pat, st, RecordData(rs)));
  }

  lemma HalfwayNext(pat: seq<PatternField>, input: seq<Slot>, out: seq<Slot>, n: nat, st: State, next: State)
    requires Fits(pat, input) && AllOut(pat, out) && n < |pat|
    requires Halfway(pat, input, out, n, st) && StateFits(pat, next)
    requires st.Bad? ==> next == st
    requires st.Good? ==>
      && !st.seen[n] && OutFits(pat[n], st.slots[n])
      && var rs, back := FieldRecords(pat[n], input[n]), FieldBack(pat[n], input[n], st.slots[n]);
         && (rs == [] ==> back == Some(Default(pat[n], st.slots[n])))
         && next == if rs == [] then st
                    else match back
                         case None => Bad(st.read)
                         case Some(v) => Good(st.slots[n := v], st.seen[n := true], st.read + |rs|)
    ensures Halfway(pat, input, out, n + 1, next)
  {
    hide FieldBack;
    hide FieldRecords;
    hide Default;
    hide SlotFits;
    hide OutFits;
    if st.Bad? {
      var k :| 0 <= k < n && FieldBack(pat[k], input[k], out[k]).None?;
      assert k < n + 1;
    } else if next.Bad? {
      assert FieldBack(pat[n], input[n], out[n]).None?;
    }
  }

  lemma {:induction false} FieldsFed(pat: seq<PatternField>, input: seq<Slot>, out: seq<Slot>, n: nat)
    requires Fits(pat, input) && AllOut(pat, out) && Sorted(pat) && n <= |pat|
    ensures Fits(pat[..n], input[..n])
    ensures Halfway(pat, input, out, n, Run(pat, Start(pat, out), RecordData(PatternRecords(pat[..n], input[..n]))))
  {
    hide *;
    FitsPrefix(pat, input, n);
    StartFits(pat, out);
    if n > 0 {
      FieldsFed(pat, input, out, n - 1);
      PatternSplit(pat, input, n - 1);
      var a, b := PatternRecords(pat[..n - 1], input[..n - 1]), FieldRecords(pat[n - 1], input[n - 1]);
      RunConcat(pat, Start(pat, out), RecordData(a), RecordData(b));
      HalfwayStep(pat, input, out, n - 1, Run(pat, Start(pat, out), RecordData(a)));
    } else {
      HalfwayFirst(pat, input, out);
    }
  }

  lemma StartFits(pat: seq<PatternField>, out: seq<Slot>)
    requires AllOut(pat, out)
    ensures StateFits(pat, Start(pat, out))
  {
  }

  lemma PatternSplit(pat: seq<PatternField>, input: seq<Slot>, n: nat)
    requires Fits(pat, input) && n < |pat|
    ensures Fits(pat[..n], input[..n]) && Fits(pat[..n + 1], input[..n + 1]) && SlotFits(pat[n], input[n])
    ensures PatternRecords(pat[..n + 1], input[..n + 1])
            == PatternRecords(pat[..n], input[..n]) + FieldRecords(pat[n], input[n])
    ensures RecordData(PatternRecords(pat[..n + 1], input[..n + 1]))
         == RecordData(PatternRecords(pat[..n], input[..n])) + RecordData(FieldRecords(pat[n], input[n]))
  {
    FitsPrefix(pat, input, n);
    FitsPrefix(pat, input, n + 1);
    hide SlotFits;
    hide FieldRecords;
    hide RecordData;
    var p, s := pat[..n + 1], input[..n + 1];
    assert p[..n] == pat[..n] && s[..n] == input[..n];
    DataConcat(PatternRecords(pat[..n], input[..n]), FieldRecords(pat[n], input[n]));
  }

  lemma DataConcat(a: seq<Record>, b: seq<Record>)
    ensures RecordData(a + b) == RecordData(a) + RecordData(b)
  {
    hide RecordDatum;
  }

  lemma HalfwayFirst(pat: seq<PatternField>, input: seq<Slot>, out: seq<Slot>)
    requires Fits(pat, input) && AllOut(pat, out) && Fits(pat[..0], input[..0])
    ensures Halfway(pat, input, out, 0, Run(pat, Start(pat, out), RecordData(PatternRecords(pat[..0], input[..0]))))
  {
    hide FieldBack;
    hide OutFits;
    RunNone(pat, Start(pat, out));
    assert RecordData(PatternRecords(pat[..0], input[..0])) == [];
  }

  predicate OfField(pf: PatternField, r: Record) {
    && (r.payload.Bytes? <==> IsText(pf.ptype) || pf.ctype == CPacked)
    && (pf.ctype == CPacked ==> EndsWhole(pf.ptype, r.payload.b))
  }

  /** A record of a pattern: it holds bytes exactly when its field is text or packed. */
  ghost predicate OfPattern(pat: seq<PatternField>, r: Record) {
    r.Valid() && exists k :: 0 <= k < |pat| && pat[k].id == r.id && OfField(pat[k], r)
  }

  ghost predicate AllOfPattern(pat: seq<PatternField>, rs: seq<Record>) { forall r <- rs :: OfPattern(pat, r) }

  /** Memory of the kind that a member that fits is unpacked into. */
  lemma SomeMemory(pf: PatternField, slot: Slot) returns (out: Slot)
    requires SlotFits(pf, slot)
    ensures OutFits(pf, out) && 0 < pf.id < 0x1000_0000 && (IsText(pf.ptype) || IsNumber(pf.ptype))
    ensures pf.rule == Packed ==> IsNumber(pf.ptype) && 10 * |NumbersOf(slot.items)| < 0x8000_0000
  {
    out := match pf.ctype
           case CArray => Array([])
           case CPacked => Array([])
           case CVar => Single(Text(None, 0))
           case _ => Scalar(0);
    hide TextFits;
    hide IsDefault;
    hide DefaultReadable;
  }

  lemma FieldOfPattern(pat: seq<PatternField>, k: nat, slot: Slot)
    requires k < |pat| && SlotFits(pat[k], slot)
    ensures AllOfPattern(pat, FieldRecords(pat[k], slot))
  {
    hide *;
    var pf, rs := pat[k], FieldRecords(pat[k], slot);
    var out := SomeMemory(pf, slot);
    if pf.rule == Repeated {
      RepeatedCase(pf, slot, out);
      ItemsOfPattern(pat, k, slot.items);
    } else if pf.rule == Packed {
      PackedCase(pf, slot, out);
      if slot.items != [] { PackedOfPattern(pat, k, NumbersOf(slot.items)); }
    } else {
      SingleCase(pf, slot, out);
      if !(pf.rule == Optional && IsDefault(pf, slot)) { VarOfPattern(pat, k, ValueOf(pf, slot)); }
    }
    FewOfPattern(pat, rs);
  }

  lemma FewOfPattern(pat: seq<PatternField>, rs: seq<Record>)
    ensures |rs| <= 1 && (rs != [] ==> OfPattern(pat, rs[0])) ==> AllOfPattern(pat, rs)
  {
    hide OfPattern;
  }

  lemma PackedOfPattern(pat: seq<PatternField>, k: nat, data: seq<LongLong>)
    requires k < |pat| && 0 < pat[k].id < 0x1000_0000 && IsNumber(pat[k].ptype) && pat[k].ctype == CPacked
    requires 10 * |data| < 0x8000_0000
    ensures OfPattern(pat, Record(pat[k].id, Payload.Bytes(PatternPayload(pat[k].ptype, data))))
  {
    PatternSize(pat[k].ptype, data);
    PatternIsWhole(pat[k].ptype, data);
    hide PatternPayload;
    hide EndsWhole;
    assert OfField(pat[k], Record(pat[k].id, Payload.Bytes(PatternPayload(pat[k].ptype, data))));
  }

  lemma VarOfPattern(pat: seq<PatternField>, k: nat, v: Var)
    requires k < |pat| && 0 < pat[k].id < 0x1000_0000 && (IsText(pat[k].ptype) || IsNumber(pat[k].ptype))
    requires pat[k].ctype != CPacked && VarFits(pat[k].ptype, v)
    ensures OfPattern(pat, VarRecord(pat[k], v))
  {
    if !IsText(pat[k].ptype) { ValueComesBack(pat[k].ptype, v.v); }
    hide CString;
    hide ValuePayload;
    assert OfField(pat[k], VarRecord(pat[k], v));
  }

  lemma PatternIsWhole(ptype: PType, data: seq<LongLong>)
    requires IsNumber(ptype)
    ensures EndsWhole(ptype, PatternPayload(ptype, data))
  {
    if IsVarint(ptype) {
      PayloadIs(ptype, data);
      WholePayload(Widened(ptype), data);
    }
    hide PatternPayload;
    hide VarintPayload;
    hide WholeVarints;
  }

  lemma PatternSize(ptype: PType, data: seq<LongLong>)
    requires 10 * |data| < 0x8000_0000 && IsNumber(ptype)
    ensures |PatternPayload(ptype, data)| < 0x8000_0000
  {
    KindOf(ptype);
    if IsFixed64(ptype) {
      FixedSize(ptype, 8, data);
    } else if IsFixed32(ptype) {
      FixedSize(ptype, 4, data);
    } else {
      VarintSize(ptype, data);
    }
    hide PatternPayload;
  }

  lemma {:induction false} ItemsOfPattern(pat: seq<PatternField>, k: nat, items: seq<Var>)
    requires k < |pat| && 0 < pat[k].id < 0x1000_0000 && (IsText(pat[k].ptype) || IsNumber(pat[k].ptype))
    requires pat[k].ctype != CPacked && forall v <- items :: VarFits(pat[k].ptype, v)
    ensures AllOfPattern(pat, ItemRecords(pat[k], items))
  {
    hide *;
    if items != [] {
      var v := items[|items| - 1];
      ItemsOfPattern(pat, k, items[..|items| - 1]);
      ItemsSplit(pat[k], items);
      VarOfPattern(pat, k, v);
      FewOfPattern(pat, [VarRecord(pat[k], v)]);
      OfPatternConcat(pat, ItemRecords(pat[k], items[..|items| - 1]), [VarRecord(pat[k], v)]);
    } else {
      NoItems(pat[k]);
      FewOfPattern(pat, ItemRecords(pat[k], items));
    }
  }

  lemma NoItems(pf: PatternField)
    requires pf.id >= 0
    ensures ItemRecords(pf, []) == []
  {
  }

  lemma {:induction false} RecordsOfPattern(pat: seq<PatternField>, input: seq<Slot>, n: nat)
    requires Fits(pat, input) && n <= |pat|
    ensures Fits(pat[..n], input[..n]) && AllOfPattern(pat, PatternRecords(pat[..n], input[..n]))
  {
    hide *;
    FitsPrefix(pat, input, n);
    if n > 0 {
      RecordsOfPattern(pat, input, n - 1);
      PatternSplit(pat, input, n - 1);
      FieldOfPattern(pat, n - 1, input[n - 1]);
      OfPatternConcat(pat, PatternRecords(pat[..n - 1], input[..n - 1]), FieldRecords(pat[n - 1], input[n - 1]));
    } else {
      NoRecords(pat, input);
    }
  }

  lemma NoRecords(pat: seq<PatternField>, input: seq<Slot>)
    requires Fits(pat[..0], input[..0])
    ensures AllOfPattern(pat, PatternRecords(pat[..0], input[..0]))
  {
  }

  lemma OfPatternConcat(pat: seq<PatternField>, a: seq<Record>, b: seq<Record>)
    requires AllOfPattern(pat, a) && AllOfPattern(pat, b)
    ensures AllOfPattern(pat, a + b)
  {
    hide OfPattern;
  }

  lemma SameFeed(pat: seq<PatternField>, st: State, a: Atom, r: Record, b: seq<byte>, beyond: seq<byte>)
    requires Sorted(pat) && StateFits(pat, st) && |b| < 0x8000_0000
    requires Matches(a, r, b) && Inside(a, b) && OfPattern(pat, r)
    ensures Feed(pat, st, DatumOf(a, b)) == Feed(pat, st, RecordDatum(r))
    ensures AtomSafe(pat, a, b, beyond)
  {
    var k :| 0 <= k < |pat| && pat[k].id == r.id && OfField(pat[k], r);
    PlaceOf(pat, k);
    SafeAtom(pat, k, a, r, b, beyond);
    DataAgree(a, r, b);
    var d, e := DatumOf(a, b), RecordDatum(r);
    if st.Good? {
      assert OutFits(pat[k], Opened(pat[k], st.slots[k], st.seen[k]));
      SameUnpack(pat[k], d, e, Opened(pat[k], st.slots[k], st.seen[k]));
    }
    hide DatumOf;
    hide RecordDatum;
    hide UnpackOne;
    hide Place;
    hide Matches;
    hide AtomSafe;
  }

  lemma SafeAtom(pat: seq<PatternField>, k: nat, a: Atom, r: Record, b: seq<byte>, beyond: seq<byte>)
    requires Sorted(pat) && k < |pat| && pat[k].id == r.id && OfField(pat[k], r)
    requires |b| < 0x8000_0000 && Matches(a, r, b) && Inside(a, b)
    ensures AtomSafe(pat, a, b, beyond)
  {
    if pat[k].ctype == CPacked { SlicePackedSafe(pat[k].ptype, a, b, beyond); }
    hide PackedSafe;
    hide WholeVarints;
  }

  /** An atom and its record, as far as the unpacker looks at them. */
  lemma DataAgree(a: Atom, r: Record, b: seq<byte>)
    requires |b| < 0x8000_0000 && Matches(a, r, b)
    ensures var d, e := DatumOf(a, b), RecordDatum(r);
            && d.id == e.id == r.id && d.wt == e.wt && (d.wt == WT_LEND <==> r.payload.Bytes?)
            && if d.wt == WT_LEND then d.bytes == e.bytes && d.size == e.size else d.number == e.number
  {
    if r.payload.Bytes? { assert a.Start() == a.low && a.Size() == a.hi - a.low; }
  }

  lemma SameUnpack(pf: PatternField, d: Datum, e: Datum, slot: Slot)
    requires OutFits(pf, slot) && d.id == e.id && d.wt == e.wt
    requires d.wt == WT_LEND <==> IsText(pf.ptype) || pf.ctype == CPacked
    requires if d.wt == WT_LEND then d.bytes == e.bytes && d.size == e.size else d.number == e.number
    ensures UnpackOne(pf, d, slot) == UnpackOne(pf, e, slot)
  {
    hide Unpacked;
    hide CountOf;
    hide Raw;
  }

  lemma {:induction false} SameRun(pat: seq<PatternField>, st: State, rs: seq<Record>, n: nat, beyond: seq<byte>)
    requires Sorted(pat) && StateFits(pat, st) && AllOfPattern(pat, rs) && n <= |rs|
    requires AllValid(rs) && |Encode(rs)| < 0x8000_0000 && AllInside(AtomsOf(rs, 0), Encode(rs))
    ensures Run(pat, st, Data(Encode(rs), AtomsOf(rs, 0))[..n]) == Run(pat, st, RecordData(rs)[..n])
    ensures forall i: nat :: i < n ==> AtomSafe(pat, AtomsOf(rs, 0)[i], Encode(rs), beyond)
  {
    hide *;
    var b, atoms := Encode(rs), AtomsOf(rs, 0);
    var data, rdata := Data(b, atoms), RecordData(rs);
    if n > 0 {
      SameRun(pat, st, rs, n - 1, beyond);
      RunOneMore(pat, st, data, n - 1);
      RunOneMore(pat, st, rdata, n - 1);
      InsideOne(atoms, b, n - 1);
      AtomsMatchRecords(rs, [], n - 1);
      assert [] + b == b;
      OfPatternAt(pat, rs, n - 1);
      SameFeed(pat, Run(pat, st, rdata[..n - 1]), atoms[n - 1], rs[n - 1], b, beyond);
    } else {
      assert data[..0] == rdata[..0];
    }
  }

  lemma OfPatternAt(pat: seq<PatternField>, rs: seq<Record>, n: nat)
    requires AllOfPattern(pat, rs) && n < |rs|
    ensures OfPattern(pat, rs[n])
  {
    hide OfPattern;
  }

  lemma ValidOfPattern(pat: seq<PatternField>, rs: seq<Record>)
    requires AllOfPattern(pat, rs)
    ensures AllValid(rs)
  {
    forall r | r in rs ensures r.Valid() { assert OfPattern(pat, r); }
  }

  /** What was packed can be handed to the unpacker. */
  lemma CanUnpack(pat: seq<PatternField>, input: seq<Slot>, out: seq<Slot>, beyond: seq<byte>)
    requires Sorted(pat) && Fits(pat, input) && AllOut(pat, out)
    requires |Encode(PatternRecords(pat, input))| < 0x8000_0000
    ensures SafeToUnpack(pat, Encode(PatternRecords(pat, input)), beyond)
  {
    hide *;
    FitsPrefix(pat, input, |pat|);
    assert pat[..|pat|] == pat && input[..|pat|] == input;
    var rs := PatternRecords(pat, input);
    RecordsOfPattern(pat, input, |pat|);
    ValidOfPattern(pat, rs);
    ParseEncodedAll(rs, 0);
    ParsedInside(Encode(rs), AtomsOf(rs, 0));
    StartFits(pat, out);
    SameRun(pat, Start(pat, out), rs, |rs|, beyond);
    SafeIs(pat, Encode(rs), AtomsOf(rs, 0), beyond);
  }

  lemma SafeIs(pat: seq<PatternField>, b: seq<byte>, atoms: seq<Atom>, beyond: seq<byte>)
    requires |b| < 0x8000_0000 && ParseAll(b, 0) == Some(atoms)
    requires forall i: nat :: i < |atoms| ==> AtomSafe(pat, atoms[i], b, beyond)
    ensures SafeToUnpack(pat, b, beyond)
  {
    ParsedIsTame(b);
    hide Tame;
    hide Taken;
    hide ParseAll;
    hide AtomSafe;
  }

  /** Unpacking what was packed: the call succeeds exactly when every member comes back, and then
      the members are what comes back. */
  lemma ComesBack(pat: seq<PatternField>, input: seq<Slot>, out: seq<Slot>, now: seq<Slot>, r: int)
    requires Sorted(pat) && Fits(pat, input) && AllOut(pat, out)
    requires |Encode(PatternRecords(pat, input))| < 0x8000_0000
    requires UnpackResult(pat, Encode(PatternRecords(pat, input)), out, now, r)
    ensures r == 0 || r < 0
    ensures forall k: nat :: k < |pat| ==> SlotFits(pat[k], input[k]) && OutFits(pat[k], out[k])
    ensures r == 0 <==> forall k: nat :: k < |pat| ==> FieldBack(pat[k], input[k], out[k]).Some?
    ensures r == 0 ==>
              |now| == |pat| && forall k: nat :: k < |pat| ==> FieldBack(pat[k], input[k], out[k]) == Some(now[k])
  {
    hide *;
    FitsPrefix(pat, input, |pat|);
    assert pat[..|pat|] == pat && input[..|pat|] == input;
    SameLength(pat, input, out);
    var rs := PatternRecords(pat, input);
    var b := Encode(rs);
    RecordsOfPattern(pat, input, |pat|);
    ValidOfPattern(pat, rs);
    ParseEncodedAll(rs, 0);
    var atoms := AtomsOf(rs, 0);
    ParsedInside(b, atoms);
    StartFits(pat, out);
    SameRun(pat, Start(pat, out), rs, |rs|, []);
    assert Data(b, atoms)[..|rs|] == Data(b, atoms) && RecordData(rs)[..|rs|] == RecordData(rs);
    FieldsFed(pat, input, out, |pat|);
    ResultIs(pat, b, atoms, out, now, r);
    EndOfRun(pat, input, out, now, r, Run(pat, Start(pat, out), Data(b, atoms)));
  }

  lemma SameLength(pat: seq<PatternField>, input: seq<Slot>, out: seq<Slot>)
    requires Fits(pat, input) && AllOut(pat, out)
    ensures |pat| == |input| == |out|
  {
  }

  lemma ResultIs(pat: seq<PatternField>, b: seq<byte>, atoms: seq<Atom>, out: seq<Slot>, now: seq<Slot>, r: int)
    requires |b| < 0x8000_0000 && AllOut(pat, out) && UnpackResult(pat, b, out, now, r)
    requires ParseAll(b, 0) == Some(atoms)
    ensures StateFits(pat, Start(pat, out))
    ensures Ended(pat, Run(pat, Start(pat, out), Data(b, atoms)), now, r)
  {
    ParsedIsTame(b);
    hide Tame;
    hide Taken;
    hide ParseAll;
    hide Data;
    hide OutFits;
  }

  lemma EndOfRun(pat: seq<PatternField>, input: seq<Slot>, out: seq<Slot>, now: seq<Slot>, r: int, st: State)
    requires Fits(pat, input) && AllOut(pat, out) && Halfway(pat, input, out, |pat|, st)
    requires Ended(pat, st, now, r)
    ensures r == 0 || r < 0
    ensures forall k: nat :: k < |pat| ==> SlotFits(pat[k], input[k]) && OutFits(pat[k], out[k])
    ensures r == 0 <==> forall k: nat :: k < |pat| ==> FieldBack(pat[k], input[k], out[k]).Some?
    ensures r == 0 ==>
              |now| == |pat| && forall k: nat :: k < |pat| ==> FieldBack(pat[k], input[k], out[k]) == Some(now[k])
  {
    hide FieldBack;
    hide SlotFits;
    hide OutFits;
    hide Default;
  }

  // ----- when the struct is the same again --------------------------------------------------------

  /** A number that its type can hold: floats for a field of that type, and for integers of 32 bits the high word
      is the one that a reader makes up. Of sint32 that is the sign
      extension for numbers from 0 to 2^30 - 1 and below -2^30, and its complement for all others. */
  ghost predicate Whole(ptype: PType, v: LongLong) {
    match ptype
    case Float => IsFloat(v)
    case UInt32 | Enum | Bool | Fixed32 | SFixed32 => v.hi == 0
    case SInt32 => v.hi == if 0x4000_0000 <= v.low < 0xC000_0000 then 0xFFFF_FFFF else 0
    case _ => true
  }

  /** The bytes that a slice stands for. */
  function Held(v: Var): Option<seq<byte>> {
    match v
    case Text(None, len) => if len == 0 then Some([]) else None
    case Text(Some(b), len) =>
      if len >= 0 then (if len <= |b| then Some(b[..len]) else None)
      else
        var n := |CString(b)| - len;
        if CString(b) != b && n <= |b| then Some(b[..n]) else None
    case _ => None
  }

  /** The same number, or slices that stand for the same bytes wherever these lie. */
  predicate VarAlike(a: Var, b: Var) {
    if a.Number? then b == a else b.Text? && Held(a).Some? && Held(b) == Held(a)
  }

  predicate Alike(a: Slot, b: Slot) {
    match (a, b)
    case (Scalar(m), Scalar(n)) => m == n
    case (Single(v), Single(w)) => VarAlike(v, w)
    case (Array(s), Array(t)) => |s| == |t| && forall k :: 0 <= k < |s| ==> VarAlike(s[k], t[k])
    case _ => false
  }

  predicate AllAlike(a: seq<Slot>, b: seq<Slot>) { |a| == |b| && forall k :: 0 <= k < |a| ==> Alike(a[k], b[k]) }

  /** A text that is the default has the bytes of the default. */
  predicate HoldsDefault(pf: PatternField, v: Var) {
    (v.Text? && v.buffer.Some? && v.len > 0) || Held(v) == Some(if pf.ptype == String then pf.defaultText else [])
  }

  /** What it takes for a member to survive: nothing of type sint64 outside packed fields, numbers that their
      types can hold, no signalling NaN in a float, the sign of the default where a zero is elided, memory whose
      high byte is right already where an int16 will be stored, and for a text that is elided as the default, a
      positive length or the very bytes of the default. */
  ghost predicate Keeps(pf: PatternField, slot: Slot, out: Slot)
    requires SlotFits(pf, slot) && OutFits(pf, out)
  {
    match pf.rule
    case Repeated => slot.items == []
      || (pf.ptype != SInt64 && forall v <- slot.items :: v.Number? ==> Whole(pf.ptype, v.v))
    case Packed => forall v <- slot.items :: Whole(pf.ptype, v.v)
    case _ =>
      if pf.rule == Optional && IsDefault(pf, slot) then
        match slot
        case Single(v) => HoldsDefault(pf, v)
        case Scalar(n) => IsReal(pf.ptype) ==> n == DefaultNumber(pf)
        case _ => true
      else
        && pf.ptype != SInt64
        && (pf.ctype == CInt64 || pf.ctype == CDouble ==> Whole(pf.ptype, Halves(slot.n)))
        && (pf.ctype == CFloat ==> !Signalling(slot.n))
        && (pf.ctype == CInt16 ==> out.n / 0x100 == slot.n / 0x100)
  }

  lemma WholeIsSeen(ptype: PType, v: LongLong)
    requires IsNumber(ptype)
    ensures Seen(ptype, v) == v <==> Whole(ptype, v)
    ensures PackedSeen(Widened(ptype), v) == v <==> Whole(ptype, v)
    ensures !IsReal(ptype) ==> Seen(ptype, v).low == v.low
  {
    SignWordIs(v.low);
    if ptype == Float { WidenNarrow(v); }
    hide SignWord;
    hide Narrow;
    hide Widen;
    hide IsFloat;
  }

  lemma KeepsIsBack(pf: PatternField, slot: Slot, out: Slot)
    requires SlotFits(pf, slot) && OutFits(pf, out)
    ensures var back := FieldBack(pf, slot, out); (back.Some? && Alike(slot, back.value)) <==> Keeps(pf, slot, out)
  {
    hide *;
    if pf.rule == Repeated {
      RepeatedKeeps(pf, slot, out);
    } else if pf.rule == Packed {
      PackedKeeps(pf, slot, out);
    } else if IsText(pf.ptype) {
      TextKeeps(pf, slot, out);
    } else {
      ScalarKeeps(pf, slot, out);
    }
  }

  /** What a reader sees of a value is like the value, unless a high word got lost. */
  lemma AlikeSeen(ptype: PType, v: Var)
    requires VarFits(ptype, v) && (IsText(ptype) || IsNumber(ptype))
    ensures VarAlike(v, SeenVar(ptype, v)) <==> (v.Number? ==> Whole(ptype, v.v))
  {
    if IsText(ptype) {
      HeldIs(v);
      HeldAll(TextBytes(v));
      hide TextBytes;
      hide Held;
    } else {
      WholeIsSeen(ptype, v.v);
      hide Whole;
      hide Seen;
    }
  }

  lemma HeldIs(v: Var)
    requires v.Text? && TextFits(String, v)
    ensures Held(v) == Some(TextBytes(v))
  {
    hide CString;
  }

  lemma HeldAll(t: seq<byte>)
    ensures Held(Text(Some(t), |t|)) == Some(t)
  {
    assert t[..|t|] == t;
    hide CString;
  }

  lemma RepeatedKeeps(pf: PatternField, slot: Slot, out: Slot)
    requires SlotFits(pf, slot) && OutFits(pf, out) && pf.rule == Repeated
    ensures var back := FieldBack(pf, slot, out); (back.Some? && Alike(slot, back.value)) <==> Keeps(pf, slot, out)
  {
    hide *;
    RepeatedCase(pf, slot, out);
    var items := slot.items;
    forall k | 0 <= k < |items|
      ensures VarAlike(items[k], SeenVars(pf.ptype, items)[k]) <==> (items[k].Number? ==> Whole(pf.ptype, items[k].v))
    {
      AlikeSeen(pf.ptype, items[k]);
    }
    KeepsArray(pf, slot, out);
    if items == [] { EmptyBack(pf, out); }
    AlikeArrays(items, SeenVars(pf.ptype, items));
  }

  lemma KeepsArray(pf: PatternField, slot: Slot, out: Slot)
    requires SlotFits(pf, slot) && OutFits(pf, out) && slot.Array? && pf.rule == Repeated
    ensures Keeps(pf, slot, out)
       <==> slot.items == []
            || (pf.ptype != SInt64
               && forall k :: 0 <= k < |slot.items| && slot.items[k].Number? ==> Whole(pf.ptype, slot.items[k].v))
  {
    hide Whole;
    hide SlotFits;
    hide OutFits;
  }

  lemma EmptyBack(pf: PatternField, out: Slot)
    requires OutFits(pf, out) && pf.ctype == CArray
    ensures Default(pf, out) == Array([])
  {
  }

  lemma AlikeArrays(s: seq<Var>, t: seq<Var>)
    ensures Alike(Array(s), Array(t)) <==> |s| == |t| && forall k :: 0 <= k < |s| ==> VarAlike(s[k], t[k])
  {
    hide VarAlike;
  }

  lemma PackedKeeps(pf: PatternField, slot: Slot, out: Slot)
    requires SlotFits(pf, slot) && OutFits(pf, out) && pf.rule == Packed
    ensures var back := FieldBack(pf, slot, out); (back.Some? && Alike(slot, back.value)) <==> Keeps(pf, slot, out)
  {
    var items := slot.items;
    var back := Vars(AllSeen(Widened(pf.ptype), NumbersOf(items)));
    forall k | 0 <= k < |items| ensures VarAlike(items[k], back[k]) <==> Whole(pf.ptype, items[k].v) {
      assert items[k].Number?;
      WholeIsSeen(pf.ptype, items[k].v);
    }
    AlikeArrays(items, back);
    hide Whole;
    hide PackedSeen;
    hide Alike;
    hide VarAlike;
    assert (forall v <- items :: Whole(pf.ptype, v.v)) <==>
             forall k :: 0 <= k < |items| ==> Whole(pf.ptype, items[k].v);
  }

  lemma TextKeeps(pf: PatternField, slot: Slot, out: Slot)
    requires SlotFits(pf, slot) && OutFits(pf, out) && IsText(pf.ptype) && pf.rule != Packed && pf.rule != Repeated
    ensures var back := FieldBack(pf, slot, out); (back.Some? && Alike(slot, back.value)) <==> Keeps(pf, slot, out)
  {
    if pf.rule == Optional && IsDefault(pf, slot) {
      HeldAll(pf.defaultText);
      HeldAll([]);
      ElidedText(pf, slot);
      hide IsDefault;
      hide DefaultReadable;
    } else {
      AlikeSeen(pf.ptype, slot.v);
      hide IsDefault;
      hide DefaultReadable;
      hide VarAlike;
    }
    hide Held;
    hide TextFits;
    hide TextBytes;
  }

  /** A text with a length that is elided has the bytes of the default. */
  lemma ElidedText(pf: PatternField, slot: Slot)
    requires slot.Single? && slot.v.Text? && IsDefault(pf, slot)
    ensures pf.ptype == String || pf.ptype == PType.Bytes
    ensures slot.v.buffer.Some? && slot.v.len > 0 ==> pf.ptype == String && Held(slot.v) == Some(pf.defaultText)
  {
    hide CString;
  }

  lemma ScalarKeeps(pf: PatternField, slot: Slot, out: Slot)
    requires SlotFits(pf, slot) && OutFits(pf, out) && !IsText(pf.ptype) && pf.rule != Packed && pf.rule != Repeated
    ensures var back := FieldBack(pf, slot, out); (back.Some? && Alike(slot, back.value)) <==> Keeps(pf, slot, out)
  {
    hide *;
    SingleCase(pf, slot, out);
    ScalarFacts(pf, slot, out);
    KeepsScalar(pf, slot, out);
    if pf.rule == Optional && IsDefault(pf, slot) {
      DefaultIsSlot(pf, slot, out);
      AlikeScalars(slot.n, DefaultNumber(pf));
    } else if pf.ptype != SInt64 {
      var v := Load(pf.ctype, slot.n);
      StoredBack(pf, slot.n, out.n);
      AlikeScalars(slot.n, Store(pf.ctype, Seen(pf.ptype, v), out.n));
    }
  }

  lemma ScalarFacts(pf: PatternField, slot: Slot, out: Slot)
    requires SlotFits(pf, slot) && OutFits(pf, out) && !IsText(pf.ptype) && pf.rule != Packed && pf.rule != Repeated
    ensures slot.Scalar? && out.Scalar? && slot.n < Limit(pf.ctype) && out.n < Limit(pf.ctype)
    ensures IsNumber(pf.ptype) && pf.ctype in ScalarTypes(pf.ptype)
    ensures ValueOf(pf, slot) == Number(Load(pf.ctype, slot.n))
    ensures Default(pf, out) == Scalar(DefaultNumber(pf))
  {
    hide IsDefault;
    hide Load;
    hide DefaultNumber;
  }

  lemma AlikeScalars(m: u64, n: u64)
    ensures Alike(Scalar(m), Scalar(n)) <==> m == n
  {
  }

  lemma KeepsScalar(pf: PatternField, slot: Slot, out: Slot)
    requires SlotFits(pf, slot) && OutFits(pf, out) && slot.Scalar?
             && out.Scalar? && pf.rule != Packed && pf.rule != Repeated
    ensures Keeps(pf, slot, out)
       <==> if pf.rule == Optional && IsDefault(pf, slot) then IsReal(pf.ptype) ==> slot.n == DefaultNumber(pf)
            else
              && pf.ptype != SInt64
              && (pf.ctype == CInt64 || pf.ctype == CDouble ==> Whole(pf.ptype, Halves(slot.n)))
              && (pf.ctype == CFloat ==> slot.n < 0x1_0000_0000 && !Signalling(slot.n))
              && (pf.ctype == CInt16 ==> out.n / 0x100 == slot.n / 0x100)
  {
    hide IsDefault;
    hide Whole;
    hide Signalling;
    hide Halves;
    hide DefaultNumber;
  }

  lemma DefaultIsSlot(pf: PatternField, slot: Slot, out: Slot)
    requires SlotFits(pf, slot) && OutFits(pf, out) && IsNumber(pf.ptype) && pf.rule != Packed && pf.rule != Repeated
    requires IsDefault(pf, slot)
    ensures slot.Scalar? && (!IsReal(pf.ptype) ==> slot.n == DefaultNumber(pf))
  {
    hide Narrow;
  }

  /** A number that is stored back is the same exactly when it survives. */
  lemma StoredBack(pf: PatternField, n: u64, was: u64)
    requires IsNumber(pf.ptype) && pf.ctype in ScalarTypes(pf.ptype) && n < Limit(pf.ctype) && was < Limit(pf.ctype)
    ensures Store(pf.ctype, Seen(pf.ptype, Load(pf.ctype, n)), was) == n
       <==> && (pf.ctype == CInt64 || pf.ctype == CDouble ==> Whole(pf.ptype, Halves(n)))
            && (pf.ctype == CFloat ==> n < 0x1_0000_0000 && !Signalling(n))
            && (pf.ctype == CInt16 ==> was / 0x100 == n / 0x100)
  {
    var v := Load(pf.ctype, n);
    if IsReal(pf.ptype) {
      RealBack(pf, n, was);
    } else {
      WholeIsSeen(pf.ptype, v);
      StoredSame(pf.ctype, n, Seen(pf.ptype, v), was);
    }
    hide Seen;
    hide Whole;
    hide Store;
    hide Signalling;
    hide Halves;
  }

  lemma RealBack(pf: PatternField, n: u64, was: u64)
    requires IsReal(pf.ptype) && pf.ctype in {CDouble, CFloat} && n < Limit(pf.ctype)
    ensures Store(pf.ctype, Seen(pf.ptype, Load(pf.ctype, n)), was) == n
       <==> && (pf.ctype == CDouble ==> Whole(pf.ptype, Halves(n)))
            && (pf.ctype == CFloat ==> n < 0x1_0000_0000 && !Signalling(n))
  {
    if pf.ctype == CDouble {
      var v := Halves(n);
      WholeIsSeen(pf.ptype, v);
      HalvesJoin(Seen(pf.ptype, v));
      hide Whole;
      hide Seen;
      hide Join;
      hide Halves;
      JoinOfHalves(n);
    } else {
      NarrowWiden(n);
      NarrowTwice(n);
      hide Narrow;
      hide Widen;
      hide Signalling;
    }
  }

  lemma JoinOfHalves(n: u64)
    ensures Join(Halves(n)) == n
  {
  }

  lemma StoredSame(ctype: CType, n: u64, v: LongLong, was: u64)
    requires n < Limit(ctype) && was < Limit(ctype) && ctype in {CInt8, CInt16, CInt32, CInt64, CBool}
    requires v.low == Load(ctype, n).low
    ensures Load(ctype, n) == if ctype == CInt64 then Halves(n) else LongLong(n % 0x1_0000_0000, 0)
    ensures Store(ctype, v, was) == n
       <==> (ctype == CInt64 ==> v == Halves(n)) && (ctype == CInt16 ==> was / 0x100 == n / 0x100)
  {
    HalvesJoin(v);
  }

  /** Packing a struct and unpacking it succeeds and gives an alike struct exactly when every member
      survives. */
  lemma StructRoundTrip(pat: seq<PatternField>, input: seq<Slot>, out: seq<Slot>)
    requires Sorted(pat) && Fits(pat, input) && AllOut(pat, out)
    requires |Encode(PatternRecords(pat, input))| < 0x8000_0000
    ensures forall k: nat :: k < |pat| ==> SlotFits(pat[k], input[k]) && OutFits(pat[k], out[k])
    ensures var b := Encode(PatternRecords(pat, input));
            forall now, r :: UnpackResult(pat, b, out, now, r) ==>
              (r == 0 && AllAlike(input, now) <==> forall k: nat :: k < |pat| ==> Keeps(pat[k], input[k], out[k]))
  {
    hide *;
    SameLength(pat, input, out);
    MembersFit(pat, input, out);
    forall k: nat | k < |pat|
      ensures var back := FieldBack(pat[k], input[k], out[k]);
              (back.Some? && Alike(input[k], back.value)) <==> Keeps(pat[k], input[k], out[k])
    {
      KeepsIsBack(pat[k], input[k], out[k]);
    }
    var b := Encode(PatternRecords(pat, input));
    forall now, r | UnpackResult(pat, b, out, now, r)
      ensures r == 0 && AllAlike(input, now) <==> forall k: nat :: k < |pat| ==> Keeps(pat[k], input[k], out[k])
    {
      ComesBack(pat, input, out, now, r);
      AllAlikeIs(input, now);
    }
  }

  lemma AllAlikeIs(a: seq<Slot>, b: seq<Slot>)
    ensures AllAlike(a, b) <==> |a| == |b| && forall k: nat :: k < |a| ==> Alike(a[k], b[k])
  {
    hide Alike;
  }

  lemma MembersFit(pat: seq<PatternField>, input: seq<Slot>, out: seq<Slot>)
    requires Fits(pat, input) && AllOut(pat, out)
    ensures forall k: nat :: k < |pat| ==> SlotFits(pat[k], input[k]) && OutFits(pat[k], out[k])
  {
    hide SlotFits;
    hide OutFits;
  }

  // ----- two structs that are not the same again ---------------------------------------------------

  lemma MemberAlone(pf: PatternField, slot: Slot, out: Slot)
    requires SlotFits(pf, slot) && OutFits(pf, out) && IsNumber(pf.ptype) && pf.rule == Required && pf.id == 1
    ensures Sorted([pf]) && Fits([pf], [slot]) && AllOut([pf], [out])
    ensures |Encode(PatternRecords([pf], [slot]))| < 0x8000_0000
  {
    SingleCase(pf, slot, out);
    var n := Load(pf.ctype, slot.n);
    var p := ValuePayload(pf.ptype, n).value;
    assert [pf][..0] == [] && [slot][..0] == [];
    assert PatternRecords([pf], [slot]) == [] + [Record(1, p)] == [Record(1, p)];
    EncodeOne(Record(1, p));
    Widths(Tag(Record(1, p)));
    if p.VarintValue? { Widths(p.n); }
    hide Varint;
    hide Load;
    hide ValuePayload;
  }

  /** A required member of type sint64 is packed, but the unpacker rejects the message. */
  lemma SInt64Rejected(n: u64, was: u64, now: seq<Slot>, r: int)
    ensures var pf := PatternField(1, SInt64, CInt64, Required, LongLong(0, 0), [], 0);
            && Fits([pf], [Scalar(n)]) && AllOut([pf], [Scalar(was)])
            && |Encode(PatternRecords([pf], [Scalar(n)]))| < 0x8000_0000
            && (UnpackResult([pf], Encode(PatternRecords([pf], [Scalar(n)])), [Scalar(was)], now, r) ==> r < 0)
  {
    var pf := PatternField(1, SInt64, CInt64, Required, LongLong(0, 0), [], 0);
    assert SlotFits(pf, Scalar(n)) && OutFits(pf, Scalar(was)) && IsNumber(SInt64);
    assert FieldBack(pf, Scalar(n), Scalar(was)) == None;
    hide *;
    OneMember(pf, Scalar(n), Scalar(was), now, r);
  }

  /** A pattern of one required member. */
  lemma OneMember(pf: PatternField, slot: Slot, was: Slot, now: seq<Slot>, r: int)
    requires SlotFits(pf, slot) && OutFits(pf, was) && IsNumber(pf.ptype) && pf.rule == Required && pf.id == 1
    ensures Sorted([pf]) && Fits([pf], [slot]) && AllOut([pf], [was])
    ensures |Encode(PatternRecords([pf], [slot]))| < 0x8000_0000
    ensures UnpackResult([pf], Encode(PatternRecords([pf], [slot])), [was], now, r) ==>
              if FieldBack(pf, slot, was) == None then r < 0 else r == 0 && now == [FieldBack(pf, slot, was).value]
  {
    hide *;
    MemberAlone(pf, slot, was);
    if UnpackResult([pf], Encode(PatternRecords([pf], [slot])), [was], now, r) {
      ComesBack([pf], [slot], [was], now, r);
      assert [pf][0] == pf && [slot][0] == slot && [was][0] == was;
    }
  }

  /** An int16 of 0x0102, unpacked to memory that holds 0x0300, is 0x0302 there. */
  lemma HighByteStays(now: seq<Slot>, r: int)
    ensures var pf := PatternField(1, Int32, CInt16, Required, LongLong(0, 0), [], 0);
            && Fits([pf], [Scalar(0x0102)]) && AllOut([pf], [Scalar(0x0300)])
            && |Encode(PatternRecords([pf], [Scalar(0x0102)]))| < 0x8000_0000
            && (UnpackResult([pf], Encode(PatternRecords([pf], [Scalar(0x0102)])), [Scalar(0x0300)], now, r) ==>
                  r == 0 && now == [Scalar(0x0302)])
  {
    var pf := PatternField(1, Int32, CInt16, Required, LongLong(0, 0), [], 0);
    var slot, was := Scalar(0x0102), Scalar(0x0300);
    assert SlotFits(pf, slot) && OutFits(pf, was) && IsNumber(Int32);
    HighByteBack(pf, slot, was);
    hide *;
    OneMember(pf, slot, was, now, r);
  }

  lemma HighByteBack(pf: PatternField, slot: Slot, was: Slot)
    requires pf == PatternField(1, Int32, CInt16, Required, LongLong(0, 0), [], 0)
    requires slot == Scalar(0x0102) && was == Scalar(0x0300)
    ensures SlotFits(pf, slot) && OutFits(pf, was) && IsNumber(pf.ptype)
    ensures FieldBack(pf, slot, was) == Some(Scalar(0x0302))
  {
    var v := LongLong(0x0102, 0);
    assert Seen(Int32, v) == v;
    assert FieldBack(pf, slot, was) == Some(Scalar(Store(CInt16, v, 0x0300)));
    hide Seen;
    hide Halves;
  }
}
