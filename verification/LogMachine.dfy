/** What the asynchronous logger of lualib-src/lua-log.c does, as a machine whose steps are the
    regions under its mutex and the steps the worker makes between them. Front-end threads and
    the worker interleave: any enabled step may come next. */
module LogMachine {
  import opened Words

  /** `LOG_BUFFER_SIZE` */
  const BUFFER_SIZE := 4 * 1024 * 1024
  /** A longer batch is cut down. */
  const MAX_BATCH := 25
  const KEPT := 2

  type Line = seq<byte>

  /** A line with its place in the order of all `append` calls. */
  datatype Entry = Entry(id: nat, text: Line)

  type Block = seq<Entry>

  /** Where the worker is in its loop. */
  datatype Phase =
    | Waiting                // before the swap
    | Swapped                // holds a batch
    | Noticed                // has logged that it will drop lines
    | Writing(done: nat)     // has written that many blocks of the batch

  datatype State = State(
    current: Block,
    pending: seq<Block>,
    batch: seq<Block>,
    phase: Phase,
    written: Block,
    history: seq<Line>,
    dropped: set<nat>
  )

  const INITIAL := State([], [], [], Waiting, [], [], {})

  datatype Step =
    | Append(line: Line)     // a front-end thread logs a line
    | Swap                   // the worker takes all blocks
    | Notice(line: Line)     // the worker logs that it drops lines
    | Cut                    // the worker drops all but the first two blocks
    | Proceed                // nothing to drop
    | Write                  // the worker writes one block
    | Recycle                // the worker keeps or frees the written blocks

  function Text(b: Block): seq<byte> {
    if b == [] then [] else Text(b[..|b| - 1]) + b[|b| - 1].text
  }

  function Flat(blocks: seq<Block>): Block {
    if blocks == [] then [] else Flat(blocks[..|blocks| - 1]) + blocks[|blocks| - 1]
  }

  function Ids(b: Block): set<nat> { set e | e in b :: e.id }

  // ----- the steps ------------------------------------------------------------------

  predicate Enabled(s: State, step: Step) {
    match step
    case Append(line) => |line| < BUFFER_SIZE
    case Swap => s.phase == Waiting
    case Notice(line) => s.phase == Swapped && |s.batch| > MAX_BATCH && |line| < BUFFER_SIZE
    case Cut => s.phase == Noticed && |s.batch| > MAX_BATCH
    case Proceed => s.phase == Swapped && |s.batch| <= MAX_BATCH
    case Write => s.phase.Writing? && s.phase.done < |s.batch|
    case Recycle => s.phase.Writing? && s.phase.done == |s.batch|
  }

  function Appended(s: State, line: Line): State {
    var e := Entry(|s.history|, line);
    if |Text(s.current)| + |line| < BUFFER_SIZE then
      s.(current := s.current + [e], history := s.history + [line])
    else
      s.(pending := s.pending + [s.current], current := [e], history := s.history + [line])
  }

  function Next(s: State, step: Step): State
    requires Enabled(s, step)
  {
    match step
    case Append(line) => Appended(s, line)
    case Swap => s.(batch := s.pending + [s.current], pending := [], current := [], phase := Swapped)
    case Notice(line) => Appended(s, line).(phase := Noticed)
    case Cut =>
      s.(batch := s.batch[..KEPT], phase := Writing(0), dropped := s.dropped + Ids(Flat(s.batch[KEPT..])))
    case Proceed => s.(phase := Writing(0))
    case Write =>
      s.(written := s.written + s.batch[s.phase.done], phase := Writing(s.phase.done + 1))
    case Recycle => s.(batch := [], phase := Waiting)
  }

  ghost predicate IsRun(s: State, steps: seq<Step>, t: State)
    decreases |steps|
  {
    if steps == [] then t == s
    else Enabled(s, steps[0]) && IsRun(Next(s, steps[0]), steps[1..], t)
  }

  // ----- nothing is lost, doubled or reordered ----------------------------------------

  function Unwritten(s: State): seq<Block> {
    if s.phase.Writing? && s.phase.done <= |s.batch| then s.batch[s.phase.done..] else s.batch
  }

  /** The file, then the batch being written, then the pending blocks, then the current one. */
  function Live(s: State): Block {
    s.written + Flat(Unwritten(s)) + Flat(s.pending) + s.current
  }

  predicate InOrder(b: Block) { forall i, j :: 0 <= i < j < |b| ==> b[i].id < b[j].id }

  /** Every line ever appended is there whole, at its place in the order, unless it was in a
      block that was dropped. */
  ghost predicate Conserved(s: State) {
    && InOrder(Live(s))
    && (forall e :: e in Live(s) ==> e.id < |s.history| && e.text == s.history[e.id] && e.id !in s.dropped)
    && (forall id: nat :: id < |s.history| && id !in s.dropped ==> Entry(id, s.history[id]) in Live(s))
    && (forall id :: id in s.dropped ==> id < |s.history|)
    && (s.phase == Waiting ==> s.batch == [])
    && (s.phase.Writing? ==> s.phase.done <= |s.batch|)
  }

  lemma {:induction false} FlatConcat(a: seq<Block>, b: seq<Block>)
    ensures Flat(a + b) == Flat(a) + Flat(b)
  {
    if b == [] {
      assert a + b == a;
    } else {
      var n := |b| - 1;
      assert (a + b)[..|a + b| - 1] == a + b[..n];
      FlatConcat(a, b[..n]);
    }
  }

  lemma FlatOne(b: Block)
    ensures Flat([b]) == b
  {
    assert [b][..0] == [];
  }

  lemma {:induction false} TextConcat(a: Block, b: Block)
    ensures Text(a + b) == Text(a) + Text(b)
  {
    if b == [] {
      assert a + b == a;
    } else {
      var n := |b| - 1;
      assert (a + b)[..|a + b| - 1] == a + b[..n];
      TextConcat(a, b[..n]);
    }
  }

  /** An append adds the new line at the very end, whichever branch it takes. */
  lemma AppendAtEnd(s: State, line: Line)
    ensures Live(Appended(s, line)) == Live(s) + [Entry(|s.history|, line)]
  {
    FlatConcat(s.pending, [s.current]);
    FlatOne(s.current);
    AppendedFields(s, line);
    var e, t := Entry(|s.history|, line), Appended(s, line);
    hide Appended;
    hide Flat;
    hide Unwritten;
    var a, p := s.written + Flat(Unwritten(s)), Flat(s.pending);
    assert a + p + (s.current + [e]) == (a + p + s.current) + [e];
    assert a + (p + s.current) + [e] == (a + p + s.current) + [e];
  }

  lemma AppendedFields(s: State, line: Line)
    ensures var t, e := Appended(s, line), Entry(|s.history|, line);
            && t.written == s.written && t.batch == s.batch && t.phase == s.phase && Unwritten(t) == Unwritten(s)
            && t.history == s.history + [line] && t.dropped == s.dropped
            && ((t.pending == s.pending && t.current == s.current + [e])
                || (t.pending == s.pending + [s.current] && t.current == [e]))
  {
    hide Text;
  }

  lemma SwapKeeps(s: State)
    requires s.phase == Waiting && s.batch == []
    ensures Live(Next(s, Swap)) == Live(s)
  {
    FlatConcat(s.pending, [s.current]);
    FlatOne(s.current);
  }

  lemma WriteKeeps(s: State)
    requires Enabled(s, Write)
    ensures Live(Next(s, Write)) == Live(s)
  {
    var k := s.phase.done;
    assert s.batch[k..] == [s.batch[k]] + s.batch[k + 1..];
    FlatConcat([s.batch[k]], s.batch[k + 1..]);
    FlatOne(s.batch[k]);
  }

  lemma CutRemoves(s: State)
    requires Enabled(s, Cut)
    ensures var before := s.written + Flat(s.batch[..KEPT]);
            var after := Flat(s.pending) + s.current;
            && Live(s) == before + Flat(s.batch[KEPT..]) + after
            && Live(Next(s, Cut)) == before + after
  {
    assert s.batch == s.batch[..KEPT] + s.batch[KEPT..];
    FlatConcat(s.batch[..KEPT], s.batch[KEPT..]);
  }

  /** Taking the middle out of an ordered block keeps the rest, and nothing of the middle. */
  lemma RemoveMiddle(a: Block, d: Block, b: Block)
    requires InOrder(a + d + b)
    ensures InOrder(a + b)
    ensures forall e :: e in a + b <==> e in a + d + b && e.id !in Ids(d)
  {
    var all := a + d + b;
    forall i | 0 <= i < |a + b| ensures (a + b)[i].id !in Ids(d) && (a + b)[i] in all {
      var k := if i < |a| then i else i + |d|;
      assert all[k] == (a + b)[i];
      forall j | 0 <= j < |d| ensures d[j].id != all[k].id { assert all[|a| + j] == d[j]; }
    }
    forall e | e in all && e.id !in Ids(d) ensures e in a + b {
      assert e in d ==> e.id in Ids(d);
    }
    forall i, j | 0 <= i < j < |a + b| ensures (a + b)[i].id < (a + b)[j].id {
      assert all[if i < |a| then i else i + |d|] == (a + b)[i];
      assert all[if j < |a| then j else j + |d|] == (a + b)[j];
    }
  }

  lemma ConservedByAppend(s: State, line: Line)
    requires Conserved(s)
    ensures Conserved(Appended(s, line))
    ensures s.phase == Swapped ==> Conserved(Appended(s, line).(phase := Noticed))
  {
    AppendAtEnd(s, line);
    AppendedFields(s, line);
    var t, e := Appended(s, line), Entry(|s.history|, line);
    if s.phase == Swapped { NoticedKeeps(t); }
    hide Appended;
    hide Unwritten;
    hide Live;
    assert Live(t)[|Live(s)|] == e;
    forall i, j | 0 <= i < j < |Live(t)| ensures Live(t)[i].id < Live(t)[j].id {
      assert Live(t)[i] in Live(s);
    }
    forall id: nat | id < |t.history| && id !in t.dropped ensures Entry(id, t.history[id]) in Live(t) {
      if id < |s.history| { assert Entry(id, s.history[id]) in Live(s); }
    }
  }

  lemma NoticedKeeps(s: State)
    requires s.phase == Swapped
    ensures Live(s.(phase := Noticed)) == Live(s)
  {
  }

  lemma ConservedByCut(s: State)
    requires Conserved(s) && Enabled(s, Cut)
    ensures Conserved(Next(s, Cut))
  {
    CutRemoves(s);
    var d := Flat(s.batch[KEPT..]);
    var before, after := s.written + Flat(s.batch[..KEPT]), Flat(s.pending) + s.current;
    RemoveMiddle(before, d, after);
    hide Live;
    hide Flat;
    forall id | id in Ids(d) ensures id < |s.history| {
      var e :| e in d && e.id == id;
      assert e in Live(s);
    }
  }

  /** Every step keeps every line that is not dropped. */
  lemma StepConserves(s: State, step: Step)
    requires Conserved(s) && Enabled(s, step)
    ensures Conserved(Next(s, step))
  {
    match step {
      case Append(line) => ConservedByAppend(s, line);
      case Notice(line) => ConservedByAppend(s, line);
      case Swap => SwapKeeps(s);
      case Cut => ConservedByCut(s);
      case Write => WriteKeeps(s);
      case Proceed => assert Live(Next(s, step)) == Live(s);
      case Recycle => assert Live(Next(s, step)) == Live(s);
    }
  }

  /** In every interleaving, from the start to any point. */
  lemma {:induction false} RunConserves(s: State, steps: seq<Step>, t: State)
    requires Conserved(s) && IsRun(s, steps, t)
    ensures Conserved(t)
    decreases |steps|
  {
    if steps != [] {
      StepConserves(s, steps[0]);
      RunConserves(Next(s, steps[0]), steps[1..], t);
    }
  }

  lemma InitiallyConserved()
    ensures Conserved(INITIAL)
  {
  }

  // ----- what is missing ------------------------------------------------------------------

  function Numbered(history: seq<Line>): (b: Block)
    ensures |b| == |history|
  {
    seq(|history|, i requires 0 <= i < |history| => Entry(i, history[i]))
  }

  /** A block leaves the front end only when a line did not fit behind what it holds. */
  ghost predicate FullBlocks(s: State) {
    && (forall i :: 0 <= i < |s.pending| ==> s.pending[i] != [])
    && (forall i :: 0 <= i < |s.batch| - 1 ==> s.batch[i] != [])
  }

  lemma StepKeepsFullBlocks(s: State, step: Step)
    requires FullBlocks(s) && Enabled(s, step)
    ensures FullBlocks(Next(s, step))
    ensures s.dropped <= Next(s, step).dropped
    ensures step != Cut ==> Next(s, step).dropped == s.dropped
    ensures step == Cut ==> Next(s, step).dropped != {}
  {
    if step == Cut {
      var d := s.batch[KEPT..];
      assert d[0] == s.batch[KEPT];
      FlatConcat([d[0]], d[1..]);
      FlatOne(d[0]);
      assert d == [d[0]] + d[1..];
      assert d[0][0] in Flat(d) && d[0][0].id in Ids(Flat(d));
    }
  }

  lemma {:induction false} RunDrops(s: State, steps: seq<Step>, t: State)
    requires FullBlocks(s) && IsRun(s, steps, t)
    ensures s.dropped <= t.dropped
    ensures t.dropped == s.dropped || t.dropped != {}
    ensures Cut !in steps ==> t.dropped == s.dropped
    ensures Cut in steps ==> t.dropped != {}
    decreases |steps|
  {
    if steps != [] {
      StepKeepsFullBlocks(s, steps[0]);
      RunDrops(Next(s, steps[0]), steps[1..], t);
    }
  }

  /** File, batch, pending list and current block together are exactly the appended lines if
      and only if the worker never found a batch longer than the limit. */
  lemma CompleteWithoutCuts(steps: seq<Step>, t: State)
    requires IsRun(INITIAL, steps, t)
    ensures Live(t) == Numbered(t.history) <==> Cut !in steps
  {
    InitiallyConserved();
    StartsFull();
    RunConserves(INITIAL, steps, t);
    RunDrops(INITIAL, steps, t);
    hide *;
    ConservedFacts(t);
    if Cut in steps {
      var id :| id in t.dropped;
      assert Numbered(t.history)[id] in Numbered(t.history);
    } else {
      OrderedAndFull(Live(t), t.history);
    }
  }

  lemma StartsFull()
    ensures FullBlocks(INITIAL) && INITIAL.dropped == {}
  {
  }

  lemma ConservedFacts(s: State)
    requires Conserved(s)
    ensures InOrder(Live(s))
            && forall e :: e in Live(s) ==> e.id < |s.history| && e.text == s.history[e.id] && e.id !in s.dropped
    ensures forall id: nat :: id < |s.history| && id !in s.dropped ==> Entry(id, s.history[id]) in Live(s)
    ensures forall id :: id in s.dropped ==> id < |s.history|
  {
    hide Live;
    hide InOrder;
  }

  lemma LastComesLast(b: Block, history: seq<Line>)
    requires InOrder(b) && history != []
    requires forall e :: e in b ==> e.id < |history|
    requires Entry(|history| - 1, history[|history| - 1]) in b
    ensures b != [] && b[|b| - 1] == Entry(|history| - 1, history[|history| - 1])
    ensures forall e :: e in b[..|b| - 1] ==> e.id < |history| - 1
  {
    var k :| 0 <= k < |b| && b[k] == Entry(|history| - 1, history[|history| - 1]);
    assert forall i :: 0 <= i < |b| ==> b[i] in b;
  }

  lemma {:induction false} OrderedAndFull(b: Block, history: seq<Line>)
    requires InOrder(b)
    requires forall e :: e in b ==> e.id < |history| && e.text == history[e.id]
    requires forall id: nat :: id < |history| ==> Entry(id, history[id]) in b
    ensures b == Numbered(history)
  {
    assert b == [] || b[0] in b;
    if history != [] {
      var n := |history| - 1;
      LastComesLast(b, history);
      var b' := b[..|b| - 1];
      assert b == b' + [b[|b| - 1]];
      forall e | e in b' ensures e.text == history[..n][e.id] { assert e in b; }
      forall id: nat | id < n ensures Entry(id, history[..n][id]) in b' {
        assert Entry(id, history[id]) in b;
      }
      OrderedAndFull(b', history[..n]);
    }
  }

  // ----- when a batch is cut --------------------------------------------------------------------

  /** The states that the steps of a run lead through. */
  ghost predicate Trace(states: seq<State>, steps: seq<Step>) {
    && |states| == |steps| + 1 && states[0] == INITIAL
    && forall k {:trigger steps[k]} :: 0 <= k < |steps| ==>
         Enabled(states[k], steps[k]) && states[k + 1] == Next(states[k], steps[k])
  }

  lemma {:induction false} TraceIsRun(states: seq<State>, steps: seq<Step>, k: nat)
    requires Trace(states, steps) && k <= |steps|
    ensures IsRun(states[k], steps[k..], states[|steps|])
    decreases |steps| - k
  {
    if k < |steps| {
      TraceIsRun(states, steps, k + 1);
      assert steps[k..][0] == steps[k] && steps[k..][1..] == steps[k + 1..];
    }
    hide Enabled;
    hide Next;
  }

  /** Every run leads through such states. */
  lemma {:induction false} RunHasTrace(steps: seq<Step>, t: State) returns (states: seq<State>)
    requires IsRun(INITIAL, steps, t)
    ensures Trace(states, steps) && states[|steps|] == t
  {
    states := [INITIAL];
    assert steps[0..] == steps;
    for k := 0 to |steps|
      invariant |states| == k + 1 && states[0] == INITIAL && IsRun(states[k], steps[k..], t)
      invariant forall i {:trigger steps[i]} :: 0 <= i < k ==>
                  Enabled(states[i], steps[i]) && states[i + 1] == Next(states[i], steps[i])
    {
      hide Enabled;
      hide Next;
      assert steps[k..][0] == steps[k] && steps[k..][1..] == steps[k + 1..];
      states := states + [Next(states[k], steps[k])];
    }
  }

  /** Step `j` is the last swap before state `k`. */
  ghost predicate LastSwap(steps: seq<Step>, j: nat, k: nat) {
    j < k <= |steps| && steps[j] == Swap && forall i :: j < i < k ==> steps[i] != Swap
  }

  /** Until it is written or cut, the batch is what the last swap took: the buffers pending then and the
      current one. */
  lemma {:induction false} BatchOfLastSwap(states: seq<State>, steps: seq<Step>, k: nat) returns (j: nat)
    requires Trace(states, steps) && k <= |steps| && (states[k].phase == Swapped || states[k].phase == Noticed)
    ensures LastSwap(steps, j, k) && states[k].batch == states[j].pending + [states[j].current]
    decreases k
  {
    assert k > 0;
    var step := steps[k - 1];
    assert Enabled(states[k - 1], step) && states[k] == Next(states[k - 1], step);
    if step == Swap {
      j := k - 1;
    } else {
      BatchStays(states[k - 1], step);
      j := BatchOfLastSwap(states, steps, k - 1);
    }
  }

  lemma BatchStays(s: State, step: Step)
    requires Enabled(s, step) && step != Swap && (Next(s, step).phase == Swapped || Next(s, step).phase == Noticed)
    ensures (s.phase == Swapped || s.phase == Noticed) && Next(s, step).batch == s.batch
  {
    hide Text;
  }

  /** The worker drops lines if and only if the last swap took 26 buffers or more: then it logs a notice and
      cuts the batch to its first two buffers, and else it goes on to write all of them. */
  lemma CutMeansMany(states: seq<State>, steps: seq<Step>, k: nat) returns (j: nat)
    requires Trace(states, steps) && k < |steps|
    requires steps[k].Notice? || steps[k] == Cut || steps[k] == Proceed
    ensures LastSwap(steps, j, k) && states[k].batch == states[j].pending + [states[j].current]
    ensures steps[k].Notice? || steps[k] == Cut <==> |states[j].pending| >= 25
    ensures steps[k] == Cut ==>
              && states[k + 1].batch == states[k].batch[..2]
              && states[k + 1].dropped == states[k].dropped + Ids(Flat(states[k].batch[2..]))
  {
    assert Enabled(states[k], steps[k]) && states[k + 1] == Next(states[k], steps[k]);
    j := BatchOfLastSwap(states, steps, k);
    assert |states[k].batch| == |states[j].pending| + 1;
  }

  /** As long as no swap finds more than 24 buffers pending, no line is lost. */
  lemma CompleteWhenFew(states: seq<State>, steps: seq<Step>)
    requires Trace(states, steps)
    requires forall k :: 0 <= k < |steps| && steps[k] == Swap ==> |states[k].pending| <= 24
    ensures Cut !in steps && forall step <- steps :: !step.Notice?
    ensures var t := states[|steps|]; Live(t) == Numbered(t.history)
  {
    hide *;
    forall step <- steps ensures step != Cut && !step.Notice? {
      var k :| 0 <= k < |steps| && steps[k] == step;
      if step == Cut || step.Notice? {
        var j := CutMeansMany(states, steps, k);
        LastIsSwap(steps, j, k);
      }
    }
    TraceStarts(states, steps);
    TraceIsRun(states, steps, 0);
    assert steps[0..] == steps;
    CompleteWithoutCuts(steps, states[|steps|]);
  }

  lemma TraceStarts(states: seq<State>, steps: seq<Step>)
    requires Trace(states, steps)
    ensures |states| == |steps| + 1 && states[0] == INITIAL
  {
  }

  lemma LastIsSwap(steps: seq<Step>, j: nat, k: nat)
    requires LastSwap(steps, j, k)
    ensures j < |steps| && steps[j] == Swap
  {
  }

  // ----- how full the buffers are -----------------------------------------------------------------

  /** Each block is followed by a line that did not fit behind it. */
  ghost predicate Brimful(blocks: seq<Block>) {
    forall i {:trigger blocks[i]} :: 0 < i < |blocks| ==>
      blocks[i] != [] && |Text(blocks[i - 1])| + |blocks[i][0].text| >= 4_194_304
  }

  ghost predicate AllFit(blocks: seq<Block>) { forall b <- blocks :: |Text(b)| < 4_194_304 }

  /** No block holds four megabytes, and one is only left for the next when the next line would have made it
      four megabytes or more. */
  ghost predicate WellFilled(s: State) {
    AllFit(s.pending + [s.current]) && AllFit(s.batch) && Brimful(s.pending + [s.current]) && Brimful(s.batch)
  }

  lemma StepFills(s: State, step: Step)
    requires WellFilled(s) && Enabled(s, step)
    ensures WellFilled(Next(s, step))
  {
    match step {
      case Append(line) => AppendFills(s, line);
      case Notice(line) => AppendFills(s, line);
      case _ =>
    }
    hide Text;
  }

  lemma AppendFills(s: State, line: Line)
    requires WellFilled(s) && |line| < 4_194_304
    ensures WellFilled(Appended(s, line))
  {
    var e := Entry(|s.history|, line);
    TextConcat(s.current, [e]);
    TextOne(e);
    assert Appended(s, line).batch == s.batch;
    hide Text;
    if |Text(s.current)| + |line| < 4_194_304 {
      LastLonger(s.pending, s.current, e);
    } else {
      OneBlockMore(s.pending, s.current, e);
    }
    hide Brimful;
    hide AllFit;
  }

  lemma LastLonger(pending: seq<Block>, b: Block, e: Entry)
    requires AllFit(pending + [b]) && Brimful(pending + [b]) && |Text(b + [e])| < 4_194_304
    ensures AllFit(pending + [b + [e]]) && Brimful(pending + [b + [e]])
  {
    hide Text;
    var was: seq<Block>, now: seq<Block> := pending + [b], pending + [b + [e]];
    forall c | c in now ensures |Text(c)| < 4_194_304 { assert c == b + [e] || c in was; }
    forall i {:trigger now[i]} | 0 < i < |now|
      ensures now[i] != [] && |Text(now[i - 1])| + |now[i][0].text| >= 4_194_304
    {
      assert was[i] != [] && now[i][0] == was[i][0] && now[i - 1] == was[i - 1];
    }
  }

  lemma OneBlockMore(pending: seq<Block>, b: Block, e: Entry)
    requires AllFit(pending + [b]) && Brimful(pending + [b])
    requires |Text([e])| == |e.text| < 4_194_304 <= |Text(b)| + |e.text|
    ensures AllFit(pending + [b] + [[e]]) && Brimful(pending + [b] + [[e]])
  {
    hide Text;
    var was: seq<Block>, now: seq<Block> := pending + [b], pending + [b] + [[e]];
    forall c | c in now ensures |Text(c)| < 4_194_304 { assert c == [e] || c in was; }
    forall i {:trigger now[i]} | 0 < i < |now|
      ensures now[i] != [] && |Text(now[i - 1])| + |now[i][0].text| >= 4_194_304
    {
      assert now[i - 1] == was[i - 1];
      if i < |was| { assert was[i] == now[i]; }
    }
  }

  lemma TextOne(e: Entry)
    ensures Text([e]) == e.text
  {
    assert [e][..0] == [] && Text([]) == [];
  }

  lemma {:induction false} RunFills(s: State, steps: seq<Step>, t: State)
    requires WellFilled(s) && IsRun(s, steps, t)
    ensures WellFilled(t)
    decreases |steps|
  {
    hide WellFilled;
    hide Enabled;
    hide Next;
    if steps != [] {
      StepFills(s, steps[0]);
      RunFills(Next(s, steps[0]), steps[1..], t);
    }
  }

  /** In every interleaving. */
  lemma BuffersFilled(steps: seq<Step>, t: State)
    requires IsRun(INITIAL, steps, t)
    ensures WellFilled(t)
  {
    assert WellFilled(INITIAL);
    RunFills(INITIAL, steps, t);
  }

  // ----- what is missing at the end ---------------------------------------------------------

  /** The worker looks whether it should stop only before it swaps. */
  predicate CanExit(s: State) { s.phase == Waiting }

  predicate Logs(step: Step) { step.Append? || step.Notice? }

  /** How many lines the steps log. */
  function Logged(steps: seq<Step>): nat {
    if steps == [] then 0 else (if Logs(steps[0]) then 1 else 0) + Logged(steps[1..])
  }

  /** A swap follows the step that logs line `id`, if `logged` lines were there at the start. */
  ghost predicate SwapFollows(steps: seq<Step>, logged: nat, id: nat) {
    exists k {:trigger steps[k]} :: 0 <= k < |steps| && steps[k] == Swap && id < logged + Logged(steps[..k])
  }

  /** The lines from `base` on. */
  function Since(history: seq<Line>, base: nat): (b: Block)
    requires base <= |history|
    ensures |b| == |history| - base
  {
    seq(|history| - base, i requires 0 <= i < |history| - base => Entry(base + i, history[base + i]))
  }

  /** What the worker has not taken yet are the lines from `base` on. */
  ghost predicate FrontFrom(s: State, base: nat) {
    base <= |s.history| && Flat(s.pending) + s.current == Since(s.history, base)
  }

  /** The first line that was not there when the worker last swapped. */
  function Base(steps: seq<Step>, logged: nat, base: nat): nat {
    if steps == [] then base
    else Base(steps[1..], logged + (if Logs(steps[0]) then 1 else 0), if steps[0] == Swap then logged else base)
  }

  lemma FrontStep(s: State, step: Step, base: nat)
    requires Enabled(s, step) && FrontFrom(s, base)
    ensures |Next(s, step).history| == |s.history| + if Logs(step) then 1 else 0
    ensures FrontFrom(Next(s, step), if step == Swap then |s.history| else base)
  {
    if Logs(step) {
      FrontAppend(s, if step.Append? then step.line else step.line, base);
    } else if step == Swap {
      assert Flat([]) + [] == Since(s.history, |s.history|);
    }
  }

  lemma FrontAppend(s: State, line: Line, base: nat)
    requires FrontFrom(s, base)
    ensures FrontFrom(Appended(s, line), base)
  {
    var e := Entry(|s.history|, line);
    assert Since(s.history + [line], base) == Since(s.history, base) + [e];
    FlatConcat(s.pending, [s.current]);
    FlatOne(s.current);
    assert Flat(s.pending) + s.current + [e] == Flat(s.pending) + (s.current + [e]);
  }

  lemma {:induction false} FrontRun(s: State, steps: seq<Step>, t: State, base: nat)
    requires IsRun(s, steps, t) && FrontFrom(s, base)
    ensures FrontFrom(t, Base(steps, |s.history|, base))
    decreases |steps|
  {
    hide Next;
    hide Enabled;
    hide FrontFrom;
    if steps != [] {
      FrontStep(s, steps[0], base);
      FrontRun(Next(s, steps[0]), steps[1..], t, if steps[0] == Swap then |s.history| else base);
    }
  }

  lemma {:induction false} BaseMeans(steps: seq<Step>, logged: nat, base: nat, id: nat)
    requires base <= logged
    ensures id < Base(steps, logged, base) <==> id < base || SwapFollows(steps, logged, id)
    decreases |steps|
  {
    if steps != [] {
      var more := logged + if Logs(steps[0]) then 1 else 0;
      BaseMeans(steps[1..], more, if steps[0] == Swap then logged else base, id);
      LaterSwap(steps, logged, more, id);
    }
  }

  lemma LaterSwap(steps: seq<Step>, logged: nat, more: nat, id: nat)
    requires steps != [] && more == logged + if Logs(steps[0]) then 1 else 0
    ensures SwapFollows(steps, logged, id) <==> (steps[0] == Swap && id < logged) || SwapFollows(steps[1..], more, id)
  {
    forall k | 0 < k < |steps| ensures logged + Logged(steps[..k]) == more + Logged(steps[1..][..k - 1]) {
      assert steps[..k][1..] == steps[1..][..k - 1];
    }
    if SwapFollows(steps, logged, id) {
      var k :| 0 <= k < |steps| && steps[k] == Swap && id < logged + Logged(steps[..k]);
      if k > 0 { assert steps[1..][k - 1] == Swap; }
    }
    if SwapFollows(steps[1..], more, id) {
      var k :| 0 <= k < |steps[1..]| && steps[1..][k] == Swap && id < more + Logged(steps[1..][..k]);
      assert steps[k + 1] == Swap;
    }
    if steps[0] == Swap && id < logged { assert steps[..0] == []; }
  }

  /** When the worker stops, a line that was not dropped is in the file if and only if a swap followed its
      append; all others are lost with the process. */
  lemma LostAtExit(steps: seq<Step>, t: State, id: nat)
    requires IsRun(INITIAL, steps, t) && CanExit(t) && id < |t.history| && id !in t.dropped
    ensures Entry(id, t.history[id]) in t.written <==> SwapFollows(steps, 0, id)
  {
    InitiallyConserved();
    RunConserves(INITIAL, steps, t);
    assert Flat([]) + [] == Since([], 0);
    FrontRun(INITIAL, steps, t, 0);
    BaseMeans(steps, 0, 0, id);
    var base := Base(steps, 0, 0);
    hide IsRun;
    hide Base;
    WrittenBefore(t, base, id);
  }

  lemma WrittenBefore(t: State, base: nat, id: nat)
    requires Conserved(t) && CanExit(t) && FrontFrom(t, base) && id < |t.history| && id !in t.dropped
    ensures Entry(id, t.history[id]) in t.written <==> id < base
  {
    var e, front := Entry(id, t.history[id]), Flat(t.pending) + t.current;
    assert Unwritten(t) == [] && Flat([]) == [];
    assert Live(t) == t.written + front;
    assert e in Live(t);
    if id >= base { assert front[id - base] == e; }
    forall i, j | 0 <= i < |t.written| && 0 <= j < |front| ensures t.written[i].id < front[j].id {
      assert Live(t)[i] == t.written[i] && Live(t)[|t.written| + j] == front[j];
    }
    hide Flat;
  }
}
