/** The buffers of the logger as a picture of its memory: which buffers are allocated, how
    they are linked, and who owns each (lualib-src/lua-log.c). */
module LogBuffers {
  import opened Words
  import opened LogMachine

  /** A `struct buffer *`. A pointer can be followed only while its buffer is in the heap, so
      whatever verifies does not touch NULL or freed memory. */
  type Pointer = nat
  const NULL: Pointer := 0

  /** `struct buffer`. `data` is the used part of its array. */
  datatype Buffer = Buffer(next: Pointer, data: seq<byte>, size: nat)

  const ZEROED := Buffer(NULL, [], 0)

  type Heap = map<Pointer, Buffer>

  /** The fields of `inst`, the locals of `worker_func`, and what was handed to `fwrite`. */
  datatype Memory = Memory(
    heap: Heap,
    current: Pointer, spare: Pointer, head: Pointer, tail: Pointer, count: nat,
    batchHead: Pointer, batchTail: Pointer, batchCount: nat, reserve1: Pointer, reserve2: Pointer, node: Pointer,
    file: seq<byte>
  )

  /** Who owns a buffer; the buffers of the two lists are numbered in the order they joined
      the pending list. */
  datatype Owner = Current | Spare | Reserve1 | Reserve2 | Listed(serial: nat)

  datatype Roles = Roles(
    owners: map<Pointer, Owner>,
    pending: seq<Pointer>, pendingBase: nat,
    batch: seq<Pointer>, batchBase: nat
  )

  // ----- lists ----------------------------------------------------------------------

  ghost predicate Holds(heap: Heap, p: Pointer, block: Block) {
    p in heap && heap[p].data == Text(block) && heap[p].size == |heap[p].data| < BUFFER_SIZE
  }

  /** A linked list of buffers that hold `blocks`; the last one links to `end`. */
  ghost predicate Linked(heap: Heap, nodes: seq<Pointer>, end: Pointer, blocks: seq<Block>) {
    && |nodes| == |blocks|
    && forall i {:trigger nodes[i]} :: 0 <= i < |nodes| ==>
         && Holds(heap, nodes[i], blocks[i])
         && heap[nodes[i]].next == if i + 1 < |nodes| then nodes[i + 1] else end
  }

  ghost predicate Serials(owners: map<Pointer, Owner>, nodes: seq<Pointer>, base: nat) {
    forall i {:trigger nodes[i]} :: 0 <= i < |nodes| ==>
      nodes[i] in owners && owners[nodes[i]] == Listed(base + i)
  }

  ghost predicate At(nodes: seq<Pointer>, base: nat, serial: int, p: Pointer) {
    base <= serial < base + |nodes| && nodes[serial - base] == p
  }

  function NodeAt(nodes: seq<Pointer>, k: nat): Pointer { if k < |nodes| then nodes[k] else NULL }

  function Last(nodes: seq<Pointer>): Pointer { if nodes == [] then NULL else nodes[|nodes| - 1] }

  function One(p: Pointer): nat { if p == NULL then 0 else 1 }

  lemma LinkedStays(heap: Heap, heap': Heap, nodes: seq<Pointer>, end: Pointer, blocks: seq<Block>)
    requires Linked(heap, nodes, end, blocks)
    requires forall p :: p in nodes && p in heap ==> p in heap' && heap'[p] == heap[p]
    ensures Linked(heap', nodes, end, blocks)
  {
  }

  /** A buffer that the list links on to becomes its last. */
  lemma LinkedGrows(heap: Heap, heap': Heap, nodes: seq<Pointer>, blocks: seq<Block>,
                    p: Pointer, block: Block, end: Pointer)
    requires Linked(heap, nodes, p, blocks)
    requires forall q :: q in nodes && q in heap ==> q in heap' && heap'[q] == heap[q]
    requires Holds(heap', p, block) && heap'[p].next == end
    ensures Linked(heap', nodes + [p], end, blocks + [block])
  {
  }

  lemma SerialsStay(owners: map<Pointer, Owner>, owners': map<Pointer, Owner>, nodes: seq<Pointer>, base: nat)
    requires Serials(owners, nodes, base)
    requires forall p :: p in nodes && p in owners ==> p in owners' && owners'[p] == owners[p]
    ensures Serials(owners', nodes, base)
  {
  }

  lemma SerialsGrow(owners: map<Pointer, Owner>, owners': map<Pointer, Owner>, nodes: seq<Pointer>, base: nat,
                    p: Pointer)
    requires Serials(owners, nodes, base)
    requires forall q :: q in nodes && q in owners ==> q in owners' && owners'[q] == owners[q]
    requires p in owners' && owners'[p] == Listed(base + |nodes|)
    ensures Serials(owners', nodes + [p], base)
  {
  }

  /** A buffer that no list owns is in no list. */
  lemma NotListed(owners: map<Pointer, Owner>, nodes: seq<Pointer>, base: nat, p: Pointer)
    requires Serials(owners, nodes, base) && (p in owners ==> !owners[p].Listed?)
    ensures p !in nodes
  {
    forall i | 0 <= i < |nodes| ensures nodes[i] != p { assert nodes[i] in owners; }
  }

  /** No buffer is in a list twice. */
  lemma SerialsDistinct(owners: map<Pointer, Owner>, nodes: seq<Pointer>, base: nat)
    requires Serials(owners, nodes, base)
    ensures forall i, j :: 0 <= i < j < |nodes| ==> nodes[i] != nodes[j]
    ensures forall i :: 0 <= i < |nodes| ==> nodes[i] in owners
  {
    forall i, j | 0 <= i < j < |nodes| ensures nodes[i] != nodes[j] {
      assert owners[nodes[i]] == Listed(base + i) && owners[nodes[j]] == Listed(base + j);
    }
  }

  lemma AtGrows(nodes: seq<Pointer>, base: nat, p: Pointer)
    ensures forall serial, q :: At(nodes, base, serial, q) ==> At(nodes + [p], base, serial, q)
    ensures At(nodes + [p], base, base + |nodes|, p)
  {
    forall serial, q | At(nodes, base, serial, q) ensures At(nodes + [p], base, serial, q) {
      assert (nodes + [p])[serial - base] == nodes[serial - base];
    }
  }

  // ----- what always holds -------------------------------------------------------------

  /** Every live buffer is where its owner says, so none is owned twice. */
  ghost predicate Placed(m: Memory, r: Roles) {
    forall p {:trigger p in r.owners} :: p in r.owners ==>
      match r.owners[p]
      case Current => p == m.current
      case Spare => p == m.spare
      case Reserve1 => p == m.reserve1
      case Reserve2 => p == m.reserve2
      case Listed(serial) => At(r.pending, r.pendingBase, serial, p) || At(r.batch, r.batchBase, serial, p)
  }

  ghost predicate Owned(m: Memory, r: Roles) {
    r.owners.Keys == m.heap.Keys && NULL !in m.heap && Placed(m, r)
  }

  /** Unless NULL, `p` is a zeroed buffer that `owner` owns. */
  ghost predicate Idle(m: Memory, r: Roles, p: Pointer, owner: Owner) {
    p != NULL ==> p in m.heap && m.heap[p] == ZEROED && p in r.owners && r.owners[p] == owner
  }

  ghost predicate SinglesOk(m: Memory, r: Roles, s: State) {
    && Holds(m.heap, m.current, s.current) && m.heap[m.current].next == NULL
    && m.current in r.owners && r.owners[m.current] == Current
    && Idle(m, r, m.spare, Spare)
    && Idle(m, r, m.reserve1, Reserve1)
    && Idle(m, r, m.reserve2, Reserve2)
  }

  /** The last pending buffer links on to the current one. */
  ghost predicate PendingOk(m: Memory, r: Roles, s: State) {
    && Linked(m.heap, r.pending, m.current, s.pending)
    && Serials(r.owners, r.pending, r.pendingBase)
    && m.head == NodeAt(r.pending, 0) && m.tail == Last(r.pending) && m.count == |r.pending|
  }

  ghost predicate BatchOk(m: Memory, r: Roles, s: State) {
    && Linked(m.heap, r.batch, NULL, s.batch)
    && Serials(r.owners, r.batch, r.batchBase) && r.batchBase + |r.batch| <= r.pendingBase
    && m.batchHead == NodeAt(r.batch, 0) && m.batchTail == Last(r.batch) && m.batchCount == |r.batch|
  }

  /** Between swap and recycling the first reserve is used up, and the second only when the
      batch is at least two buffers long. */
  ghost predicate Staged(m: Memory, r: Roles, s: State) {
    && m.file == Text(s.written)
    && (m.spare == NULL ==> r.pending != [])
    && if s.phase == Waiting then r.batch == [] && m.reserve1 != NULL && m.reserve2 != NULL
       else && m.reserve1 == NULL && r.batch != [] && (m.reserve2 == NULL ==> |r.batch| >= 2)
            && (s.phase.Writing? ==> s.phase.done <= |r.batch| && m.node == NodeAt(r.batch, s.phase.done))
  }

  ghost predicate Ok(m: Memory, r: Roles, s: State) {
    Owned(m, r) && SinglesOk(m, r, s) && PendingOk(m, r, s) && BatchOk(m, r, s) && Staged(m, r, s)
  }

  const INITIAL_MEMORY := Memory(
    map[1 := ZEROED, 2 := ZEROED, 3 := ZEROED, 4 := ZEROED],
    1, 2, NULL, NULL, 0, NULL, NULL, 0, 3, 4, NULL, [])

  const INITIAL_ROLES := Roles(map[1 := Current, 2 := Spare, 3 := Reserve1, 4 := Reserve2], [], 0, [], 0)

  lemma InitiallyOk()
    ensures Ok(INITIAL_MEMORY, INITIAL_ROLES, INITIAL)
  {
    assert INITIAL_ROLES.owners.Keys == INITIAL_MEMORY.heap.Keys;
  }

  // ----- storing a line -----------------------------------------------------------------

  function Put(b: Buffer, line: Line): Buffer { b.(data := b.data + line, size := b.size + |line|) }

  function Stored(m: Memory, line: Line): Memory
    requires m.current in m.heap
  {
    m.(heap := m.heap[m.current := Put(m.heap[m.current], line)])
  }

  function StoredState(s: State, line: Line): State {
    s.(current := s.current + [Entry(|s.history|, line)], history := s.history + [line])
  }

  lemma HoldsPut(heap: Heap, p: Pointer, block: Block, id: nat, line: Line)
    requires Holds(heap, p, block) && heap[p].size + |line| < BUFFER_SIZE
    ensures Holds(heap[p := Put(heap[p], line)], p, block + [Entry(id, line)])
  {
    assert (block + [Entry(id, line)])[..|block|] == block;
  }

  lemma StoreLists(m: Memory, r: Roles, s: State, line: Line)
    requires Ok(m, r, s)
    ensures PendingOk(Stored(m, line), r, StoredState(s, line)) && BatchOk(Stored(m, line), r, StoredState(s, line))
  {
    hide Owned;
    hide Staged;
    hide Idle;
    assert m.current in m.heap;
    hide Holds;
    NotListed(r.owners, r.pending, r.pendingBase, m.current);
    NotListed(r.owners, r.batch, r.batchBase, m.current);
    hide Serials;
    LinkedStays(m.heap, Stored(m, line).heap, r.pending, m.current, s.pending);
    LinkedStays(m.heap, Stored(m, line).heap, r.batch, NULL, s.batch);
    hide Linked;
  }

  lemma StoreSingles(m: Memory, r: Roles, s: State, line: Line)
    requires Ok(m, r, s) && m.heap[m.current].size + |line| < BUFFER_SIZE
    ensures SinglesOk(Stored(m, line), r, StoredState(s, line))
  {
    hide Owned;
    hide PendingOk;
    hide BatchOk;
    hide Staged;
    hide Text;
    HoldsPut(m.heap, m.current, s.current, |s.history|, line);
  }

  lemma StoreOwned(m: Memory, r: Roles, s: State, line: Line)
    requires Ok(m, r, s)
    ensures Owned(Stored(m, line), r)
  {
    hide PendingOk;
    hide BatchOk;
    hide Staged;
    hide Text;
    hide At;
  }

  lemma StoreOk(m: Memory, r: Roles, s: State, line: Line)
    requires Ok(m, r, s) && m.heap[m.current].size + |line| < BUFFER_SIZE
    ensures Ok(Stored(m, line), r, StoredState(s, line))
  {
    hide PendingOk;
    hide BatchOk;
    hide SinglesOk;
    hide Owned;
    StoreLists(m, r, s, line);
    StoreSingles(m, r, s, line);
    StoreOwned(m, r, s, line);
  }

  // ----- moving to the next buffer ---------------------------------------------------------

  /** `p`, the spare buffer or a new one, becomes current behind the full one. */
  function Rotated(m: Memory, p: Pointer): Memory
    requires m.current in m.heap
  {
    var heap := if m.spare == NULL then m.heap[p := ZEROED] else m.heap;
    m.(heap := heap[m.current := m.heap[m.current].(next := p)],
       head := if m.head == NULL then m.current else m.head, tail := m.current, count := m.count + 1,
       current := p, spare := NULL)
  }

  ghost function RotatedRoles(m: Memory, r: Roles, p: Pointer): Roles {
    r.(owners := r.owners[m.current := Listed(r.pendingBase + |r.pending|)][p := Current],
       pending := r.pending + [m.current])
  }

  ghost predicate NextBuffer(m: Memory, p: Pointer) {
    p != NULL && if m.spare == NULL then p !in m.heap else p == m.spare
  }

  function RotatedState(s: State): State { s.(pending := s.pending + [s.current], current := []) }

  lemma RotateOwned(m: Memory, r: Roles, s: State, p: Pointer)
    requires Ok(m, r, s) && NextBuffer(m, p)
    ensures Owned(Rotated(m, p), RotatedRoles(m, r, p))
  {
    hide PendingOk;
    hide BatchOk;
    hide Holds;
    hide At;
    AtGrows(r.pending, r.pendingBase, m.current);
  }

  lemma RotateLists(m: Memory, r: Roles, s: State, p: Pointer)
    requires Ok(m, r, s) && NextBuffer(m, p)
    ensures Linked(Rotated(m, p).heap, r.pending + [m.current], p, s.pending + [s.current])
    ensures Serials(RotatedRoles(m, r, p).owners, r.pending + [m.current], r.pendingBase)
    ensures Linked(Rotated(m, p).heap, r.batch, NULL, s.batch)
    ensures Serials(RotatedRoles(m, r, p).owners, r.batch, r.batchBase)
  {
    var m', r' := Rotated(m, p), RotatedRoles(m, r, p);
    assert p in r.owners ==> r.owners[p] == Spare;
    hide Owned;
    hide Staged;
    NotListed(r.owners, r.pending, r.pendingBase, m.current);
    NotListed(r.owners, r.batch, r.batchBase, m.current);
    NotListed(r.owners, r.pending, r.pendingBase, p);
    NotListed(r.owners, r.batch, r.batchBase, p);
    hide Linked;
    hide Serials;
    LinkedGrows(m.heap, m'.heap, r.pending, s.pending, m.current, s.current, p);
    LinkedStays(m.heap, m'.heap, r.batch, NULL, s.batch);
    SerialsGrow(r.owners, r'.owners, r.pending, r.pendingBase, m.current);
    SerialsStay(r.owners, r'.owners, r.batch, r.batchBase);
  }

  lemma RotateSingles(m: Memory, r: Roles, s: State, p: Pointer)
    requires Ok(m, r, s) && NextBuffer(m, p)
    ensures SinglesOk(Rotated(m, p), RotatedRoles(m, r, p), RotatedState(s))
  {
    hide PendingOk;
    hide BatchOk;
    hide Staged;
    hide At;
  }

  lemma RotateOk(m: Memory, r: Roles, s: State, p: Pointer)
    requires Ok(m, r, s) && NextBuffer(m, p)
    ensures Ok(Rotated(m, p), RotatedRoles(m, r, p), RotatedState(s))
  {
    RotateOwned(m, r, s, p);
    RotateLists(m, r, s, p);
    RotateSingles(m, r, s, p);
    hide Owned;
    hide Linked;
    hide Serials;
    hide Holds;
    hide Idle;
  }

  // ----- what the code may rely on -----------------------------------------------------------

  lemma FrontFacts(m: Memory, r: Roles, s: State)
    requires Ok(m, r, s)
    ensures m.current in m.heap && m.heap[m.current].next == NULL && NULL !in m.heap
    ensures m.heap[m.current].size == |Text(s.current)|
    ensures m.head == NULL <==> m.tail == NULL
    ensures m.head == NULL <==> r.pending == []
    ensures m.head != NULL ==> m.tail in m.heap && m.heap[m.tail].next == m.current
  {
    hide BatchOk;
    hide Staged;
    if r.pending != [] {
      assert r.pending[0] in m.heap;
      assert r.pending[|r.pending| - 1] in m.heap;
    }
  }

  lemma BatchFacts(m: Memory, r: Roles, s: State, k: nat)
    requires Ok(m, r, s) && k < |r.batch|
    ensures r.batch[k] != NULL && r.batch[k] in m.heap && r.batch[k] in r.owners
    ensures m.heap[r.batch[k]].next == NodeAt(r.batch, k + 1)
    ensures forall j :: 0 <= j < |r.batch| && j != k ==> r.batch[j] != r.batch[k]
    ensures m.heap[r.batch[k]].data == Text(s.batch[k])
    ensures m.heap[r.batch[k]].size == |Text(s.batch[k])|
  {
    hide PendingOk;
    hide Staged;
    hide Serials;
    SerialsDistinct(r.owners, r.batch, r.batchBase);
  }

  lemma ReserveFacts(m: Memory, r: Roles, s: State)
    requires Ok(m, r, s) && s.phase == Waiting
    ensures m.batchHead == NULL
    ensures m.reserve1 in m.heap && m.heap[m.reserve1] == ZEROED
    ensures m.reserve2 in m.heap && m.heap[m.reserve2] == ZEROED
  {
    hide Owned;
    hide PendingOk;
    hide Linked;
    hide Serials;
  }

  /** The tests the worker makes on its pointers and counters decide which step is enabled. */
  lemma WorkerFacts(m: Memory, r: Roles, s: State)
    requires Ok(m, r, s)
    ensures m.batchCount == |s.batch| == |r.batch| && m.batchHead == NodeAt(r.batch, 0)
    ensures s.phase != Waiting ==> r.batch != [] && m.reserve1 == NULL && (m.reserve2 == NULL ==> |r.batch| >= 2)
    ensures s.phase.Writing? ==>
              if m.node == NULL then Enabled(s, Recycle)
              else Enabled(s, Write) && m.node == r.batch[s.phase.done]
  {
    hide Owned;
    hide PendingOk;
    hide Serials;
    hide Holds;
    if s.phase.Writing? && s.phase.done < |r.batch| { BatchFacts(m, r, s, s.phase.done); }
  }

  // ----- taking everything --------------------------------------------------------------------

  function SwappedMemory(m: Memory): Memory {
    m.(batchHead := if m.head == NULL then m.current else m.head, batchTail := m.current, batchCount := m.count + 1,
       head := NULL, tail := NULL, count := 0,
       current := m.reserve1, reserve1 := NULL,
       spare := if m.spare == NULL then m.reserve2 else m.spare,
       reserve2 := if m.spare == NULL then NULL else m.reserve2)
  }

  ghost function SwappedRoles(m: Memory, r: Roles): Roles {
    var owners := r.owners[m.current := Listed(r.pendingBase + |r.pending|)][m.reserve1 := Current];
    r.(owners := if m.spare == NULL then owners[m.reserve2 := Spare] else owners,
       batch := r.pending + [m.current], batchBase := r.pendingBase,
       pending := [], pendingBase := r.pendingBase + |r.pending| + 1)
  }

  lemma SwapOwned(m: Memory, r: Roles, s: State)
    requires Ok(m, r, s) && s.phase == Waiting
    ensures Owned(SwappedMemory(m), SwappedRoles(m, r))
  {
    hide PendingOk;
    hide BatchOk;
    hide Holds;
    AtGrows(r.pending, r.pendingBase, m.current);
    assert forall serial, q :: !At(r.batch, r.batchBase, serial, q);
    hide At;
  }

  lemma SwapLists(m: Memory, r: Roles, s: State)
    requires Ok(m, r, s) && s.phase == Waiting
    ensures Linked(m.heap, r.pending + [m.current], NULL, s.pending + [s.current])
    ensures Serials(SwappedRoles(m, r).owners, r.pending + [m.current], r.pendingBase)
  {
    hide Owned;
    NotListed(r.owners, r.pending, r.pendingBase, m.current);
    NotListed(r.owners, r.pending, r.pendingBase, m.reserve1);
    NotListed(r.owners, r.pending, r.pendingBase, m.reserve2);
    hide Linked;
    hide Serials;
    LinkedGrows(m.heap, m.heap, r.pending, s.pending, m.current, s.current, NULL);
    SerialsGrow(r.owners, SwappedRoles(m, r).owners, r.pending, r.pendingBase, m.current);
  }

  lemma SwapOk(m: Memory, r: Roles, s: State)
    requires Ok(m, r, s) && Enabled(s, Swap)
    ensures Ok(SwappedMemory(m), SwappedRoles(m, r), Next(s, Swap))
  {
    SwapOwned(m, r, s);
    SwapLists(m, r, s);
    hide Owned;
    var m', r', s' := SwappedMemory(m), SwappedRoles(m, r), Next(s, Swap);
    assert PendingOk(m', r', s');
    hide Linked;
    hide Serials;
    assert SinglesOk(m', r', s') by { hide BatchOk; hide PendingOk; }
  }

  // ----- dropping the tail of a long batch -------------------------------------------------------

  ghost function Without<T>(m: map<Pointer, T>, nodes: seq<Pointer>): map<Pointer, T> {
    m - set p | p in nodes
  }

  ghost function CutMemory(m: Memory, r: Roles): Memory
    requires |r.batch| > KEPT && r.batch[1] in m.heap
  {
    var last := r.batch[1];
    m.(heap := Without(m.heap, r.batch[KEPT..])[last := m.heap[last].(next := NULL)],
       batchTail := last, batchCount := KEPT, node := m.batchHead)
  }

  ghost function CutRoles(r: Roles): Roles
    requires |r.batch| > KEPT
  {
    r.(owners := Without(r.owners, r.batch[KEPT..]), batch := r.batch[..KEPT])
  }

  lemma AtCut(nodes: seq<Pointer>, base: nat, k: nat)
    requires k <= |nodes|
    ensures forall serial, q :: At(nodes, base, serial, q) && q !in nodes[k..] ==> At(nodes[..k], base, serial, q)
  {
    forall i | k <= i < |nodes| ensures nodes[i] in nodes[k..] { assert nodes[k..][i - k] == nodes[i]; }
  }

  lemma WithoutOneMore<T>(m: map<Pointer, T>, nodes: seq<Pointer>, from: nat, k: nat)
    requires from <= k < |nodes|
    ensures Without(m, nodes[from..k]) - {nodes[k]} == Without(m, nodes[from..k + 1])
  {
    assert nodes[from..k + 1] == nodes[from..k] + [nodes[k]];
  }

  lemma WithoutNone<T>(m: map<Pointer, T>, nodes: seq<Pointer>, from: nat)
    requires from <= |nodes|
    ensures Without(m, nodes[from..from]) == m
    ensures nodes[from..|nodes|] == nodes[from..]
  {
  }

  /** Freeing nodes leaves the other buffers as they are. */
  lemma WithoutKeeps<T>(m: map<Pointer, T>, nodes: seq<Pointer>, p: Pointer)
    requires p in m && p !in nodes
    ensures p in Without(m, nodes) && Without(m, nodes)[p] == m[p]
  {
  }

  lemma WithoutUpdate<T>(m: map<Pointer, T>, nodes: seq<Pointer>, p: Pointer, x: T)
    requires p !in nodes
    ensures Without(m[p := x], nodes) == Without(m, nodes)[p := x]
  {
  }

  /** The nodes of a list from index `k` on are live, distinct from those before, and listed. */
  lemma TailOfBatch(m: Memory, r: Roles, s: State, k: nat)
    requires Ok(m, r, s) && k <= |r.batch|
    ensures forall p :: p in r.batch[k..] ==> p in m.heap && p in r.owners && r.owners[p].Listed?
    ensures forall i :: 0 <= i < k ==> r.batch[i] !in r.batch[k..]
    ensures forall p :: p in r.batch[k..] ==> p !in r.pending
    ensures m.current !in r.batch[k..] && m.spare !in r.batch[k..]
    ensures m.reserve1 !in r.batch[k..] && m.reserve2 !in r.batch[k..]
  {
    ListsApart(m, r, s);
    SinglesAlone(m, r, s);
    hide *;
    SerialsDistinct(r.owners, r.batch, r.batchBase);
    forall p | p in r.batch[k..] ensures p in r.owners && r.owners[p].Listed? && p !in r.pending {
      var i :| k <= i < |r.batch| && r.batch[i] == p;
      SerialOf(r.owners, r.batch, r.batchBase, i);
      forall j | 0 <= j < |r.pending| ensures r.pending[j] != p { SerialOf(r.owners, r.pending, r.pendingBase, j); }
    }
  }

  lemma SerialOf(owners: map<Pointer, Owner>, nodes: seq<Pointer>, base: nat, i: nat)
    requires Serials(owners, nodes, base) && i < |nodes|
    ensures nodes[i] in owners && owners[nodes[i]] == Listed(base + i)
  {
  }

  lemma ListsApart(m: Memory, r: Roles, s: State)
    requires Ok(m, r, s)
    ensures Serials(r.owners, r.batch, r.batchBase) && Serials(r.owners, r.pending, r.pendingBase)
    ensures r.batchBase + |r.batch| <= r.pendingBase && m.heap.Keys == r.owners.Keys
  {
    hide Serials;
    hide Linked;
    hide SinglesOk;
    hide Staged;
  }

  /** Buffers outside the lists are not listed. */
  lemma SinglesAlone(m: Memory, r: Roles, s: State)
    requires Ok(m, r, s)
    ensures forall p :: p in {m.current, m.spare, m.reserve1, m.reserve2} && p in r.owners ==> !r.owners[p].Listed?
  {
    hide PendingOk;
    hide BatchOk;
    hide Staged;
  }

  lemma CutPlaced(m: Memory, r: Roles, s: State)
    requires Placed(m, r) && |r.batch| > KEPT && r.batch[1] in m.heap
    ensures Placed(CutMemory(m, r), CutRoles(r))
  {
    AtCut(r.batch, r.batchBase, KEPT);
    hide At;
    var m', r' := CutMemory(m, r), CutRoles(r);
    assert m'.current == m.current && m'.spare == m.spare && m'.reserve1 == m.reserve1 && m'.reserve2 == m.reserve2;
    hide CutMemory;
    forall p | p in r'.owners
      ensures p in r.owners && r'.owners[p] == r.owners[p] && p !in r.batch[KEPT..]
    {
    }
    hide Without;
  }

  lemma CutOwned(m: Memory, r: Roles, s: State)
    requires Ok(m, r, s) && |r.batch| > KEPT && r.batch[1] in m.heap
    ensures Owned(CutMemory(m, r), CutRoles(r))
  {
    hide Placed;
    hide PendingOk;
    hide BatchOk;
    hide SinglesOk;
    hide Staged;
    TailOfBatch(m, r, s, KEPT);
    CutPlaced(m, r, s);
  }

  /** What a cut touches is not pending, and not at the head of the batch. */
  lemma CutUntouched(m: Memory, r: Roles, s: State)
    requires Ok(m, r, s) && |r.batch| > KEPT && r.batch[1] in m.heap
    ensures forall p :: p in r.pending && p in m.heap ==>
              p in CutMemory(m, r).heap && CutMemory(m, r).heap[p] == m.heap[p]
    ensures forall p :: p in r.pending && p in r.owners ==>
              p in CutRoles(r).owners && CutRoles(r).owners[p] == r.owners[p]
  {
    hide Ok;
    TailOfBatch(m, r, s, KEPT);
    TailOfBatch(m, r, s, 1);
    assert r.batch[1..][0] == r.batch[1];
  }

  lemma CutHead(m: Memory, r: Roles, s: State)
    requires Ok(m, r, s) && |r.batch| > KEPT && r.batch[1] in m.heap
    ensures |s.batch| == |r.batch| && Linked(CutMemory(m, r).heap, r.batch[..KEPT], NULL, s.batch[..KEPT])
    ensures Serials(CutRoles(r).owners, r.batch[..KEPT], r.batchBase)
  {
    hide Owned;
    hide Staged;
    hide SinglesOk;
    hide PendingOk;
    hide Text;
    TailOfBatch(m, r, s, KEPT);
    BatchFacts(m, r, s, 0);
    BatchFacts(m, r, s, 1);
    assert r.batch[0] in m.heap && r.batch[0] != r.batch[1];
  }

  lemma CutLists(m: Memory, r: Roles, s: State)
    requires Ok(m, r, s) && |r.batch| > KEPT && r.batch[1] in m.heap
    ensures PendingOk(CutMemory(m, r), CutRoles(r), s)
    ensures |s.batch| == |r.batch| && Linked(CutMemory(m, r).heap, r.batch[..KEPT], NULL, s.batch[..KEPT])
    ensures Serials(CutRoles(r).owners, r.batch[..KEPT], r.batchBase)
  {
    hide Owned;
    hide Staged;
    hide SinglesOk;
    hide BatchOk;
    hide Linked;
    hide Serials;
    hide Without;
    CutHead(m, r, s);
    CutUntouched(m, r, s);
    var m', r' := CutMemory(m, r), CutRoles(r);
    LinkedStays(m.heap, m'.heap, r.pending, m.current, s.pending);
    SerialsStay(r.owners, r'.owners, r.pending, r.pendingBase);
  }

  lemma CutCounts(m: Memory, r: Roles, s: State)
    requires Ok(m, r, s) && Enabled(s, Cut) && |r.batch| > KEPT && r.batch[1] in m.heap
    requires Linked(CutMemory(m, r).heap, r.batch[..KEPT], NULL, s.batch[..KEPT])
    requires Serials(CutRoles(r).owners, r.batch[..KEPT], r.batchBase)
    requires PendingOk(CutMemory(m, r), CutRoles(r), s)
    ensures PendingOk(CutMemory(m, r), CutRoles(r), Next(s, Cut))
    ensures BatchOk(CutMemory(m, r), CutRoles(r), Next(s, Cut))
    ensures Staged(CutMemory(m, r), CutRoles(r), Next(s, Cut))
  {
    hide Owned;
    hide SinglesOk;
    hide Linked;
    hide Serials;
    hide Without;
  }

  lemma CutOk(m: Memory, r: Roles, s: State)
    requires Ok(m, r, s) && Enabled(s, Cut)
    ensures |r.batch| > KEPT && r.batch[1] in m.heap
    ensures Ok(CutMemory(m, r), CutRoles(r), Next(s, Cut))
  {
    hide Owned;
    hide Linked;
    hide Serials;
    hide SinglesOk;
    hide PendingOk;
    hide BatchOk;
    hide Staged;
    hide CutMemory;
    hide CutRoles;
    WorkerFacts(m, r, s);
    BatchFacts(m, r, s, 1);
    CutOwned(m, r, s);
    CutLists(m, r, s);
    CutSingles(m, r, s);
    CutCounts(m, r, s);
  }

  lemma KeptByCut(m: Memory, r: Roles, s: State, p: Pointer)
    requires Ok(m, r, s) && |r.batch| > KEPT && r.batch[1] in m.heap
    requires p in m.heap && p in r.owners && !r.owners[p].Listed?
    ensures p in CutMemory(m, r).heap && CutMemory(m, r).heap[p] == m.heap[p]
    ensures p in CutRoles(r).owners && CutRoles(r).owners[p] == r.owners[p]
  {
    NotListed(r.owners, r.batch, r.batchBase, p);
    hide PendingOk;
    hide BatchOk;
    hide SinglesOk;
    hide Staged;
    hide Owned;
  }

  lemma CutSingles(m: Memory, r: Roles, s: State)
    requires Ok(m, r, s) && Enabled(s, Cut) && |r.batch| > KEPT && r.batch[1] in m.heap
    ensures SinglesOk(CutMemory(m, r), CutRoles(r), Next(s, Cut))
  {
    hide Without;
    hide Owned;
    hide PendingOk;
    hide BatchOk;
    hide Staged;
    hide Text;
    var m', r' := CutMemory(m, r), CutRoles(r);
    KeptByCut(m, r, s, m.current);
    if m.spare != NULL { KeptByCut(m, r, s, m.spare); }
    if m.reserve1 != NULL { KeptByCut(m, r, s, m.reserve1); }
    if m.reserve2 != NULL { KeptByCut(m, r, s, m.reserve2); }
  }

  // ----- writing and recycling ---------------------------------------------------------------------

  lemma ProceedOk(m: Memory, r: Roles, s: State)
    requires Ok(m, r, s) && Enabled(s, Proceed)
    ensures Ok(m.(node := m.batchHead), r, Next(s, Proceed))
  {
    hide Linked;
    hide Serials;
    hide Holds;
    hide At;
  }

  lemma WriteOk(m: Memory, r: Roles, s: State)
    requires Ok(m, r, s) && Enabled(s, Write)
    ensures m.node in m.heap
    ensures Ok(m.(file := m.file + m.heap[m.node].data, node := m.heap[m.node].next), r, Next(s, Write))
  {
    assert |r.batch| == |s.batch|;
    BatchFacts(m, r, s, s.phase.done);
    assert m.node == r.batch[s.phase.done];
    var m' := m.(file := m.file + m.heap[m.node].data, node := m.heap[m.node].next);
    WriteSingles(m, r, s, m');
    WriteOthers(m, r, s, m');
    TextConcat(s.written, s.batch[s.phase.done]);
    hide Owned;
    hide SinglesOk;
    hide PendingOk;
    hide BatchOk;
    hide Text;
  }

  lemma WriteOthers(m: Memory, r: Roles, s: State, m': Memory)
    requires Owned(m, r) && PendingOk(m, r, s) && BatchOk(m, r, s) && Enabled(s, Write)
    requires m' == m.(file := m'.file, node := m'.node)
    ensures Owned(m', r) && PendingOk(m', r, Next(s, Write)) && BatchOk(m', r, Next(s, Write))
  {
    hide At;
    hide Linked;
    hide Serials;
  }

  lemma WriteSingles(m: Memory, r: Roles, s: State, m': Memory)
    requires SinglesOk(m, r, s) && Enabled(s, Write)
    requires m' == m.(file := m'.file, node := m'.node)
    ensures SinglesOk(m', r, Next(s, Write))
  {
    hide Holds;
  }

  /** The first buffer of the batch becomes a reserve, the second one too if both are missing,
      and the others are freed. */
  ghost function Spared(m: Memory): nat { if m.reserve2 == NULL then 2 else 1 }

  ghost function RecycledMemory(m: Memory, r: Roles): Memory
    requires |r.batch| >= Spared(m)
  {
    var heap := Without(m.heap, r.batch[Spared(m)..])[r.batch[0] := ZEROED];
    m.(heap := if m.reserve2 == NULL then heap[r.batch[1] := ZEROED] else heap,
       batchHead := NULL, batchTail := NULL, batchCount := 0,
       reserve1 := r.batch[0], reserve2 := if m.reserve2 == NULL then r.batch[1] else m.reserve2)
  }

  ghost function RecycledRoles(m: Memory, r: Roles): Roles
    requires |r.batch| >= Spared(m)
  {
    var owners := Without(r.owners, r.batch[Spared(m)..])[r.batch[0] := Reserve1];
    r.(owners := if m.reserve2 == NULL then owners[r.batch[1] := Reserve2] else owners,
       batch := [])
  }

  ghost function ZeroedFirst(m: Memory, r: Roles): Heap
    requires |r.batch| >= Spared(m)
  {
    var heap := m.heap[r.batch[0] := ZEROED];
    if m.reserve2 == NULL then heap[r.batch[1] := ZEROED] else heap
  }

  /** Freeing the rest after zeroing the reserves, or before, comes to the same. */
  lemma FreedRest(m: Memory, r: Roles, s: State)
    requires Ok(m, r, s) && |r.batch| >= Spared(m)
    ensures Without(ZeroedFirst(m, r), r.batch[Spared(m)..]) == RecycledMemory(m, r).heap
    ensures forall p :: p in r.batch[Spared(m)..] ==>
              p in m.heap && p in ZeroedFirst(m, r) && ZeroedFirst(m, r)[p] == m.heap[p]
  {
    hide Ok;
    hide Without;
    TailOfBatch(m, r, s, Spared(m));
    var rest := r.batch[Spared(m)..];
    WithoutUpdate(m.heap, rest, r.batch[0], ZEROED);
    if m.reserve2 == NULL { WithoutUpdate(m.heap[r.batch[0] := ZEROED], rest, r.batch[1], ZEROED); }
  }

  lemma RecyclePlaced(m: Memory, r: Roles, s: State)
    requires Placed(m, r) && m.reserve1 == NULL && NULL !in r.owners && |r.batch| >= Spared(m)
    ensures Placed(RecycledMemory(m, r), RecycledRoles(m, r))
  {
    AtCut(r.batch, r.batchBase, Spared(m));
    assert forall serial, p :: At(r.batch[..Spared(m)], r.batchBase, serial, p) ==>
        p == r.batch[0] || (m.reserve2 == NULL && p == r.batch[1]);
    hide At;
    var m', r' := RecycledMemory(m, r), RecycledRoles(m, r);
    assert m'.current == m.current && m'.spare == m.spare && m'.reserve1 == r.batch[0];
    assert m'.reserve2 == if m.reserve2 == NULL then r.batch[1] else m.reserve2;
    hide RecycledMemory;
    forall p | p in r'.owners && p != r.batch[0] && (m.reserve2 == NULL ==> p != r.batch[1])
      ensures p in r.owners && r'.owners[p] == r.owners[p] && p !in r.batch[Spared(m)..]
    {
    }
    hide Without;
  }

  lemma RecycleOwned(m: Memory, r: Roles, s: State)
    requires Ok(m, r, s) && Enabled(s, Recycle) && |r.batch| >= Spared(m)
    ensures Owned(RecycledMemory(m, r), RecycledRoles(m, r))
  {
    hide Placed;
    hide PendingOk;
    hide BatchOk;
    hide SinglesOk;
    RecyclePlaced(m, r, s);
    BatchFacts(m, r, s, 0);
    if m.reserve2 == NULL { BatchFacts(m, r, s, 1); }
  }

  /** What recycling touches is not pending. */
  lemma PendingUntouched(m: Memory, r: Roles, s: State)
    requires Ok(m, r, s) && |r.batch| >= Spared(m)
    ensures forall p :: p in r.pending && p in m.heap ==>
              p in RecycledMemory(m, r).heap && RecycledMemory(m, r).heap[p] == m.heap[p]
    ensures forall p :: p in r.pending && p in r.owners ==>
              p in RecycledRoles(m, r).owners && RecycledRoles(m, r).owners[p] == r.owners[p]
  {
    hide Ok;
    TailOfBatch(m, r, s, 0);
    TailOfBatch(m, r, s, Spared(m));
    assert r.batch[0..][0] == r.batch[0];
    assert m.reserve2 == NULL ==> r.batch[0..][1] == r.batch[1];
  }

  lemma RecyclePending(m: Memory, r: Roles, s: State)
    requires Ok(m, r, s) && Enabled(s, Recycle) && |r.batch| >= Spared(m)
    ensures PendingOk(RecycledMemory(m, r), RecycledRoles(m, r), Next(s, Recycle))
  {
    hide Owned;
    hide Staged;
    hide SinglesOk;
    hide BatchOk;
    hide Linked;
    hide Serials;
    hide Without;
    PendingUntouched(m, r, s);
    LinkedStays(m.heap, RecycledMemory(m, r).heap, r.pending, m.current, s.pending);
    SerialsStay(r.owners, RecycledRoles(m, r).owners, r.pending, r.pendingBase);
  }

  lemma KeptByRecycle(m: Memory, r: Roles, s: State, p: Pointer)
    requires Ok(m, r, s) && |r.batch| >= Spared(m)
    requires p in m.heap && p in r.owners && !r.owners[p].Listed?
    ensures p in RecycledMemory(m, r).heap && RecycledMemory(m, r).heap[p] == m.heap[p]
    ensures p in RecycledRoles(m, r).owners && RecycledRoles(m, r).owners[p] == r.owners[p]
  {
    NotListed(r.owners, r.batch, r.batchBase, p);
    hide PendingOk;
    hide BatchOk;
    hide SinglesOk;
    hide Staged;
    hide Owned;
  }

  lemma RecycleSingles(m: Memory, r: Roles, s: State)
    requires Ok(m, r, s) && Enabled(s, Recycle) && |r.batch| >= Spared(m)
    ensures SinglesOk(RecycledMemory(m, r), RecycledRoles(m, r), Next(s, Recycle))
  {
    hide Without;
    hide Owned;
    hide PendingOk;
    hide BatchOk;
    hide Text;
    BatchFacts(m, r, s, 0);
    KeptByRecycle(m, r, s, m.current);
    if m.spare != NULL { KeptByRecycle(m, r, s, m.spare); }
    if m.reserve2 != NULL { KeptByRecycle(m, r, s, m.reserve2); }
    var m', r' := RecycledMemory(m, r), RecycledRoles(m, r);
    assert Idle(m', r', m'.reserve1, Reserve1);
    assert Idle(m', r', m'.spare, Spare);
    assert Idle(m', r', m'.reserve2, Reserve2);
    hide Idle;
  }

  lemma RecycleOk(m: Memory, r: Roles, s: State)
    requires Ok(m, r, s) && Enabled(s, Recycle)
    ensures |r.batch| >= Spared(m)
    ensures Ok(RecycledMemory(m, r), RecycledRoles(m, r), Next(s, Recycle))
  {
    EnoughToSpare(m, r, s);
    hide *;
    RecycleOwned(m, r, s);
    RecyclePending(m, r, s);
    RecycleSingles(m, r, s);
    RecycleRest(m, r, s);
    OkIs(RecycledMemory(m, r), RecycledRoles(m, r), Next(s, Recycle));
  }

  lemma EnoughToSpare(m: Memory, r: Roles, s: State)
    requires Ok(m, r, s) && Enabled(s, Recycle)
    ensures |r.batch| >= Spared(m)
  {
    hide Owned;
    hide SinglesOk;
    hide PendingOk;
    hide BatchOk;
  }

  lemma OkIs(m: Memory, r: Roles, s: State)
    requires Owned(m, r) && SinglesOk(m, r, s) && PendingOk(m, r, s) && BatchOk(m, r, s) && Staged(m, r, s)
    ensures Ok(m, r, s)
  {
    hide Owned;
    hide SinglesOk;
    hide PendingOk;
    hide BatchOk;
    hide Staged;
  }

  /** The batch is empty, and the reserves are there again. */
  lemma RecycleRest(m: Memory, r: Roles, s: State)
    requires Ok(m, r, s) && Enabled(s, Recycle) && |r.batch| >= Spared(m)
    ensures BatchOk(RecycledMemory(m, r), RecycledRoles(m, r), Next(s, Recycle))
    ensures Staged(RecycledMemory(m, r), RecycledRoles(m, r), Next(s, Recycle))
  {
    assert |r.batch| >= 1 && (m.reserve2 == NULL ==> |r.batch| >= 2);
    hide *;
    BatchFacts(m, r, s, 0);
    if m.reserve2 == NULL { BatchFacts(m, r, s, 1); }
    RestBefore(m, r, s);
    RestAfter(m, r, s);
  }

  lemma RestBefore(m: Memory, r: Roles, s: State)
    requires Ok(m, r, s) && Enabled(s, Recycle)
    ensures m.file == Text(s.written) && (m.spare == NULL ==> r.pending != []) && r.batchBase <= r.pendingBase
  {
    hide PendingOk;
    hide Owned;
    hide SinglesOk;
    hide Text;
    hide Linked;
    hide Serials;
  }

  lemma RestAfter(m: Memory, r: Roles, s: State)
    requires Enabled(s, Recycle) && |r.batch| >= Spared(m) && r.batch[0] != NULL
             && (m.reserve2 == NULL ==> r.batch[1] != NULL)
    requires m.file == Text(s.written) && (m.spare == NULL ==> r.pending != []) && r.batchBase <= r.pendingBase
    ensures BatchOk(RecycledMemory(m, r), RecycledRoles(m, r), Next(s, Recycle))
    ensures Staged(RecycledMemory(m, r), RecycledRoles(m, r), Next(s, Recycle))
  {
    hide Text;
    hide Without;
  }

  lemma NoticeOk(m: Memory, r: Roles, s: State)
    requires Ok(m, r, s) && s.phase == Swapped
    ensures Ok(m, r, s.(phase := Noticed))
  {
    hide Owned;
    hide Linked;
    hide Serials;
    hide Holds;
  }

  // ----- nothing leaks -------------------------------------------------------------------------------

  ghost function Elements(nodes: seq<Pointer>): set<Pointer> { set p | p in nodes }

  lemma {:induction false} SizeOfDistinct(nodes: seq<Pointer>)
    requires forall i, j :: 0 <= i < j < |nodes| ==> nodes[i] != nodes[j]
    ensures |Elements(nodes)| == |nodes|
  {
    if nodes != [] {
      var n := |nodes| - 1;
      SizeOfDistinct(nodes[..n]);
      assert nodes == nodes[..n] + [nodes[n]];
      assert Elements(nodes) == Elements(nodes[..n]) + {nodes[n]};
    }
  }

  ghost function With(s: set<Pointer>, p: Pointer): set<Pointer> { if p == NULL then s else s + {p} }

  lemma WithSize(s: set<Pointer>, p: Pointer)
    requires p == NULL || p !in s
    ensures |With(s, p)| == |s| + One(p)
    ensures forall q :: q in With(s, p) <==> q in s || (q == p && p != NULL)
  {
  }

  ghost function Singles(m: Memory): set<Pointer> {
    With(With(With({m.current}, m.spare), m.reserve1), m.reserve2)
  }

  lemma SinglesFacts(m: Memory, r: Roles, s: State)
    requires Ok(m, r, s)
    ensures m.current in r.owners && r.owners[m.current] == Current
    ensures m.spare != NULL ==> m.spare in r.owners && r.owners[m.spare] == Spare
    ensures m.reserve1 != NULL ==> m.reserve1 in r.owners && r.owners[m.reserve1] == Reserve1
    ensures m.reserve2 != NULL ==> m.reserve2 in r.owners && r.owners[m.reserve2] == Reserve2
  {
    hide Owned;
    hide PendingOk;
    hide BatchOk;
    hide Staged;
    hide Holds;
  }

  lemma SinglesSize(m: Memory, r: Roles, s: State)
    requires Ok(m, r, s)
    ensures |Singles(m)| == 1 + One(m.spare) + One(m.reserve1) + One(m.reserve2)
    ensures forall p :: p in Singles(m) ==> p in r.owners && !r.owners[p].Listed?
    ensures forall p :: p in {m.current, m.spare, m.reserve1, m.reserve2} && p != NULL ==> p in Singles(m)
  {
    hide Ok;
    hide One;
    SinglesFacts(m, r, s);
    var one := {m.current};
    var two := With(one, m.spare);
    var three := With(two, m.reserve1);
    WithSize(one, m.spare);
    WithSize(two, m.reserve1);
    WithSize(three, m.reserve2);
    hide With;
  }

  lemma ListedLive(m: Memory, r: Roles, nodes: seq<Pointer>, base: nat)
    requires Serials(r.owners, nodes, base)
    ensures forall p :: p in Elements(nodes) ==>
              p in r.owners && r.owners[p].Listed? && base <= r.owners[p].serial < base + |nodes|
    ensures |Elements(nodes)| == |nodes|
  {
    SerialsDistinct(r.owners, nodes, base);
    SizeOfDistinct(nodes);
  }

  lemma OwnedBySomeone(m: Memory, r: Roles, p: Pointer)
    requires Owned(m, r) && p in m.heap
    ensures p != NULL
    ensures p in {m.current, m.spare, m.reserve1, m.reserve2} || p in Elements(r.pending) || p in Elements(r.batch)
  {
    assert p in r.owners;
  }

  /** The buffers that are allocated and not freed are the current one, the spare, the
      reserves and those of the two lists, each counted once. */
  lemma LiveBuffers(m: Memory, r: Roles, s: State)
    requires Ok(m, r, s)
    ensures m.heap.Keys == Singles(m) + Elements(r.pending) + Elements(r.batch)
    ensures |m.heap| == 1 + One(m.spare) + One(m.reserve1) + One(m.reserve2) + |r.pending| + |r.batch|
  {
    hide *;
    BatchBeforePending(m, r, s);
    SinglesSize(m, r, s);
    ListedLive(m, r, r.pending, r.pendingBase);
    ListedLive(m, r, r.batch, r.batchBase);
    forall p | p in m.heap ensures p in Singles(m) || p in Elements(r.pending) || p in Elements(r.batch) {
      OwnedBySomeone(m, r, p);
    }
    var c, p, b := Singles(m), Elements(r.pending), Elements(r.batch);
    assert c !! p && c + p !! b;
    assert m.heap.Keys == c + p + b;
    assert |m.heap.Keys| == |c| + |p| + |b|;
  }

  /** As long as no batch was cut, the file is the beginning of all the lines logged, in the order of the
      calls. */
  lemma FileIsBeginning(m: Memory, r: Roles, s: State, steps: seq<Step>)
    requires Ok(m, r, s) && IsRun(INITIAL, steps, s) && Cut !in steps
    ensures m.file <= Text(Numbered(s.history))
  {
    hide *;
    CompleteWithoutCuts(steps, s);
    WrittenFirst(s);
    TextConcat(s.written, Numbered(s.history)[|s.written|..]);
    FileIs(m, r, s);
  }

  lemma WrittenFirst(s: State)
    ensures s.written <= Live(s) && Live(s) == s.written + Live(s)[|s.written|..]
  {
    hide Flat;
  }

  lemma FileIs(m: Memory, r: Roles, s: State)
    requires Ok(m, r, s)
    ensures m.file == Text(s.written)
  {
    hide Owned;
    hide PendingOk;
    hide BatchOk;
    hide Text;
  }

  lemma BatchBeforePending(m: Memory, r: Roles, s: State)
    requires Ok(m, r, s)
    ensures Owned(m, r) && r.owners.Keys == m.heap.Keys
    ensures Serials(r.owners, r.pending, r.pendingBase) && Serials(r.owners, r.batch, r.batchBase)
    ensures r.batchBase + |r.batch| <= r.pendingBase
  {
    hide Linked;
    hide Serials;
    hide SinglesOk;
    hide Staged;
    hide Placed;
  }
}
