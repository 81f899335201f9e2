/** The asynchronous logger on its pointers (lualib-src/lua-log.c). Each method is one step of
    `LogMachine`; since every method starts and ends in a valid state, the steps of front-end
    threads and of the worker may follow each other in any order. */
module Logger {
  import opened Words
  import opened LogMachine
  import opened LogBuffers

  class Logger {
    var heap: Heap
    // the fields of `inst` that the mutex guards
    var current: Pointer
    var spare: Pointer
    var head: Pointer
    var tail: Pointer
    var count: nat
    // the locals of `worker_func`
    var batchHead: Pointer
    var batchTail: Pointer
    var batchCount: nat
    var reserve1: Pointer
    var reserve2: Pointer
    var node: Pointer
    // what has been handed to `fwrite`
    var file: seq<byte>

    ghost var roles: Roles
    ghost var state: State

    ghost function Picture(): Memory
      reads `heap, `current, `spare, `head, `tail, `count, `batchHead, `batchTail, `batchCount
      reads `reserve1, `reserve2, `node, `file
    {
      Memory(heap, current, spare, head, tail, count,
             batchHead, batchTail, batchCount, reserve1, reserve2, node, file)
    }

    ghost predicate Valid()
      reads this
    {
      Ok(Picture(), roles, state)
    }

    /** `linit`, and the two buffers that `worker_func` allocates before its loop. */
    constructor ()
      ensures Valid() && state == INITIAL && file == []
    {
      heap := map[1 := ZEROED, 2 := ZEROED, 3 := ZEROED, 4 := ZEROED];
      current, spare, reserve1, reserve2 := 1, 2, 3, 4;
      head, tail, count := NULL, NULL, 0;
      batchHead, batchTail, batchCount, node := NULL, NULL, 0, NULL;
      file := [];
      state, roles := INITIAL, INITIAL_ROLES;
      new;
      hide Ok;
      InitiallyOk();
      assert Picture() == INITIAL_MEMORY;
    }

    /** `calloc`: some address that is not in use. */
    method Calloc() returns (p: Pointer)
      modifies this`heap
      ensures p != NULL && p !in old(heap) && heap == old(heap)[p := ZEROED]
    {
      p := 1;
      ghost var above := heap.Keys;
      while p in heap
        invariant p != NULL && above <= heap.Keys
        invariant forall q :: q in heap && q >= p ==> q in above
        decreases |above|
      {
        above := above - {p};
        p := p + 1;
      }
      heap := heap[p := ZEROED];
    }

    /** `free`, which demands a live buffer. */
    method Free(p: Pointer)
      requires p in heap
      modifies this`heap
      ensures heap == old(heap) - {p}
    {
      heap := heap - {p};
    }

    /** `append`, the region under the mutex. */
    method Append(line: Line)
      requires Valid() && |line| < BUFFER_SIZE
      modifies this
      ensures Valid() && state == Appended(old(state), line)
    {
      hide Ok;
      hide Rotated;
      hide RotatedRoles;
      hide Stored;
      ghost var m, r, s := Picture(), roles, state;
      FrontFacts(m, r, s);
      if heap[current].size + |line| >= BUFFER_SIZE {
        ghost var p := Rotate();
        RotateOk(m, r, s, p);
        m, r, s := Picture(), RotatedRoles(m, r, p), RotatedState(s);
        FrontFacts(m, r, s);
      }
      StoreOk(m, r, s, line);
      StoreLine(line);
      hide Picture;
      roles, state := r, StoredState(s, line);
    }

    /** `memcpy` behind what the current buffer holds. */
    method StoreLine(line: Line)
      requires current in heap
      modifies `heap
      ensures Picture() == Stored(old(Picture()), line)
    {
      heap := heap[current := Put(heap[current], line)];
    }

    /** A full current buffer joins the pending list, and the spare or a new one takes its place. */
    method Rotate() returns (p: Pointer)
      requires current in heap && heap[current].next == NULL && NULL !in heap
      requires (head == NULL <==> tail == NULL) && (head != NULL ==> tail in heap && heap[tail].next == current)
      modifies `heap, `current, `spare, `head, `tail, `count
      ensures NextBuffer(old(Picture()), p) && Picture() == Rotated(old(Picture()), p)
    {
      ghost var m := Picture();
      if head == NULL {
        assert tail == NULL;
        head, tail := current, current;
      } else {
        heap := heap[tail := heap[tail].(next := current)];
        assert heap == m.heap;
        tail := current;
      }
      count := count + 1;
      assert heap[tail].next == NULL;
      p := spare;
      if spare != NULL {
        heap := heap[current := heap[current].(next := spare)];
        current := spare;
        spare := NULL;
      } else {
        p := Calloc();
        heap := heap[current := heap[current].(next := p)];
        current := p;
      }
    }

    /** The current buffer, which the last pending one links to, becomes the end of the list. */
    method JoinCurrent()
      modifies `head, `tail, `count
      ensures head == (if old(head) == NULL then current else old(head))
      ensures tail == current && count == old(count) + 1
    {
      if head == NULL {
        head, tail := current, current;
      } else {
        tail := current;
      }
      count := count + 1;
    }

    /** An empty buffer becomes current, and another one the spare if there is none. */
    method GiveReserves()
      modifies `current, `spare, `reserve1, `reserve2
      ensures current == old(reserve1) && reserve1 == NULL
      ensures spare == (if old(spare) == NULL then old(reserve2) else old(spare))
      ensures reserve2 == (if old(spare) == NULL then NULL else old(reserve2))
    {
      current := reserve1;
      reserve1 := NULL;
      if spare == NULL {
        spare := reserve2;
        reserve2 := NULL;
      }
    }

    /** What the worker's region under the mutex does to the fields. */
    method SwapFields()
      requires batchHead == NULL && reserve1 in heap && reserve2 in heap
      requires heap[reserve1].size == 0 && heap[reserve2].size == 0
      modifies this
      ensures Picture() == SwappedMemory(old(Picture())) && roles == old(roles) && state == old(state)
    {
      JoinCurrent();
      batchHead, batchTail, batchCount := head, tail, count;
      head, tail, count := NULL, NULL, 0;
      GiveReserves();
      assert batchCount > 0;
    }

    /** The worker's region under the mutex: it takes the pending list and the current buffer,
        and leaves its reserves in their place. */
    method Swap()
      requires Valid() && Enabled(state, LogMachine.Swap)
      modifies this
      ensures Valid() && state == Next(old(state), LogMachine.Swap)
    {
      hide Ok;
      hide SwappedMemory;
      hide SwappedRoles;
      ghost var m, r, s := Picture(), roles, state;
      ReserveFacts(m, r, s);
      SwapOk(m, r, s);
      SwapFields();
      hide Next;
      hide Picture;
      roles, state := SwappedRoles(m, r), Next(s, LogMachine.Swap);
    }

    /** The worker appends a notice that it will drop lines. */
    method Notice(line: Line)
      requires Valid() && Enabled(state, LogMachine.Notice(line))
      modifies this
      ensures Valid() && state == Next(old(state), LogMachine.Notice(line)) && Enabled(state, LogMachine.Cut)
    {
      hide Ok;
      WorkerFacts(Picture(), roles, state);
      assert batchCount > MAX_BATCH;
      Append(line);
      NoticeOk(Picture(), roles, state);
      state := state.(phase := Noticed);
    }

    /** The worker frees all buffers of the batch but the first two. */
    method Cut()
      requires Valid() && Enabled(state, LogMachine.Cut)
      modifies this
      ensures Valid() && state == Next(old(state), LogMachine.Cut)
    {
      hide Ok;
      hide Without;
      ghost var m, r, s, nodes := Picture(), roles, state, roles.batch;
      WorkerFacts(m, r, s);
      BatchFacts(m, r, s, 0);
      BatchFacts(m, r, s, 1);
      CutOk(m, r, s);
      TailOfBatch(m, r, s, KEPT);
      var newTail := heap[batchHead].next;
      FreeAll(heap[newTail].next, m, r, s, KEPT);
      WithoutKeeps(m.heap, nodes[KEPT..], newTail);
      batchTail := newTail;
      heap := heap[batchTail := heap[batchTail].(next := NULL)];
      batchCount := 2;
      node := batchHead;
      assert Picture() == CutMemory(m, r);
      hide Picture;
      roles, state := CutRoles(r), Next(s, LogMachine.Cut);
    }

    /** The loop that frees a list from its node `p` on, which is node `from` of the batch of
        the memory `m`. */
    method FreeAll(p: Pointer, ghost m: Memory, ghost r: Roles, ghost s: State, ghost from: nat)
      requires Ok(m, r, s) && from <= |r.batch| && p == NodeAt(r.batch, from)
      requires forall q :: q in r.batch[from..] ==> q in m.heap && q in heap && heap[q] == m.heap[q]
      modifies this`heap
      ensures heap == Without(old(heap), r.batch[from..])
    {
      hide Ok;
      hide Without;
      ghost var was, nodes, k := heap, r.batch, from;
      WithoutNone(was, nodes, from);
      var q := p;
      while q != NULL
        invariant from <= k <= |nodes| && q == NodeAt(nodes, k)
        invariant heap == Without(was, nodes[from..k])
        decreases |nodes| - k
      {
        BatchFacts(m, r, s, k);
        assert nodes[from..][k - from] == nodes[k];
        WithoutKeeps(was, nodes[from..k], nodes[k]);
        var freed := q;
        q := heap[q].next;
        Free(freed);
        WithoutOneMore(was, nodes, from, k);
        k := k + 1;
      }
      assert k == |nodes| by {
        if k < |nodes| { BatchFacts(m, r, s, k); }
      }
    }

    /** Nothing to drop: the loop that writes starts at the first buffer. */
    method Proceed()
      requires Valid() && Enabled(state, LogMachine.Proceed)
      modifies this
      ensures Valid() && state == Next(old(state), LogMachine.Proceed)
    {
      hide Ok;
      WorkerFacts(Picture(), roles, state);
      assert batchCount <= MAX_BATCH;
      ProceedOk(Picture(), roles, state);
      node := batchHead;
      state := Next(state, LogMachine.Proceed);
    }

    /** One turn of the loop that writes. */
    method Write()
      requires Valid() && Enabled(state, LogMachine.Write)
      modifies this
      ensures Valid() && state == Next(old(state), LogMachine.Write)
    {
      hide Ok;
      WorkerFacts(Picture(), roles, state);
      assert node != NULL;
      BatchFacts(Picture(), roles, state, state.phase.done);
      WriteOk(Picture(), roles, state);
      assert heap[node].data[..heap[node].size] == heap[node].data;
      file := file + heap[node].data[..heap[node].size];
      node := heap[node].next;
      state := Next(state, LogMachine.Write);
    }

    /** The first buffer of the batch is unlinked and zeroed. */
    method TakeFirst() returns (p: Pointer)
      requires batchHead in heap && batchCount > 0
      modifies `heap, `batchHead, `batchCount
      ensures p == old(batchHead) && batchHead == old(heap[batchHead].next)
      ensures heap == old(heap)[p := ZEROED] && batchCount == old(batchCount) - 1
    {
      p := batchHead;
      batchHead := heap[batchHead].next;
      heap := heap[p := ZEROED];
      batchCount := batchCount - 1;
    }

    /** One or two buffers of the batch become the worker's reserves. */
    method TakeReserves()
      requires Valid() && Enabled(state, LogMachine.Recycle) && |roles.batch| >= Spared(Picture())
      modifies `heap, `batchHead, `batchCount, `reserve1, `reserve2
      ensures heap == old(ZeroedFirst(Picture(), roles))
      ensures reserve1 == roles.batch[0]
      ensures reserve2 == old(if reserve2 == NULL then roles.batch[1] else reserve2)
      ensures batchHead == NodeAt(roles.batch, old(Spared(Picture())))
    {
      hide Ok;
      WorkerFacts(Picture(), roles, state);
      BatchFacts(Picture(), roles, state, 0);
      if |roles.batch| > 1 { BatchFacts(Picture(), roles, state, 1); }
      assert batchCount > 0;
      reserve1 := TakeFirst();
      if reserve2 == NULL {
        assert batchCount > 0;
        reserve2 := TakeFirst();
      }
    }

    /** When all is written, one or two buffers are kept as reserves and the others freed. */
    method Recycle()
      requires Valid() && Enabled(state, LogMachine.Recycle)
      modifies this
      ensures Valid() && state == Next(old(state), LogMachine.Recycle)
    {
      hide Ok;
      hide Without;
      hide ZeroedFirst;
      ghost var m, r, s := Picture(), roles, state;
      WorkerFacts(m, r, s);
      assert node == NULL;
      RecycleOk(m, r, s);
      TakeReserves();
      FreedRest(m, r, s);
      FreeAll(batchHead, m, r, s, Spared(m));
      batchHead, batchTail, batchCount := NULL, NULL, 0;
      assert Picture() == RecycledMemory(m, r);
      hide Picture;
      roles, state := RecycledRoles(m, r), Next(s, LogMachine.Recycle);
    }
  }
}
