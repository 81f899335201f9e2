/** The string pool of lualib-src/pbc/src/stringpool.c. */
module StringPools {
  import opened Words

  const PAGE_SIZE := 256

  /** `struct _stringpool`: a node with the page allocated along with it, and the page it writes
      to, which may have come with another node. Pages are known by the order of allocation. */
  datatype PoolNode = PoolNode(page: nat, buffer: nat, len: nat)

  /** A string handed out. */
  datatype Block = Block(page: nat, at: nat, text: seq<byte>)

  ghost predicate Apart(a: Block, b: Block) {
    a.page != b.page || a.at + |a.text| <= b.at || b.at + |b.text| <= a.at
  }

  /** Each node has a page of its own and writes to a page of its own, and no page is lost. */
  ghost predicate NodesFit(memory: seq<seq<byte>>, nodes: seq<PoolNode>) {
    && |nodes| == |memory| > 0
    && nodes[0].buffer < |memory| && nodes[0].len <= PAGE_SIZE == |memory[nodes[0].buffer]|
    && (forall i, j :: 0 <= i < j < |nodes| ==> nodes[i].page != nodes[j].page && nodes[i].buffer != nodes[j].buffer)
    && (forall n <- nodes :: n.page < |memory| && n.buffer < |memory|)
  }

  /** A string is where it was put. */
  ghost predicate Kept(memory: seq<seq<byte>>, b: Block) {
    b.page < |memory| && b.at + |b.text| <= |memory[b.page]| && memory[b.page][b.at..b.at + |b.text|] == b.text
  }

  /** All strings are where they were put, no two overlap, and what the pool will write next lies
      behind them. */
  ghost predicate StringsKept(memory: seq<seq<byte>>, head: PoolNode, strings: seq<Block>) {
    && (forall b <- strings :: Kept(memory, b) && (b.page == head.buffer ==> b.at + |b.text| <= head.len))
    && (forall i, j :: 0 <= i < j < |strings| ==> Apart(strings[i], strings[j]))
  }

  ghost predicate PoolFit(memory: seq<seq<byte>>, nodes: seq<PoolNode>, strings: seq<Block>) {
    NodesFit(memory, nodes) && StringsKept(memory, nodes[0], strings)
  }

  lemma WrittenBehind(memory: seq<seq<byte>>, nodes: seq<PoolNode>, strings: seq<Block>, s: seq<byte>)
    requires PoolFit(memory, nodes, strings) && nodes[0].len + |s| <= PAGE_SIZE
    ensures var head := nodes[0];
            PoolFit(memory[head.buffer := Splice(memory[head.buffer], head.len, s)],
                    nodes[0 := head.(len := head.len + |s|)],
                    strings + [Block(head.buffer, head.len, s)])
  {
    var head, was := nodes[0], memory[nodes[0].buffer];
    var now := Splice(was, head.len, s);
    var memory' := memory[head.buffer := now];
    assert now[head.len..head.len + |s|] == s;
    forall b | b in strings ensures Kept(memory', b) {
      assert Kept(memory, b);
      if b.page == head.buffer { assert now[b.at..b.at + |b.text|] == was[b.at..b.at + |b.text|]; }
    }
    forall i, j | 0 <= i < j < |strings| + 1
      ensures Apart((strings + [Block(head.buffer, head.len, s)])[i], (strings + [Block(head.buffer, head.len, s)])[j])
    {
      if j == |strings| { assert strings[i] in strings; }
    }
  }

  lemma OldKept(memory: seq<seq<byte>>, page: seq<byte>, b: Block)
    requires Kept(memory, b)
    ensures Kept(memory + [page], b)
  {
  }

  /** A string longer than a page gets a node of its own behind the first. */
  lemma NodeBehind(memory: seq<seq<byte>>, nodes: seq<PoolNode>, strings: seq<Block>, s: seq<byte>, page: seq<byte>)
    requires PoolFit(memory, nodes, strings) && |page| == |s| && page == s
    ensures PoolFit(memory + [page], [nodes[0], PoolNode(|memory|, |memory|, |s|)] + nodes[1..],
                    strings + [Block(|memory|, 0, s)])
  {
    assert page[0..|s|] == s;
    forall b | b in strings ensures Kept(memory + [page], b) { OldKept(memory, page, b); }
    NewApart(memory, strings, s);
  }

  lemma NewApart(memory: seq<seq<byte>>, strings: seq<Block>, s: seq<byte>)
    requires forall b <- strings :: Kept(memory, b)
    requires forall i, j :: 0 <= i < j < |strings| ==> Apart(strings[i], strings[j])
    ensures var all := strings + [Block(|memory|, 0, s)];
            forall i, j :: 0 <= i < j < |all| ==> Apart(all[i], all[j])
  {
    forall i | 0 <= i < |strings| ensures strings[i].page < |memory| { assert Kept(memory, strings[i]); }
  }

  /** The pool takes over the page of a new node, which gets the pool's old page. */
  lemma PagesTraded(memory: seq<seq<byte>>, nodes: seq<PoolNode>, strings: seq<Block>, s: seq<byte>, page: seq<byte>)
    requires PoolFit(memory, nodes, strings) && |page| == PAGE_SIZE && s <= page
    ensures PoolFit(memory + [page],
                    [PoolNode(nodes[0].page, |memory|, |s|), PoolNode(|memory|, nodes[0].buffer, nodes[0].len)]
                      + nodes[1..],
                    strings + [Block(|memory|, 0, s)])
  {
    assert page[0..|s|] == s;
    forall b | b in strings ensures Kept(memory + [page], b) && b.page != |memory| {
      OldKept(memory, page, b);
      assert Kept(memory, b);
    }
    NewApart(memory, strings, s);
    var now := [PoolNode(nodes[0].page, |memory|, |s|), PoolNode(|memory|, nodes[0].buffer, nodes[0].len)] + nodes[1..];
    forall i, j | 0 <= i < j < |now| ensures now[i].page != now[j].page && now[i].buffer != now[j].buffer {
      assert j > 1 ==> now[j] == nodes[j - 1] && nodes[j - 1] in nodes;
      assert i > 1 ==> now[i] == nodes[i - 1];
      assert nodes[0] in nodes;
    }
  }

  class StringPool {
    /** The list of nodes; the first is the pool itself. */
    var nodes: seq<PoolNode>
    /** The contents of the pages. */
    var memory: seq<seq<byte>>
    ghost var strings: seq<Block>

    ghost predicate Valid()
      reads this
    {
      PoolFit(memory, nodes, strings)
    }

    /** `_pbcS_new` */
    constructor ()
      ensures Valid() && strings == []
    {
      var page: seq<byte> := *;
      memory := [seq(PAGE_SIZE, i => if 0 <= i < |page| then page[i] else 0)];
      nodes, strings := [PoolNode(0, 0, 0)], [];
    }

    /** `_pbcS_build`: `s` is the string with its NUL. Strings handed out before stay where they
        are, although nodes trade their pages. */
    method Build(s: seq<byte>) returns (page: nat, at: nat)
      requires Valid() && s != []
      modifies this
      ensures Valid() && strings == old(strings) + [Block(page, at, s)]
      ensures var pool := old(nodes)[0];
              if |s| < 256 - pool.len then
                |memory| == |old(memory)| && page == pool.buffer && at == pool.len
                && nodes[0].buffer == pool.buffer && nodes[0].len == pool.len + |s|
              else
                && |memory| == |old(memory)| + 1 && page == |old(memory)| && at == 0
                && |memory[page]| == (if |s| > 256 then |s| else 256)
                && nodes[0].buffer == (if |s| > 256 then pool.buffer else page)
                && nodes[0].len == (if |s| > 256 then pool.len else |s|)
    {
      var pool := nodes[0];
      if |s| < PAGE_SIZE - pool.len {
        WrittenBehind(memory, nodes, strings, s);
        page, at := pool.buffer, pool.len;
        memory := memory[page := Splice(memory[page], at, s)];
        nodes := nodes[0 := pool.(len := pool.len + |s|)];
      } else if |s| > PAGE_SIZE {
        NodeBehind(memory, nodes, strings, s, s);
        page, at := |memory|, 0;
        memory := memory + [s];
        nodes := [pool, PoolNode(page, page, |s|)] + nodes[1..];
      } else {
        var block := NewPage(s);
        PagesTraded(memory, nodes, strings, s, block);
        page, at := |memory|, 0;
        memory := memory + [block];
        nodes := [PoolNode(pool.page, page, |s|), PoolNode(page, pool.buffer, pool.len)] + nodes[1..];
      }
      strings := strings + [Block(page, at, s)];
    }

    /** `_pbcS_delete`: the pages in the order in which they are freed, each of them once. */
    method Delete() returns (freed: seq<nat>)
      requires Valid()
      ensures |freed| == |memory| && (forall p <- freed :: p < |memory|)
      ensures forall i, j :: 0 <= i < j < |freed| ==> freed[i] != freed[j]
    {
      freed := [];
      for i := 0 to |nodes|
        invariant |freed| == i && forall k :: 0 <= k < i ==> freed[k] == nodes[k].page
      {
        freed := freed + [nodes[i].page];
      }
    }
  }

  /** A page that begins with `s` and goes on with anything. */
  method NewPage(s: seq<byte>) returns (page: seq<byte>)
    requires |s| <= PAGE_SIZE
    ensures |page| == PAGE_SIZE && s <= page
  {
    var rest: seq<byte> := *;
    page := s + seq(PAGE_SIZE - |s|, i => if 0 <= i < |rest| then rest[i] else 0);
  }
}

/** The page heap of lualib-src/pbc/src/alloc.c. */
module PageHeaps {
  import opened Words

  /** A block handed out: the page, by its place in the order of allocation, and where in it. */
  datatype Block = Block(page: nat, at: nat, size: nat)

  ghost predicate Apart(a: Block, b: Block) {
    a.page != b.page || a.at + a.size <= b.at || b.at + b.size <= a.at
  }

  /** `(size + 3) & ~3` */
  function RoundUp(size: nat): (r: nat)
    ensures size <= r < size + 4 && r % 4 == 0
  {
    (size + 3) / 4 * 4
  }

  lemma KiloPower()
    ensures PowerOfTwo(1024)
  {
    assert PowerOfTwo(64);
  }

  class Heap {
    /** The sizes of the pages, the current one last. */
    var pages: seq<nat>
    var size: nat
    var used: nat
    ghost var blocks: seq<Block>

    ghost predicate Valid()
      reads this
    {
      && |pages| > 0 && size % 4 == 0 && used % 4 == 0 && used <= pages[|pages| - 1]
      && (forall p <- pages :: size <= p)
      && (forall b <- blocks :: b.page < |pages| && b.at + b.size <= pages[b.page] && b.at % 4 == 0)
      && (forall b <- blocks :: b.page == |pages| - 1 ==> b.at + b.size <= used)
      && (forall i, j :: 0 <= i < j < |blocks| ==> Apart(blocks[i], blocks[j]))
    }

    /** `_pbcH_new` */
    constructor (pagesize: int)
      ensures Valid() && blocks == [] && pages == [size] && used == 0
      ensures size >= pagesize && PowerOfTwo(size) && (size == 1024 || (1024 < size && size / 2 < pagesize))
    {
      var cap: nat := 1024;
      KiloPower();
      while cap < pagesize
        invariant cap >= 1024 && cap % 4 == 0 && PowerOfTwo(cap) && (cap == 1024 || cap / 2 < pagesize)
      {
        DoublePower(cap);
        cap := cap * 2;
      }
      pages, size, used, blocks := [cap], cap, 0, [];
    }

    /** `_pbcH_alloc` */
    method Alloc(size: nat) returns (b: Block)
      requires Valid()
      modifies this
      ensures Valid() && blocks == old(blocks) + [b] && this.size == old(this.size)
      ensures b.size % 4 == 0 && size <= b.size < size + 4 && used == b.at + b.size
      ensures if b.size <= this.size - old(used) then
                pages == old(pages) && b.page == |pages| - 1 && b.at == old(used)
              else
                && pages == old(pages) + [if b.size < this.size then this.size else b.size]
                && b.page == |old(pages)| && b.at == 0
    {
      var n := RoundUp(size);
      if this.size - used < n {
        pages := pages + [if n < this.size then this.size else n];
        used := n;
        b := Block(|pages| - 1, 0, n);
      } else {
        assert pages[|pages| - 1] in pages;
        b := Block(|pages| - 1, used, n);
        used := used + n;
      }
      blocks := blocks + [b];
    }

    /** `_pbcH_delete`: the pages freed, current page first. */
    method Delete() returns (freed: seq<nat>)
      requires Valid()
      ensures |freed| == |pages| && forall i :: 0 <= i < |pages| ==> freed[i] == |pages| - 1 - i
    {
      freed := [];
      var p := |pages| - 1;
      while true
        invariant 0 <= p < |pages| && |freed| == |pages| - 1 - p
        invariant forall i :: 0 <= i < |freed| ==> freed[i] == |pages| - 1 - i
        decreases p
      {
        freed := freed + [p];
        if p == 0 { break; }
        p := p - 1;
      }
    }
  }
}
