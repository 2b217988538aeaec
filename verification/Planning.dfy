/** The erase plan and the program chunks of a region, and what executing them
    leaves in the cells. */
module Planning {
  import opened Results
  import opened Bytes
  import opened Nor

  const PROGRAM_CHUNK: nat := 58     // 62-byte payload less opcode and address

  // ---------------------------------------------------------------- erase

  datatype Erase = Erase(at: nat, size: nat, op: byte)

  /** A sector erase or a block erase, at a multiple of its own size. */
  predicate SelfAligned(e: Erase)
  {
    || (e.size == SECTOR_SIZE && e.op == OP_SECTOR_ERASE && Aligned(e.at))
    || (e.size == BLOCK_SIZE && e.op == OP_BLOCK_ERASE && e.at % BLOCK_SIZE == 0)
  }

  /** Where entry k must start so that entries follow each other from lo. */
  function EraseStart(plan: seq<Erase>, lo: nat, k: nat): nat
    requires k <= |plan|
  {
    if k == 0 then lo else plan[k - 1].at + plan[k - 1].size
  }

  /** The plan is a row of self-aligned entries from lo to hi, without gap or overlap. */
  ghost predicate Tiles(plan: seq<Erase>, lo: nat, hi: nat)
  {
    && (forall k {:trigger SelfAligned(plan[k])} :: 0 <= k < |plan| ==> SelfAligned(plan[k]))
    && (forall k {:trigger EraseStart(plan, lo, k)} :: 0 <= k < |plan| ==> plan[k].at == EraseStart(plan, lo, k))
    && EraseStart(plan, lo, |plan|) == hi
  }

  lemma TilesAppend(plan: seq<Erase>, lo: nat, hi: nat, e: Erase)
    requires Tiles(plan, lo, hi) && SelfAligned(e) && e.at == hi
    ensures Tiles(plan + [e], lo, hi + e.size)
  {
    var longer := plan + [e];
    forall k | 0 <= k < |longer|
      ensures SelfAligned(longer[k])
    {
      if k < |plan| { assert SelfAligned(plan[k]); }
    }
    forall k | 0 <= k < |longer|
      ensures longer[k].at == EraseStart(longer, lo, k)
    {
      assert k <= |plan| ==> EraseStart(longer, lo, k) == EraseStart(plan, lo, k);
    }
  }

  /** A block erase exactly where it is allowed, aligned, and fits. */
  predicate RightSize(e: Erase, end: nat, useBlock: bool)
  {
    e.size == BLOCK_SIZE <==> useBlock && e.at % BLOCK_SIZE == 0 && end - e.at >= BLOCK_SIZE
  }

  lemma NextAligned(addr: nat, end: nat)
    requires Aligned(addr) && Aligned(end) && addr < end
    ensures addr + SECTOR_SIZE <= end && Aligned(addr + SECTOR_SIZE) && Aligned(addr + BLOCK_SIZE)
  {
    var a, e := addr / SECTOR_SIZE, end / SECTOR_SIZE;
    assert addr == SECTOR_SIZE * a && end == SECTOR_SIZE * e;
    assert addr + BLOCK_SIZE == SECTOR_SIZE * (a + 16);
  }

  lemma EndAligned(a: nat, b: nat)
    requires Aligned(a) && Aligned(b)
    ensures Aligned(a + b)
  {
    assert a + b == SECTOR_SIZE * (a / SECTOR_SIZE + b / SECTOR_SIZE);
  }

  /** `erase_plan` */
  method ErasePlan(offset: nat, length: nat, useBlock: bool) returns (r: Result<seq<Erase>>)
    ensures r.Ok? <==> Aligned(offset) && Aligned(length)
    ensures r.Err? ==> r.error == Fatal(NotAligned)
    ensures r.Ok? ==> Tiles(r.value, offset, offset + length)
    ensures r.Ok? ==> forall k {:trigger RightSize(r.value[k], offset + length, useBlock)} ::
      0 <= k < |r.value| ==> RightSize(r.value[k], offset + length, useBlock)
    ensures r.Ok? && !useBlock ==> |r.value| == length / SECTOR_SIZE
  {
    if !Aligned(offset) || !Aligned(length) {
      return Err(Fatal(NotAligned));
    }
    var plan: seq<Erase> := [];
    var addr, end := offset, offset + length;
    EndAligned(offset, length);
    while addr < end
      invariant addr <= end && Aligned(addr)
      invariant Tiles(plan, offset, addr)
      invariant forall k {:trigger RightSize(plan[k], end, useBlock)} ::
        0 <= k < |plan| ==> RightSize(plan[k], end, useBlock)
      invariant !useBlock ==> addr == offset + |plan| * SECTOR_SIZE
    {
      NextAligned(addr, end);
      if useBlock && addr % BLOCK_SIZE == 0 && end - addr >= BLOCK_SIZE {
        TilesAppend(plan, offset, addr, Erase(addr, BLOCK_SIZE, OP_BLOCK_ERASE));
        plan := plan + [Erase(addr, BLOCK_SIZE, OP_BLOCK_ERASE)];
        addr := addr + BLOCK_SIZE;
      } else {
        TilesAppend(plan, offset, addr, Erase(addr, SECTOR_SIZE, OP_SECTOR_ERASE));
        plan := plan + [Erase(addr, SECTOR_SIZE, OP_SECTOR_ERASE)];
        addr := addr + SECTOR_SIZE;
      }
    }
    return Ok(plan);
  }

  /** The cells after the first k entries of a plan. */
  function EraseAll(mem: seq<byte>, plan: seq<Erase>, k: nat): (r: seq<byte>)
    requires k <= |plan|
    ensures |r| == |mem|
  {
    if k == 0 then mem else Fill(EraseAll(mem, plan, k - 1), plan[k - 1].at, plan[k - 1].size)
  }

  lemma TileBounds(plan: seq<Erase>, lo: nat, hi: nat, k: nat)
    requires Tiles(plan, lo, hi) && k <= |plan|
    ensures lo <= EraseStart(plan, lo, k) <= hi
    decreases |plan| - k
  {
    TileFromLeft(plan, lo, hi, k);
    if k < |plan| {
      TileBounds(plan, lo, hi, k + 1);
    }
  }

  lemma {:induction false} TileFromLeft(plan: seq<Erase>, lo: nat, hi: nat, k: nat)
    requires Tiles(plan, lo, hi) && k <= |plan|
    ensures lo <= EraseStart(plan, lo, k)
  {
    if k > 0 {
      TileFromLeft(plan, lo, hi, k - 1);
    }
  }

  /** Executing a prefix of a plan blanks exactly what the prefix covers. */
  lemma {:induction false} ErasePrefix(mem: seq<byte>, plan: seq<Erase>, lo: nat, hi: nat, k: nat)
    requires Tiles(plan, lo, hi) && k <= |plan|
    ensures lo <= EraseStart(plan, lo, k)
    ensures EraseAll(mem, plan, k) == Fill(mem, lo, EraseStart(plan, lo, k) - lo)
  {
    if k > 0 {
      ErasePrefix(mem, plan, lo, hi, k - 1);
      assert plan[k - 1].at == EraseStart(plan, lo, k - 1);
    }
  }

  /** A plan blanks exactly its range, however its entries are sized. */
  lemma PlanErasesRange(mem: seq<byte>, plan: seq<Erase>, lo: nat, hi: nat)
    requires Tiles(plan, lo, hi)
    ensures lo <= hi && EraseAll(mem, plan, |plan|) == Fill(mem, lo, hi - lo)
  {
    ErasePrefix(mem, plan, lo, hi, |plan|);
  }

  // -------------------------------------------------------------- program

  datatype Chunk = Chunk(at: nat, data: seq<byte>)

  function ChunkStart(chunks: seq<Chunk>, offset: nat, k: nat): nat
    requires k <= |chunks|
  {
    if k == 0 then offset else chunks[k - 1].at + |chunks[k - 1].data|
  }

  /** A piece of `data` where the data puts it. */
  ghost predicate InData(c: Chunk, offset: nat, data: seq<byte>)
  {
    && offset <= c.at && c.at + |c.data| <= offset + |data|
    && c.data == data[c.at - offset..c.at - offset + |c.data|]
  }

  /** Nonempty, in one page and one payload, and no shorter than page, payload and
      the end of the data force it to be. */
  predicate InPage(c: Chunk, end: nat)
  {
    && 1 <= |c.data| <= PROGRAM_CHUNK
    && c.at % PAGE_SIZE + |c.data| <= PAGE_SIZE
    && (|c.data| == PROGRAM_CHUNK || c.at % PAGE_SIZE + |c.data| == PAGE_SIZE || c.at + |c.data| == end)
  }

  ghost predicate Chained(chunks: seq<Chunk>, offset: nat)
  {
    forall k {:trigger ChunkStart(chunks, offset, k)} :: 0 <= k < |chunks| ==>
      chunks[k].at == ChunkStart(chunks, offset, k)
  }

  lemma ChainedAppend(chunks: seq<Chunk>, offset: nat, c: Chunk)
    requires Chained(chunks, offset) && c.at == ChunkStart(chunks, offset, |chunks|)
    ensures Chained(chunks + [c], offset)
  {
    var longer := chunks + [c];
    forall k | 0 <= k < |longer|
      ensures longer[k].at == ChunkStart(longer, offset, k)
    {
      assert k <= |chunks| ==> ChunkStart(longer, offset, k) == ChunkStart(chunks, offset, k);
    }
  }

  ghost predicate Covers(chunks: seq<Chunk>, offset: nat, data: seq<byte>)
  {
    && (forall k {:trigger InData(chunks[k], offset, data)} :: 0 <= k < |chunks| ==> InData(chunks[k], offset, data))
    && (forall k {:trigger InPage(chunks[k], offset + |data|)} :: 0 <= k < |chunks| ==> InPage(chunks[k], offset + |data|))
    && Chained(chunks, offset)
    && ChunkStart(chunks, offset, |chunks|) == offset + |data|
  }

  function Min(a: nat, b: nat): nat { if a < b then a else b }

  /** `iter_program_chunks` */
  method ProgramChunks(offset: nat, data: seq<byte>) returns (chunks: seq<Chunk>)
    ensures Covers(chunks, offset, data)
  {
    chunks := [];
    var i := 0;
    while i < |data|
      invariant 0 <= i <= |data|
      invariant forall k {:trigger InData(chunks[k], offset, data)} ::
        0 <= k < |chunks| ==> InData(chunks[k], offset, data)
      invariant forall k {:trigger InPage(chunks[k], offset + |data|)} ::
        0 <= k < |chunks| ==> InPage(chunks[k], offset + |data|)
      invariant Chained(chunks, offset)
      invariant ChunkStart(chunks, offset, |chunks|) == offset + i
    {
      var addr := offset + i;
      var n := Min(PROGRAM_CHUNK, Min(PAGE_SIZE - addr % PAGE_SIZE, |data| - i));
      ChainedAppend(chunks, offset, Chunk(addr, data[i..i + n]));
      chunks := chunks + [Chunk(addr, data[i..i + n])];
      i := i + n;
    }
  }

  function Joined(chunks: seq<Chunk>, k: nat): seq<byte>
    requires k <= |chunks|
  {
    if k == 0 then [] else Joined(chunks, k - 1) + chunks[k - 1].data
  }

  lemma {:induction false} JoinedPrefix(chunks: seq<Chunk>, offset: nat, data: seq<byte>, k: nat)
    requires Covers(chunks, offset, data) && k <= |chunks|
    ensures offset <= ChunkStart(chunks, offset, k) <= offset + |data|
    ensures Joined(chunks, k) == data[..ChunkStart(chunks, offset, k) - offset]
  {
    if k > 0 {
      JoinedPrefix(chunks, offset, data, k - 1);
      var c := chunks[k - 1];
      assert InData(c, offset, data) && c.at == ChunkStart(chunks, offset, k - 1);
      var i := c.at - offset;
      assert Joined(chunks, k - 1) == data[..i];
      PrefixGrows(data, i, |c.data|);
      assert Joined(chunks, k) == data[..i + |c.data|];
    }
  }

  lemma PrefixGrows(data: seq<byte>, i: nat, n: nat)
    requires i + n <= |data|
    ensures data[..i] + data[i..i + n] == data[..i + n]
  {
  }

  /** The chunks, joined, are the data. */
  lemma ChunksJoin(chunks: seq<Chunk>, offset: nat, data: seq<byte>)
    requires Covers(chunks, offset, data)
    ensures Joined(chunks, |chunks|) == data
  {
    JoinedPrefix(chunks, offset, data, |chunks|);
  }

  /** Chunks of a page-aligned range start at 0, 58, 116, 174 and 232 in each page. */
  lemma {:induction false} ChunkPosition(chunks: seq<Chunk>, offset: nat, data: seq<byte>, k: nat)
    requires Covers(chunks, offset, data) && k <= |chunks|
    requires offset % PAGE_SIZE == 0 && |data| % PAGE_SIZE == 0
    ensures offset <= ChunkStart(chunks, offset, k) <= offset + |data|
    ensures ChunkStart(chunks, offset, k) == offset + PAGE_SIZE * (k / 5) + PROGRAM_CHUNK * (k % 5)
  {
    if k > 0 {
      ChunkPosition(chunks, offset, data, k - 1);
      var c := chunks[k - 1];
      assert InData(c, offset, data) && InPage(c, offset + |data|) && c.at == ChunkStart(chunks, offset, k - 1);
      var q, j := (k - 1) / 5, (k - 1) % 5;
      PageOffset(offset / PAGE_SIZE + q, PROGRAM_CHUNK * j, c.at);
      PageSlack(c, offset, data);
      assert |c.data| == if j == 4 then 24 else PROGRAM_CHUNK;
      NextFive(k - 1);
    }
  }

  lemma PageOffset(page: nat, o: nat, at: nat)
    requires at == PAGE_SIZE * page + o && o < PAGE_SIZE
    ensures at % PAGE_SIZE == o
  {
  }

  lemma NextFive(k: nat)
    ensures if k % 5 == 4 then (k + 1) / 5 == k / 5 + 1 && (k + 1) % 5 == 0
            else (k + 1) / 5 == k / 5 && (k + 1) % 5 == k % 5 + 1
  {
  }

  /** A chunk of page-aligned data ends with its page or fills the payload. */
  lemma PageSlack(c: Chunk, offset: nat, data: seq<byte>)
    requires InPage(c, offset + |data|)
    requires offset % PAGE_SIZE == 0 && |data| % PAGE_SIZE == 0
    ensures |c.data| == Min(PROGRAM_CHUNK, PAGE_SIZE - c.at % PAGE_SIZE)
  {
    if c.at + |c.data| == offset + |data| {
      PageEnd(c.at / PAGE_SIZE, c.at % PAGE_SIZE, |c.data|, offset / PAGE_SIZE + |data| / PAGE_SIZE);
    }
  }

  /** What ends at a page boundary without crossing one ends its own page. */
  lemma PageEnd(page: nat, o: nat, len: nat, last: nat)
    requires PAGE_SIZE * page + o + len == PAGE_SIZE * last && 1 <= o + len <= PAGE_SIZE
    ensures o + len == PAGE_SIZE
  {
  }

  /** A sector takes 80 chunks. */
  lemma ChunkCount(chunks: seq<Chunk>, offset: nat, data: seq<byte>)
    requires Covers(chunks, offset, data)
    requires Aligned(offset) && Aligned(|data|)
    ensures |chunks| == 80 * (|data| / SECTOR_SIZE)
  {
    var k := |chunks|;
    SectorIsPages(offset);
    SectorIsPages(|data|);
    ChunkPosition(chunks, offset, data, k);
    SectorSum(|data| / SECTOR_SIZE, k / 5, k % 5);
  }

  lemma SectorIsPages(n: nat)
    requires Aligned(n)
    ensures n % PAGE_SIZE == 0 && SECTOR_SIZE * (n / SECTOR_SIZE) == n
  {
    assert n == PAGE_SIZE * (16 * (n / SECTOR_SIZE));
  }

  lemma SectorSum(n: nat, q: nat, j: nat)
    requires SECTOR_SIZE * n == PAGE_SIZE * q + PROGRAM_CHUNK * j && j < 5
    ensures j == 0 && q == 16 * n
  {
    assert PROGRAM_CHUNK * j == PAGE_SIZE * (16 * n - q);
    assert j == 0 || j == 1 || j == 2 || j == 3 || j == 4;
  }

  /** The cells after the page program of one chunk. */
  function ProgramAt(mem: seq<byte>, at: nat, data: seq<byte>): (r: seq<byte>)
    requires |mem| == FLASH_SIZE && at < FLASH_SIZE
    ensures |r| == |mem|
  {
    Burn(mem, at - at % PAGE_SIZE, at % PAGE_SIZE, data)
  }

  /** The cells after the first k chunks. */
  function ProgramAll(mem: seq<byte>, chunks: seq<Chunk>, k: nat): (r: seq<byte>)
    requires |mem| == FLASH_SIZE && k <= |chunks|
    requires forall i :: 0 <= i < k ==> chunks[i].at < FLASH_SIZE
    ensures |r| == |mem|
  {
    if k == 0 then mem else ProgramAt(ProgramAll(mem, chunks, k - 1), chunks[k - 1].at, chunks[k - 1].data)
  }

  /** On blank cells, a chunk inside one page is stored as it is. */
  lemma ProgramBlank(mem: seq<byte>, at: nat, data: seq<byte>)
    requires |mem| == FLASH_SIZE && at < FLASH_SIZE && at % PAGE_SIZE + |data| <= PAGE_SIZE
    requires at + |data| <= FLASH_SIZE && Blank(mem, at, at + |data|)
    ensures ProgramAt(mem, at, data) == Splice(mem, at, data)
  {
    var page, o := at - at % PAGE_SIZE, at % PAGE_SIZE;
    BurnWithoutWrap(mem, page, o, data);
    var r := ProgramAt(mem, at, data);
    forall i | 0 <= i < |mem|
      ensures r[i] == Splice(mem, at, data)[i]
    {
      if at <= i < at + |data| {
        assert r[page + o + (i - at)] == And8(mem[page + o + (i - at)], data[i - at]);
        AndErased(data[i - at]);
      }
    }
  }

  lemma ChunksInChip(chunks: seq<Chunk>, offset: nat, data: seq<byte>)
    requires Covers(chunks, offset, data) && offset + |data| <= FLASH_SIZE
    ensures forall i :: 0 <= i < |chunks| ==> chunks[i].at < FLASH_SIZE
  {
    forall i | 0 <= i < |chunks|
      ensures chunks[i].at < FLASH_SIZE
    {
      assert InData(chunks[i], offset, data) && InPage(chunks[i], offset + |data|);
    }
  }

  /** Programming a prefix of the chunks over blank cells stores a prefix of the data. */
  lemma {:induction false} ProgramPrefix(mem: seq<byte>, chunks: seq<Chunk>, offset: nat, data: seq<byte>, k: nat)
    requires Covers(chunks, offset, data) && k <= |chunks|
    requires |mem| == FLASH_SIZE && offset + |data| <= FLASH_SIZE
    requires Blank(mem, offset, offset + |data|)
    ensures forall i :: 0 <= i < |chunks| ==> chunks[i].at < FLASH_SIZE
    ensures offset <= ChunkStart(chunks, offset, k) <= offset + |data|
    ensures ProgramAll(mem, chunks, k) == Splice(mem, offset, data[..ChunkStart(chunks, offset, k) - offset])
  {
    ChunksInChip(chunks, offset, data);
    if k > 0 {
      ProgramPrefix(mem, chunks, offset, data, k - 1);
      var c := chunks[k - 1];
      assert InData(c, offset, data) && InPage(c, offset + |data|) && c.at == ChunkStart(chunks, offset, k - 1);
      var before := ProgramAll(mem, chunks, k - 1);
      ProgramBlank(before, c.at, c.data);
      SpliceGrows(mem, offset, data, c.at - offset, |c.data|);
    }
  }

  lemma SpliceGrows(mem: seq<byte>, offset: nat, data: seq<byte>, i: nat, n: nat)
    requires i + n <= |data| && offset + |data| <= |mem|
    ensures Splice(Splice(mem, offset, data[..i]), offset + i, data[i..i + n]) == Splice(mem, offset, data[..i + n])
  {
  }

  lemma SpliceOverFill(mem: seq<byte>, offset: nat, data: seq<byte>)
    requires offset + |data| <= |mem|
    ensures Blank(Fill(mem, offset, |data|), offset, offset + |data|)
    ensures Splice(Fill(mem, offset, |data|), offset, data) == Splice(mem, offset, data)
  {
  }

  /** Erase, then program: in either erase mode the range holds exactly the data
      and nothing else changes. */
  lemma EraseThenProgram(mem: seq<byte>, plan: seq<Erase>, chunks: seq<Chunk>, offset: nat, data: seq<byte>)
    requires |mem| == FLASH_SIZE && offset + |data| <= FLASH_SIZE
    requires Tiles(plan, offset, offset + |data|) && Covers(chunks, offset, data)
    ensures forall i :: 0 <= i < |chunks| ==> chunks[i].at < FLASH_SIZE
    ensures ProgramAll(EraseAll(mem, plan, |plan|), chunks, |chunks|) == Splice(mem, offset, data)
  {
    PlanErasesRange(mem, plan, offset, offset + |data|);
    SpliceOverFill(mem, offset, data);
    ProgramPrefix(EraseAll(mem, plan, |plan|), chunks, offset, data, |chunks|);
    assert data[..|data|] == data;
  }
}
