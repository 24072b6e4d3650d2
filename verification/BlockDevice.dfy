/** The encrypted block device (`SyncAccessFile`, vfs.rs): logical byte offsets on sealed blocks. */
module BlockDevice {
  import opened Bytes
  import opened Crypto
  import opened Fault

  /** What binds a file's blocks: the owning key, the file's identity and the database domain. */
  datatype Binding = Binding(key: Key, file: string, domain: Uuid)

  type Cells = seq<Cell<Page>>

  function SealBlock(b: Binding, k: nat, page: Page): Cell<Page> {
    Sealed(b.key, b.file, b.domain, k, page)
  }

  function OpenBlock(b: Binding, cells: Cells, k: nat): Option<Page>
    requires k < |cells|
  {
    cells[k].Open(b.key, b.file, b.domain, k)
  }

  predicate AllOpen(b: Binding, cells: Cells) {
    forall k :: 0 <= k < |cells| ==> OpenBlock(b, cells, k).Some?
  }

  /** The plaintext of block `k`; zeros past the physical end. */
  function PlainAt(b: Binding, cells: Cells, k: nat): Page {
    if k < |cells| && OpenBlock(b, cells, k).Some? then OpenBlock(b, cells, k).value else ZeroPage()
  }

  function ByteAt(b: Binding, cells: Cells, i: nat): byte {
    PlainAt(b, cells, i / BLOCK_SIZE)[i % BLOCK_SIZE]
  }

  /** The file's first `len` plaintext bytes. */
  function Content(b: Binding, cells: Cells, len: nat): (s: seq<byte>)
    ensures |s| == len
  {
    seq(len, i requires 0 <= i < len => ByteAt(b, cells, i))
  }

  function Blocks(len: nat): nat {
    (len + BLOCK_SIZE - 1) / BLOCK_SIZE
  }

  /** Exactly the blocks `len` bytes need, all authentic, and zeros in the slack of the last one. */
  ghost predicate Holds(b: Binding, cells: Cells, len: nat) {
    && |cells| == Blocks(len)
    && AllOpen(b, cells)
    && forall i: nat :: i >= len ==> ByteAt(b, cells, i) == 0
  }

  // ---------------------------------------------------------------- durable operations

  datatype BlockOp = Put(at: nat, page: Page) | Resize(blocks: nat)

  /** A write past the end leaves a hole of bytes that authenticate under nothing. */
  function Extended(cells: Cells, n: nat): (c: Cells)
    ensures |c| == Max(|cells|, n)
  {
    if n <= |cells| then cells else cells + seq(n - |cells|, _ => Torn)
  }

  function ApplyOp(b: Binding, cells: Cells, op: BlockOp): Cells {
    match op
    case Put(k, page) => Extended(cells, k + 1)[k := SealBlock(b, k, page)]
    case Resize(n) => if n <= |cells| then cells[..n] else Extended(cells, n)
  }

  function ApplyOps(b: Binding, cells: Cells, ops: seq<BlockOp>): Cells {
    if ops == [] then cells else ApplyOp(b, ApplyOps(b, cells, ops[..|ops| - 1]), ops[|ops| - 1])
  }

  /** Offering the next operation extends the landed prefix. */
  lemma NextLands(b: Binding, cells: Cells, ops: seq<BlockOp>, p: Power, n: nat)
    requires n < |ops|
    ensures
      var now := ApplyOps(b, cells, ops[..p.Survivors(n)]);
      (if SpentBy(p, n).Lands() then ApplyOp(b, now, ops[n]) else now) == ApplyOps(b, cells, ops[..p.Survivors(n + 1)])
  {
    NextSurvivor(p, n);
    assert ops[..n + 1][..n] == ops[..n];
  }

  // ---------------------------------------------------------------- write

  /** Block `k` after a write of `data` at `off` over `was`. */
  function Overlay(off: nat, data: seq<byte>, k: nat, was: Page): (p: Page) {
    seq(BLOCK_SIZE, i requires 0 <= i < BLOCK_SIZE =>
      var at := k * BLOCK_SIZE + i; if off <= at < off + |data| then data[at - off] else was[i])
  }

  function FirstBlock(off: nat): nat {
    off / BLOCK_SIZE
  }

  function LastBlock(off: nat, data: seq<byte>): nat
    requires data != []
  {
    (off + |data| - 1) / BLOCK_SIZE
  }

  /** A write seals each covered block in order. */
  function WriteOps(b: Binding, cells: Cells, off: nat, data: seq<byte>): (ops: seq<BlockOp>)
    ensures |ops| == if data == [] then 0 else LastBlock(off, data) + 1 - FirstBlock(off)
  {
    if data == [] then []
    else
      seq(LastBlock(off, data) + 1 - FirstBlock(off), j requires 0 <= j < LastBlock(off, data) + 1 - FirstBlock(off) =>
        var k := FirstBlock(off) + j; Put(k, Overlay(off, data, k, PlainAt(b, cells, k))))
  }

  lemma WriteOpsAt(b: Binding, cells: Cells, off: nat, data: seq<byte>, k: nat)
    requires data != [] && FirstBlock(off) <= k <= LastBlock(off, data)
    ensures WriteOps(b, cells, off, data)[k - FirstBlock(off)] == Put(k, Overlay(off, data, k, PlainAt(b, cells, k)))
  {
  }

  /** Power loss inside a write leaves every block wholly old or wholly new, the new ones a prefix; behind
      a gap the skipped blocks authenticate under nothing. */
  lemma {:induction false} CutWrite(b: Binding, cells: Cells, off: nat, data: seq<byte>, landed: nat)
    requires landed <= |WriteOps(b, cells, off, data)|
    ensures
      var first := FirstBlock(off);
      var now := ApplyOps(b, cells, WriteOps(b, cells, off, data)[..landed]);
      && |now| == Max(|cells|, if landed == 0 then 0 else first + landed)
      && forall k :: 0 <= k < |now| ==>
           now[k] == if first <= k < first + landed then SealBlock(b, k, Overlay(off, data, k, PlainAt(b, cells, k)))
                     else if k < |cells| then cells[k] else Torn
  {
    if landed > 0 {
      CutWrite(b, cells, off, data, landed - 1);
      WriteOpsAt(b, cells, off, data, FirstBlock(off) + landed - 1);
      var ops := WriteOps(b, cells, off, data);
      assert ops[..landed][..landed - 1] == ops[..landed - 1];
    } else {
      assert WriteOps(b, cells, off, data)[..0] == [];
    }
  }

  lemma UntouchedBlock(b: Binding, cells: Cells, off: nat, data: seq<byte>, landed: nat, k: nat)
    requires landed <= |WriteOps(b, cells, off, data)| && FirstBlock(off) + landed <= k
    ensures
      var now := ApplyOps(b, cells, WriteOps(b, cells, off, data)[..landed]);
      k < |cells| ==> k < |now| && now[k] == cells[k]
  {
    CutWrite(b, cells, off, data, landed);
  }

  /** The block a write has reached is as it was, and sealing it extends the landed prefix. */
  lemma NextBlock(b: Binding, cells: Cells, off: nat, data: seq<byte>, p: Power, k: nat)
    requires data != [] && FirstBlock(off) <= k <= LastBlock(off, data)
    ensures
      var n := k - FirstBlock(off);
      var ops := WriteOps(b, cells, off, data);
      && n < |ops|
      && var now := ApplyOps(b, cells, ops[..p.Survivors(n)]);
         && (k < |cells| ==> k < |now| && now[k] == cells[k])
         && (if SpentBy(p, n).Lands() then ApplyOp(b, now, Put(k, Overlay(off, data, k, PlainAt(b, cells, k)))) else now)
            == ApplyOps(b, cells, ops[..p.Survivors(n + 1)])
  {
    hide WriteOps, ApplyOps, ApplyOp, Overlay;
    var n := k - FirstBlock(off);
    UntouchedBlock(b, cells, off, data, p.Survivors(n), k);
    WriteOpsAt(b, cells, off, data, k);
    NextLands(b, cells, WriteOps(b, cells, off, data), p, n);
  }

  /** The write replaces the whole of block `k`. */
  predicate Whole(off: nat, data: seq<byte>, k: nat) {
    off <= k * BLOCK_SIZE && (k + 1) * BLOCK_SIZE <= off + |data|
  }

  /** The block at which a write gives up: the first one from `k` on that it must read back and that does
      not authenticate; or the one behind its last. */
  function StopsAt(b: Binding, cells: Cells, off: nat, data: seq<byte>, k: nat): (stop: nat)
    requires data != [] && k <= LastBlock(off, data) + 1
    ensures k <= stop <= LastBlock(off, data) + 1
    decreases LastBlock(off, data) + 1 - k
  {
    if k > LastBlock(off, data) || (!Whole(off, data, k) && k < |cells| && OpenBlock(b, cells, k).None?) then k
    else StopsAt(b, cells, off, data, k + 1)
  }

  /** No write to an authentic file gives up. */
  lemma {:induction false} AuthenticNeverStops(b: Binding, cells: Cells, off: nat, data: seq<byte>, k: nat)
    requires AllOpen(b, cells) && data != [] && k <= LastBlock(off, data) + 1
    ensures StopsAt(b, cells, off, data, k) == LastBlock(off, data) + 1
    decreases LastBlock(off, data) + 1 - k
  {
    if k <= LastBlock(off, data) { AuthenticNeverStops(b, cells, off, data, k + 1); }
  }

  /** `data` written into `s` at `off`, growing it if needed. */
  function Splice(s: seq<byte>, off: nat, data: seq<byte>): (r: seq<byte>)
    requires off <= |s|
    ensures |r| == Max(|s|, off + |data|)
  {
    s[..off] + data + if off + |data| < |s| then s[off + |data|..] else []
  }

  /** A hole-free write refines writing into a plain byte sequence. */
  lemma WriteRefines(b: Binding, cells: Cells, len: nat, off: nat, data: seq<byte>)
    requires Holds(b, cells, len) && off <= len && data != []
    ensures
      var now := ApplyOps(b, cells, WriteOps(b, cells, off, data));
      var end := Max(len, off + |data|);
      Holds(b, now, end) && Content(b, now, end) == Splice(Content(b, cells, len), off, data)
  {
    var ops := WriteOps(b, cells, off, data);
    var now := ApplyOps(b, cells, ops);
    var end := Max(len, off + |data|);
    WriteLands(b, cells, off, data);
    BlocksGrow(len, off, data);
    forall i: nat ensures ByteAt(b, now, i) == if off <= i < off + |data| then data[i - off] else ByteAt(b, cells, i) {
      WrittenByte(b, cells, off, data, now, i);
    }
    ContentSpliced(b, cells, now, len, off, data);
  }

  lemma ContentSpliced(b: Binding, cells: Cells, now: Cells, len: nat, off: nat, data: seq<byte>)
    requires off <= len
    requires forall i: nat :: i >= len ==> ByteAt(b, cells, i) == 0
    requires forall i: nat :: ByteAt(b, now, i) == if off <= i < off + |data| then data[i - off] else ByteAt(b, cells, i)
    ensures
      var end := Max(len, off + |data|);
      && Content(b, now, end) == Splice(Content(b, cells, len), off, data)
      && forall i: nat :: i >= end ==> ByteAt(b, now, i) == 0
  {
    hide ByteAt;
    var end := Max(len, off + |data|);
    forall i | 0 <= i < end ensures Content(b, now, end)[i] == Splice(Content(b, cells, len), off, data)[i] {
      assert Content(b, now, end)[i] == ByteAt(b, now, i);
      assert i < len ==> Content(b, cells, len)[i] == ByteAt(b, cells, i);
    }
  }

  lemma BlocksGrow(len: nat, off: nat, data: seq<byte>)
    requires off <= len && data != []
    ensures FirstBlock(off) <= Blocks(len)
    ensures Max(Blocks(len), LastBlock(off, data) + 1) == Blocks(Max(len, off + |data|))
  {
    assert LastBlock(off, data) + 1 == Blocks(off + |data|);
  }

  lemma WriteLands(b: Binding, cells: Cells, off: nat, data: seq<byte>)
    requires FirstBlock(off) <= |cells| && AllOpen(b, cells) && data != []
    ensures
      var now := ApplyOps(b, cells, WriteOps(b, cells, off, data));
      && |now| == Max(|cells|, LastBlock(off, data) + 1)
      && AllOpen(b, now)
      && forall k :: 0 <= k < |now| ==>
           now[k] == if FirstBlock(off) <= k <= LastBlock(off, data) then SealBlock(b, k, Overlay(off, data, k, PlainAt(b, cells, k)))
                     else cells[k]
  {
    var ops := WriteOps(b, cells, off, data);
    assert ops[..|ops|] == ops;
    CutWrite(b, cells, off, data, |ops|);
    assert FirstBlock(off) + |ops| == LastBlock(off, data) + 1;
    var now := ApplyOps(b, cells, ops);
    forall k | 0 <= k < |now| ensures OpenBlock(b, now, k).Some? {
      if !(FirstBlock(off) <= k <= LastBlock(off, data)) { assert OpenBlock(b, cells, k).Some?; }
    }
  }

  lemma WrittenByte(b: Binding, cells: Cells, off: nat, data: seq<byte>, now: Cells, i: nat)
    requires data != [] && AllOpen(b, cells) && |now| == Max(|cells|, LastBlock(off, data) + 1)
    requires FirstBlock(off) <= |cells|
    requires forall k :: 0 <= k < |now| ==>
      now[k] == if FirstBlock(off) <= k <= LastBlock(off, data) then SealBlock(b, k, Overlay(off, data, k, PlainAt(b, cells, k)))
                else cells[k]
    ensures ByteAt(b, now, i) == if off <= i < off + |data| then data[i - off] else ByteAt(b, cells, i)
  {
    var k := i / BLOCK_SIZE;
    assert i == k * BLOCK_SIZE + i % BLOCK_SIZE;
    if FirstBlock(off) <= k <= LastBlock(off, data) {
      assert PlainAt(b, now, k) == Overlay(off, data, k, PlainAt(b, cells, k));
    } else if k < |now| {
      assert now[k] == cells[k];
    }
  }

  // ---------------------------------------------------------------- truncate

  function Zeroed(page: Page, tail: nat): (p: Page)
    requires tail <= BLOCK_SIZE
  {
    page[..tail] + seq(BLOCK_SIZE - tail, _ => 0 as byte)
  }

  /** A mid-block truncate reseals the last kept block with its tail zeroed, then cuts the file. */
  function TruncateOps(b: Binding, cells: Cells, size: nat): seq<BlockOp> {
    var tail := size % BLOCK_SIZE;
    var k := Blocks(size) - 1;
    (if tail != 0 && k < |cells| then [Put(k, Zeroed(PlainAt(b, cells, k), tail))] else []) + [Resize(Blocks(size))]
  }

  /** The blocks with the tail of the last kept one zeroed. */
  function Resealed(b: Binding, cells: Cells, size: nat): (c: Cells)
    requires Blocks(size) <= |cells|
    ensures |c| == |cells|
  {
    var k := Blocks(size) - 1;
    if size % BLOCK_SIZE == 0 then cells else cells[k := SealBlock(b, k, Zeroed(PlainAt(b, cells, k), size % BLOCK_SIZE))]
  }

  lemma ApplyTwo(b: Binding, cells: Cells, x: BlockOp, y: BlockOp)
    ensures ApplyOps(b, cells, []) == cells
    ensures ApplyOps(b, cells, [x]) == ApplyOp(b, cells, x)
    ensures ApplyOps(b, cells, [x, y]) == ApplyOp(b, ApplyOp(b, cells, x), y)
  {
    hide ApplyOp;
    assert [x, y][..1] == [x] && [x][..0] == [];
    assert ApplyOps(b, cells, [x]) == ApplyOp(b, ApplyOps(b, cells, []), x);
  }

  /** Every cut of a truncate: nothing, the last kept block resealed, or that and the file shortened. */
  lemma TruncatePrefix(b: Binding, cells: Cells, size: nat, landed: nat)
    requires Blocks(size) <= |cells| && landed <= |TruncateOps(b, cells, size)|
    ensures
      var now := ApplyOps(b, cells, TruncateOps(b, cells, size)[..landed]);
      now == cells || now == Resealed(b, cells, size) || now == Resealed(b, cells, size)[..Blocks(size)]
  {
    var ops := TruncateOps(b, cells, size);
    var last := Resize(Blocks(size));
    hide Zeroed, PlainAt, SealBlock, Blocks;
    if size % BLOCK_SIZE == 0 {
      ApplyTwo(b, cells, last, last);
      assert ops == [last] && (ops[..landed] == [] || ops[..landed] == [last]);
    } else {
      var put := ops[0];
      ApplyTwo(b, cells, put, last);
      assert ApplyOp(b, cells, put) == Resealed(b, cells, size);
      assert ops == [put, last] && (ops[..landed] == [] || ops[..landed] == [put] || ops[..landed] == [put, last]);
    }
  }

  lemma ResealedBlock(b: Binding, cells: Cells, size: nat, j: nat)
    requires AllOpen(b, cells) && Blocks(size) <= |cells| && j < |cells|
    ensures OpenBlock(b, cells, j).Some? && OpenBlock(b, Resealed(b, cells, size), j).Some?
    ensures forall r: nat :: r < BLOCK_SIZE && j * BLOCK_SIZE + r < size ==>
      OpenBlock(b, Resealed(b, cells, size), j).value[r] == OpenBlock(b, cells, j).value[r]
  {
    assert OpenBlock(b, cells, j).Some?;
  }

  /** Power loss inside a shrinking truncate leaves every byte below the new size as it was and every
      remaining block authentic. */
  lemma CutTruncate(b: Binding, cells: Cells, size: nat, landed: nat)
    requires AllOpen(b, cells) && Blocks(size) <= |cells| && landed <= |TruncateOps(b, cells, size)|
    ensures
      var now := ApplyOps(b, cells, TruncateOps(b, cells, size)[..landed]);
      && AllOpen(b, now)
      && forall i: nat :: i < size ==> i / BLOCK_SIZE < |now| && ByteAt(b, now, i) == ByteAt(b, cells, i)
  {
    TruncatePrefix(b, cells, size, landed);
    var now := ApplyOps(b, cells, TruncateOps(b, cells, size)[..landed]);
    hide TruncateOps, ApplyOps, Resealed;
    assert Blocks(size) <= |now| <= |cells|;
    forall k | 0 <= k < |now| ensures OpenBlock(b, now, k).Some? {
      ResealedBlock(b, cells, size, k);
    }
    forall i: nat | i < size ensures i / BLOCK_SIZE < |now| && ByteAt(b, now, i) == ByteAt(b, cells, i) {
      assert i / BLOCK_SIZE < Blocks(size) && i == i / BLOCK_SIZE * BLOCK_SIZE + i % BLOCK_SIZE;
      ResealedBlock(b, cells, size, i / BLOCK_SIZE);
    }
  }

  /** A shrinking truncate refines taking a prefix. */
  lemma TruncateRefines(b: Binding, cells: Cells, len: nat, size: nat)
    requires Holds(b, cells, len) && size <= len
    ensures
      var now := ApplyOps(b, cells, TruncateOps(b, cells, size));
      Holds(b, now, size) && Content(b, now, size) == Content(b, cells, len)[..size]
  {
    var ops := TruncateOps(b, cells, size);
    var now := ApplyOps(b, cells, ops);
    assert ops[..|ops|] == ops;
    CutTruncate(b, cells, size, |ops|);
    assert ops[..1] == [ops[0]] && ApplyOps(b, cells, ops[..1]) == ApplyOp(b, cells, ops[0]) && ops[..0] == [];
    assert |ops| == 2 ==> ops[..2][..1] == ops[..1];
    forall i: nat | i >= size ensures ByteAt(b, now, i) == 0 {
      var k := i / BLOCK_SIZE;
      if k < Blocks(size) {
        assert k == Blocks(size) - 1 && size % BLOCK_SIZE != 0;
        assert PlainAt(b, now, k) == Zeroed(PlainAt(b, cells, k), size % BLOCK_SIZE);
      }
    }
  }

  // ---------------------------------------------------------------- runs

  datatype Call = WriteAt(off: nat, data: seq<byte>) | TruncateTo(size: nat) | AskSize

  /** What a plain byte sequence does on a call. */
  function ModelStep(s: seq<byte>, c: Call): seq<byte>
    requires Shaped(|s|, c)
  {
    match c
    case WriteAt(off, data) => Splice(s, off, data)
    case TruncateTo(n) => s[..n]
    case AskSize => s
  }

  /** No holes and no growing truncates. */
  predicate Shaped(len: nat, c: Call) {
    match c
    case WriteAt(off, _) => off <= len
    case TruncateTo(n) => n <= len
    case AskSize => true
  }

  /** A file: its blocks, and its tracked length once something asked for it or changed it. */
  datatype File = File(cells: Cells, logical: Option<nat>) {
    /** `ensure_logical`: the tracked length, or the whole blocks on disk. */
    function Len(): nat {
      if logical.Some? then logical.value else |cells| * BLOCK_SIZE
    }
  }

  /** The file after a call that loses no power. */
  function After(b: Binding, f: File, c: Call): File {
    match c
    case WriteAt(off, data) =>
      if data == [] then f else File(ApplyOps(b, f.cells, WriteOps(b, f.cells, off, data)), Some(Max(f.Len(), off + |data|)))
    case TruncateTo(n) => File(ApplyOps(b, f.cells, TruncateOps(b, f.cells, n)), Some(n))
    case AskSize => f.(logical := Some(f.Len()))
  }

  function ModelRun(s: seq<byte>, calls: seq<Call>): Option<seq<byte>>
    decreases |calls|
  {
    if calls == [] then Some(s)
    else if !Shaped(|s|, calls[0]) then None
    else ModelRun(ModelStep(s, calls[0]), calls[1..])
  }

  function DeviceRun(b: Binding, f: File, calls: seq<Call>): File
    decreases |calls|
  {
    if calls == [] then f else DeviceRun(b, After(b, f, calls[0]), calls[1..])
  }

  /** Over every run of hole-free writes, shrinking truncates and size calls the device refines a byte
      sequence: its bytes, its exact length as `size()` reports it, its exact number of blocks,
      authentic, with zero slack. */
  lemma {:induction false} DeviceRefines(b: Binding, f: File, calls: seq<Call>)
    requires Holds(b, f.cells, f.Len()) && ModelRun(Content(b, f.cells, f.Len()), calls).Some?
    ensures
      var s := ModelRun(Content(b, f.cells, f.Len()), calls).value;
      var now := DeviceRun(b, f, calls);
      now.Len() == |s| && Holds(b, now.cells, |s|) && Content(b, now.cells, |s|) == s
    decreases |calls|
  {
    if calls != [] {
      hide Holds, Content, WriteOps, TruncateOps, ApplyOps;
      StepRefines(b, f, calls[0]);
      DeviceRefines(b, After(b, f, calls[0]), calls[1..]);
    }
  }

  lemma StepRefines(b: Binding, f: File, c: Call)
    requires Holds(b, f.cells, f.Len()) && Shaped(f.Len(), c)
    ensures
      var now := After(b, f, c);
      Holds(b, now.cells, now.Len()) && Content(b, now.cells, now.Len()) == ModelStep(Content(b, f.cells, f.Len()), c)
  {
    hide Holds, Content, WriteOps, TruncateOps, ApplyOps;
    match c
    case WriteAt(off, data) =>
      if data != [] {
        WriteRefines(b, f.cells, f.Len(), off, data);
      } else {
        assert Splice(Content(b, f.cells, f.Len()), off, data) == Content(b, f.cells, f.Len());
      }
    case TruncateTo(n) => TruncateRefines(b, f.cells, f.Len(), n);
    case AskSize =>
  }

  // ---------------------------------------------------------------- the file handle

  const SQLITE_MAGIC: seq<byte> :=
    [0x53, 0x51, 0x4c, 0x69, 0x74, 0x65, 0x20, 0x66, 0x6f, 0x72, 0x6d, 0x61, 0x74, 0x20, 0x33, 0x00]

  /** The page size an SQLite header declares; 1 stands for 65536. */
  function PageSize(header: seq<byte>): nat
    requires |header| >= 18
  {
    var ps := FromBE(header[16..18]);
    if ps == 1 then 65536 else ps
  }

  /** A header write to the main file that declares another page size. */
  predicate BadHeaderWrite(isMain: bool, off: nat, data: seq<byte>) {
    isMain && off == 0 && |data| >= 18 && SQLITE_MAGIC <= data && PageSize(data) != BLOCK_SIZE
  }

  /** What `write` reports, and the file it leaves under this power: nothing happens for no data or a header
      with another page size; else the blocks before the one it cannot read back are written, as far as
      the power lasts. */
  function Written(b: Binding, isMain: bool, f: File, off: nat, data: seq<byte>, p: Power): (bool, File) {
    if data == [] then (true, f)
    else if BadHeaderWrite(isMain, off, data) then (false, f)
    else
      var (ops, stop) := (WriteOps(b, f.cells, off, data), StopsAt(b, f.cells, off, data, FirstBlock(off)));
      var whole := stop == LastBlock(off, data) + 1;
      (whole, File(ApplyOps(b, f.cells, ops[..p.Survivors(stop - FirstBlock(off))]),
                   if whole then Some(Max(f.Len(), off + |data|)) else f.logical))
  }

  /** On an authentic file, with the power on, a write that is not refused is the write of the run. */
  lemma WrittenIsAfter(b: Binding, isMain: bool, f: File, off: nat, data: seq<byte>, p: Power)
    requires AllOpen(b, f.cells) && !BadHeaderWrite(isMain, off, data) && p.Survivors(|WriteOps(b, f.cells, off, data)|) == |WriteOps(b, f.cells, off, data)|
    ensures Written(b, isMain, f, off, data, p) == (true, After(b, f, WriteAt(off, data)))
  {
    if data != [] {
      AuthenticNeverStops(b, f.cells, off, data, FirstBlock(off));
      var ops := WriteOps(b, f.cells, off, data);
      assert ops[..|ops|] == ops;
      hide ApplyOps, Overlay;
    }
  }

  /** What `truncate` reports, and the file it leaves under this power. */
  function Truncated(b: Binding, f: File, size: nat, p: Power): (bool, File) {
    if size % BLOCK_SIZE != 0 && Blocks(size) <= |f.cells| && OpenBlock(b, f.cells, Blocks(size) - 1).None? then (false, f)
    else
      var ops := TruncateOps(b, f.cells, size);
      (true, File(ApplyOps(b, f.cells, ops[..p.Survivors(|ops|)]), Some(size)))
  }

  lemma TruncatedIsAfter(b: Binding, f: File, size: nat, p: Power)
    requires AllOpen(b, f.cells) && p.Survivors(|TruncateOps(b, f.cells, size)|) == |TruncateOps(b, f.cells, size)|
    ensures Truncated(b, f, size, p) == (true, After(b, f, TruncateTo(size)))
  {
    var ops := TruncateOps(b, f.cells, size);
    assert ops[..|ops|] == ops;
    if size % BLOCK_SIZE != 0 && Blocks(size) <= |f.cells| { assert OpenBlock(b, f.cells, Blocks(size) - 1).Some?; }
  }

  /** SQLite's header string, byte by byte. */
  predicate StartsSqlite(data: seq<byte>) {
    |data| >= 16 && forall i :: 0 <= i < 16 ==> data[i] == "SQLite format 3\0"[i] as int
  }

  lemma MagicIsAscii(data: seq<byte>)
    ensures SQLITE_MAGIC <= data <==> StartsSqlite(data)
  {
    var m := SQLITE_MAGIC;
    var t := "SQLite format 3\0";
    assert |t| == 16 && forall i :: 0 <= i < 16 ==> m[i] == t[i] as int;
    if StartsSqlite(data) { assert data[..16] == m; }
    if m <= data { assert forall i :: 0 <= i < 16 ==> data[i] == m[i]; }
  }

  lemma PageSizeBytes(header: seq<byte>)
    requires |header| >= 18
    ensures PageSize(header) == 4096 <==> header[16] == 0x10 && header[17] == 0x00
  {
    var b := header[16..18];
    assert b[..1] == [b[0]] && b[..1][..0] == [] && FromBE(b[..1]) == 256 * FromBE(b[..1][..0]) + b[0];
    assert FromBE(b) == 256 * FromBE(b[..1]) + b[1];
  }

  lemma BadHeaderBytes(isMain: bool, off: nat, data: seq<byte>)
    ensures BadHeaderWrite(isMain, off, data) <==>
      isMain && off == 0 && |data| >= 18 && StartsSqlite(data) && !(data[16] == 0x10 && data[17] == 0x00)
  {
    MagicIsAscii(data);
    if |data| >= 18 { PageSizeBytes(data); }
    hide StartsSqlite, PageSize;
  }

  /** On an authentic file, under any power, the one write that fails is that of a header with another page
      size than 4096 to a main file, and it changes nothing. */
  lemma RefusedIff(b: Binding, isMain: bool, f: File, off: nat, data: seq<byte>, p: Power)
    requires AllOpen(b, f.cells)
    ensures
      var refused := isMain && off == 0 && |data| >= 18 && StartsSqlite(data) && !(data[16] == 0x10 && data[17] == 0x00);
      && (Written(b, isMain, f, off, data, p).0 <==> !refused)
      && (refused ==> Written(b, isMain, f, off, data, p).1 == f)
  {
    BadHeaderBytes(isMain, off, data);
    if data != [] { AuthenticNeverStops(b, f.cells, off, data, FirstBlock(off)); }
    hide ApplyOps, WriteOps, StartsSqlite, BadHeaderWrite;
  }

  /** The write must read block `k` back, and cannot: it covers a part of it, and the block on disk does not
      authenticate. */
  predicate CannotReadBack(b: Binding, cells: Cells, off: nat, data: seq<byte>, k: nat) {
    && data != [] && k < |cells| && off < (k + 1) * 4096 && k * 4096 < off + |data|
    && (k * 4096 < off || off + |data| < (k + 1) * 4096)
    && OpenBlock(b, cells, k).None?
  }

  lemma {:induction false} StopsIffCannot(b: Binding, cells: Cells, off: nat, data: seq<byte>, k: nat)
    requires data != [] && FirstBlock(off) <= k <= LastBlock(off, data) + 1
    ensures
      var stop := StopsAt(b, cells, off, data, k);
      && (stop <= LastBlock(off, data) ==> CannotReadBack(b, cells, off, data, stop))
      && (forall i :: k <= i < stop ==> !CannotReadBack(b, cells, off, data, i))
    decreases LastBlock(off, data) + 1 - k
  {
    if k <= LastBlock(off, data) {
      assert off < (k + 1) * 4096 && k * 4096 < off + |data|;
      if StopsAt(b, cells, off, data, k) != k { StopsIffCannot(b, cells, off, data, k + 1); }
    }
  }

  lemma UnfoldWritten(b: Binding, isMain: bool, f: File, off: nat, data: seq<byte>, p: Power)
    requires data != [] && !BadHeaderWrite(isMain, off, data)
    ensures
      var stop := StopsAt(b, f.cells, off, data, FirstBlock(off));
      var ((ok, now), whole) := (Written(b, isMain, f, off, data, p), stop == LastBlock(off, data) + 1);
      && off / 4096 == FirstBlock(off) <= stop <= LastBlock(off, data) + 1 && stop - off / 4096 <= |WriteOps(b, f.cells, off, data)|
      && ok == whole && now.logical == (if whole then Some(Max(f.Len(), off + |data|)) else f.logical)
      && now.cells == ApplyOps(b, f.cells, WriteOps(b, f.cells, off, data)[..p.Survivors(stop - off / 4096)])
  {
    hide ApplyOps, BadHeaderWrite;
  }

  /** The first block that a write cannot read back. */
  ghost predicate Stops(b: Binding, cells: Cells, off: nat, data: seq<byte>, stop: nat) {
    CannotReadBack(b, cells, off, data, stop) && forall k: nat :: k < stop ==> !CannotReadBack(b, cells, off, data, k)
  }

  lemma StopsThere(b: Binding, cells: Cells, off: nat, data: seq<byte>)
    requires data != []
    ensures
      var stop := StopsAt(b, cells, off, data, FirstBlock(off));
      if stop == LastBlock(off, data) + 1 then forall k: nat :: !CannotReadBack(b, cells, off, data, k)
      else Stops(b, cells, off, data, stop) && CannotReadBack(b, cells, off, data, stop)
  {
    StopsIffCannot(b, cells, off, data, FirstBlock(off));
    CoveredIffReached(b, cells, off, data);
    hide CannotReadBack;
  }

  /** Whatever the file, a write succeeds exactly when it is no refused header and covers no part of a block that
      it cannot read back. A write that fails leaves the tracked length alone, and under a lasting power has
      written just the blocks before the first such one. */
  lemma WriteSucceedsIff(b: Binding, isMain: bool, f: File, off: nat, data: seq<byte>, p: Power)
    ensures
      var refused := isMain && off == 0 && |data| >= 18 && StartsSqlite(data) && !(data[16] == 0x10 && data[17] == 0x00);
      var (ok, now) := Written(b, isMain, f, off, data, p);
      && (ok <==> data == [] || (!refused && forall k: nat :: !CannotReadBack(b, f.cells, off, data, k)))
      && (ok && data != [] ==> now.logical == Some(Max(f.Len(), off + |data|)))
      && (!ok ==> now.logical == f.logical) && (refused ==> now == f)
      && forall stop: nat :: !refused && Stops(b, f.cells, off, data, stop) ==>
           off / 4096 <= stop && stop - off / 4096 <= |WriteOps(b, f.cells, off, data)|
           && now.cells == ApplyOps(b, f.cells, WriteOps(b, f.cells, off, data)[..p.Survivors(stop - off / 4096)])
  {
    BadHeaderBytes(isMain, off, data);
    if data != [] && !BadHeaderWrite(isMain, off, data) {
      hide *;
      UnfoldWritten(b, isMain, f, off, data, p);
      StopsThere(b, f.cells, off, data);
      forall stop: nat | Stops(b, f.cells, off, data, stop) ensures stop == StopsAt(b, f.cells, off, data, FirstBlock(off)) {
        OneStop(b, f.cells, off, data, stop, StopsAt(b, f.cells, off, data, FirstBlock(off)), LastBlock(off, data) + 1);
      }
    } else {
      NothingToRead(b, f.cells, off, data);
      hide Stops, CannotReadBack, StopsAt, ApplyOps;
    }
  }

  lemma NothingToRead(b: Binding, cells: Cells, off: nat, data: seq<byte>)
    ensures data == [] ==> forall k: nat :: !CannotReadBack(b, cells, off, data, k) && !Stops(b, cells, off, data, k)
  {
  }

  lemma OneStop(b: Binding, cells: Cells, off: nat, data: seq<byte>, a: nat, c: nat, end: nat)
    requires Stops(b, cells, off, data, a)
    requires if c == end then forall k: nat :: !CannotReadBack(b, cells, off, data, k) else Stops(b, cells, off, data, c)
    ensures a == c
  {
    hide CannotReadBack;
  }

  lemma CoveredIffReached(b: Binding, cells: Cells, off: nat, data: seq<byte>)
    requires data != []
    ensures forall k: nat :: CannotReadBack(b, cells, off, data, k) ==> FirstBlock(off) <= k <= LastBlock(off, data)
  {
  }

  /** A truncate succeeds exactly when it keeps whole blocks, grows the file, or can read its last block back. */
  lemma TruncateSucceedsIff(b: Binding, f: File, size: nat, p: Power)
    ensures
      var (ok, now) := Truncated(b, f, size, p);
      && (ok <==> size % 4096 == 0 || size / 4096 >= |f.cells| || OpenBlock(b, f.cells, size / 4096).Some?)
      && (ok ==> now.logical == Some(size)) && (!ok ==> now == f)
  {
    hide ApplyOps, TruncateOps;
    assert size % BLOCK_SIZE != 0 ==> Blocks(size) == size / 4096 + 1;
  }

  /** A header that starts as SQLite's declares 4096-byte pages. */
  predicate HeaderOk(page: Page) {
    StartsSqlite(page) ==> page[16] == 0x10 && page[17] == 0x00
  }

  predicate FirstHeaderOk(b: Binding, cells: Cells) {
    cells != [] && OpenBlock(b, cells, 0).Some? ==> HeaderOk(OpenBlock(b, cells, 0).value)
  }

  /** The header string and the page size are written, and cut off, together or not at all. */
  predicate WholeHeaders(c: Call) {
    match c
    case WriteAt(off, data) => data == [] || off >= 18 || (off == 0 && |data| >= 18)
    case TruncateTo(n) => n == 0 || n >= 18
    case AskSize => true
  }

  /** A call on a main file, under the power it meets. */
  function MainCall(b: Binding, f: File, c: Call, p: Power): File {
    match c
    case WriteAt(off, data) => Written(b, true, f, off, data, p).1
    case TruncateTo(n) => Truncated(b, f, n, p).1
    case AskSize => After(b, f, c)
  }

  function MainRun(b: Binding, f: File, calls: seq<(Call, Power)>): File
    decreases |calls|
  {
    if calls == [] then f else MainRun(b, MainCall(b, f, calls[0].0, calls[0].1), calls[1..])
  }

  lemma OverlaidHeader(off: nat, data: seq<byte>, was: Page)
    requires HeaderOk(was) && (off >= 18 || (off == 0 && |data| >= 18)) && !BadHeaderWrite(true, off, data)
    ensures HeaderOk(Overlay(off, data, 0, was))
  {
    var page := Overlay(off, data, 0, was);
    MagicIsAscii(data);
    if |data| >= 18 { PageSizeBytes(data); }
    if off >= 18 {
      assert forall i :: 0 <= i < 18 ==> page[i] == was[i];
    } else {
      assert forall i :: 0 <= i < 18 ==> page[i] == data[i];
    }
  }

  lemma PlainHeader(b: Binding, cells: Cells)
    requires FirstHeaderOk(b, cells)
    ensures HeaderOk(PlainAt(b, cells, 0))
  {
    assert ZeroPage()[0] == 0 && "SQLite format 3\0"[0] as int == 0x53;
  }

  /** The first block after a write that is cut anywhere. */
  lemma FirstBlockCut(b: Binding, cells: Cells, off: nat, data: seq<byte>, landed: nat)
    requires landed <= |WriteOps(b, cells, off, data)|
    ensures
      var now := ApplyOps(b, cells, WriteOps(b, cells, off, data)[..landed]);
      now != [] ==>
        || (cells != [] && now[0] == cells[0]) || now[0] == Torn
        || now[0] == SealBlock(b, 0, Overlay(off, data, 0, PlainAt(b, cells, 0)))
  {
    CutWrite(b, cells, off, data, landed);
    hide WriteOps, ApplyOps, Overlay, PlainAt, SealBlock;
  }

  lemma WrittenFirst(b: Binding, f: File, off: nat, data: seq<byte>, p: Power)
    requires data != [] && !BadHeaderWrite(true, off, data)
    ensures
      var now := Written(b, true, f, off, data, p).1.cells;
      now != [] ==>
        || (f.cells != [] && now[0] == f.cells[0]) || now[0] == Torn
        || now[0] == SealBlock(b, 0, Overlay(off, data, 0, PlainAt(b, f.cells, 0)))
  {
    hide BadHeaderWrite, Overlay, WriteOps, ApplyOps, PlainAt, SealBlock, StopsAt, FirstBlock, LastBlock;
    NothingOffered(b, f.cells, off, data);
    FirstBlockCut(b, f.cells, off, data, p.Survivors(StopsAt(b, f.cells, off, data, FirstBlock(off)) - FirstBlock(off)));
  }

  lemma WrittenHeader(b: Binding, f: File, off: nat, data: seq<byte>, p: Power)
    requires FirstHeaderOk(b, f.cells) && WholeHeaders(WriteAt(off, data))
    ensures FirstHeaderOk(b, Written(b, true, f, off, data, p).1.cells)
  {
    if data != [] && !BadHeaderWrite(true, off, data) {
      PlainHeader(b, f.cells);
      OverlaidHeader(off, data, PlainAt(b, f.cells, 0));
      WrittenFirst(b, f, off, data, p);
      hide HeaderOk, BadHeaderWrite, Overlay, WriteOps, ApplyOps, PlainAt, Written, WholeHeaders;
    }
  }

  lemma TruncatedHeader(b: Binding, f: File, size: nat, p: Power)
    requires FirstHeaderOk(b, f.cells) && WholeHeaders(TruncateTo(size))
    ensures FirstHeaderOk(b, Truncated(b, f, size, p).1.cells)
  {
    PlainHeader(b, f.cells);
    if 0 < size < BLOCK_SIZE { ZeroedHeader(PlainAt(b, f.cells, 0), size); }
    hide HeaderOk, Zeroed, PlainAt, Truncated, TruncateOps, ApplyOps, ApplyOp;
    CutShorter(b, f, size, p);
  }

  /** The first block after a truncate that is cut anywhere. */
  lemma CutShorter(b: Binding, f: File, size: nat, p: Power)
    ensures
      var now := Truncated(b, f, size, p).1.cells;
      now != [] ==>
        || (f.cells != [] && now[0] == f.cells[0]) || now[0] == Torn
        || (0 < size < BLOCK_SIZE && now[0] == SealBlock(b, 0, Zeroed(PlainAt(b, f.cells, 0), size)))
  {
    var ops, last := TruncateOps(b, f.cells, size), Resize(Blocks(size));
    var n := p.Survivors(|ops|);
    if |ops| == 2 {
      ApplyTwo(b, f.cells, ops[0], last);
      assert ops[..n] == [] || ops[..n] == [ops[0]] || ops[..n] == [ops[0], last];
    } else {
      ApplyTwo(b, f.cells, last, last);
      assert ops[..n] == [] || ops[..n] == [last];
    }
    hide Zeroed, PlainAt, SealBlock;
  }

  lemma ZeroedHeader(page: Page, size: nat)
    requires HeaderOk(page) && 18 <= size < BLOCK_SIZE
    ensures HeaderOk(Zeroed(page, size))
  {
    assert forall i :: 0 <= i < 18 ==> Zeroed(page, size)[i] == page[i];
  }

  /** Over every run of calls that keep headers whole, refused writes and power cuts included, a main file
      never comes to start with an SQLite header of another page size. */
  lemma {:induction false} HeaderStaysOk(b: Binding, f: File, calls: seq<(Call, Power)>)
    requires FirstHeaderOk(b, f.cells) && forall c <- calls :: WholeHeaders(c.0)
    ensures FirstHeaderOk(b, MainRun(b, f, calls).cells)
    decreases |calls|
  {
    if calls != [] {
      var (c, p) := calls[0];
      assert calls[0] in calls && forall d <- calls[1..] :: d in calls;
      hide FirstHeaderOk, WholeHeaders, Written, Truncated;
      match c {
        case WriteAt(off, data) => WrittenHeader(b, f, off, data, p);
        case TruncateTo(n) => TruncatedHeader(b, f, n, p);
        case AskSize =>
      }
      HeaderStaysOk(b, MainCall(b, f, c, p), calls[1..]);
    }
  }

  /** The power does not fail. */
  const ON: Power := Power(None, false)

  /** What a write leaves of the first block: it is covered, or kept. */
  lemma FirstBlockWritten(b: Binding, f: File, off: nat, data: seq<byte>, page: Page)
    requires f.cells != [] && OpenBlock(b, f.cells, 0) == Some(page)
    ensures
      var now := Written(b, false, f, off, data, ON).1;
      now.cells != [] && OpenBlock(b, now.cells, 0) == Some(if data == [] then page else Overlay(off, data, 0, page))
  {
    if data != [] {
      var (ops, stop) := (WriteOps(b, f.cells, off, data), StopsAt(b, f.cells, off, data, FirstBlock(off)));
      var landed := stop - FirstBlock(off);
      NothingOffered(b, f.cells, off, data);
      CutWrite(b, f.cells, off, data, landed);
      assert FirstBlock(off) == 0 ==> landed > 0;
      assert FirstBlock(off) > 0 ==> Overlay(off, data, 0, page) == page;
    }
  }

  /** What a truncate leaves of it. */
  lemma FirstBlockTruncated(b: Binding, f: File, size: nat, page: Page)
    requires f.cells != [] && OpenBlock(b, f.cells, 0) == Some(page)
    ensures
      var now := Truncated(b, f, size, ON).1;
      if size == 0 then now.cells == []
      else now.cells != [] && OpenBlock(b, now.cells, 0) == Some(if size < BLOCK_SIZE then Zeroed(page, size) else page)
  {
    var ops, last := TruncateOps(b, f.cells, size), Resize(Blocks(size));
    assert ops[..|ops|] == ops;
    if |ops| == 2 { ApplyTwo(b, f.cells, ops[0], last); } else { ApplyTwo(b, f.cells, last, last); }
  }

  lemma NothingOffered(b: Binding, cells: Cells, off: nat, data: seq<byte>)
    requires data != []
    ensures |WriteOps(b, cells, off, data)| == LastBlock(off, data) + 1 - FirstBlock(off) && FirstBlock(off) <= LastBlock(off, data)
    ensures ApplyOps(b, cells, WriteOps(b, cells, off, data)[..0]) == cells
  {
    assert WriteOps(b, cells, off, data)[..0] == [];
  }

  class SyncAccessFile {
    const binding: Binding
    const isMainDb: bool
    var cells: Cells
    var logical: Option<nat>
    var power: Power

    constructor (binding: Binding, isMainDb: bool, cells: Cells, logical: Option<nat>, power: Power)
      ensures this.binding == binding && this.isMainDb == isMainDb
      ensures this.cells == cells && this.logical == logical && this.power == power
    {
      this.binding, this.isMainDb, this.cells, this.logical, this.power := binding, isMainDb, cells, logical, power;
    }

    /** The file as a value. */
    function Now(): File
      reads this
    {
      File(cells, logical)
    }

    method Size() returns (n: nat)
      modifies this`logical
      ensures n == old(Now().Len()) && Now() == After(binding, old(Now()), AskSize)
    {
      n := Now().Len();
      logical := Some(n);
    }

    /** One gated physical operation. */
    method Persist(op: BlockOp)
      modifies this`cells, this`power
      ensures power == old(power).Spent()
      ensures cells == if old(power).Lands() then ApplyOp(binding, old(cells), op) else old(cells)
    {
      if power.Lands() { cells := ApplyOp(binding, cells, op); }
      power := power.Spent();
    }

    /** `read`: the file's bytes with zeros past its last block, and whether every covered block was
        there. A covered block that does not authenticate is an error, never zeros. */
    method Read(buf: array<byte>, off: nat) returns (full: Option<bool>)
      modifies buf
      ensures full.Some? <==>
        forall k :: buf.Length > 0 && off / BLOCK_SIZE <= k < |cells| && k * BLOCK_SIZE < off + buf.Length ==> OpenBlock(binding, cells, k).Some?
      ensures full.Some? ==> forall i :: 0 <= i < buf.Length ==> buf[i] == ByteAt(binding, cells, off + i)
      ensures full.Some? ==> (full.value <==> buf.Length == 0 || (off + buf.Length - 1) / BLOCK_SIZE < |cells|)
    {
      if buf.Length == 0 { return Some(true); }
      var first, last := off / BLOCK_SIZE, (off + buf.Length - 1) / BLOCK_SIZE;
      var short := false;
      var k := first;
      while k <= last
        invariant first <= k <= last + 1
        invariant forall j :: first <= j < k && j < |cells| ==> OpenBlock(binding, cells, j).Some?
        invariant forall i :: 0 <= i < buf.Length && off + i < k * BLOCK_SIZE ==> buf[i] == ByteAt(binding, cells, off + i)
        invariant short <==> k > first && k - 1 >= |cells|
      {
        var lo, hi := Max(off, k * BLOCK_SIZE), Min(off + buf.Length, (k + 1) * BLOCK_SIZE);
        if k < |cells| && OpenBlock(binding, cells, k).None? { return None; }
        short := short || k >= |cells|;
        var plain := PlainAt(binding, cells, k);
        ghost var before := buf[..];
        forall i | lo <= i < hi {
          buf[i - off] := plain[i - k * BLOCK_SIZE];
        }
        forall i | 0 <= i < buf.Length && off + i < (k + 1) * BLOCK_SIZE
          ensures buf[i] == ByteAt(binding, cells, off + i)
        {
          if off + i < k * BLOCK_SIZE {
            assert buf[i] == before[i];
          } else {
            assert (off + i) / BLOCK_SIZE == k && (off + i) % BLOCK_SIZE == off + i - k * BLOCK_SIZE;
          }
        }
        k := k + 1;
      }
      full := Some(!short);
    }
  
    /** The plaintext a write seals at block `k`: the data alone when it covers the whole block, else the
        block on disk (zeros past the physical end) with the data laid over it. `None` when that block
        does not authenticate. */
    method Compose(data: seq<byte>, off: nat, k: nat, physical: nat) returns (plain: Option<Page>)
      requires data != [] && FirstBlock(off) <= k <= LastBlock(off, data)
      requires k < physical ==> k < |cells|
      ensures plain.None? <==> !Whole(off, data, k) && k < physical && OpenBlock(binding, cells, k).None?
      ensures plain.Some? ==> plain.value == Overlay(off, data, k, if k < physical then PlainAt(binding, cells, k) else ZeroPage())
    {
      var at, end := k * BLOCK_SIZE, (k + 1) * BLOCK_SIZE;
      if off <= at && end <= off + |data| {
        plain := Some(data[at - off..end - off]);
      } else {
        var lo, hi := Max(off, at), Min(off + |data|, end);
        var onDisk := if k < physical then OpenBlock(binding, cells, k) else Some(ZeroPage());
        if onDisk.None? { return None; }
        plain := Some(onDisk.value[..lo - at] + data[lo - off..hi - off] + onDisk.value[hi - at..]);
      }
    }

    /** `n` operations of a write to `was` were offered under the power `p0`. */
    ghost predicate Offered(was: Cells, off: nat, data: seq<byte>, p0: Power, n: nat)
      requires n <= |WriteOps(binding, was, off, data)|
      reads this
    {
      power == SpentBy(p0, n) && cells == ApplyOps(binding, was, WriteOps(binding, was, off, data)[..p0.Survivors(n)])
    }

    /** One iteration of `write`'s block loop. */
    method SealNext(data: seq<byte>, off: nat, k: nat, physical: nat, ghost was: Cells, ghost p0: Power) returns (ok: bool)
      requires data != [] && physical == |was|
      requires FirstBlock(off) <= k <= LastBlock(off, data) && Offered(was, off, data, p0, k - FirstBlock(off))
      modifies this`cells, this`power
      ensures ok <==> Whole(off, data, k) || k >= |was| || OpenBlock(binding, was, k).Some?
      ensures Offered(was, off, data, p0, if ok then k + 1 - FirstBlock(off) else k - FirstBlock(off))
    {
      hide WriteOps, ApplyOps, ApplyOp, Overlay, FirstBlock, LastBlock;
      NextBlock(binding, was, off, data, p0, k);
      var plain := Compose(data, off, k, physical);
      if plain.None? { return false; }
      Persist(Put(k, plain.value));
      ok := true;
    }

    /** The block loop of `write`. */
    method WriteBlocks(data: seq<byte>, off: nat) returns (ok: bool)
      requires data != []
      modifies this`cells, this`power
      ensures
        var (ops, stop) := (WriteOps(binding, old(cells), off, data), StopsAt(binding, old(cells), off, data, FirstBlock(off)));
        && (ok <==> stop == LastBlock(off, data) + 1)
        && cells == ApplyOps(binding, old(cells), ops[..old(power).Survivors(stop - FirstBlock(off))])
    {
      var first, last, physical := FirstBlock(off), LastBlock(off, data), |cells|;
      ghost var was, p0 := cells, power;
      NothingOffered(binding, was, off, data);
      hide WriteOps, ApplyOps, Whole, FirstBlock, LastBlock;
      for k := first to last + 1
        invariant Offered(was, off, data, p0, k - first)
        invariant StopsAt(binding, was, off, data, first) == StopsAt(binding, was, off, data, k)
      {
        var sealed := SealNext(data, off, k, physical, was, p0);
        if !sealed { return false; }
      }
      ok := true;
    }

    /** `write`: seal each covered block in order, reading a partly covered one back first. It fails on a
        header with another page size, before it touches anything, and on a block that it cannot read
        back, having written the blocks before it. Wherever the power fails, exactly a prefix lands. */
    method Write(data: seq<byte>, off: nat) returns (ok: bool)
      modifies this`cells, this`logical, this`power
      ensures (ok, Now()) == Written(binding, isMainDb, old(Now()), off, data, old(power))
    {
      if data == [] { return true; }
      if BadHeaderWrite(isMainDb, off, data) { return false; }
      hide ApplyOps, WriteOps, StopsAt, BadHeaderWrite;
      var len := Now().Len();
      ok := WriteBlocks(data, off);
      if ok { logical := Some(Max(len, off + |data|)); }
    }

    /** `truncate`: reseal the last kept block with its tail zeroed, then cut the file. It fails, touching
        nothing, when that block does not authenticate. */
    method Truncate(size: nat) returns (ok: bool)
      modifies this`cells, this`logical, this`power
      ensures (ok, Now()) == Truncated(binding, old(Now()), size, old(power))
    {
      ghost var ops, was, p0 := TruncateOps(binding, cells, size), cells, power;
      assert ops[..0] == [] && ops[..1] == [ops[0]] && ops[..|ops|] == ops;
      NextSurvivor(p0, 0);
      NextSurvivor(p0, 1);
      assert SpentBy(p0, 1) == p0.Spent();
      var tail, blocks := size % BLOCK_SIZE, Blocks(size);
      if tail != 0 && blocks - 1 < |cells| {
        var plain := OpenBlock(binding, cells, blocks - 1);
        if plain.None? { return false; }
        Persist(Put(blocks - 1, Zeroed(plain.value, tail)));
        assert ops[..2][..1] == ops[..1];
        assert ApplyOps(binding, was, ops[..1]) == ApplyOp(binding, was, ops[0]);
      }
      Persist(Resize(blocks));
      logical := Some(size);
      assert cells == ApplyOps(binding, was, ops[..p0.Survivors(|ops|)]);
      ok := true;
    }
  }
}
