/**
 Lookups in HotSpot's code cache: whether an address is Java code, the block of
 a code heap that contains it, and the method id behind it. The heaps, the
 field offsets and memory are given data.
 */
module CodeCache {
  import opened Basics

  type Byte = x: int | 0 <= x < 256

  function Plus(a: Word, b: int): Word {
    (a + b) % TWO_64
  }

  function Pow2(n: nat): (p: nat)
    ensures p > 0
  {
    if n == 0 then 1 else 2 * Pow2(n - 1)
  }

  /** Powers multiply, so that `Pow2` is what a shift divides by. */
  lemma {:induction false} PowerLaw(a: nat, b: nat)
    ensures Pow2(a + b) == Pow2(a) * Pow2(b) && Pow2(1) == 2
  {
    if b > 0 {
      PowerLaw(a, b - 1);
      assert Pow2(a + b) == 2 * Pow2(a + (b - 1));
      assert 2 * (Pow2(a) * Pow2(b - 1)) == Pow2(a) * (2 * Pow2(b - 1));
    } else {
      assert Pow2(0) == 1 && Pow2(1) == 2 * Pow2(0);
    }
  }

  /** A code heap: its committed memory and its segment map. */
  datatype Heap = Heap(low: Word, high: Word, log2SegmentSize: nat, segmap: seq<Byte>)

  predicate Contains(h: Heap, ip: Word) {
    h.low <= ip < h.high
  }

  // ---------- blocks of a heap ----------

  /** Consecutive segments that belong to one block. */
  datatype Block = Block(start: nat, length: nat)

  predicate Covers(b: Block, segment: int) {
    b.start <= segment < b.start + b.length
  }

  /** Blocks are not empty, lie in the map and follow one another; gaps are free segments. */
  ghost predicate Layout(blocks: seq<Block>, segments: nat) {
    && (forall i :: 0 <= i < |blocks| ==> blocks[i].length > 0 && blocks[i].start + blocks[i].length <= segments)
    && (forall i, j :: 0 <= i < j < |blocks| ==> blocks[i].start + blocks[i].length <= blocks[j].start)
  }

  /** The map is 0 where the block starts; elsewhere it is a hop back that does not pass the start. */
  ghost predicate Mapped(segmap: seq<Byte>, b: Block) {
    && b.start + b.length <= |segmap|
    && forall i :: Covers(b, i) ==> if i == b.start then segmap[i] == 0 else 0 < segmap[i] <= i - b.start
  }

  ghost predicate Consistent(segmap: seq<Byte>, blocks: seq<Block>) {
    Layout(blocks, |segmap|) && forall i :: 0 <= i < |blocks| ==> Mapped(segmap, blocks[i])
  }

  /** A segment is in at most one block. */
  lemma {:induction false} BlockUnique(blocks: seq<Block>, segments: nat, i: nat, j: nat, segment: nat)
    requires Layout(blocks, segments) && i < |blocks| && j < |blocks|
    requires Covers(blocks[i], segment) && Covers(blocks[j], segment)
    ensures i == j
  {
  }

  /**
   The walk over the segment map: it ends, its index never goes below the start of the
   block, and it finds the start of the block that contains the segment.
   */
  method FindBlockStart(segmap: seq<Byte>, segment: nat, ghost b: Block) returns (start: nat)
    requires Mapped(segmap, b) && Covers(b, segment)
    ensures start == b.start
  {
    var index: nat := segment;
    while segmap[index] > 0
      invariant Covers(b, index)
      decreases index
    {
      index := index - segmap[index];
    }
    start := index;
  }

  /** The plain search: the block, if any, that contains the segment. */
  method SearchBlocks(blocks: seq<Block>, segments: nat, segment: nat) returns (found: Option<nat>)
    requires Layout(blocks, segments)
    ensures found.Some? ==> found.value < |blocks| && Covers(blocks[found.value], segment)
    ensures found.None? ==> forall i :: 0 <= i < |blocks| ==> !Covers(blocks[i], segment)
  {
    for i := 0 to |blocks|
      invariant forall k :: 0 <= k < i ==> !Covers(blocks[k], segment)
    {
      if blocks[i].start <= segment && segment < blocks[i].start + blocks[i].length {
        return Some(i);
      }
    }
    found := None;
  }

  /** The walk agrees with the plain search, for every segment of every block. */
  method WalkAgreesWithSearch(segmap: seq<Byte>, blocks: seq<Block>, segment: nat) returns (start: nat,
                              found: Option<nat>)
    requires Consistent(segmap, blocks)
    requires exists i :: 0 <= i < |blocks| && Covers(blocks[i], segment)
    ensures found.Some? && found.value < |blocks| && start == blocks[found.value].start
    ensures forall i :: 0 <= i < |blocks| && Covers(blocks[i], segment) ==> i == found.value
  {
    found := SearchBlocks(blocks, |segmap|, segment);
    start := FindBlockStart(segmap, segment, blocks[found.value]);
    forall i | 0 <= i < |blocks| && Covers(blocks[i], segment) ensures i == found.value {
      BlockUnique(blocks, |segmap|, i, found.value, segment);
    }
  }

  // ---------- addresses ----------

  function Quotient(n: nat, size: nat): nat
    requires size > 0
  {
    n / size
  }

  function SegmentOf(h: Heap, ip: Word): nat
    requires Contains(h, ip)
  {
    Quotient(ip - h.low, Pow2(h.log2SegmentSize))
  }

  /** The addresses of a block's segments. */
  predicate InBlock(h: Heap, b: Block, ip: Word) {
    h.low + b.start * Pow2(h.log2SegmentSize) <= ip < h.low + (b.start + b.length) * Pow2(h.log2SegmentSize)
  }

  lemma {:induction false} DivisionBounds(n: nat, size: nat, lo: nat, hi: nat)
    requires size > 0
    ensures lo <= Quotient(n, size) < hi <==> lo * size <= n < hi * size
  {
    var q, r := n / size, n % size;
    assert n == q * size + r;
    if lo <= q { Scaled(lo, q, size); } else { Scaled(q + 1, lo, size); }
    if q < hi { Scaled(q + 1, hi, size); } else { Scaled(hi, q, size); }
  }

  lemma {:induction false} Scaled(a: nat, b: nat, size: nat)
    requires a <= b
    ensures a * size <= b * size
  {
  }

  /** An address is in a block exactly if its segment is. */
  lemma {:induction false} SegmentInBlock(h: Heap, b: Block, ip: Word)
    requires Contains(h, ip)
    ensures InBlock(h, b, ip) <==> Covers(b, SegmentOf(h, ip))
  {
    DivisionBounds(ip - h.low, Pow2(h.log2SegmentSize), b.start, b.start + b.length);
  }

  /** The address of the block that contains the instruction pointer. */
  method FindBlockAddress(h: Heap, ip: Word, ghost b: Block) returns (address: Word)
    requires Contains(h, ip) && Mapped(h.segmap, b) && InBlock(h, b, ip)
    ensures address == h.low + b.start * Pow2(h.log2SegmentSize) <= ip
  {
    SegmentInBlock(h, b, ip);
    var segment := Quotient(ip - h.low, Pow2(h.log2SegmentSize));
    var start := FindBlockStart(h.segmap, segment, b);
    address := h.low + start * Pow2(h.log2SegmentSize);
  }

  // ---------- method ids ----------

  /** Field offsets, memory and heaps of the virtual machine. */
  datatype Vm = Vm(
    heaps: seq<Heap>,
    blocks: seq<seq<Block>>,          // the layout of each heap
    memory: Word -> Word,             // 64-bit reads
    memory16: Word -> Word,           // 16-bit reads
    text: Word -> string,             // C strings
    isValid: Word -> bool,
    heapBlockSize: nat,
    nameOffset: nat,
    compiledMethodOffset: nat,
    constMethodOffset: nat,
    idNumberOffset: nat,
    constantsOffset: nat,
    poolHolderOffset: nat,
    methodIdsOffset: nat)

  /** 16-bit reads yield 16 bits, and the segment maps fit the layouts. */
  ghost predicate Sound(vm: Vm) {
    && (forall a: Word :: vm.memory16(a) < 65536)
    && |vm.blocks| == |vm.heaps|
    && (forall i :: 0 <= i < |vm.heaps| ==> Consistent(vm.heaps[i].segmap, vm.blocks[i]))
  }

  /** In a heap that contains it, the address belongs to a block, as that of running code does. */
  ghost predicate InSomeBlock(vm: Vm, ip: Word)
    requires |vm.blocks| == |vm.heaps|
  {
    forall i :: 0 <= i < |vm.heaps| && Contains(vm.heaps[i], ip) ==>
      exists k :: 0 <= k < |vm.blocks[i]| && InBlock(vm.heaps[i], vm.blocks[i][k], ip)
  }

  method IsJavaFrame(vm: Vm, ip: Word) returns (java: bool)
    ensures java <==> exists i :: 0 <= i < |vm.heaps| && vm.heaps[i].low <= ip < vm.heaps[i].high
  {
    for i := 0 to |vm.heaps|
      invariant forall k :: 0 <= k < i ==> !Contains(vm.heaps[k], ip)
    {
      if vm.heaps[i].low <= ip && ip < vm.heaps[i].high {
        return true;
      }
    }
    java := false;
  }

  /** `strstr(text, part) != nullptr`. */
  ghost predicate HasPart(text: string, part: string) {
    exists i :: 0 <= i <= |text| && part <= text[i..]
  }

  method FindPart(text: string, part: string) returns (found: bool)
    ensures found <==> HasPart(text, part)
  {
    for i := 0 to |text| + 1
      invariant forall k :: 0 <= k < i ==> !(part <= text[k..])
    {
      if part <= text[i..] {
        return true;
      }
    }
    found := false;
  }

  /** The id cache of a class: slot 0 holds its length, slots 1 .. length the ids. */
  method ReadId(vm: Vm, cache: Word, idNumber: nat) returns (id: Word, ghost slot: Option<nat>)
    requires idNumber < 65536
    ensures slot == if cache != 0 && vm.memory(cache) > idNumber then Some(idNumber + 1) else None
    ensures slot.Some? ==> 1 <= slot.value <= vm.memory(cache) && id == vm.memory(Plus(cache, 8 * slot.value))
    ensures slot.None? ==> id == 0
  {
    id, slot := 0, None;
    if cache != 0 && vm.memory(cache) > idNumber {
      id := vm.memory(Plus(cache, 8 * (idNumber + 1)));
      slot := Some(idNumber + 1);
    }
  }

  /** The cache of method ids that a method leads to, and the method's number. */
  function IdCache(vm: Vm, m: Word): (Word, Word) {
    var constMethod := vm.memory(Plus(m, vm.constMethodOffset));
    var pool := vm.memory(Plus(constMethod, vm.constantsOffset));
    var holder := vm.memory(Plus(pool, vm.poolHolderOffset));
    (vm.memory(Plus(holder, vm.methodIdsOffset)), vm.memory16(Plus(constMethod, vm.idNumberOffset)))
  }

  /** The pointers on the way to the cache are probed for an interpreted frame. */
  predicate PathValid(vm: Vm, m: Word) {
    var constMethod := vm.memory(Plus(m, vm.constMethodOffset));
    var pool := vm.memory(Plus(constMethod, vm.constantsOffset));
    var holder := vm.memory(Plus(pool, vm.poolHolderOffset));
    && vm.isValid(m)
    && vm.isValid(constMethod)
    && vm.isValid(pool)
    && vm.isValid(holder)
    && vm.isValid(Plus(holder, vm.methodIdsOffset))
  }

  /** The id that a cache yields, 0 if it has none. */
  function CachedId(vm: Vm, cache: (Word, Word)): Word {
    if cache.0 != 0 && vm.memory(cache.0) > cache.1 then vm.memory(Plus(cache.0, 8 * (cache.1 + 1))) else 0
  }

  /** The id behind an interpreted frame: the method is in the frame, three words down. */
  function InterpretedId(vm: Vm, fp: Word): Word {
    var m := vm.memory(Plus(fp, -24));
    if !PathValid(vm, m) then 0 else
    var id := CachedId(vm, IdCache(vm, m));
    if vm.isValid(id) then id else 0
  }

  /** The id behind compiled code: the method is in the code blob. */
  function CompiledId(vm: Vm, blob: Word): Word {
    CachedId(vm, IdCache(vm, vm.memory(Plus(blob, vm.compiledMethodOffset))))
  }

  method FindInterpretedId(vm: Vm, fp: Word) returns (id: Word)
    requires Sound(vm)
    ensures id == InterpretedId(vm, fp)
  {
    var m := vm.memory(Plus(fp, -24));
    if !vm.isValid(m) { return 0; }
    var constMethod := vm.memory(Plus(m, vm.constMethodOffset));
    if !vm.isValid(constMethod) { return 0; }
    var idNumber := vm.memory16(Plus(constMethod, vm.idNumberOffset));
    var pool := vm.memory(Plus(constMethod, vm.constantsOffset));
    if !vm.isValid(pool) { return 0; }
    var holder := vm.memory(Plus(pool, vm.poolHolderOffset));
    if !vm.isValid(holder) { return 0; }
    if !vm.isValid(Plus(holder, vm.methodIdsOffset)) { return 0; }
    ghost var slot;
    id, slot := ReadId(vm, vm.memory(Plus(holder, vm.methodIdsOffset)), idNumber);
    if !vm.isValid(id) { return 0; }
  }

  method FindCompiledId(vm: Vm, blob: Word) returns (id: Word)
    requires Sound(vm)
    ensures id == CompiledId(vm, blob)
  {
    var m := vm.memory(Plus(blob, vm.compiledMethodOffset));
    var constMethod := vm.memory(Plus(m, vm.constMethodOffset));
    var idNumber := vm.memory16(Plus(constMethod, vm.idNumberOffset));
    var pool := vm.memory(Plus(constMethod, vm.constantsOffset));
    var holder := vm.memory(Plus(pool, vm.poolHolderOffset));
    ghost var slot;
    id, slot := ReadId(vm, vm.memory(Plus(holder, vm.methodIdsOffset)), idNumber);
  }

  /** The code blob of block `k` of heap `i`. */
  function Blob(vm: Vm, i: nat, k: nat): Word
    requires i < |vm.heaps| == |vm.blocks| && k < |vm.blocks[i]|
  {
    Plus(Plus(vm.heaps[i].low, vm.blocks[i][k].start * Pow2(vm.heaps[i].log2SegmentSize)), vm.heapBlockSize)
  }

  function NameOf(vm: Vm, blob: Word): string {
    vm.text(vm.memory(Plus(blob, vm.nameOffset)))
  }

  /** Block `k` of heap `i` contains the address. */
  ghost predicate Located(vm: Vm, i: nat, k: nat, ip: Word) {
    i < |vm.heaps| == |vm.blocks| && k < |vm.blocks[i]| && Contains(vm.heaps[i], ip)
      && InBlock(vm.heaps[i], vm.blocks[i][k], ip)
  }

  lemma {:induction false} LocatedOnce(vm: Vm, i: nat, k: nat, l: nat, ip: Word)
    requires Sound(vm) && Located(vm, i, k, ip) && Located(vm, i, l, ip)
    ensures k == l
  {
    SegmentInBlock(vm.heaps[i], vm.blocks[i][k], ip);
    SegmentInBlock(vm.heaps[i], vm.blocks[i][l], ip);
    BlockUnique(vm.blocks[i], |vm.heaps[i].segmap|, k, l, SegmentOf(vm.heaps[i], ip));
  }

  /** Code of a kind that has a method: the interpreter, or a compiled method. */
  ghost predicate HasMethod(name: string) {
    name == "Interpreter" || HasPart(name, "nmethod")
  }

  /** The id behind a code blob that has a method. */
  ghost function IdBehind(vm: Vm, blob: Word, fp: Word): Word {
    if NameOf(vm, blob) == "Interpreter" then InterpretedId(vm, fp) else CompiledId(vm, blob)
  }

  /** Heap `i` contains the address, in code that has a method. */
  ghost predicate HasMethodAt(vm: Vm, i: nat, ip: Word) {
    exists k :: Located(vm, i, k, ip) && HasMethod(NameOf(vm, Blob(vm, i, k)))
  }

  /** Block `k` of heap `i` is where the first method for the address is found. */
  ghost predicate FirstMethodAt(vm: Vm, i: nat, k: nat, ip: Word) {
    && Located(vm, i, k, ip)
    && HasMethod(NameOf(vm, Blob(vm, i, k)))
    && forall j: nat :: j < i ==> !HasMethodAt(vm, j, ip)
  }

  lemma {:induction false} FirstMethodUnique(vm: Vm, i: nat, k: nat, j: nat, l: nat, ip: Word)
    requires Sound(vm) && FirstMethodAt(vm, i, k, ip) && FirstMethodAt(vm, j, l, ip)
    ensures j == i && l == k
  {
    hide Sound, Located, HasMethod, Blob;
    assert HasMethodAt(vm, i, ip) && HasMethodAt(vm, j, ip);
    assert i == j;
    LocatedOnce(vm, i, k, l, ip);
  }

  /** Tells the kinds of code apart by the blob's name. */
  method ReadBlob(vm: Vm, blob: Word, fp: Word) returns (hasMethod: bool, id: Word)
    requires Sound(vm)
    ensures hasMethod <==> HasMethod(NameOf(vm, blob))
    ensures id == if hasMethod then IdBehind(vm, blob, fp) else 0
  {
    hide Sound, InterpretedId, CompiledId;
    var name := vm.text(vm.memory(Plus(blob, vm.nameOffset)));
    hasMethod, id := true, 0;
    if name == "Interpreter" {
      id := FindInterpretedId(vm, fp);
    } else {
      hasMethod := FindPart(name, "nmethod");
      if hasMethod {
        id := FindCompiledId(vm, blob);
      }
    }
  }

  /** What one heap says about an address: whether it has a method there, and its id. */
  method ReadHeap(vm: Vm, i: nat, ip: Word, fp: Word) returns (hasMethod: bool, id: Word)
    requires Sound(vm) && i < |vm.heaps| && InSomeBlock(vm, ip)
    ensures hasMethod <==> HasMethodAt(vm, i, ip)
    ensures hasMethod ==> Contains(vm.heaps[i], ip)
    ensures !hasMethod ==> id == 0
    ensures hasMethod ==> forall k: nat :: Located(vm, i, k, ip) ==> id == IdBehind(vm, Blob(vm, i, k), fp)
  {
    hide HasMethod, IdBehind, NameOf, Sound, InSomeBlock, InBlock, Mapped, Pow2, Plus, Blob, HasMethodAt;
    hasMethod, id := false, 0;
    var h := vm.heaps[i];
    if h.low <= ip && ip < h.high {
      ghost var k := LocateIn(vm, i, ip);
      var address := FindBlockAddress(h, ip, vm.blocks[i][k]);
      var blob := Plus(address, vm.heapBlockSize);
      BlobAt(vm, i, k, address);
      hasMethod, id := ReadBlob(vm, blob, fp);
      OneBlob(vm, i, k, ip);
    } else {
      NoBlob(vm, i, ip);
    }
  }

  lemma {:induction false} BlobAt(vm: Vm, i: nat, k: nat, address: Word)
    requires i < |vm.heaps| == |vm.blocks| && k < |vm.blocks[i]|
    requires address == vm.heaps[i].low + vm.blocks[i][k].start * Pow2(vm.heaps[i].log2SegmentSize)
    ensures Plus(address, vm.heapBlockSize) == Blob(vm, i, k)
  {
    hide Pow2;
  }

  lemma {:induction false} NoBlob(vm: Vm, i: nat, ip: Word)
    requires i < |vm.heaps| && !Contains(vm.heaps[i], ip)
    ensures !HasMethodAt(vm, i, ip)
  {
  }

  lemma {:induction false} LocateIn(vm: Vm, i: nat, ip: Word) returns (k: nat)
    requires Sound(vm) && i < |vm.heaps| && InSomeBlock(vm, ip) && Contains(vm.heaps[i], ip)
    ensures Located(vm, i, k, ip) && Mapped(vm.heaps[i].segmap, vm.blocks[i][k])
  {
    hide InBlock, Mapped, Layout;
    k :| 0 <= k < |vm.blocks[i]| && InBlock(vm.heaps[i], vm.blocks[i][k], ip);
    assert Consistent(vm.heaps[i].segmap, vm.blocks[i]);
  }

  /** The block that contains the address decides whether the heap has a method there. */
  lemma {:induction false} OneBlob(vm: Vm, i: nat, k: nat, ip: Word)
    requires Sound(vm) && Located(vm, i, k, ip)
    ensures HasMethodAt(vm, i, ip) <==> HasMethod(NameOf(vm, Blob(vm, i, k)))
    ensures forall l: nat :: Located(vm, i, l, ip) ==> l == k
  {
    hide Sound, HasMethod, NameOf, InBlock;
    forall l: nat | Located(vm, i, l, ip) ensures l == k {
      LocatedOnce(vm, i, k, l, ip);
    }
  }

  // ---------- the id, word by word ----------

  /** Through its const method, constant pool and holder, method `m` leads to the id cache `j`. */
  ghost predicate LeadsTo(vm: Vm, m: Word, constMethod: Word, pool: Word, holder: Word, j: Word) {
    && vm.memory((m + vm.constMethodOffset) % TWO_64) == constMethod
    && vm.memory((constMethod + vm.constantsOffset) % TWO_64) == pool
    && vm.memory((pool + vm.poolHolderOffset) % TWO_64) == holder
    && vm.memory((holder + vm.methodIdsOffset) % TWO_64) == j
  }

  /** The id for number `n` in the cache: its first word is the length, the ids follow. */
  ghost predicate Holds(vm: Vm, j: Word, n: Word, id: Word) {
    id == if j != 0 && vm.memory(j) > n then vm.memory((j + 8 * (n + 1)) % TWO_64) else 0
  }

  /** The code blob of a block: behind the block's header. */
  ghost predicate IsBlob(vm: Vm, i: nat, k: nat, blob: Word) {
    && i < |vm.heaps| == |vm.blocks| && k < |vm.blocks[i]|
    && blob == (vm.heaps[i].low + vm.blocks[i][k].start * Pow2(vm.heaps[i].log2SegmentSize) + vm.heapBlockSize) % TWO_64
  }

  /** The name of a code blob. */
  ghost predicate IsNamed(vm: Vm, blob: Word, name: string) {
    name == vm.text(vm.memory((blob + vm.nameOffset) % TWO_64))
  }

  lemma {:induction false} BlobMeans(vm: Vm, i: nat, k: nat, blob: Word)
    requires IsBlob(vm, i, k, blob)
    ensures blob == Blob(vm, i, k)
  {
    hide Pow2;
    var low, start, size :=
      vm.heaps[i].low, vm.blocks[i][k].start * Pow2(vm.heaps[i].log2SegmentSize), vm.heapBlockSize;
    Wraps(low + start, size);
  }

  lemma {:induction false} Wraps(a: int, b: int)
    ensures (a % TWO_64 + b) % TWO_64 == (a + b) % TWO_64
  {
    var q := a / TWO_64;
    assert a == q * TWO_64 + a % TWO_64;
    assert a + b == q * TWO_64 + (a % TWO_64 + b);
  }

  lemma {:induction false} PlusIs(a: Word, b: int)
    ensures Plus(a, b) == (a + b) % TWO_64
  {
  }

  lemma {:induction false} LeadsMeans(vm: Vm, m: Word, c: Word, p: Word, h: Word, j: Word, id: Word)
    requires LeadsTo(vm, m, c, p, h, j) && Holds(vm, j, vm.memory16((c + vm.idNumberOffset) % TWO_64), id)
    ensures CachedId(vm, IdCache(vm, m)) == id
    ensures PathValid(vm, m) <==> Probed(vm, m, c, p, h)
  {
    hide Plus;
    var n: int := vm.memory16((c + vm.idNumberOffset) % TWO_64);
    PlusIs(m, vm.constMethodOffset);
    PlusIs(c, vm.constantsOffset);
    PlusIs(p, vm.poolHolderOffset);
    PlusIs(h, vm.methodIdsOffset);
    PlusIs(c, vm.idNumberOffset);
    PlusIs(j, 8 * (n + 1));
  }

  /** From a blob of compiled code, over the word that holds its method, to the id `held`. */
  ghost predicate CompiledRoute(vm: Vm, blob: Word, m: Word, c: Word, p: Word, h: Word, j: Word, held: Word) {
    && vm.memory((blob + vm.compiledMethodOffset) % TWO_64) == m
    && LeadsTo(vm, m, c, p, h, j)
    && Holds(vm, j, vm.memory16((c + vm.idNumberOffset) % TWO_64), held)
  }

  /** From an interpreted frame, over the third word below its frame pointer, to the id `held`. */
  ghost predicate InterpretedRoute(vm: Vm, fp: Word, m: Word, c: Word, p: Word, h: Word, j: Word, held: Word) {
    && vm.memory((fp - 24) % TWO_64) == m
    && LeadsTo(vm, m, c, p, h, j)
    && Holds(vm, j, vm.memory16((c + vm.idNumberOffset) % TWO_64), held)
  }

  lemma {:induction false} CompiledMeans(vm: Vm, blob: Word, m: Word, c: Word, p: Word, h: Word, j: Word, held: Word)
    requires CompiledRoute(vm, blob, m, c, p, h, j, held)
    ensures CompiledId(vm, blob) == held
  {
    hide Plus, LeadsTo, Holds, CachedId, IdCache;
    PlusIs(blob, vm.compiledMethodOffset);
    LeadsMeans(vm, m, c, p, h, j, held);
  }

  /** The pointers that are probed on the way to an interpreted frame's id. */
  ghost predicate Probed(vm: Vm, m: Word, c: Word, p: Word, h: Word) {
    vm.isValid(m) && vm.isValid(c) && vm.isValid(p) && vm.isValid(h) && vm.isValid((h + vm.methodIdsOffset) % TWO_64)
  }

  lemma {:induction false} InterpretedMeans(vm: Vm, fp: Word, m: Word, c: Word, p: Word, h: Word, j: Word, held: Word)
    requires InterpretedRoute(vm, fp, m, c, p, h, j, held)
    ensures InterpretedId(vm, fp) == if Probed(vm, m, c, p, h) && vm.isValid(held) then held else 0
  {
    hide Plus, LeadsTo, Holds, CachedId, IdCache, PathValid, Probed;
    PlusIs(fp, -24);
    LeadsMeans(vm, m, c, p, h, j, held);
  }

  /** Heap `i` has a method for the address exactly if the blob of its block there is interpreter or compiled code. */
  lemma {:induction false} HasMethodMeans(vm: Vm, i: nat, k: nat, ip: Word, blob: Word, name: string)
    requires Sound(vm) && Located(vm, i, k, ip) && IsBlob(vm, i, k, blob) && IsNamed(vm, blob, name)
    ensures HasMethodAt(vm, i, ip) <==> name == "Interpreter" || exists a :: 0 <= a <= |name| && "nmethod" <= name[a..]
  {
    hide Sound, Located, Blob, IsBlob;
    BlobMeans(vm, i, k, blob);
    OneBlob(vm, i, k, ip);
  }

  /** Block `k` of heap `i` contains the address, and no earlier heap has a method for it. */
  ghost predicate FirstAt(vm: Vm, i: nat, k: nat, ip: Word) {
    Located(vm, i, k, ip) && forall j: nat :: j < i ==> !HasMethodAt(vm, j, ip)
  }

  /**
   The method id behind an instruction pointer and a frame pointer, found in the first heap
   that has a method for the address. Compiled code leads to it from the word of the code blob
   that holds its method, the interpreter from the third word below the frame pointer, where
   every pointer is probed first. There is none if the frame pointer is invalid or no heap has
   a method, and so only for a Java frame.
   */
  method GetJMethodId(vm: Vm, ip: Word, fp: Word) returns (id: Word)
    requires Sound(vm) && InSomeBlock(vm, ip)
    ensures !vm.isValid(fp) || (forall i: nat :: !HasMethodAt(vm, i, ip)) ==> id == 0
    ensures id != 0 ==> exists i :: 0 <= i < |vm.heaps| && vm.heaps[i].low <= ip < vm.heaps[i].high
    ensures forall i: nat, k: nat, blob: Word, name: string, m: Word, c: Word, p: Word, h: Word, j: Word, held: Word |
      && vm.isValid(fp)
      && FirstAt(vm, i, k, ip) && IsBlob(vm, i, k, blob) && IsNamed(vm, blob, name)
      && name != "Interpreter" && HasPart(name, "nmethod")
      && CompiledRoute(vm, blob, m, c, p, h, j, held) ::
        id == held
    ensures forall i: nat, k: nat, blob: Word, m: Word, c: Word, p: Word, h: Word, j: Word, held: Word |
      && vm.isValid(fp)
      && FirstAt(vm, i, k, ip) && IsBlob(vm, i, k, blob) && IsNamed(vm, blob, "Interpreter")
      && InterpretedRoute(vm, fp, m, c, p, h, j, held) ::
        id == if Probed(vm, m, c, p, h) && vm.isValid(held) then held else 0
  {
    hide Sound, InSomeBlock, Located, HasMethodAt, IdBehind, Blob, NameOf, Probed, IsBlob, IsNamed, HasPart;
    hide CompiledRoute, InterpretedRoute;
    id := SearchHeaps(vm, ip, fp);
    forall i: nat, k: nat, blob: Word, name: string, m: Word, c: Word, p: Word, h: Word, j: Word, held: Word |
      && vm.isValid(fp)
      && FirstAt(vm, i, k, ip) && IsBlob(vm, i, k, blob) && IsNamed(vm, blob, name)
      && name != "Interpreter" && HasPart(name, "nmethod")
      && CompiledRoute(vm, blob, m, c, p, h, j, held)
      ensures id == held
    {
      BehindBlob(vm, i, k, ip, blob, name, fp);
      CompiledMeans(vm, blob, m, c, p, h, j, held);
    }
    forall i: nat, k: nat, blob: Word, m: Word, c: Word, p: Word, h: Word, j: Word, held: Word |
      && vm.isValid(fp)
      && FirstAt(vm, i, k, ip) && IsBlob(vm, i, k, blob) && IsNamed(vm, blob, "Interpreter")
      && InterpretedRoute(vm, fp, m, c, p, h, j, held)
      ensures id == if Probed(vm, m, c, p, h) && vm.isValid(held) then held else 0
    {
      BehindBlob(vm, i, k, ip, blob, "Interpreter", fp);
      InterpretedMeans(vm, fp, m, c, p, h, j, held);
    }
  }

  lemma {:induction false} BehindBlob(vm: Vm, i: nat, k: nat, ip: Word, blob: Word, name: string, fp: Word)
    requires FirstAt(vm, i, k, ip) && IsBlob(vm, i, k, blob) && IsNamed(vm, blob, name)
    requires name == "Interpreter" || HasPart(name, "nmethod")
    ensures FirstMethodAt(vm, i, k, ip) && blob == Blob(vm, i, k)
    ensures IdBehind(vm, blob, fp) == if name == "Interpreter" then InterpretedId(vm, fp) else CompiledId(vm, blob)
  {
    hide Located, HasMethodAt, IsBlob, Blob, InterpretedId, CompiledId, HasPart;
    BlobMeans(vm, i, k, blob);
  }

  /** The loop over the heaps. */
  method SearchHeaps(vm: Vm, ip: Word, fp: Word) returns (id: Word)
    requires Sound(vm) && InSomeBlock(vm, ip)
    ensures !vm.isValid(fp) || (forall i: nat :: !HasMethodAt(vm, i, ip)) ==> id == 0
    ensures forall i: nat, k: nat ::
      vm.isValid(fp) && FirstMethodAt(vm, i, k, ip) ==> id == IdBehind(vm, Blob(vm, i, k), fp)
    ensures id != 0 ==> exists i :: 0 <= i < |vm.heaps| && Contains(vm.heaps[i], ip)
  {
    hide Sound, InSomeBlock, InBlock, HasMethod, HasMethodAt, IdBehind, Contains, Blob, NameOf;
    if !vm.isValid(fp) { return 0; }
    for i := 0 to |vm.heaps|
      invariant forall j: nat :: j < i ==> !HasMethodAt(vm, j, ip)
    {
      var hasMethod;
      hasMethod, id := ReadHeap(vm, i, ip, fp);
      if hasMethod {
        forall j: nat, l: nat | FirstMethodAt(vm, j, l, ip) ensures id == IdBehind(vm, Blob(vm, j, l), fp) {
          FirstMethodHeap(vm, j, l, ip);
        }
        return;
      }
    }
    id := 0;
    forall j: nat, l: nat ensures !FirstMethodAt(vm, j, l, ip) {
      if FirstMethodAt(vm, j, l, ip) { FirstMethodHeap(vm, j, l, ip); }
    }
  }

  lemma {:induction false} FirstMethodHeap(vm: Vm, i: nat, k: nat, ip: Word)
    requires FirstMethodAt(vm, i, k, ip)
    ensures i < |vm.heaps| && HasMethodAt(vm, i, ip) && forall j: nat :: j < i ==> !HasMethodAt(vm, j, ip)
  {
  }
}
