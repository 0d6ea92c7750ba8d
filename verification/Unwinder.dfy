/**
 The frame-pointer unwinder for aarch64, for every content of memory and every
 starting register, with 64-bit wrap-around.
 */
module Unwinder {
  import opened Basics

  const POINTER_ALIGNMENT := 8

  /** An `InstructionInfo`. */
  datatype InstructionInfo = InstructionInfo(instruction: Word, frame: Word, javaFrame: bool)

  datatype Registers = Registers(pc: Word, fp: Word, lr: Word)

  /** Memory, the code cache's answers (0 for no method id), and the bounds of the stack. */
  datatype Machine = Machine(
    memory: Word -> Word,
    isJavaFrame: Word -> bool,
    methodId: (Word, Word) -> Word,
    stackLo: Word,
    stackHi: Word)

  function Plus8(a: Word): Word {
    (a + 8) % TWO_64
  }

  predicate IsPointerInStack(m: Machine, p: Word) {
    m.stackLo <= p < m.stackHi
  }

  // ---------- the chain of frame records ----------

  /** The frame pointer of the `k`-th frame: each record begins with its caller's. */
  function Fp(m: Machine, r: Registers, k: nat): Word {
    if k == 0 then r.fp else m.memory(Fp(m, r, k - 1))
  }

  /** The return address used for the `k`-th frame: the link register, then the saved ones. */
  function Lr(m: Machine, r: Registers, k: nat): Word {
    if k == 0 then r.lr else m.memory(Plus8(Fp(m, r, k)))
  }

  function Ip(m: Machine, r: Registers, k: nat): Word {
    if k == 0 then r.pc else Lr(m, r, k - 1)
  }

  /** What is recorded for the `k`-th frame. */
  function Entry(m: Machine, r: Registers, k: nat): InstructionInfo {
    var ip, fp := Ip(m, r, k), Fp(m, r, k);
    if m.isJavaFrame(ip) then InstructionInfo(m.methodId(ip, fp), 0, true) else InstructionInfo(ip, fp, false)
  }

  predicate Resolved(m: Machine, r: Registers, k: nat) {
    m.isJavaFrame(Ip(m, r, k)) ==> m.methodId(Ip(m, r, k), Fp(m, r, k)) != 0
  }

  predicate CanStart(m: Machine, r: Registers) {
    IsPointerInStack(m, r.fp) && r.fp % POINTER_ALIGNMENT == 0 && r.fp != 0 && r.pc != 0
  }

  /** The caller of the `k`-th frame can be visited. */
  predicate CanFollow(m: Machine, r: Registers, k: nat) {
    var next := Fp(m, r, k + 1);
    && IsPointerInStack(m, Plus8(next))
    && next % POINTER_ALIGNMENT == 0
    && next >= Fp(m, r, k)
    && next != 0
    && Lr(m, r, k) != 0
  }

  /** The bounds of a stack: not at address 0, and of whole words. */
  predicate StackBounds(m: Machine) {
    m.stackLo > 0 && m.stackLo % POINTER_ALIGNMENT == 0 && m.stackHi % POINTER_ALIGNMENT == 0
  }

  /** The word at `a` lies in the stack. */
  predicate WordInStack(m: Machine, a: int) {
    m.stackLo <= a && a + 8 <= m.stackHi && a % POINTER_ALIGNMENT == 0
  }

  ghost predicate Followed(m: Machine, r: Registers, n: nat) {
    CanStart(m, r) && forall k :: 0 <= k < n ==> CanFollow(m, r, k)
  }

  /** An aligned pointer into the stack has its whole word there. */
  lemma {:induction false} WholeWord(m: Machine, a: int)
    requires StackBounds(m) && m.stackLo <= a < m.stackHi && a % POINTER_ALIGNMENT == 0
    ensures WordInStack(m, a)
  {
    assert a == 8 * (a / 8) && m.stackHi == 8 * (m.stackHi / 8);
  }

  /** The address of a saved return address does not wrap: the stack does not begin at 0. */
  lemma {:induction false} RecordInStack(m: Machine, fp: Word)
    requires StackBounds(m) && m.stackLo <= fp && fp % POINTER_ALIGNMENT == 0
    requires IsPointerInStack(m, Plus8(fp))
    ensures Plus8(fp) == fp + 8 && WordInStack(m, fp) && WordInStack(m, fp + 8)
  {
    assert fp + 8 <= TWO_64 by {
      assert fp == 8 * (fp / 8) && TWO_64 == 8 * (TWO_64 / 8);
    }
    assert Plus8(fp) == fp + 8;
    WholeWord(m, fp);
    WholeWord(m, fp + 8);
  }

  /** Along the chain every word that is read lies in the stack, in spite of wrap-around. */
  lemma {:induction false} FramesInStack(m: Machine, r: Registers, n: nat)
    requires StackBounds(m) && Followed(m, r, n)
    ensures WordInStack(m, Fp(m, r, n))
    ensures n > 0 ==> Plus8(Fp(m, r, n)) == Fp(m, r, n) + 8 && WordInStack(m, Fp(m, r, n) + 8)
  {
    if n == 0 {
      WholeWord(m, r.fp);
    } else {
      FramesInStack(m, r, n - 1);
      assert CanFollow(m, r, n - 1);
      hide Fp, Lr, Plus8, StackBounds;
      RecordInStack(m, Fp(m, r, n));
    }
  }

  /** Frame pointers never decrease. */
  lemma {:induction false} FramePointersRise(m: Machine, r: Registers, j: nat, n: nat)
    requires Followed(m, r, n) && j <= n
    ensures Fp(m, r, j) <= Fp(m, r, n)
  {
    if j < n {
      FramePointersRise(m, r, j, n - 1);
      assert CanFollow(m, r, n - 1);
    }
  }

  // ---------- the loop ----------

  /** The number of frames recorded into a buffer of the given size. */
  ghost predicate FrameCount(m: Machine, r: Registers, size: nat, n: nat) {
    if !CanStart(m, r) then n == 0 else
    && 1 <= n <= size
    && (forall k :: 0 <= k < n - 1 ==> Resolved(m, r, k) && CanFollow(m, r, k))
    && (n == size || !Resolved(m, r, n - 1) || !CanFollow(m, r, n - 1))
  }

  lemma {:induction false} FrameCountUnique(m: Machine, r: Registers, size: nat, n: nat, k: nat)
    requires FrameCount(m, r, size, n) && FrameCount(m, r, size, k)
    ensures n == k
  {
  }

  /** Records one frame; tells whether the walk may go on. */
  method RecordFrame(m: Machine, ip: Word, fp: Word, instructions: array<InstructionInfo>,
    k: nat) returns (processed: bool)
    requires k < instructions.Length
    modifies instructions
    ensures instructions[k] == if m.isJavaFrame(ip) then InstructionInfo(m.methodId(ip, fp), 0, true)
      else InstructionInfo(ip, fp, false)
    ensures forall i :: 0 <= i < instructions.Length && i != k ==> instructions[i] == old(instructions[i])
    ensures processed <==> (m.isJavaFrame(ip) ==> m.methodId(ip, fp) != 0)
  {
    processed := false;
    if !m.isJavaFrame(ip) {
      instructions[k] := InstructionInfo(ip, fp, false);
      processed := true;
    } else {
      var id := m.methodId(ip, fp);
      instructions[k] := InstructionInfo(id, 0, true);
      processed := id != 0;
    }
  }

  // ---------- the walk, on memory and registers ----------

  /** Frame records that point to one another, from the frame pointer on. */
  ghost predicate Chain(m: Machine, r: Registers, fps: seq<Word>) {
    |fps| > 0 && fps[0] == r.fp && forall i :: 0 < i < |fps| ==> fps[i] == m.memory(fps[i - 1])
  }

  /** The return address at hand when the `k`-th record is visited. */
  ghost function ReturnAt(m: Machine, r: Registers, fps: seq<Word>, k: nat): Word
    requires k < |fps|
  {
    if k == 0 then r.lr else m.memory((fps[k] + 8) % TWO_64)
  }

  /** The instruction pointer for the `k`-th record: `pc`, the link register, then the saved return addresses. */
  ghost function IpAt(m: Machine, r: Registers, fps: seq<Word>, k: nat): Word
    requires k < |fps|
  {
    if k == 0 then r.pc else if k == 1 then r.lr else m.memory((fps[k - 1] + 8) % TWO_64)
  }

  /** One of the tests after the `k`-th record fails, or its Java frame has no method. */
  ghost predicate StopsAt(m: Machine, r: Registers, fps: seq<Word>, k: nat)
    requires k + 1 < |fps|
  {
    var next, ip := fps[k + 1], IpAt(m, r, fps, k);
    || !(m.stackLo <= (next + 8) % TWO_64 < m.stackHi)
    || next % 8 != 0
    || next < fps[k]
    || next == 0
    || ReturnAt(m, r, fps, k) == 0
    || (m.isJavaFrame(ip) && m.methodId(ip, fps[k]) == 0)
  }

  /** No test fails on the way to the last of the records. */
  ghost predicate Walkable(m: Machine, r: Registers, fps: seq<Word>) {
    forall k :: 0 <= k && k + 1 < |fps| ==> !StopsAt(m, r, fps, k)
  }

  /** What is recorded for a frame. */
  ghost predicate Records(m: Machine, info: InstructionInfo, ip: Word, fp: Word) {
    && info.javaFrame == m.isJavaFrame(ip)
    && (info.javaFrame ==> info.instruction == m.methodId(ip, fp) && info.frame == 0)
    && (!info.javaFrame ==> info.instruction == ip && info.frame == fp)
  }

  lemma {:induction false} ChainMeans(m: Machine, r: Registers, fps: seq<Word>, k: nat)
    requires Chain(m, r, fps) && k < |fps|
    ensures Fp(m, r, k) == fps[k]
  {
    if k > 0 { ChainMeans(m, r, fps, k - 1); }
  }

  lemma {:induction false} PlaceMeans(m: Machine, r: Registers, fps: seq<Word>, k: nat)
    requires Chain(m, r, fps) && k < |fps|
    ensures Lr(m, r, k) == ReturnAt(m, r, fps, k) && Ip(m, r, k) == IpAt(m, r, fps, k)
  {
    ChainMeans(m, r, fps, k);
    if k > 0 { ChainMeans(m, r, fps, k - 1); }
  }

  lemma {:induction false} StopMeans(m: Machine, r: Registers, fps: seq<Word>, k: nat)
    requires Chain(m, r, fps) && k + 1 < |fps|
    ensures Resolved(m, r, k) && CanFollow(m, r, k) <==> !StopsAt(m, r, fps, k)
  {
    hide Fp, Lr, Ip;
    PlaceMeans(m, r, fps, k);
    ChainMeans(m, r, fps, k);
    ChainMeans(m, r, fps, k + 1);
  }

  /** The walk goes as far as the tests allow, or to the end of the buffer. */
  lemma {:induction false} GoesOn(m: Machine, r: Registers, size: nat, n: nat, fps: seq<Word>)
    requires FrameCount(m, r, size, n) && n > 0 && Chain(m, r, fps) && Walkable(m, r, fps)
    ensures n >= if |fps| < size then |fps| else size
  {
    hide Fp, Lr, Ip, Chain, StopsAt, Resolved, CanFollow;
    if n < |fps| { StopMeans(m, r, fps, n - 1); }
  }

  /** And no further. */
  lemma {:induction false} GoesNoFurther(m: Machine, r: Registers, size: nat, n: nat, fps: seq<Word>)
    requires FrameCount(m, r, size, n) && 0 < n < size && Chain(m, r, fps) && |fps| == n + 1
    ensures StopsAt(m, r, fps, n - 1)
  {
    hide Fp, Lr, Ip, Chain, StopsAt, Resolved, CanFollow;
    StopMeans(m, r, fps, n - 1);
  }

  lemma {:induction false} EntryMeans(m: Machine, r: Registers, fps: seq<Word>, k: nat)
    requires Chain(m, r, fps) && k < |fps|
    ensures Records(m, Entry(m, r, k), IpAt(m, r, fps, k), fps[k])
  {
    hide Fp, Ip, Chain, IpAt;
    ChainMeans(m, r, fps, k);
    PlaceMeans(m, r, fps, k);
  }

  /**
   Fills `instructions`; `touched` are the addresses of the words it reads from memory.
   The source always passes a buffer of 30 entries. Nothing is recorded exactly if the frame
   pointer or `pc` is unusable; otherwise the walk goes along the frame records as long as
   the tests hold and there is room, and no further, and records every frame on its way.
   */
  method UnwindStack(m: Machine, r: Registers, instructions: array<InstructionInfo>, size: nat)
    returns (count: nat, ghost touched: seq<int>)
    requires StackBounds(m) && 1 <= size <= instructions.Length
    modifies instructions
    ensures FrameCount(m, r, size, count)
    ensures forall k :: count <= k < instructions.Length ==> instructions[k] == old(instructions[k])
    ensures forall a :: a in touched ==> m.stackLo <= a && a + 8 <= m.stackHi && a % 8 == 0
    ensures count <= size
    ensures count == 0 <==> !(m.stackLo <= r.fp < m.stackHi) || r.fp % 8 != 0 || r.fp == 0 || r.pc == 0
    ensures forall fps: seq<Word> | Chain(m, r, fps) && count > 0 && Walkable(m, r, fps) ::
              count >= if |fps| < size then |fps| else size
    ensures forall fps: seq<Word> | Chain(m, r, fps) && 0 < count < size && |fps| == count + 1 ::
              StopsAt(m, r, fps, count - 1)
    ensures forall fps: seq<Word>, k | Chain(m, r, fps) && 0 <= k < count && k < |fps| ::
              Records(m, instructions[k], IpAt(m, r, fps, k), fps[k])
  {
    hide Entry, Chain, Walkable, StopsAt, Records, IpAt, FrameCount;
    count, touched := FillFrames(m, r, instructions, size);
    CountBounds(m, r, size, count);
    forall fps: seq<Word> | Chain(m, r, fps) && count > 0 && Walkable(m, r, fps)
      ensures count >= if |fps| < size then |fps| else size
    {
      GoesOn(m, r, size, count, fps);
    }
    forall fps: seq<Word> | Chain(m, r, fps) && 0 < count < size && |fps| == count + 1
      ensures StopsAt(m, r, fps, count - 1)
    {
      GoesNoFurther(m, r, size, count, fps);
    }
    forall fps: seq<Word>, k | Chain(m, r, fps) && 0 <= k < count && k < |fps|
      ensures Records(m, instructions[k], IpAt(m, r, fps, k), fps[k])
    {
      EntryMeans(m, r, fps, k);
    }
  }

  lemma {:induction false} CountBounds(m: Machine, r: Registers, size: nat, n: nat)
    requires FrameCount(m, r, size, n) && size > 0
    ensures n <= size
    ensures n == 0 <==> !(m.stackLo <= r.fp < m.stackHi) || r.fp % 8 != 0 || r.fp == 0 || r.pc == 0
  {
    hide CanFollow, Resolved;
  }

  /** The loop of the walk. */
  method FillFrames(m: Machine, r: Registers, instructions: array<InstructionInfo>, size: nat)
    returns (count: nat, ghost touched: seq<int>)
    requires StackBounds(m) && 1 <= size <= instructions.Length
    modifies instructions
    ensures FrameCount(m, r, size, count)
    ensures forall k :: 0 <= k < count ==> k < instructions.Length && instructions[k] == Entry(m, r, k)
    ensures forall k :: count <= k < instructions.Length ==> instructions[k] == old(instructions[k])
    ensures forall a :: a in touched ==> WordInStack(m, a)
  {
    hide Plus8, WordInStack;
    touched := [];
    var ip, fp, lr := r.pc, r.fp, r.lr;
    var traceIndex := 0;
    if !IsPointerInStack(m, fp) || fp % POINTER_ALIGNMENT != 0 || fp == 0 || ip == 0 {
      return 0, touched;
    }
    var again := true;
    while again
      invariant 0 <= traceIndex <= size && (again ==> traceIndex < size)
      invariant again ==> Followed(m, r, traceIndex)
      invariant again ==> ip == Ip(m, r, traceIndex) && fp == Fp(m, r, traceIndex) && lr == Lr(m, r, traceIndex)
      invariant again ==> forall k :: 0 <= k < traceIndex ==> Resolved(m, r, k) && CanFollow(m, r, k)
      invariant !again ==> FrameCount(m, r, size, traceIndex)
      invariant forall k :: 0 <= k < traceIndex ==> instructions[k] == Entry(m, r, k)
      invariant forall k :: traceIndex <= k < instructions.Length ==> instructions[k] == old(instructions[k])
      invariant forall a :: a in touched ==> WordInStack(m, a)
      decreases again, size - traceIndex
    {
      FramesInStack(m, r, traceIndex);
      var processed := RecordFrame(m, ip, fp, instructions, traceIndex);
      traceIndex := traceIndex + 1;
      var lastFp := fp;
      fp := m.memory(fp);
      touched := touched + [lastFp];
      assert fp == Fp(m, r, traceIndex);
      if !IsPointerInStack(m, Plus8(fp)) || fp % POINTER_ALIGNMENT != 0 || fp < lastFp || fp == 0 || lr == 0 {
        assert !CanFollow(m, r, traceIndex - 1);
        again := false;
      } else {
        assert CanFollow(m, r, traceIndex - 1);
        FramesInStack(m, r, traceIndex);
        ip := lr;
        lr := m.memory(Plus8(fp));
        touched := touched + [fp + 8];
        again := processed && traceIndex < size;
      }
    }
    count := traceIndex;
  }

  /** Only the last recorded entry can be a Java frame without a method. */
  lemma {:induction false} OnlyLastUnresolved(m: Machine, r: Registers, size: nat, n: nat, k: nat)
    requires FrameCount(m, r, size, n) && k < n && !Resolved(m, r, k)
    ensures k == n - 1 && Entry(m, r, k) == InstructionInfo(0, 0, true)
  {
  }

  /**
   The return addresses along the chain of frame records of the procedure call standard
   (section "The Frame Pointer" of AAPCS64): a record holds the caller's frame pointer
   and, in the next word, the return address.
   */
  function CallChain(m: Machine, r: Registers, k: nat): Word {
    if k == 0 then r.pc else m.memory(Plus8(Fp(m, r, k - 1)))
  }

  /**
   The instruction pointers are those of the frame records exactly if the link register
   holds the return address of the innermost record, or there is only one frame.
   */
  lemma {:induction false} FollowsCallChainIff(m: Machine, r: Registers, size: nat, n: nat)
    requires FrameCount(m, r, size, n)
    ensures (forall k :: 0 <= k < n ==> Ip(m, r, k) == CallChain(m, r, k))
      <==> n <= 1 || r.lr == m.memory(Plus8(r.fp))
  {
    assert Lr(m, r, 0) == r.lr && Fp(m, r, 0) == r.fp;
    forall k | 2 <= k < n ensures Ip(m, r, k) == CallChain(m, r, k) {
      assert Ip(m, r, k) == Lr(m, r, k - 1);
    }
    assert n > 1 ==> Ip(m, r, 1) == r.lr && CallChain(m, r, 1) == m.memory(Plus8(r.fp));
  }

  /** It need not: here the frame record says 100 and the link register 200. */
  lemma {:induction false} LinkRegisterDiffers()
    ensures var m := Machine((a: Word) => if a == 16 then 32 else if a == 24 then 100 else 0,
                             (a: Word) => false, (a: Word, b: Word) => 0, 8, 64);
      var r := Registers(4, 16, 200);
      StackBounds(m) && FrameCount(m, r, 30, 2) && Ip(m, r, 1) == 200 && CallChain(m, r, 1) == 100
  {
    var m := Machine((a: Word) => if a == 16 then 32 else if a == 24 then 100 else 0,
                     (a: Word) => false, (a: Word, b: Word) => 0, 8, 64);
    var r := Registers(4, 16, 200);
    assert Fp(m, r, 0) == 16 && Fp(m, r, 1) == 32 && Fp(m, r, 2) == 0;
    assert CanFollow(m, r, 0) && !CanFollow(m, r, 1);
  }
}
