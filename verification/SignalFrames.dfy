/**
 The frame of a signal on the user stack, as bytes. The kernel writes the fields of `SignalFrame` where
 the C layout puts them; a handler follows its arguments and reads `siginfo_t` and `ucontext_t` field
 after field, each at the next address that fits its size.
 */
module SignalFrames {
  import opened Machine
  import opened RawMemory
  import opened Sigsets
  import opened SignalQueue

  /** The general registers x0 to x30. */
  type Registers = x: seq<U64> | |x| == 31 witness seq(31, _ => 0)

  datatype Context = Context(x: Registers, sp: U64, pc: U64, pstate: U64)

  datatype AltStack = AltStack(sp: U64, flags: bv32, size: U64)

  /** A frame on the user stack; without restorer the return code is inside the frame. */
  datatype Frame = Frame(sp: U64, info: Info, mask: Sigset, stack: AltStack, context: Context, restorer: Option<U64>)

  // ---------------------------------------------------------------- what the kernel writes

  /** Where the parts of a `SignalFrame` are, and its size. */
  const INFO_OFFSET: nat := 8
  const UCONTEXT_OFFSET: nat := 136
  const STACK_FLAGS_OFFSET: nat := 160
  const STACK_SIZE_OFFSET: nat := 168
  const RET_CODE_OFFSET: nat := 464
  const FRAME_SIZE: nat := 472

  const RET_CODE: seq<byte> := [0, 0, 0, 0, 0, 0, 0]

  /** A 32-bit integer as bytes. */
  function I32Bytes(i: I32): seq<byte> {
    LeBytes(i % TWO_32, 4)
  }

  function InfoBytes(info: Info): (r: seq<byte>)
    ensures |r| == 124
  {
    LeBytes(info.signo as nat, 4) + I32Bytes(info.errno) + I32Bytes(info.code) + info.fields
  }

  /** The words of a `MachineContext`; the first is the fault address. */
  function ContextWords(c: Context): (r: seq<U64>)
    ensures |r| == 35
  {
    [0] + c.x + [c.sp, c.pc, c.pstate]
  }

  /** The address a handler returns to: the restorer, or the code in the frame. */
  function ReturnAddress(f: Frame): nat {
    if f.restorer.Some? then f.restorer.value else Usize(f.sp + RET_CODE_OFFSET)
  }

  /** One field or several adjacent ones. */
  datatype Piece = Piece(offset: nat, bytes: seq<byte>)

  function Pieces(f: Frame): (r: seq<Piece>)
    ensures |r| == 6
  {
    [Piece(0, LeBytes(ReturnAddress(f), 8)),
     Piece(INFO_OFFSET, InfoBytes(f.info)),
     Piece(UCONTEXT_OFFSET, WordBytes([0, 0, f.stack.sp])),
     Piece(STACK_FLAGS_OFFSET, LeBytes(f.stack.flags as nat, 4)),
     Piece(STACK_SIZE_OFFSET, WordBytes([f.stack.size] + ContextWords(f.context) + [f.mask as nat])),
     Piece(RET_CODE_OFFSET, if f.restorer.Some? then [] else RET_CODE)]
  }

  function WritePieces(mem: Mem, sp: nat, pieces: seq<Piece>): Mem {
    if pieces == [] then mem
    else
      var n := |pieces| - 1;
      Store(WritePieces(mem, sp, pieces[..n]), sp + pieces[n].offset, pieces[n].bytes)
  }

  function WriteFrame(mem: Mem, f: Frame): Mem {
    WritePieces(mem, f.sp, Pieces(f))
  }

  // ---------------------------------------------------------------- what a handler reads

  function AlignUp(addr: nat, size: nat): nat
    requires size > 0
  {
    (addr + size - 1) / size * size
  }

  /** A signed 32-bit integer. */
  function LoadI32(mem: Mem, addr: nat): int {
    var v := LeValue(LoadBytes(mem, addr, 4));
    if v < 0x8000_0000 then v else v - TWO_32
  }

  function LoadU32(mem: Mem, addr: nat): nat {
    LeValue(LoadBytes(mem, addr, 4))
  }

  function LoadWords(mem: Mem, addr: nat, n: nat): (r: seq<nat>)
    ensures |r| == n
    decreases n
  {
    if n == 0 then [] else [LoadWord(mem, addr)] + LoadWords(mem, addr + 8, n - 1)
  }

  datatype InfoView = InfoView(signo: int, errno: int, code: int, fields: seq<byte>)

  /** `siginfo_t`: three integers and the other fields. */
  function ReadInfo(mem: Mem, addr: nat): InfoView {
    InfoView(LoadI32(mem, addr), LoadI32(mem, addr + 4), LoadI32(mem, addr + 8), LoadBytes(mem, addr + 12, 112))
  }

  datatype UcontextView = UcontextView(
    stackSp: nat, stackFlags: nat, stackSize: nat, x: seq<nat>, sp: nat, pc: nat, pstate: nat, mask: nat)

  /** `ucontext_t`: flags, link, the stack (pointer, 32-bit flags, size), the machine context and the mask. */
  function ReadUcontext(mem: Mem, addr: nat): UcontextView {
    var stack := addr + 8 + 8;
    var size := stack + AlignUp(8 + 4, 8);
    var context := size + 8;
    var x := context + 8;
    var sp := x + 31 * 8;
    UcontextView(LoadWord(mem, stack), LoadU32(mem, stack + 8), LoadWord(mem, size), LoadWords(mem, x, 31),
                 LoadWord(mem, sp), LoadWord(mem, sp + 8), LoadWord(mem, sp + 16), LoadWord(mem, sp + 24))
  }

  // ---------------------------------------------------------------- the reader finds what was written

  /** The pieces lie one after the other within the frame. */
  ghost predicate Apart(pieces: seq<Piece>) {
    && (forall i, j :: 0 <= i < j < |pieces| ==> pieces[i].offset + |pieces[i].bytes| <= pieces[j].offset)
    && (forall i :: 0 <= i < |pieces| ==> pieces[i].offset + |pieces[i].bytes| <= FRAME_SIZE)
  }

  lemma {:induction false} PiecesAt(mem: Mem, sp: nat, pieces: seq<Piece>, k: nat)
    requires Apart(pieces) && k < |pieces|
    ensures At(WritePieces(mem, sp, pieces), sp + pieces[k].offset, pieces[k].bytes)
    decreases |pieces|
  {
    var n := |pieces| - 1;
    if k < n {
      PiecesAt(mem, sp, pieces[..n], k);
    }
  }

  lemma {:induction false} PiecesWithin(mem: Mem, sp: nat, pieces: seq<Piece>)
    requires Apart(pieces)
    ensures SameOutside(mem, WritePieces(mem, sp, pieces), sp, sp + FRAME_SIZE)
    decreases |pieces|
  {
    if pieces != [] {
      var n := |pieces| - 1;
      PiecesWithin(mem, sp, pieces[..n]);
    }
  }

  lemma PiecesAreApart(f: Frame)
    ensures Apart(Pieces(f))
  {
    hide LeBytes, WordBytes;
  }

  /** Nothing outside the frame changes. */
  lemma WritesFrameOnly(mem: Mem, f: Frame)
    ensures SameOutside(mem, WriteFrame(mem, f), f.sp, f.sp + FRAME_SIZE)
  {
    hide Pieces, WritePieces, Apart;
    PiecesAreApart(f);
    PiecesWithin(mem, f.sp, Pieces(f));
  }

  lemma {:induction false} WordAt(mem: Mem, addr: nat, ws: seq<nat>, i: nat)
    requires WordsAt(mem, addr, ws) && i < |ws| && forall k :: 0 <= k < |ws| ==> ws[k] < TWO_64
    ensures LoadWord(mem, addr + 8 * i) == ws[i]
    decreases i
  {
    hide WordsAt, LoadWord;
    LoadFirstWord(mem, addr, ws);
    if i > 0 {
      WordAt(mem, addr + 8, ws[1..], i - 1);
      assert addr + 8 + 8 * (i - 1) == addr + 8 * i;
    }
  }

  lemma {:induction false} LoadWordsAt(mem: Mem, addr: nat, ws: seq<nat>)
    requires forall k: nat :: k < |ws| ==> LoadWord(mem, addr + 8 * k) == ws[k]
    ensures LoadWords(mem, addr, |ws|) == ws
    decreases |ws|
  {
    hide LoadWord;
    if ws != [] {
      assert LoadWord(mem, addr + 8 * 0) == ws[0];
      forall k: nat | k < |ws[1..]| ensures LoadWord(mem, addr + 8 + 8 * k) == ws[1..][k] {
        assert LoadWord(mem, addr + 8 * (k + 1)) == ws[k + 1];
      }
      LoadWordsAt(mem, addr + 8, ws[1..]);
    }
  }

  lemma I32At(mem: Mem, addr: nat, i: I32)
    requires At(mem, addr, I32Bytes(i))
    ensures LoadI32(mem, addr) == i
  {
    hide LeBytes, LoadBytes, LeValue;
    LoadStored(mem, addr, I32Bytes(i));
    assert Pow256(4) == TWO_32;
    LeRoundTrip(i % TWO_32, 4);
  }

  lemma U32At(mem: Mem, addr: nat, v: nat)
    requires v < TWO_32 && At(mem, addr, LeBytes(v, 4))
    ensures LoadU32(mem, addr) == v && (v < 0x8000_0000 ==> LoadI32(mem, addr) == v)
  {
    hide LeBytes, LoadBytes, LeValue;
    LoadStored(mem, addr, LeBytes(v, 4));
    assert Pow256(4) == TWO_32;
    LeRoundTrip(v, 4);
  }

  lemma SignalIsSmall(s: Signal)
    ensures s as nat <= 64
  {
  }

  lemma FlagsAreSmall(flags: bv32)
    ensures flags as nat < TWO_32
  {
  }

  /** A handler reads the signal information as it was sent. */
  lemma InfoIsRead(mem: Mem, addr: nat, info: Info)
    requires At(mem, addr, InfoBytes(info))
    ensures ReadInfo(mem, addr) == InfoView(info.signo as int, info.errno, info.code, info.fields)
  {
    hide LeBytes, At, LoadI32, LoadBytes, I32Bytes;
    var s, e, c := LeBytes(info.signo as nat, 4), I32Bytes(info.errno), I32Bytes(info.code);
    SignalIsSmall(info.signo);
    I32Length(info.errno);
    I32Length(info.code);
    AtConcat(mem, addr, s + e + c, info.fields);
    AtConcat(mem, addr, s + e, c);
    AtConcat(mem, addr, s, e);
    U32At(mem, addr, info.signo as nat);
    I32At(mem, addr + 4, info.errno);
    I32At(mem, addr + 8, info.code);
    LoadStored(mem, addr + 12, info.fields);
  }

  lemma I32Length(i: I32)
    ensures |I32Bytes(i)| == 4
  {
  }

  /** The words after the stack flags: stack size, machine context and mask. */
  function LastWords(f: Frame): (r: seq<U64>)
    ensures |r| == 37
  {
    [f.stack.size] + ContextWords(f.context) + [f.mask as nat]
  }

  lemma UcontextIsRead(mem: Mem, sp: nat, f: Frame)
    requires WordsAt(mem, sp + UCONTEXT_OFFSET, [0, 0, f.stack.sp])
    requires At(mem, sp + STACK_FLAGS_OFFSET, LeBytes(f.stack.flags as nat, 4))
    requires WordsAt(mem, sp + STACK_SIZE_OFFSET, LastWords(f))
    ensures ReadUcontext(mem, sp + UCONTEXT_OFFSET) == ViewOf(f)
  {
    hide WordsAt, At, LeBytes, LoadU32, LoadWord, LoadWords;
    WordAt(mem, sp + UCONTEXT_OFFSET, [0, 0, f.stack.sp], 2);
    FlagsAreSmall(f.stack.flags);
    U32At(mem, sp + STACK_FLAGS_OFFSET, f.stack.flags as nat);
    forall i: nat | i < 37 ensures LoadWord(mem, sp + STACK_SIZE_OFFSET + 8 * i) == LastWords(f)[i] {
      WordAt(mem, sp + STACK_SIZE_OFFSET, LastWords(f), i);
    }
    RegistersAreRead(mem, sp, f);
    WordAt(mem, sp + STACK_SIZE_OFFSET, LastWords(f), 0);
    WordAt(mem, sp + STACK_SIZE_OFFSET, LastWords(f), 33);
    WordAt(mem, sp + STACK_SIZE_OFFSET, LastWords(f), 34);
    WordAt(mem, sp + STACK_SIZE_OFFSET, LastWords(f), 35);
    WordAt(mem, sp + STACK_SIZE_OFFSET, LastWords(f), 36);
  }

  lemma RegistersAreRead(mem: Mem, sp: nat, f: Frame)
    requires forall i: nat :: i < 37 ==> LoadWord(mem, sp + STACK_SIZE_OFFSET + 8 * i) == LastWords(f)[i]
    ensures LoadWords(mem, sp + STACK_SIZE_OFFSET + 16, 31) == f.context.x
  {
    hide LoadWord, LoadWords;
    forall k: nat | k < 31 ensures LoadWord(mem, sp + STACK_SIZE_OFFSET + 16 + 8 * k) == f.context.x[k] {
      assert LoadWord(mem, sp + STACK_SIZE_OFFSET + 8 * (k + 2)) == LastWords(f)[k + 2];
    }
    LoadWordsAt(mem, sp + STACK_SIZE_OFFSET + 16, f.context.x);
  }

  /** What the saved part of a frame looks like to a handler. */
  function ViewOf(f: Frame): UcontextView {
    UcontextView(f.stack.sp, f.stack.flags as nat, f.stack.size, f.context.x, f.context.sp, f.context.pc, f.context.pstate,
                 f.mask as nat)
  }

  /** All pieces of the frame are in memory. */
  ghost predicate Holds(mem: Mem, f: Frame) {
    forall k: nat :: k < 6 ==> PieceAt(mem, f, k)
  }

  ghost predicate PieceAt(mem: Mem, f: Frame, k: nat)
    requires k < 6
  {
    At(mem, f.sp + Pieces(f)[k].offset, Pieces(f)[k].bytes)
  }

  lemma WriteHolds(mem: Mem, f: Frame)
    ensures Holds(WriteFrame(mem, f), f)
  {
    hide Pieces, WritePieces, Apart, At;
    PiecesAreApart(f);
    forall k: nat | k < 6 ensures PieceAt(WriteFrame(mem, f), f, k) {
      PiecesAt(mem, f.sp, Pieces(f), k);
    }
  }

  /** A frame stays while another is written beside it. */
  lemma HoldsBeside(mem: Mem, f: Frame, g: Frame)
    requires Holds(mem, f) && (g.sp + FRAME_SIZE <= f.sp || f.sp + FRAME_SIZE <= g.sp)
    ensures Holds(WriteFrame(mem, g), f)
  {
    hide Pieces, WriteFrame, Apart, Holds, SameOutside, At;
    PiecesAreApart(f);
    WritesFrameOnly(mem, g);
    forall k: nat | k < 6 ensures PieceAt(WriteFrame(mem, g), f, k) {
      HeldPiece(mem, f, k);
      PieceWithin(Pieces(f), k);
      AtBeside(mem, WriteFrame(mem, g), g.sp, g.sp + FRAME_SIZE, f.sp + Pieces(f)[k].offset, Pieces(f)[k].bytes);
    }
    AllHeld(WriteFrame(mem, g), f);
  }

  lemma HeldPiece(mem: Mem, f: Frame, k: nat)
    requires Holds(mem, f) && k < 6
    ensures PieceAt(mem, f, k)
  {
  }

  lemma AllHeld(mem: Mem, f: Frame)
    requires forall k: nat :: k < 6 ==> PieceAt(mem, f, k)
    ensures Holds(mem, f)
  {
  }

  lemma PieceWithin(pieces: seq<Piece>, k: nat)
    requires Apart(pieces) && k < |pieces|
    ensures pieces[k].offset + |pieces[k].bytes| <= FRAME_SIZE
  {
  }

  lemma AtBeside(mem: Mem, mem': Mem, lo: nat, hi: nat, addr: nat, bytes: seq<byte>)
    requires At(mem, addr, bytes) && SameOutside(mem, mem', lo, hi) && (hi <= addr || addr + |bytes| <= lo)
    ensures At(mem', addr, bytes)
  {
  }

  /**
   A frame in memory reads back: the information where the second argument of a handler points, the
   saved state where the third one points, the return address at the stack pointer, and the return code.
   */
  lemma FrameIsRead(m: Mem, f: Frame)
    requires Holds(m, f)
    ensures ReadInfo(m, f.sp + 8) == InfoView(f.info.signo as int, f.info.errno, f.info.code, f.info.fields)
    ensures ReadUcontext(m, f.sp + 136) == ViewOf(f)
    ensures LoadWord(m, f.sp) == ReturnAddress(f)
    ensures f.restorer.None? ==> LoadBytes(m, f.sp + RET_CODE_OFFSET, 7) == RET_CODE
  {
    hide Pieces, At, ReadInfo, ReadUcontext, LoadWord, LoadBytes, LeBytes, WordBytes, InfoBytes, ReturnAddress;
    PiecesSpelled(f);
    assert PieceAt(m, f, 0) && PieceAt(m, f, 1) && PieceAt(m, f, 2);
    assert PieceAt(m, f, 3) && PieceAt(m, f, 4) && PieceAt(m, f, 5);
    InfoIsRead(m, f.sp + INFO_OFFSET, f.info);
    UcontextIsRead(m, f.sp, f);
    OneWord(m, f.sp, ReturnAddress(f));
    if f.restorer.None? {
      LoadStored(m, f.sp + RET_CODE_OFFSET, RET_CODE);
    }
  }

  lemma PiecesSpelled(f: Frame)
    ensures Pieces(f)[0] == Piece(0, LeBytes(ReturnAddress(f), 8)) && Pieces(f)[1] == Piece(INFO_OFFSET, InfoBytes(f.info))
    ensures Pieces(f)[2] == Piece(UCONTEXT_OFFSET, WordBytes([0, 0, f.stack.sp]))
    ensures Pieces(f)[3] == Piece(STACK_FLAGS_OFFSET, LeBytes(f.stack.flags as nat, 4))
    ensures Pieces(f)[4] == Piece(STACK_SIZE_OFFSET, WordBytes(LastWords(f)))
    ensures Pieces(f)[5] == Piece(RET_CODE_OFFSET, if f.restorer.Some? then [] else RET_CODE)
    ensures ReturnAddress(f) < TWO_64
  {
  }

  lemma OneWord(mem: Mem, addr: nat, w: nat)
    requires w < TWO_64 && At(mem, addr, LeBytes(w, 8))
    ensures LoadWord(mem, addr) == w
  {
    hide LeBytes, LoadBytes, LeValue;
    LoadStored(mem, addr, LeBytes(w, 8));
    Pow256Is64Bits();
    LeRoundTrip(w, 8);
  }
}
