/** The initial user stack: written downwards by the kernel, read upwards by the C library. */
module InitStack {
  import opened Machine
  import opened RawMemory

  /** `ProcInitInfo`; strings are byte strings, auxv maps a `u8` type to a `usize`. */
  datatype InitInfo = InitInfo(args: seq<seq<byte>>, envs: seq<seq<byte>>, auxv: map<byte, nat>)

  // ------------------------------------------------------------------ the layout

  /** The bytes the strings take, each with its NUL. */
  function StringBytes(strs: seq<seq<byte>>): nat {
    if strs == [] then 0 else StringBytes(strs[..|strs| - 1]) + |strs[|strs| - 1]| + 1
  }

  function AlignDown(sp: nat, align: nat): (r: nat)
    requires align > 0
    ensures r <= sp < r + align
  {
    sp - sp % align
  }

  /** Type and value words of the entries with types below `n`, highest type first. */
  function AuxWords(auxv: map<byte, nat>, n: nat): seq<nat>
    requires n <= 256
  {
    if n == 0 then []
    else (if n - 1 in auxv then [n - 1, auxv[n - 1]] else []) + AuxWords(auxv, n - 1)
  }

  /** The words above the stack pointer, `argv` and `envp` being the string addresses. */
  function Image(argv: seq<nat>, envp: seq<nat>, auxv: map<byte, nat>): seq<nat> {
    [|argv|] + (argv + ([0] + (envp + ([0] + (AuxWords(auxv, 256) + [0, 0])))))
  }

  /** Bytes of words below the strings. */
  function TableBytes(info: InitInfo): nat {
    WORD_SIZE * (|info.args| + |info.envs| + 5 + |AuxWords(info.auxv, 256)|)
  }

  /** Bytes of all strings; the program name is stored twice. */
  function AllStringBytes(info: InitInfo): nat
    requires info.args != []
  {
    |info.args[0]| + 1 + StringBytes(info.envs) + StringBytes(info.args)
  }

  /** Strings, alignment and table fit between address 0 and the stack top. */
  predicate Fits(info: InitInfo, stackTop: nat) {
    && info.args != [] && stackTop < TWO_64
    && (forall k :: k in info.auxv ==> info.auxv[k] < TWO_64)
    && AllStringBytes(info) <= stackTop
    && TableBytes(info) <= AlignDown(stackTop - AllStringBytes(info), WORD_SIZE)
  }

  // ------------------------------------------------------------------ the reader

  /** A C string: the bytes up to the first NUL; `None` if there is none below `top`. */
  function ReadString(mem: Mem, addr: nat, top: nat): Option<seq<byte>>
    decreases top - addr
  {
    if addr >= top then None
    else if LoadByte(mem, addr) == 0 then Some([])
    else
      var rest := ReadString(mem, addr + 1, top);
      if rest.None? then None else Some([LoadByte(mem, addr)] + rest.value)
  }

  function ReadStrings(mem: Mem, ptrs: seq<nat>, top: nat): Option<seq<seq<byte>>> {
    if ptrs == [] then Some([])
    else
      var first, rest := ReadString(mem, ptrs[0], top), ReadStrings(mem, ptrs[1..], top);
      if first.None? || rest.None? then None else Some([first.value] + rest.value)
  }

  /** The pointers up to NULL, and the address behind it. */
  function ReadPointers(mem: Mem, addr: nat, top: nat): Option<(seq<nat>, nat)>
    decreases top - addr
  {
    if addr >= top then None
    else if LoadWord(mem, addr) == 0 then Some(([], addr + WORD_SIZE))
    else
      var rest := ReadPointers(mem, addr + WORD_SIZE, top);
      if rest.None? then None else Some(([LoadWord(mem, addr)] + rest.value.0, rest.value.1))
  }

  /** The auxiliary vector up to its null entry. */
  function ReadAux(mem: Mem, addr: nat, top: nat): Option<seq<(nat, nat)>>
    decreases top - addr
  {
    if addr >= top then None
    else if LoadWord(mem, addr) == 0 then Some([])
    else
      var rest := ReadAux(mem, addr + 2 * WORD_SIZE, top);
      if rest.None? then None else Some([(LoadWord(mem, addr), LoadWord(mem, addr + WORD_SIZE))] + rest.value)
  }

  datatype Startup = Startup(argc: nat, args: seq<seq<byte>>, envs: seq<seq<byte>>, auxv: seq<(nat, nat)>)

  /** What a program that follows the System V layout finds from `sp` upwards. */
  function ReadInit(mem: Mem, sp: nat, top: nat): Option<Startup> {
    var argv := ReadPointers(mem, sp + WORD_SIZE, top);
    if argv.None? then None else
    var envp := ReadPointers(mem, argv.value.1, top);
    if envp.None? then None else
    var auxv := ReadAux(mem, envp.value.1, top);
    var args, envs := ReadStrings(mem, argv.value.0, top), ReadStrings(mem, envp.value.0, top);
    if auxv.None? || args.None? || envs.None? then None
    else Some(Startup(LoadWord(mem, sp), args.value, envs.value, auxv.value))
  }

  // -------------------------------------------------- what the reader must recover

  /** The part of a string that C sees. */
  function UpToNul(s: seq<byte>): seq<byte> {
    if s == [] || s[0] == 0 then [] else [s[0]] + UpToNul(s[1..])
  }

  function CStrings(strs: seq<seq<byte>>): seq<seq<byte>> {
    seq(|strs|, i requires 0 <= i < |strs| => UpToNul(strs[i]))
  }

  /** Entries with types below `n`, highest type first, without type 0, which ends the vector. */
  function AuxEntries(auxv: map<byte, nat>, n: nat): seq<(nat, nat)>
    requires n <= 256
  {
    if n <= 1 then []
    else (if n - 1 in auxv then [(n - 1, auxv[n - 1])] else []) + AuxEntries(auxv, n - 1)
  }

  lemma {:induction false} UpToNulIsAll(s: seq<byte>)
    ensures UpToNul(s) == s <==> 0 !in s
  {
    if s != [] {
      UpToNulIsAll(s[1..]);
      assert s == [s[0]] + s[1..];
      if s[0] != 0 && UpToNul(s) == s {
        assert UpToNul(s)[1..] == s[1..];
      }
    }
  }

  /** The strings come back whole exactly when none of them holds a NUL. */
  lemma CStringsAreAll(strs: seq<seq<byte>>)
    ensures CStrings(strs) == strs <==> forall i :: 0 <= i < |strs| ==> 0 !in strs[i]
  {
    forall i | 0 <= i < |strs| ensures UpToNul(strs[i]) == strs[i] <==> 0 !in strs[i] {
      UpToNulIsAll(strs[i]);
    }
    if CStrings(strs) == strs {
      forall i | 0 <= i < |strs| ensures 0 !in strs[i] {
        assert CStrings(strs)[i] == strs[i];
      }
    }
  }

  /** `es` are the entries of auxv with a type above 0 and below `n`, in strictly descending order of type. */
  ghost predicate AreEntries(auxv: map<byte, nat>, n: nat, es: seq<(nat, nat)>) {
    && (forall e :: e in es <==> IsEntry(auxv, n, e))
    && (forall i, j :: 0 <= i < j < |es| ==> es[i].0 > es[j].0)
  }

  predicate IsEntry(auxv: map<byte, nat>, n: nat, e: (nat, nat)) {
    0 < e.0 < n && e.0 < 256 && e.0 in auxv && auxv[e.0] == e.1
  }

  /** The reader recovers all entries with a type other than 0, in descending order of type. */
  lemma {:induction false} AuxEntriesExact(auxv: map<byte, nat>, n: nat)
    requires n <= 256
    ensures AreEntries(auxv, n, AuxEntries(auxv, n))
  {
    hide AreEntries;
    if n <= 1 {
      NoEntries(auxv, n);
    } else {
      var rest := AuxEntries(auxv, n - 1);
      AuxEntriesExact(auxv, n - 1);
      if n - 1 in auxv {
        OneMoreEntry(auxv, n, rest);
      } else {
        SameEntries(auxv, n, rest);
        assert AuxEntries(auxv, n) == rest;
      }
    }
  }

  lemma NoEntries(auxv: map<byte, nat>, n: nat)
    requires n <= 1
    ensures AreEntries(auxv, n, [])
  {
  }

  lemma SameEntries(auxv: map<byte, nat>, n: nat, rest: seq<(nat, nat)>)
    requires 1 < n <= 256 && n - 1 !in auxv && AreEntries(auxv, n - 1, rest)
    ensures AreEntries(auxv, n, rest)
  {
    forall e ensures e in rest <==> IsEntry(auxv, n, e) {
      assert IsEntry(auxv, n - 1, e) <==> IsEntry(auxv, n, e);
    }
  }

  lemma OneMoreEntry(auxv: map<byte, nat>, n: nat, rest: seq<(nat, nat)>)
    requires 1 < n <= 256 && n - 1 in auxv && AreEntries(auxv, n - 1, rest)
    ensures AreEntries(auxv, n, [(n - 1, auxv[n - 1])] + rest)
  {
    var first := (n - 1, auxv[n - 1]);
    var es := [first] + rest;
    forall e ensures e in es <==> IsEntry(auxv, n, e) {
      assert e in es <==> e == first || e in rest;
      assert IsEntry(auxv, n, e) <==> e == first || IsEntry(auxv, n - 1, e);
    }
    forall i, j | 0 <= i < j < |es| ensures es[i].0 > es[j].0 {
      assert es[j] == rest[j - 1] && rest[j - 1] in rest;
      assert IsEntry(auxv, n - 1, es[j]);
    }
  }

  // ------------------------------------------------------------- reading it back

  /** A NUL-terminated string that lies below `hi`. */
  ghost predicate Placed(mem: Mem, addr: nat, s: seq<byte>, lo: nat, hi: nat) {
    lo <= addr && addr + |s| + 1 <= hi && At(mem, addr, s + [0])
  }

  ghost predicate AllPlaced(mem: Mem, ptrs: seq<nat>, strs: seq<seq<byte>>, lo: nat, hi: nat) {
    |ptrs| == |strs| && forall i :: 0 <= i < |strs| ==> Placed(mem, ptrs[i], strs[i], lo, hi)
  }

  lemma {:induction false} ReadStringBack(mem: Mem, addr: nat, s: seq<byte>, top: nat)
    requires At(mem, addr, s + [0]) && addr + |s| + 1 <= top
    ensures ReadString(mem, addr, top) == Some(UpToNul(s))
    decreases |s|
  {
    assert LoadByte(mem, addr) == (s + [0])[0];
    if s != [] && s[0] != 0 {
      assert s + [0] == [s[0]] + (s[1..] + [0]);
      AtConcat(mem, addr, [s[0]], s[1..] + [0]);
      ReadStringBack(mem, addr + 1, s[1..], top);
    }
  }

  lemma {:induction false} ReadStringsBack(mem: Mem, ptrs: seq<nat>, strs: seq<seq<byte>>, lo: nat, top: nat)
    requires AllPlaced(mem, ptrs, strs, lo, top)
    ensures ReadStrings(mem, ptrs, top) == Some(CStrings(strs))
    decreases |ptrs|
  {
    if ptrs != [] {
      assert Placed(mem, ptrs[0], strs[0], lo, top);
      ReadStringBack(mem, ptrs[0], strs[0], top);
      assert AllPlaced(mem, ptrs[1..], strs[1..], lo, top);
      ReadStringsBack(mem, ptrs[1..], strs[1..], lo, top);
      assert CStrings(strs) == [UpToNul(strs[0])] + CStrings(strs[1..]);
    }
  }

  lemma {:induction false} ReadPointersBack(mem: Mem, addr: nat, ptrs: seq<nat>, rest: seq<nat>, top: nat)
    requires WordsAt(mem, addr, ptrs + ([0] + rest)) && addr + WORD_SIZE * (|ptrs| + 1) <= top
    requires forall i :: 0 <= i < |ptrs| ==> 0 < ptrs[i] < TWO_64
    ensures ReadPointers(mem, addr, top) == Some((ptrs, addr + WORD_SIZE * (|ptrs| + 1)))
    ensures WordsAt(mem, addr + WORD_SIZE * (|ptrs| + 1), rest)
    decreases |ptrs|
  {
    hide WordsAt, LoadWord;
    var ws := ptrs + ([0] + rest);
    LoadFirstWord(mem, addr, ws);
    if ptrs == [] {
      assert ws[1..] == rest;
    } else {
      assert ws[1..] == ptrs[1..] + ([0] + rest);
      ReadPointersBack(mem, addr + WORD_SIZE, ptrs[1..], rest, top);
      assert ptrs == [ptrs[0]] + ptrs[1..];
    }
  }

  lemma {:induction false} ReadAuxBack(mem: Mem, addr: nat, auxv: map<byte, nat>, n: nat, top: nat)
    requires n <= 256 && forall k :: k in auxv ==> auxv[k] < TWO_64
    requires WordsAt(mem, addr, AuxWords(auxv, n) + [0, 0]) && addr + WORD_SIZE * (|AuxWords(auxv, n)| + 2) <= top
    ensures ReadAux(mem, addr, top) == Some(AuxEntries(auxv, n))
    decreases n
  {
    hide WordsAt, LoadWord;
    var ws := AuxWords(auxv, n) + [0, 0];
    if n == 0 {
      LoadFirstWord(mem, addr, ws);
    } else if n - 1 !in auxv {
      assert AuxWords(auxv, n) == AuxWords(auxv, n - 1) && AuxEntries(auxv, n) == AuxEntries(auxv, n - 1);
      ReadAuxBack(mem, addr, auxv, n - 1, top);
    } else {
      var rest := AuxWords(auxv, n - 1) + [0, 0];
      assert ws == [n - 1, auxv[n - 1]] + rest;
      LoadFirstWord(mem, addr, ws);
      if n > 1 {
        LoadFirstWord(mem, addr + WORD_SIZE, ws[1..]);
        assert ws[1..][1..] == rest;
        ReadAuxBack(mem, addr + 2 * WORD_SIZE, auxv, n - 1, top);
      }
    }
  }

  /** A table over placed strings reads back as the strings and auxv it was made from. */
  lemma ReadInitBack(mem: Mem, sp: nat, top: nat, info: InitInfo, argv: seq<nat>, envp: seq<nat>, lo: nat)
    requires WordsAt(mem, sp, Image(argv, envp, info.auxv)) && sp + TableBytes(info) <= lo <= top < TWO_64
    requires AllPlaced(mem, argv, info.args, lo, top) && AllPlaced(mem, envp, info.envs, lo, top)
    requires forall k :: k in info.auxv ==> info.auxv[k] < TWO_64
    ensures ReadInit(mem, sp, top)
         == Some(Startup(|info.args|, CStrings(info.args), CStrings(info.envs), AuxEntries(info.auxv, 256)))
  {
    hide WordsAt, LoadWord, AuxWords, AuxEntries, ReadPointers, ReadStrings, ReadAux, CStrings, Placed;
    var aux := AuxWords(info.auxv, 256) + [0, 0];
    var image := Image(argv, envp, info.auxv);
    assert image[0] == |argv|;
    LoadFirstWord(mem, sp, image);
    assert image[1..] == argv + ([0] + (envp + ([0] + aux)));
    PlacedAreAddresses(mem, argv, info.args, lo, top);
    ReadPointersBack(mem, sp + WORD_SIZE, argv, envp + ([0] + aux), top);
    var a1 := sp + WORD_SIZE + WORD_SIZE * (|argv| + 1);
    PlacedAreAddresses(mem, envp, info.envs, lo, top);
    ReadPointersBack(mem, a1, envp, aux, top);
    ReadAuxBack(mem, a1 + WORD_SIZE * (|envp| + 1), info.auxv, 256, top);
    ReadStringsBack(mem, argv, info.args, lo, top);
    ReadStringsBack(mem, envp, info.envs, lo, top);
  }

  lemma PlacedAreAddresses(mem: Mem, ptrs: seq<nat>, strs: seq<seq<byte>>, lo: nat, top: nat)
    requires AllPlaced(mem, ptrs, strs, lo, top) && 0 < lo && top < TWO_64
    ensures forall i :: 0 <= i < |ptrs| ==> 0 < ptrs[i] < TWO_64
  {
    assert forall i :: 0 <= i < |ptrs| ==> Placed(mem, ptrs[i], strs[i], lo, top);
  }

  // ------------------------------------------------------------------ the writer

  class StackWriter {
    var sp: nat
    var mem: Mem

    constructor (sp: nat, mem: Mem)
      ensures this.sp == sp && this.mem == mem
    {
      this.sp, this.mem := sp, mem;
    }

    /** `push_slice`: make room, align down, copy. Nothing at or above the old `sp` is written. */
    method PushSlice(bytes: seq<byte>, align: nat)
      requires align > 0 && |bytes| <= sp
      modifies this
      ensures sp == AlignDown(old(sp) - |bytes|, align) && sp + |bytes| <= old(sp)
      ensures At(mem, sp, bytes) && SameOutside(old(mem), mem, sp, old(sp))
    {
      sp := sp - |bytes|;
      sp := sp - sp % align;
      mem := Store(mem, sp, bytes);
    }

    /** A slice of machine words, put under the words of `table` if there are any. */
    method PushWords(ws: seq<nat>, ghost table: seq<nat>)
      requires WORD_SIZE * |ws| <= sp
      requires table == [] || (sp % WORD_SIZE == 0 && WordsAt(mem, sp, table))
      modifies this
      ensures sp == AlignDown(old(sp), WORD_SIZE) - WORD_SIZE * |ws| && sp % WORD_SIZE == 0
      ensures WordsAt(mem, sp, ws + table) && SameOutside(old(mem), mem, sp, old(sp))
    {
      hide At, SameOutside, WordBytes;
      PushSlice(WordBytes(ws), WORD_SIZE);
      if table != [] {
        AtKept(old(mem), mem, sp, old(sp), old(sp), WordBytes(table));
      } else {
        assert ws + table == ws;
      }
      WordsAtConcat(mem, sp, ws, table);
    }

    /** The null entry, then the entries of auxv in ascending order of type. */
    method PushAux(auxv: map<byte, nat>)
      requires WORD_SIZE * (|AuxWords(auxv, 256)| + 2) <= AlignDown(sp, WORD_SIZE)
      modifies this
      ensures sp == AlignDown(old(sp), WORD_SIZE) - WORD_SIZE * (|AuxWords(auxv, 256)| + 2) && sp % WORD_SIZE == 0
      ensures WordsAt(mem, sp, AuxWords(auxv, 256) + [0, 0]) && SameOutside(old(mem), mem, sp, old(sp))
    {
      PushWords([0, 0], []);
      assert AuxWords(auxv, 0) + [0, 0] == [0, 0] + [];
      hide WordsAt, SameOutside, AuxWords;
      for k := 0 to 256
        invariant sp == AlignDown(old(sp), WORD_SIZE) - WORD_SIZE * (|AuxWords(auxv, k)| + 2) && sp % WORD_SIZE == 0
        invariant WordsAt(mem, sp, AuxWords(auxv, k) + [0, 0]) && SameOutside(old(mem), mem, sp, old(sp))
      {
        AuxWordsGrow(auxv, k);
        AuxWordsGrow(auxv, k + 1);
        ghost var mem1, sp1 := mem, sp;
        PushAuxEntry(auxv, k);
        SameOutsideWider(old(mem), mem1, mem, sp, sp1, old(sp));
      }
    }

    method PushAuxEntry(auxv: map<byte, nat>, k: byte)
      requires WORD_SIZE * (|AuxWords(auxv, k + 1)| - |AuxWords(auxv, k)|) <= sp && sp % WORD_SIZE == 0
      requires WordsAt(mem, sp, AuxWords(auxv, k) + [0, 0])
      modifies this
      ensures sp == old(sp) - WORD_SIZE * (|AuxWords(auxv, k + 1)| - |AuxWords(auxv, k)|) && sp % WORD_SIZE == 0
      ensures sp <= old(sp) && WordsAt(mem, sp, AuxWords(auxv, k + 1) + [0, 0]) && SameOutside(old(mem), mem, sp, old(sp))
    {
      if k in auxv {
        hide WordsAt, SameOutside;
        assert AuxWords(auxv, k + 1) + [0, 0] == [k, auxv[k]] + (AuxWords(auxv, k) + [0, 0]);
        PushWords([k, auxv[k]], AuxWords(auxv, k) + [0, 0]);
      } else {
        assert AuxWords(auxv, k + 1) == AuxWords(auxv, k);
      }
    }

    /** Auxiliary vector, environment pointers, argument pointers, argument count. */
    method PushTable(argv: seq<nat>, envp: seq<nat>, auxv: map<byte, nat>)
      requires WORD_SIZE * |Image(argv, envp, auxv)| <= AlignDown(sp, WORD_SIZE)
      modifies this
      ensures sp == AlignDown(old(sp), WORD_SIZE) - WORD_SIZE * |Image(argv, envp, auxv)| && sp % WORD_SIZE == 0
      ensures WordsAt(mem, sp, Image(argv, envp, auxv)) && SameOutside(old(mem), mem, sp, old(sp))
    {
      hide WordsAt, SameOutside, AuxWords;
      ghost var top, mem0 := sp, mem;
      PushAux(auxv);
      ghost var table, mem1, sp1 := AuxWords(auxv, 256) + [0, 0], mem, sp;
      PushWords([0], table);
      SameOutsideWider(mem0, mem1, mem, sp, sp1, top);
      table, mem1, sp1 := [0] + table, mem, sp;
      PushWords(envp, table);
      SameOutsideWider(mem0, mem1, mem, sp, sp1, top);
      table, mem1, sp1 := envp + table, mem, sp;
      PushWords([0], table);
      SameOutsideWider(mem0, mem1, mem, sp, sp1, top);
      table, mem1, sp1 := [0] + table, mem, sp;
      PushWords(argv, table);
      SameOutsideWider(mem0, mem1, mem, sp, sp1, top);
      table, mem1, sp1 := argv + table, mem, sp;
      PushWords([|argv|], table);
      SameOutsideWider(mem0, mem1, mem, sp, sp1, top);
    }

    method PushStr(s: seq<byte>)
      requires |s| + 1 <= sp
      modifies this
      ensures sp == old(sp) - |s| - 1
      ensures Placed(mem, sp, s, sp, old(sp)) && SameOutside(old(mem), mem, sp, old(sp))
    {
      PushSlice([0], 1);
      ghost var mem1, sp1 := mem, sp;
      PushSlice(s, 1);
      AtKept(mem1, mem, sp, sp1, sp1, [0]);
      AtConcat(mem, sp, s, [0]);
      SameOutsideWider(old(mem), mem1, mem, sp, sp1, old(sp));
    }

    /** Push the strings one below the other; `ptrs` are their addresses. */
    method PushStrings(strs: seq<seq<byte>>) returns (ptrs: seq<nat>)
      requires StringBytes(strs) <= sp
      modifies this
      ensures sp == old(sp) - StringBytes(strs) && |ptrs| == |strs|
      ensures AllPlaced(mem, ptrs, strs, sp, old(sp)) && SameOutside(old(mem), mem, sp, old(sp))
    {
      hide SameOutside, AllPlaced, Placed;
      ghost var top, mem0 := sp, mem;
      NonePlaced(mem0, top);
      ptrs := [];
      for i := 0 to |strs|
        invariant sp == top - StringBytes(strs[..i]) && |ptrs| == i
        invariant AllPlaced(mem, ptrs, strs[..i], sp, top) && SameOutside(mem0, mem, sp, top)
      {
        ghost var mem1, sp1 := mem, sp;
        StringBytesGrow(strs, i + 1);
        assert strs[..i + 1][..i] == strs[..i];
        PushStr(strs[i]);
        OneMorePlaced(mem1, mem, ptrs, strs[..i], sp1, sp, top, strs[i]);
        SameOutsideWider(mem0, mem1, mem, sp, sp1, top);
        assert strs[..i] + [strs[i]] == strs[..i + 1];
        ptrs := ptrs + [sp];
      }
      assert strs[..|strs|] == strs;
    }
  }

  lemma {:induction false} AuxWordsGrow(auxv: map<byte, nat>, n: nat)
    requires n <= 256
    ensures |AuxWords(auxv, n)| <= |AuxWords(auxv, 256)|
    decreases 256 - n
  {
    if n < 256 {
      AuxWordsGrow(auxv, n + 1);
    }
  }

  lemma {:induction false} StringBytesGrow(strs: seq<seq<byte>>, n: nat)
    requires n <= |strs|
    ensures StringBytes(strs[..n]) <= StringBytes(strs)
    decreases |strs| - n
  {
    if n == |strs| {
      assert strs[..n] == strs;
    } else {
      StringBytesGrow(strs, n + 1);
      assert strs[..n + 1][..n] == strs[..n];
    }
  }

  lemma NonePlaced(mem: Mem, top: nat)
    ensures AllPlaced(mem, [], [], top, top) && SameOutside(mem, mem, top, top)
  {
  }

  /** Writing below placed strings keeps them. */
  lemma PlacedKept(mem: Mem, mem': Mem, ptrs: seq<nat>, strs: seq<seq<byte>>, lo: nat, lo': nat, top: nat)
    requires AllPlaced(mem, ptrs, strs, lo, top) && SameOutside(mem, mem', lo', lo)
    ensures AllPlaced(mem', ptrs, strs, lo, top)
  {
    forall i | 0 <= i < |strs| ensures Placed(mem', ptrs[i], strs[i], lo, top) {
      AtKept(mem, mem', lo', lo, ptrs[i], strs[i] + [0]);
    }
  }

  lemma OneMorePlaced(mem: Mem, mem': Mem, ptrs: seq<nat>, strs: seq<seq<byte>>, lo: nat, lo': nat, top: nat, s: seq<byte>)
    requires AllPlaced(mem, ptrs, strs, lo, top) && SameOutside(mem, mem', lo', lo) && lo' <= lo <= top
    requires Placed(mem', lo', s, lo', lo)
    ensures AllPlaced(mem', ptrs + [lo'], strs + [s], lo', top)
  {
    PlacedKept(mem, mem', ptrs, strs, lo, lo', top);
    forall i | 0 <= i < |strs| + 1 ensures Placed(mem', (ptrs + [lo'])[i], (strs + [s])[i], lo', top) {
      assert i < |strs| ==> Placed(mem', ptrs[i], strs[i], lo, top);
    }
  }

  lemma PlacedWider(mem: Mem, ptrs: seq<nat>, strs: seq<seq<byte>>, lo: nat, hi: nat, lo': nat, hi': nat)
    requires AllPlaced(mem, ptrs, strs, lo, hi) && lo' <= lo && hi <= hi'
    ensures AllPlaced(mem, ptrs, strs, lo', hi')
  {
    forall i | 0 <= i < |strs| ensures Placed(mem, ptrs[i], strs[i], lo', hi') {
      assert Placed(mem, ptrs[i], strs[i], lo, hi);
    }
  }

  /**
   `push_at`: write everything below `stackTop` and return the stack pointer. Reading upwards
   from it gives back the arguments, the environment and the auxiliary vector.
   */
  method PushAt(info: InitInfo, stackTop: nat, mem0: Mem) returns (sp: nat, mem: Mem)
    requires Fits(info, stackTop)
    ensures sp % WORD_SIZE == 0 && SameOutside(mem0, mem, sp, stackTop)
    ensures sp == AlignDown(stackTop - AllStringBytes(info), WORD_SIZE) - TableBytes(info)
    ensures Placed(mem, stackTop - |info.args[0]| - 1, info.args[0], sp, stackTop)
    ensures ReadInit(mem, sp, stackTop)
         == Some(Startup(|info.args|, CStrings(info.args), CStrings(info.envs), AuxEntries(info.auxv, 256)))
  {
    hide SameOutside, AllPlaced, Placed, WordsAt, CStrings, AuxWords, AuxEntries, ReadInit;
    var writer := new StackWriter(stackTop, mem0);
    writer.PushStr(info.args[0]);
    ghost var mem1, sp1 := writer.mem, writer.sp;
    var envs := writer.PushStrings(info.envs);
    ghost var mem2, sp2 := writer.mem, writer.sp;
    var argv := writer.PushStrings(info.args);
    ghost var mem3, sp3 := writer.mem, writer.sp;
    assert WORD_SIZE * |Image(argv, envs, info.auxv)| == TableBytes(info);
    writer.PushTable(argv, envs, info.auxv);
    sp, mem := writer.sp, writer.mem;
    Finish(info, stackTop, mem0, mem1, mem2, mem3, mem, sp1, sp2, sp3, sp, argv, envs);
  }

  lemma Finish(info: InitInfo, stackTop: nat, mem0: Mem, mem1: Mem, mem2: Mem, mem3: Mem, mem: Mem,
               sp1: nat, sp2: nat, sp3: nat, sp: nat, argv: seq<nat>, envs: seq<nat>)
    requires Fits(info, stackTop) && sp <= sp3 <= sp2 <= sp1 <= stackTop && sp + TableBytes(info) <= sp3
    requires Placed(mem1, sp1, info.args[0], sp1, stackTop) && SameOutside(mem0, mem1, sp1, stackTop)
    requires AllPlaced(mem2, envs, info.envs, sp2, sp1) && SameOutside(mem1, mem2, sp2, sp1)
    requires AllPlaced(mem3, argv, info.args, sp3, sp2) && SameOutside(mem2, mem3, sp3, sp2)
    requires WordsAt(mem, sp, Image(argv, envs, info.auxv)) && SameOutside(mem3, mem, sp, sp3)
    ensures SameOutside(mem0, mem, sp, stackTop) && Placed(mem, sp1, info.args[0], sp, stackTop)
    ensures ReadInit(mem, sp, stackTop)
         == Some(Startup(|info.args|, CStrings(info.args), CStrings(info.envs), AuxEntries(info.auxv, 256)))
  {
    hide SameOutside, AllPlaced, WordsAt, At, CStrings, AuxWords, AuxEntries, ReadInit;
    SameOutsideWider(mem2, mem3, mem, sp, sp3, sp2);
    SameOutsideWider(mem1, mem2, mem, sp, sp2, sp1);
    SameOutsideWider(mem0, mem1, mem, sp, sp1, stackTop);
    AtKept(mem1, mem, sp, sp1, sp1, info.args[0] + [0]);
    PlacedKept(mem2, mem, envs, info.envs, sp2, sp, sp1);
    PlacedKept(mem3, mem, argv, info.args, sp3, sp, sp2);
    PlacedWider(mem, envs, info.envs, sp2, sp1, sp3, stackTop);
    PlacedWider(mem, argv, info.args, sp3, sp2, sp3, stackTop);
    ReadInitBack(mem, sp, stackTop, info, argv, envs, sp3);
  }

  /** The reader recovers the whole of `info` exactly when no string holds a NUL and no auxv type is 0. */
  lemma RecoversAllIff(info: InitInfo)
    ensures CStrings(info.args) == info.args && CStrings(info.envs) == info.envs
            && (forall k :: k in info.auxv ==> (k, info.auxv[k]) in AuxEntries(info.auxv, 256))
       <==> (forall i :: 0 <= i < |info.args| ==> 0 !in info.args[i])
            && (forall i :: 0 <= i < |info.envs| ==> 0 !in info.envs[i])
            && 0 !in info.auxv
  {
    CStringsAreAll(info.args);
    CStringsAreAll(info.envs);
    AuxEntriesExact(info.auxv, 256);
    forall k | k in info.auxv ensures (k, info.auxv[k]) in AuxEntries(info.auxv, 256) <==> k != 0 {
      assert (k, info.auxv[k]) in AuxEntries(info.auxv, 256) <==> IsEntry(info.auxv, 256, (k, info.auxv[k]));
    }
  }
}
