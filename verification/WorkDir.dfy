/** The working directory of a process: how `sys_chdir` folds a path into it. */
module WorkDir {

  type Segment = string

  // ------------------------------------------------------------------------ segments

  /** The pieces between slashes, as `str::split` gives them. */
  function Split(path: string): (r: seq<Segment>)
    ensures r != []
  {
    if path == "" then [""]
    else
      var rest := Split(path[1..]);
      if path[0] == '/' then [""] + rest else [[path[0]] + rest[0]] + rest[1..]
  }

  function NonEmpty(segs: seq<Segment>): seq<Segment> {
    if segs == [] then [] else (if segs[0] == "" then [] else [segs[0]]) + NonEmpty(segs[1..])
  }

  function Segments(path: string): seq<Segment> {
    NonEmpty(Split(path))
  }

  /** A directory name that may stand in a canonical path. */
  predicate IsName(seg: Segment) {
    seg != "" && '/' !in seg && seg != "." && seg != ".."
  }

  predicate AllNames(segs: seq<Segment>) {
    forall i :: 0 <= i < |segs| ==> IsName(segs[i])
  }

  predicate IsPiece(seg: Segment) {
    seg != "" && '/' !in seg
  }

  lemma {:induction false} SplitHasNoSlash(path: string, i: nat)
    requires i < |Split(path)|
    ensures '/' !in Split(path)[i]
    decreases |path|
  {
    if path != "" {
      var rest := Split(path[1..]);
      if path[0] == '/' {
        if i > 0 {
          SplitHasNoSlash(path[1..], i - 1);
        }
      } else {
        SplitHasNoSlash(path[1..], i);
      }
    }
  }

  lemma {:induction false} NonEmptyIsSubset(segs: seq<Segment>, i: nat)
    requires i < |NonEmpty(segs)|
    ensures NonEmpty(segs)[i] != "" && NonEmpty(segs)[i] in segs
    decreases |segs|
  {
    var skip := if segs[0] == "" then 0 else 1;
    if i >= skip {
      NonEmptyIsSubset(segs[1..], i - skip);
      assert NonEmpty(segs)[i] == NonEmpty(segs[1..])[i - skip];
    }
  }

  lemma SegmentsArePieces(path: string)
    ensures forall i :: 0 <= i < |Segments(path)| ==> IsPiece(Segments(path)[i])
  {
    forall i | 0 <= i < |Segments(path)| ensures IsPiece(Segments(path)[i]) {
      NonEmptyIsSubset(Split(path), i);
      var j :| 0 <= j < |Split(path)| && Split(path)[j] == Segments(path)[i];
      SplitHasNoSlash(path, j);
    }
  }

  lemma {:induction false} SplitJoin(a: string, b: string)
    ensures Split(a + "/" + b) == Split(a) + Split(b)
    decreases |a|
  {
    if a == "" {
      assert a + "/" + b == "/" + b;
      assert ("/" + b)[1..] == b;
    } else {
      hide Split, Grow;
      var rest := a[1..] + "/" + b;
      assert a + "/" + b == [a[0]] + rest;
      SplitJoin(a[1..], b);
      SplitHead(a[0], a[1..]);
      SplitHead(a[0], rest);
      assert [a[0]] + a[1..] == a;
      Grown(a[0], Split(a[1..]), Split(b));
    }
  }

  /** What a character in front does to the pieces. */
  function Grow(c: char, segs: seq<Segment>): seq<Segment>
    requires segs != []
  {
    if c == '/' then [""] + segs else [[c] + segs[0]] + segs[1..]
  }

  lemma SplitHead(c: char, path: string)
    ensures Split([c] + path) == Grow(c, Split(path))
  {
    assert ([c] + path)[1..] == path;
  }

  lemma Grown(c: char, a: seq<Segment>, b: seq<Segment>)
    requires a != []
    ensures Grow(c, a + b) == Grow(c, a) + b
  {
  }

  lemma {:induction false} NonEmptyConcat(a: seq<Segment>, b: seq<Segment>)
    ensures NonEmpty(a + b) == NonEmpty(a) + NonEmpty(b)
    decreases |a|
  {
    if a == [] {
      assert a + b == b;
    } else {
      NonEmptyConcat(a[1..], b);
      assert (a + b)[0] == a[0] && (a + b)[1..] == a[1..] + b;
      var head, rest, more := if a[0] == "" then [] else [a[0]], NonEmpty(a[1..]), NonEmpty(b);
      assert NonEmpty(a + b) == head + NonEmpty(a[1..] + b);
      assert head + (rest + more) == (head + rest) + more;
    }
  }

  /** Joining with a slash joins the segments. */
  lemma SegmentsJoin(a: string, b: string)
    ensures Segments(a + "/" + b) == Segments(a) + Segments(b)
  {
    SplitJoin(a, b);
    NonEmptyConcat(Split(a), Split(b));
  }

  lemma {:induction false} SplitPiece(seg: string)
    requires '/' !in seg
    ensures Split(seg) == [seg]
    decreases |seg|
  {
    if seg != "" {
      SplitPiece(seg[1..]);
      assert [seg[0]] + seg[1..] == seg;
    }
  }

  // ------------------------------------------------------------------- folding a path

  /** What one segment of a path does to the directory stack. */
  function Enter(stack: seq<Segment>, seg: Segment): seq<Segment> {
    if seg == ".." then (if stack == [] then [] else stack[..|stack| - 1])
    else if seg == "." then stack
    else stack + [seg]
  }

  function Fold(stack: seq<Segment>, segs: seq<Segment>): seq<Segment>
    decreases |segs|
  {
    if segs == [] then stack else Enter(Fold(stack, segs[..|segs| - 1]), segs[|segs| - 1])
  }

  /** The stack as an absolute path. */
  function Joined(stack: seq<Segment>): string {
    if stack == [] then "" else Joined(stack[..|stack| - 1]) + "/" + stack[|stack| - 1]
  }

  function Render(stack: seq<Segment>): string {
    if stack == [] then "/" else Joined(stack)
  }

  /** The working directory after `sys_chdir(path)` has found the directory. */
  function Changed(cwd: string, path: string): string {
    if path == "" then cwd
    else Render(Fold(Segments(if path[0] == '/' then "/" else cwd), Segments(path)))
  }

  lemma {:induction false} FoldKeepsNames(stack: seq<Segment>, segs: seq<Segment>)
    requires AllNames(stack) && forall i :: 0 <= i < |segs| ==> IsPiece(segs[i])
    ensures AllNames(Fold(stack, segs))
    decreases |segs|
  {
    if segs != [] {
      FoldKeepsNames(stack, segs[..|segs| - 1]);
    }
  }

  lemma {:induction false} FoldConcat(stack: seq<Segment>, a: seq<Segment>, b: seq<Segment>)
    ensures Fold(stack, a + b) == Fold(Fold(stack, a), b)
    decreases |b|
  {
    if b == [] {
      assert a + b == a;
    } else {
      var n := |b| - 1;
      assert (a + b)[..|a| + n] == a + b[..n];
      FoldConcat(stack, a, b[..n]);
    }
  }

  /** Reading a rendered stack gives the stack back. */
  lemma {:induction false} RenderRoundTrip(stack: seq<Segment>)
    requires AllNames(stack)
    ensures Segments(Render(stack)) == stack
    decreases |stack|
  {
    if stack == [] {
      assert Split("/") == ["", ""] by {
        assert "/"[1..] == "";
      }
      assert NonEmpty(["", ""]) == NonEmpty([""]);
    } else {
      JoinedRoundTrip(stack);
    }
  }

  lemma {:induction false} JoinedRoundTrip(stack: seq<Segment>)
    requires AllNames(stack)
    ensures Segments(Joined(stack)) == stack
    decreases |stack|
  {
    if stack != [] {
      var n := |stack| - 1;
      JoinedRoundTrip(stack[..n]);
      SegmentsJoin(Joined(stack[..n]), stack[n]);
      SplitPiece(stack[n]);
      assert NonEmpty([stack[n]]) == [stack[n]];
      assert stack == stack[..n] + [stack[n]];
    }
  }

  // ----------------------------------------------------------------- canonical paths

  /** Absolute, no empty, "." or ".." segment, and no trailing slash except at the root. */
  ghost predicate Canonical(cwd: string) {
    AllNames(Segments(cwd)) && cwd == Render(Segments(cwd))
  }

  lemma RootIsCanonical()
    ensures Canonical("/")
  {
    RenderRoundTrip([]);
  }

  lemma ChangedStack(cwd: string, path: string)
    requires Canonical(cwd) && path != ""
    ensures var base := if path[0] == '/' then [] else Segments(cwd);
            Segments(Changed(cwd, path)) == Fold(base, Segments(path)) && Canonical(Changed(cwd, path))
  {
    RenderRoundTrip([]);
    var base := if path[0] == '/' then [] else Segments(cwd);
    SegmentsArePieces(path);
    FoldKeepsNames(base, Segments(path));
    RenderRoundTrip(Fold(base, Segments(path)));
  }

  /** Every `sys_chdir` leaves a canonical working directory. */
  lemma ChangedIsCanonical(cwd: string, path: string)
    requires Canonical(cwd)
    ensures Canonical(Changed(cwd, path))
  {
    if path != "" {
      ChangedStack(cwd, path);
    }
  }

  /** Changing to `a` and then to a relative `b` is changing to `a/b`. */
  lemma ChangeInTwoSteps(cwd: string, a: string, b: string)
    requires Canonical(cwd) && a != "" && (b == "" || b[0] != '/')
    ensures Changed(Changed(cwd, a), b) == Changed(cwd, a + "/" + b)
  {
    hide Segments, Fold, Render;
    ChangedStack(cwd, a);
    SegmentsJoin(a, b);
    var base := if a[0] == '/' then [] else Segments(cwd);
    FoldConcat(base, Segments(a), Segments(b));
    RootSegments();
    assert (a + "/" + b)[0] == a[0];
    if b == "" {
      EmptyChange(Changed(cwd, a));
    }
  }

  lemma RootSegments()
    ensures Segments("/") == []
  {
    RenderRoundTrip([]);
  }

  lemma EmptyChange(cwd: string)
    ensures Segments("") == [] && Fold(Segments(cwd), Segments("")) == Segments(cwd)
  {
    assert Split("") == [""];
  }

  /** A plain name goes one level down, and ".." undoes that. */
  lemma UpUndoesDown(cwd: string, name: string)
    requires Canonical(cwd) && IsName(name)
    ensures Segments(Changed(cwd, name)) == Segments(cwd) + [name]
    ensures Changed(Changed(cwd, name), "..") == cwd
  {
    hide Canonical, Changed, Split;
    NameSegments(name);
    NameSegments("..");
    ChangedStack(cwd, name);
    var stack := Segments(cwd);
    assert Fold(stack, [name]) == Enter(Fold(stack, []), name);
    ChangedStack(Changed(cwd, name), "..");
    assert Fold(stack + [name], [".."]) == Enter(Fold(stack + [name], []), "..");
    assert (stack + [name])[..|stack|] == stack;
    SameSegments(Changed(Changed(cwd, name), ".."), cwd);
  }

  lemma NameSegments(name: string)
    requires IsPiece(name)
    ensures Segments(name) == [name]
  {
    SplitPiece(name);
    assert NonEmpty([name]) == [name] + NonEmpty([]);
  }

  lemma SameSegments(a: string, b: string)
    requires Canonical(a) && Canonical(b) && Segments(a) == Segments(b)
    ensures a == b
  {
  }

  /** In any directory ".." takes off the last segment; at the root there is none to take. */
  lemma UpDropsLast(cwd: string)
    requires Canonical(cwd)
    ensures var stack := Segments(cwd);
            Segments(Changed(cwd, "..")) == if stack == [] then [] else stack[..|stack| - 1]
    ensures cwd == "/" ==> Changed(cwd, "..") == "/"
  {
    hide Canonical, Changed, Split;
    NameSegments("..");
    ChangedStack(cwd, "..");
    var stack := Segments(cwd);
    assert Fold(stack, [".."]) == Enter(Fold(stack, []), "..");
    if cwd == "/" {
      RootSegments();
      SameSegments(Changed(cwd, ".."), cwd);
    }
  }

  /** What canonical means for the characters: a leading slash, and a trailing one at the root only. */
  lemma CanonicalShape(cwd: string)
    requires Canonical(cwd)
    ensures cwd != "" && cwd[0] == '/' && (cwd[|cwd| - 1] == '/' ==> cwd == "/")
  {
    var stack := Segments(cwd);
    if stack != [] {
      var n := |stack| - 1;
      JoinedStart(stack);
      assert IsName(stack[n]);
      assert cwd == Joined(stack[..n]) + "/" + stack[n];
      assert cwd[|cwd| - 1] == stack[n][|stack[n]| - 1];
    }
  }

  lemma {:induction false} JoinedStart(stack: seq<Segment>)
    requires stack != []
    ensures Joined(stack) != "" && Joined(stack)[0] == '/'
    decreases |stack|
  {
    if |stack| > 1 {
      JoinedStart(stack[..|stack| - 1]);
    }
  }

  // ----------------------------------------------------------------------- operations

  /** What looking the path up has found. */
  datatype Lookup = Directory | OtherFile | Failed(error: nat)

  datatype Result = Ok | NotDir | LookupError(error: nat)

  datatype Call = Call(path: string, lookup: Lookup)

  /** The working directory after these calls of `sys_chdir`. */
  function AfterCalls(cwd: string, calls: seq<Call>): string {
    if calls == [] then cwd
    else
      var n := |calls| - 1;
      var before := AfterCalls(cwd, calls[..n]);
      if calls[n].lookup.Directory? then Changed(before, calls[n].path) else before
  }

  /** All segments walked since the root: those of the successful calls from the last absolute path on. */
  function Trail(calls: seq<Call>): seq<Segment> {
    if calls == [] then []
    else
      var n := |calls| - 1;
      var path := calls[n].path;
      if !calls[n].lookup.Directory? then Trail(calls[..n])
      else (if path != "" && path[0] == '/' then [] else Trail(calls[..n])) + Segments(path)
  }

  /**
   After any calls the working directory of a process is canonical, and it is where one gets by walking
   the whole trail from the root at once.
   */
  lemma {:induction false} CwdAfterCalls(calls: seq<Call>)
    ensures Canonical(AfterCalls("/", calls))
    ensures Segments(AfterCalls("/", calls)) == Fold([], Trail(calls))
    decreases |calls|
  {
    hide Canonical, Changed, Segments, Fold;
    if calls == [] {
      RootIsCanonical();
      RootSegments();
      FoldNothing([]);
    } else {
      var n := |calls| - 1;
      CwdAfterCalls(calls[..n]);
      if calls[n].lookup.Directory? {
        WalkOn(AfterCalls("/", calls[..n]), Trail(calls[..n]), calls[n].path);
      }
    }
  }

  lemma FoldNothing(stack: seq<Segment>)
    ensures Fold(stack, []) == stack
  {
  }

  /** One more call walks on from where the trail has led, or from the root. */
  lemma WalkOn(cwd: string, trail: seq<Segment>, path: string)
    requires Canonical(cwd) && Segments(cwd) == Fold([], trail)
    ensures Canonical(Changed(cwd, path))
    ensures var trail' := (if path != "" && path[0] == '/' then [] else trail) + Segments(path);
            Segments(Changed(cwd, path)) == Fold([], trail')
  {
    hide Segments, Fold;
    if path == "" {
      EmptyChange(cwd);
      assert trail + Segments("") == trail;
    } else {
      ChangedStack(cwd, path);
      RootSegments();
      assert [] + Segments(path) == Segments(path);
      if path[0] != '/' {
        FoldConcat([], trail, Segments(path));
      }
    }
  }

  class Process {
    var cwd: string

    constructor ()
      ensures cwd == "/"
    {
      cwd := "/";
    }

    /** `sys_chdir`: only a path that names a directory changes anything. */
    method Chdir(path: string, lookup: Lookup) returns (r: Result)
      modifies this
      ensures r == match lookup case Directory => Ok case OtherFile => NotDir case Failed(e) => LookupError(e)
      ensures cwd == if r.Ok? then Changed(old(cwd), path) else old(cwd)
    {
      match lookup {
        case Failed(e) => return LookupError(e);
        case OtherFile => return NotDir;
        case Directory =>
      }
      if |path| > 0 {
        var stack := FoldPath(Segments(if path[0] == '/' then "/" else cwd), Segments(path));
        cwd := "";
        for i := 0 to |stack|
          invariant cwd == Joined(stack[..i])
        {
          assert stack[..i + 1][..i] == stack[..i];
          cwd := cwd + "/";
          cwd := cwd + stack[i];
        }
        assert stack[..|stack|] == stack;
        JoinedIsEmpty(stack);
        if cwd == "" {
          cwd := "/";
        }
      }
      r := Ok;
    }
  }

  method FoldPath(base: seq<Segment>, segs: seq<Segment>) returns (stack: seq<Segment>)
    ensures stack == Fold(base, segs)
  {
    stack := base;
    for i := 0 to |segs|
      invariant stack == Fold(base, segs[..i])
    {
      assert segs[..i + 1][..i] == segs[..i];
      if segs[i] == ".." {
        if |stack| > 0 {
          stack := stack[..|stack| - 1];
        }
      } else if segs[i] == "." {
      } else {
        stack := stack + [segs[i]];
      }
    }
    assert segs[..|segs|] == segs;
  }

  lemma JoinedIsEmpty(stack: seq<Segment>)
    ensures Joined(stack) == "" <==> stack == []
  {
  }

  // ----------------------------------------------------------------------- split_path

  function TrimEnd(path: string): string {
    if path != "" && path[|path| - 1] == '/' then TrimEnd(path[..|path| - 1]) else path
  }

  /** The last slash of `path`, if there is one. */
  function LastSlash(path: string): (r: int)
    ensures -1 <= r < |path|
    ensures r >= 0 ==> path[r] == '/'
    ensures forall j :: r < j < |path| ==> path[j] != '/'
  {
    if path == "" then -1
    else if path[|path| - 1] == '/' then |path| - 1
    else LastSlash(path[..|path| - 1])
  }

  /** `split_path`: directory and file name. */
  function SplitPath(path: string): (string, string) {
    var trimmed := TrimEnd(path);
    var i := LastSlash(trimmed);
    var dir := if i < 0 then "." else trimmed[..i];
    (if dir == "" then "/" else dir, trimmed[i + 1..])
  }

  lemma {:induction false} TrimKeepsSegments(path: string)
    ensures Segments(TrimEnd(path)) == Segments(path)
    decreases |path|
  {
    if path != "" && path[|path| - 1] == '/' {
      var shorter := path[..|path| - 1];
      TrimKeepsSegments(shorter);
      SegmentsJoin(shorter, "");
      assert path == shorter + "/" + "";
      EmptyChange("");
    }
  }

  lemma {:induction false} TrimShape(path: string)
    ensures TrimEnd(path) <= path && (TrimEnd(path) != "" ==> TrimEnd(path)[|TrimEnd(path)| - 1] != '/')
    ensures TrimEnd(path) == "" ==> forall i :: 0 <= i < |path| ==> path[i] == '/'
    decreases |path|
  {
    if path != "" && path[|path| - 1] == '/' {
      TrimShape(path[..|path| - 1]);
    }
  }

  /**
   The file name is the last segment of the path and the directory has the others; it is absolute if
   the path is, and "." if there are none. Without any segment there is no name.
   */
  lemma SplitPathIsLast(path: string)
    ensures var (dir, file) := SplitPath(path);
            if Segments(path) == [] then dir == "." && file == ""
            else
              && IsPiece(file)
              && (Segments(path) == Segments(dir) + [file] || (dir == "." && Segments(path) == [file]))
              && (dir[0] == '/' <==> path[0] == '/')
  {
    hide Segments, TrimEnd, LastSlash, IsPiece;
    var t := TrimEnd(path);
    TrimKeepsSegments(path);
    TrimShape(path);
    NoSegments();
    if t != "" {
      var i := LastSlash(t);
      assert t[0] == path[0];
      LastPiece(t, t[i + 1..]);
      if i < 0 {
        NameSegments(t);
        assert t[i + 1..] == t;
      } else {
        PieceAfter(t[..i], t[i + 1..]);
        SplitAt(t, i);
      }
    }
  }

  lemma NoSegments()
    ensures Segments("") == [] && Segments("/") == []
  {
    EmptyChange("");
    RootSegments();
  }

  lemma PieceAfter(dir: string, file: string)
    requires IsPiece(file)
    ensures Segments(dir + "/" + file) == Segments(dir) + [file]
  {
    hide Segments;
    SegmentsJoin(dir, file);
    NameSegments(file);
  }

  lemma LastPiece(t: string, file: string)
    requires t != "" && t[|t| - 1] != '/' && file == t[LastSlash(t) + 1..]
    ensures IsPiece(file) && (LastSlash(t) < 0 ==> t[0] != '/')
  {
    hide LastSlash, IsPiece;
    TailIsPiece(t, LastSlash(t) + 1);
  }

  lemma TailIsPiece(t: string, i: nat)
    requires i < |t| && forall j :: i <= j < |t| ==> t[j] != '/'
    ensures IsPiece(t[i..])
  {
    assert t[i..] != [];
    forall k | 0 <= k < |t[i..]| ensures t[i..][k] != '/' {
      assert t[i..][k] == t[i + k];
    }
  }

  /** The path without its trailing slashes leads to the same place. */  /** The path without its trailing slashes leads to the same place. */  /** The path without its trailing slashes leads to the same place. */
  lemma TrimmedSame(cwd: string, path: string)
    requires TrimEnd(path) != ""
    ensures Changed(cwd, TrimEnd(path)) == Changed(cwd, path)
  {
    TrimShape(path);
    TrimKeepsSegments(path);
  }

  lemma StayHere(cwd: string)
    requires Canonical(cwd)
    ensures Changed(cwd, ".") == cwd && Changed(cwd, "/") == "/"
  {
    SplitPiece(".");
    assert NonEmpty(["."]) == ["."] + NonEmpty([]);
    assert Fold(Segments(cwd), ["."]) == Enter(Fold(Segments(cwd), []), ".");
    RootSegments();
    assert Fold([], []) == [];
  }

  /** For a path with a name in it, going to the directory part and then to the file name is following the path. */
  lemma SplitPathSameNamed(cwd: string, path: string)
    requires Canonical(cwd) && TrimEnd(path) != ""
    ensures var (dir, file) := SplitPath(path); Changed(Changed(cwd, dir), file) == Changed(cwd, path)
  {
    hide Changed, Canonical, TrimEnd, LastSlash, IsPiece;
    var t := TrimEnd(path);
    var i := LastSlash(t);
    TrimmedSame(cwd, path);
    TrimShape(path);
    StayHere(cwd);
    if i >= 0 {
      var file := t[i + 1..];
      SplitAt(t, i);
      LastPiece(t, file);
      PieceStart(file);
      if i == 0 {
        RootFirst(cwd, file);
      } else {
        ChangeInTwoSteps(cwd, t[..i], file);
      }
    }
  }

  lemma SplitAt(t: string, i: nat)
    requires i < |t| && t[i] == '/'
    ensures t == t[..i] + "/" + t[i + 1..] && (i == 0 ==> t == "/" + t[1..])
  {
  }

  lemma PieceStart(file: string)
    requires IsPiece(file)
    ensures file != "" && file[0] != '/'
  {
  }

  lemma RootFirst(cwd: string, file: string)
    requires Canonical(cwd) && file != "" && file[0] != '/'
    ensures Changed("/", file) == Changed(cwd, "/" + file)
  {
    RootSegments();
    SegmentsJoin("", file);
    EmptyChange("");
    assert "" + "/" + file == "/" + file;
    assert [] + Segments(file) == Segments(file);
  }

  /**
   `split_path` splits where a path leads, except that a path of slashes alone gives "." and no
   name: following the parts then stays where it is, and the path goes to the root.
   */
  lemma SplitPathSameIff(cwd: string, path: string)
    requires Canonical(cwd)
    ensures var (dir, file) := SplitPath(path);
            Changed(Changed(cwd, dir), file) == Changed(cwd, path)
            <==> path == "" || cwd == "/" || exists c :: c in path && c != '/'
  {
    hide Changed, Canonical, TrimEnd, SplitPath;
    TrimShape(path);
    if TrimEnd(path) != "" {
      SplitPathSameNamed(cwd, path);
      assert TrimEnd(path)[|TrimEnd(path)| - 1] in path;
    } else {
      OnlySlashes(cwd, path);
    }
  }

  lemma OnlySlashes(cwd: string, path: string)
    requires Canonical(cwd) && TrimEnd(path) == ""
    ensures SplitPath(path) == (".", "") && Changed(Changed(cwd, "."), "") == cwd
    ensures path == "" ==> Changed(cwd, path) == cwd
    ensures path != "" ==> Changed(cwd, path) == "/"
  {
    hide Canonical, Segments, Changed;
    StayHere(cwd);
    assert Changed(cwd, "") == cwd by {
      NoPath(cwd);
    }
    TrimShape(path);
    TrimKeepsSegments(path);
    EmptyChange(cwd);
    if path != "" {
      SlashesLeadToRoot(cwd, path);
    }
  }

  lemma NoPath(cwd: string)
    ensures Changed(cwd, "") == cwd
  {
  }

  lemma SlashesLeadToRoot(cwd: string, path: string)
    requires path != "" && path[0] == '/' && Segments(path) == []
    ensures Changed(cwd, path) == "/"
  {
    hide Segments;
    RootSegments();
    assert Fold([], []) == [];
  }
}
