/** Paths inside a container, made absolute and free of `.` and `..`. */
module ContainerPath {
  import opened Splitting

  const SLASH: string := ['/']

  function ForwardSlashes(path: string): string {
    seq(|path|, k requires 0 <= k < |path| => if path[k] == '\\' then '/' else path[k])
  }

  function Split(path: string): seq<string> {
    Cut(path, SLASH).whole + [Cut(path, SLASH).rest]
  }

  function Join(parts: seq<string>): string {
    if parts == [] then ""
    else if |parts| == 1 then parts[0]
    else Join(parts[..|parts| - 1]) + SLASH + parts[|parts| - 1]
  }

  /** One segment applied to where we are. At the root `..` stays at the root. */
  function Step(at: seq<string>, part: string): seq<string> {
    if part == "" || part == "." then at
    else if part == ".." then (if at == [] then [] else at[..|at| - 1])
    else at + [part]
  }

  function Walk(from: seq<string>, parts: seq<string>): seq<string> {
    if parts == [] then from else Step(Walk(from, parts[..|parts| - 1]), parts[|parts| - 1])
  }

  function Raw(input: string): string {
    ForwardSlashes(if input == "" then SLASH else input)
  }

  function Normalized(input: string): string {
    SLASH + Join(Walk([], Split(Raw(input))))
  }

  method Normalize(input: string) returns (path: string)
    ensures path == Normalized(input)
  {
    var raw := Raw(input);
    var parts := Split(raw);
    var stack: seq<string> := [];
    for k := 0 to |parts|
      invariant stack == Walk([], parts[..k])
    {
      var part := parts[k];
      assert parts[..k + 1][..k] == parts[..k];
      if part == "" || part == "." {
        continue;
      }
      if part == ".." {
        if stack != [] {
          stack := stack[..|stack| - 1];
        }
        continue;
      }
      stack := stack + [part];
    }
    assert parts[..|parts|] == parts;
    path := SLASH + Join(stack);
  }

  // --- Canonical paths ---

  ghost predicate Name(part: string) {
    part != "" && part != "." && part != ".." && Free(part, '/') && Free(part, '\\')
  }

  ghost predicate Names(parts: seq<string>) {
    forall p :: p in parts ==> Name(p)
  }

  /** Absolute, with nothing left to resolve. */
  ghost predicate Canonical(path: string) {
    exists parts :: Names(parts) && path == SLASH + Join(parts)
  }

  ghost predicate Plain(parts: seq<string>) {
    forall p :: p in parts ==> Free(p, '/') && Free(p, '\\')
  }

  lemma {:induction false} WalkNames(from: seq<string>, parts: seq<string>)
    requires Names(from) && Plain(parts)
    ensures Names(Walk(from, parts))
  {
    if parts != [] {
      WalkNames(from, parts[..|parts| - 1]);
      assert parts[|parts| - 1] in parts;
    }
  }

  lemma {:induction false} WalkOn(from: seq<string>, a: seq<string>, b: seq<string>)
    ensures Walk(from, a + b) == Walk(Walk(from, a), b)
    decreases |b|
  {
    if b == [] {
      assert a + b == a;
    } else {
      WalkOn(from, a, b[..|b| - 1]);
      assert (a + b)[..|a + b| - 1] == a + b[..|b| - 1];
    }
  }

  /** Walking down plain names arrives at them. */
  lemma {:induction false} WalkDown(from: seq<string>, names: seq<string>)
    requires Names(names)
    ensures Walk(from, names) == from + names
  {
    if names == [] {
      assert from + names == from;
    } else {
      var last := names[|names| - 1];
      WalkDown(from, names[..|names| - 1]);
      assert last in names;
      assert from + names == (from + names[..|names| - 1]) + [last];
    }
  }

  lemma WalkOne(from: seq<string>, part: string)
    ensures Walk(from, [part]) == Step(from, part)
  {
    assert [part][..0] == [];
  }

  // --- Splitting and joining ---

  lemma SplitParts(path: string)
    requires Free(path, '\\')
    ensures Plain(Split(path))
  {
    PiecesAreFree(path, '/');
    NoBackslashAdded(path);
  }

  lemma {:induction false} NoBackslashAdded(path: string)
    requires Free(path, '\\')
    ensures (forall p :: p in Cut(path, SLASH).whole ==> Free(p, '\\')) && Free(Cut(path, SLASH).rest, '\\')
  {
    if path != "" {
      NoBackslashAdded(path[..|path| - 1]);
      var rest := Cut(path[..|path| - 1], SLASH).rest + [path[|path| - 1]];
      assert Free(rest, '\\');
      assert Free(rest[..|rest| - 1], '\\');
    }
  }

  lemma RawIsFree(input: string)
    ensures Free(Raw(input), '\\')
  {
  }

  /** A slash in the text is a boundary of the parts. */
  lemma SplitAtSlash(a: string, b: string)
    ensures Split(a + SLASH + b) == Split(a) + Split(b)
  {
    hide Cut;
    var kept := Cut(a, SLASH).rest;
    CutAsItArrives(a, SLASH + b, SLASH);
    assert a + SLASH + b == a + (SLASH + b) && kept + (SLASH + b) == (kept + SLASH) + b;
    PiecesAreFree(a, '/');
    CutAsItArrives(kept + SLASH, b, SLASH);
    CutFree(kept, '/');
    assert "" + b == b;
  }

  lemma SplitFree(part: string)
    requires Free(part, '/')
    ensures Split(part) == [part]
  {
    hide Cut;
    CutFree(part, '/');
  }

  lemma {:induction false} SplitJoined(parts: seq<string>)
    requires parts != [] && forall p :: p in parts ==> Free(p, '/')
    ensures Split(Join(parts)) == parts
  {
    hide Split;
    var init, last := parts[..|parts| - 1], parts[|parts| - 1];
    assert last in parts && init + [last] == parts;
    SplitFree(last);
    if init != [] {
      SplitJoined(init);
      SplitAtSlash(Join(init), last);
    }
  }

  /** A canonical path resolves to its own names. */
  lemma WalkCanonical(names: seq<string>)
    requires Names(names)
    ensures Walk([], Split(SLASH + Join(names))) == names
  {
    hide Split, Walk, Join;
    SplitFree("");
    SplitAtSlash("", Join(names));
    assert "" + SLASH + Join(names) == SLASH + Join(names);
    WalkOn([], [""], Split(Join(names)));
    WalkOne([], "");
    if names == [] {
      JoinNothing();
      SplitFree("");
    } else {
      SplitJoined(names);
      WalkDown([], names);
      assert [] + names == names;
    }
  }

  lemma JoinNothing()
    ensures Join([]) == ""
  {
  }

  lemma {:induction false} JoinFree(names: seq<string>, c: char)
    requires c != '/' && forall p :: p in names ==> Free(p, c)
    ensures Free(Join(names), c)
  {
    if |names| == 1 {
      assert names[0] in names;
    } else if |names| > 1 {
      JoinFree(names[..|names| - 1], c);
      assert names[|names| - 1] in names;
    }
  }

  lemma NothingToReplace(path: string)
    requires Free(path, '\\')
    ensures ForwardSlashes(path) == path
  {
    assert forall k :: 0 <= k < |path| ==> path[k] in path;
  }

  lemma CanonicalIsRaw(names: seq<string>)
    requires Names(names)
    ensures Raw(SLASH + Join(names)) == SLASH + Join(names)
  {
    JoinFree(names, '\\');
    NothingToReplace(SLASH + Join(names));
  }

  /** Where a path leads. */
  function Resolved(input: string): seq<string> {
    Walk([], Split(Raw(input)))
  }

  lemma ResolvedAreNames(input: string)
    ensures Names(Resolved(input))
  {
    RawIsFree(input);
    SplitParts(Raw(input));
    WalkNames([], Split(Raw(input)));
  }

  // --- What the normal form is worth ---

  /** The result is absolute and holds no empty, `.` or `..` segment and no backslash. */
  lemma NormalizedIsCanonical(input: string)
    ensures Canonical(Normalized(input))
  {
    ResolvedAreNames(input);
  }

  lemma NormalizedKeeps(names: seq<string>)
    requires Names(names)
    ensures Resolved(SLASH + Join(names)) == names && Normalized(SLASH + Join(names)) == SLASH + Join(names)
  {
    CanonicalIsRaw(names);
    WalkCanonical(names);
  }

  /** The paths left alone are exactly the canonical ones. */
  lemma FixedPointsAreCanonical(path: string)
    ensures Normalized(path) == path <==> Canonical(path)
  {
    NormalizedIsCanonical(path);
    if Canonical(path) {
      var parts :| Names(parts) && path == SLASH + Join(parts);
      NormalizedKeeps(parts);
    }
  }

  lemma NormalizedOnce(input: string)
    ensures Normalized(Normalized(input)) == Normalized(input)
  {
    NormalizedIsCanonical(input);
    FixedPointsAreCanonical(Normalized(input));
  }

  lemma RawJoins(a: string, b: string)
    ensures Raw(a + SLASH + b) == ForwardSlashes(a) + SLASH + ForwardSlashes(b)
  {
  }

  /** A path is resolved from where its first part leads. */
  lemma ResolvedOn(a: string, b: string)
    ensures Resolved(a + SLASH + b) == Walk(Resolved(a), Split(ForwardSlashes(b)))
  {
    hide Split, Walk;
    RawJoins(a, b);
    SplitAtSlash(ForwardSlashes(a), ForwardSlashes(b));
    WalkOn([], Split(ForwardSlashes(a)), Split(ForwardSlashes(b)));
    if a == "" {
      EmptyLeadsNowhere();
      assert ForwardSlashes("") == "" && ForwardSlashes(SLASH) == SLASH;
    }
  }

  lemma EmptyLeadsNowhere()
    ensures Walk([], Split("")) == [] == Walk([], Split(SLASH))
  {
    hide Split, Walk;
    SplitFree("");
    SplitAtSlash("", "");
    assert "" + SLASH + "" == SLASH;
    WalkOne([], "");
    WalkOn([], [""], [""]);
  }

  /** Normalizing the first part beforehand changes nothing. */
  lemma NormalizedInParts(a: string, b: string)
    ensures Normalized(a + SLASH + b) == Normalized(Normalized(a) + SLASH + b)
  {
    ResolvedAreNames(a);
    NormalizedKeeps(Resolved(a));
    hide Walk, Split, Raw, Join;
    ResolvedOn(a, b);
    ResolvedOn(Normalized(a), b);
  }

  /** `..` takes back the name before it, and at the root goes nowhere. */
  lemma UpUndoesDown(a: string, name: string)
    requires Name(name)
    ensures Normalized(a + SLASH + name + SLASH + "..") == Normalized(a)
    ensures Normalized("/..") == "/"
  {
    hide Walk, Split, Raw, Join;
    NothingToReplace(name);
    NothingToReplace("..");
    SplitFree(name);
    SplitFree("..");
    ResolvedOn(a, name);
    WalkOne(Resolved(a), name);
    ResolvedOn(a + SLASH + name, "..");
    WalkOne(Resolved(a) + [name], "..");
    ResolvedOn("", "..");
    ResolvedOn("", "");
    WalkOne([], "..");
    EmptyResolves();
    assert "" + SLASH + ".." == "/..";
    JoinNothing();
  }

  lemma EmptyResolves()
    ensures Resolved("") == []
  {
    EmptyLeadsNowhere();
    assert ForwardSlashes(SLASH) == SLASH;
  }

  /** A backslash is a slash. */
  lemma BackslashIsSlash(input: string)
    ensures Normalized(input) == Normalized(ForwardSlashes(input))
    ensures forall k :: 0 <= k < |input| && input[k] == '\\' ==> ForwardSlashes(input)[k] == '/'
  {
    assert ForwardSlashes(ForwardSlashes(input)) == ForwardSlashes(input);
  }

  /** A dot, or nothing, between two slashes leads nowhere. */
  lemma DotsAndGapsGo(a: string, b: string)
    ensures Normalized(a + SLASH + "." + SLASH + b) == Normalized(a + SLASH + b)
    ensures Normalized(a + SLASH + "" + SLASH + b) == Normalized(a + SLASH + b)
  {
    hide Walk, Split, Raw, Join;
    NothingToReplace(".");
    NothingToReplace("");
    SplitFree(".");
    SplitFree("");
    ResolvedOn(a, ".");
    ResolvedOn(a, "");
    WalkOne(Resolved(a), ".");
    WalkOne(Resolved(a), "");
    ResolvedOn(a + SLASH + ".", b);
    ResolvedOn(a + SLASH + "", b);
    ResolvedOn(a, b);
  }
}
