/** Joining a file name from the server onto a directory of the agent, and the
    directory check before it. Paths have one separator, as filepath has it where
    there are no volume names. */
module SafePath {
  import opened Wrappers
  import opened Text

  const SEP := '/'

  predicate IsAbs(path: string) {
    path != "" && path[0] == SEP
  }

  // ---------------------------------------------------------------------
  // Lexical cleaning
  // ---------------------------------------------------------------------

  /** One more path element on top of the elements so far. */
  function Push(rooted: bool, stack: seq<string>, part: string): seq<string> {
    if part == "" || part == "." then stack
    else if part != ".." then stack + [part]
    else if stack != [] && stack[|stack| - 1] != ".." then stack[..|stack| - 1]
    else if rooted then stack
    else stack + [".."]
  }

  function PushAll(rooted: bool, stack: seq<string>, parts: seq<string>): seq<string>
    decreases |parts|
  {
    if parts == [] then stack else PushAll(rooted, Push(rooted, stack, parts[0]), parts[1..])
  }

  /** The elements a path has after cleaning. */
  function Components(path: string): seq<string> {
    PushAll(IsAbs(path), [], Split(path, SEP))
  }

  function Render(rooted: bool, components: seq<string>): string {
    if rooted then [SEP] + Join(components, SEP)
    else if components == [] then "."
    else Join(components, SEP)
  }

  /** filepath.Clean */
  function Clean(path: string): string {
    Render(IsAbs(path), Components(path))
  }

  /** filepath.Join of two elements; empty ones are ignored. */
  function JoinPaths(a: string, b: string): string {
    if a == "" && b == "" then ""
    else if a == "" then Clean(b)
    else if b == "" then Clean(a)
    else Clean(a + [SEP] + b)
  }

  // ---------------------------------------------------------------------
  // The checks
  // ---------------------------------------------------------------------

  datatype JoinError = EmptyName | AbsoluteName | Traversal | OutOfRange

  function SafeJoinUnder(baseDir: string, name: string): Result<string, JoinError> {
    if name == "" then Failure(EmptyName)
    else if IsAbs(name) then Failure(AbsoluteName)
    else
      var clean := Clean(name);
      if clean == ".." || ".." + [SEP] <= clean then Failure(Traversal)
      else
        var final := JoinPaths(baseDir, clean);
        var baseClean := Clean(baseDir);
        if final != baseClean && !(baseClean + [SEP] <= final) then Failure(OutOfRange)
        else Success(final)
  }

  datatype PushError = DirectoryOutOfRange | BadName(error: JoinError)

  /** Where file_push writes: the directory must lie under filesDir, then the name is joined onto it. */
  function PushTarget(filesDir: string, requested: string, filename: string): Result<string, PushError> {
    var destDir := if requested == "" then filesDir else requested;
    var baseClean := Clean(filesDir);
    var dirClean := Clean(destDir);
    if dirClean != baseClean && !(baseClean + [SEP] <= dirClean) then Failure(DirectoryOutOfRange)
    else
      match SafeJoinUnder(destDir, filename)
      case Failure(e) => Failure(BadName(e))
      case Success(path) => Success(path)
  }

  // ---------------------------------------------------------------------
  // What cleaning computes
  // ---------------------------------------------------------------------

  /** A path element other than the three special ones. */
  predicate Ordinary(part: string) {
    part != "" && part != "." && part != ".." && SEP !in part
  }

  lemma {:induction false} PushLast(rooted: bool, stack: seq<string>, parts: seq<string>, part: string)
    ensures PushAll(rooted, stack, parts + [part]) == Push(rooted, PushAll(rooted, stack, parts), part)
    decreases |parts|
  {
    if parts == [] {
      assert parts + [part] == [part];
    } else {
      assert (parts + [part])[1..] == parts[1..] + [part];
      PushLast(rooted, Push(rooted, stack, parts[0]), parts[1..], part);
    }
  }

  lemma LastPart(path: string, part: string)
    requires SEP !in part
    ensures path != "" ==> Components(path + [SEP] + part) == Push(IsAbs(path), Components(path), part)
    ensures path == "" ==> Components(path + [SEP] + part) == Push(true, [], part)
  {
    var longer := path + [SEP] + part;
    SplitConcat(path, part, SEP);
    SplitNone(part, SEP);
    PushLast(IsAbs(longer), [], Split(path, SEP), part);
    if path == "" {
      assert PushAll(true, [], [""]) == PushAll(true, [], []);
    }
  }

  lemma OnePart(part: string)
    requires SEP !in part
    ensures Components(part) == Push(false, [], part)
  {
    SplitNone(part, SEP);
    assert PushAll(false, [], [part]) == PushAll(false, Push(false, [], part), []);
  }

  /** The elements of a path, part by part. One part alone is its element, and nothing
      and "." are none; after a path an ordinary part adds itself, nothing and "." add
      nothing, and ".." takes the last element away: in a rooted path the root stays,
      in another one there is nothing to take from an empty path or after a "..". */
  lemma ElementsOfPath(path: string, part: string)
    requires SEP !in part
    ensures Components(part) == if part == "" || part == "." then [] else [part]
    ensures var before, after := Components(path), Components(path + "/" + part);
            && (Ordinary(part) ==> after == before + [part])
            && (part == "" || part == "." ==> after == before)
            && (part == ".." && before != [] && before[|before| - 1] != ".." ==> after == before[..|before| - 1])
            && (part == ".." && (before == [] || before[|before| - 1] == "..") ==>
                  after == if path == "" || IsAbs(path) then before else before + [".."])
  {
    OnePart(part);
    LastPart(path, part);
    if path == "" {
      OnePart("");
    } else if IsAbs(path) {
      ComponentsCleaned(path);
    }
  }

  /** Going down and up again is going nowhere, from every path. */
  lemma DownAndUp(path: string, part: string)
    requires Ordinary(part)
    ensures Components(path + "/" + part + "/..") == Components(path)
  {
    ElementsOfPath(path, part);
    ElementsOfPath(path + "/" + part, "..");
    assert path + "/" + part + "/.." == path + "/" + part + "/" + "..";
  }

  /** The cleaned text is the elements between single separators, after one separator
      if the path is rooted; without elements it is the root or ".". */
  lemma CleanText(path: string)
    ensures Components(path) == [] ==> Clean(path) == if IsAbs(path) then "/" else "."
    ensures Components(path) != [] ==>
              Split(Clean(path), SEP) == (if IsAbs(path) then [""] else []) + Components(path)
  {
    ComponentsCleaned(path);
    var parts := Components(path);
    if parts != [] {
      SplitJoin(parts, SEP);
      if IsAbs(path) {
        assert Clean(path) == "" + [SEP] + Join(parts, SEP);
        SplitConcat("", Join(parts, SEP), SEP);
        SplitNone("", SEP);
      }
    }
  }

  // ---------------------------------------------------------------------
  // What cleaning leaves
  // ---------------------------------------------------------------------

  predicate Element(part: string) {
    part != "" && part != "." && SEP !in part
  }

  /** Cleaned elements: parent elements only at the front, and none in a rooted path. */
  predicate Cleaned(rooted: bool, stack: seq<string>) {
    && (forall i :: 0 <= i < |stack| ==> Element(stack[i]))
    && (forall i :: 0 < i < |stack| && stack[i] == ".." ==> stack[i - 1] == "..")
    && (rooted ==> ".." !in stack)
  }

  lemma {:induction false} PushAllCleaned(rooted: bool, stack: seq<string>, parts: seq<string>)
    requires Cleaned(rooted, stack) && forall i :: 0 <= i < |parts| ==> SEP !in parts[i]
    ensures Cleaned(rooted, PushAll(rooted, stack, parts))
    decreases |parts|
  {
    if parts != [] {
      PushAllCleaned(rooted, Push(rooted, stack, parts[0]), parts[1..]);
    }
  }

  lemma ComponentsCleaned(path: string)
    ensures Cleaned(IsAbs(path), Components(path))
  {
    PushAllCleaned(IsAbs(path), [], Split(path, SEP));
  }

  lemma {:induction false} NoParents(stack: seq<string>, i: nat)
    requires Cleaned(false, stack) && i < |stack| && stack[0] != ".."
    ensures stack[i] != ".."
  {
    if i > 0 {
      NoParents(stack, i - 1);
    }
  }

  lemma {:induction false} PushAllConcat(rooted: bool, stack: seq<string>, a: seq<string>, b: seq<string>)
    ensures PushAll(rooted, stack, a + b) == PushAll(rooted, PushAll(rooted, stack, a), b)
    decreases |a|
  {
    if a == [] {
      assert a + b == b;
    } else {
      assert (a + b)[1..] == a[1..] + b;
      PushAllConcat(rooted, Push(rooted, stack, a[0]), a[1..], b);
    }
  }

  lemma {:induction false} PushAllPlain(rooted: bool, stack: seq<string>, parts: seq<string>)
    requires forall i :: 0 <= i < |parts| ==> Element(parts[i]) && parts[i] != ".."
    ensures PushAll(rooted, stack, parts) == stack + parts
    decreases |parts|
  {
    if parts != [] {
      PushAllPlain(rooted, stack + [parts[0]], parts[1..]);
      assert stack + [parts[0]] + parts[1..] == stack + parts;
    }
  }

  predicate Plain(parts: seq<string>) {
    forall i :: 0 <= i < |parts| ==> Element(parts[i]) && parts[i] != ".."
  }

  // ---------------------------------------------------------------------
  // Rendered paths
  // ---------------------------------------------------------------------

  lemma JoinStart(parts: seq<string>)
    requires parts != [] && forall i :: 0 <= i < |parts| ==> Element(parts[i])
    ensures var s := Join(parts, SEP);
            s != "" && s[0] != SEP && s != "." && !(['.', SEP] <= s)
  {
    var s := Join(parts, SEP);
    SplitJoin(parts, SEP);
    assert parts[0][0] in parts[0];
    if s == "." {
      SplitNone(s, SEP);
    } else if ['.', SEP] <= s {
      SplitFirst(".", s, SEP);
    }
  }

  /** The traversal check sees exactly the names that start with a parent element. */
  lemma TraversalCheck(name: string)
    requires !IsAbs(name)
    ensures var clean := Clean(name);
            clean == ".." || ".." + [SEP] <= clean <==> Components(name) != [] && Components(name)[0] == ".."
  {
    var parts, clean := Components(name), Clean(name);
    ComponentsCleaned(name);
    if parts != [] {
      SplitJoin(parts, SEP);
      if clean == ".." {
        SplitNone(clean, SEP);
      } else if ".." + [SEP] <= clean {
        SplitFirst("..", clean, SEP);
      }
    }
  }

  /** What the last check compares, on the level of elements. */
  lemma RangeCheck(rooted: bool, a: seq<string>, b: seq<string>)
    requires Cleaned(rooted, a) && Plain(b)
    ensures var final, base := Render(rooted, a + b), Render(rooted, a);
            final == base || base + [SEP] <= final <==> a != [] || b == []
  {
    var final, base := Render(rooted, a + b), Render(rooted, a);
    if b == [] {
      assert a + b == a;
    } else if a == [] {
      assert a + b == b;
      JoinStart(b);
      if rooted {
        assert final == [SEP] + Join(b, SEP);
        assert final[1] != SEP && (base + [SEP])[1] == SEP;
        assert |base| == 1 && |final| > 1;
      }
    } else {
      JoinConcat(a, b, SEP);
      assert final == base + [SEP] + Join(b, SEP);
    }
  }

  lemma PushCleanName(rooted: bool, stack: seq<string>, name: string)
    requires !IsAbs(name) && Plain(Components(name))
    ensures PushAll(rooted, stack, Split(Clean(name), SEP)) == stack + Components(name)
  {
    var parts := Components(name);
    if parts == [] {
      SplitNone(".", SEP);
      assert PushAll(rooted, stack, ["."]) == PushAll(rooted, stack, []) == stack;
    } else {
      SplitJoin(parts, SEP);
      PushAllPlain(rooted, stack, parts);
    }
  }

  lemma CleanNameNotRooted(name: string)
    requires !IsAbs(name) && Plain(Components(name))
    ensures Clean(name) != "" && !IsAbs(Clean(name))
  {
    if Components(name) != [] {
      JoinStart(Components(name));
    }
  }

  /** Joining adds the elements of the name to those of the directory. */
  lemma JoinedComponents(baseDir: string, name: string)
    requires !IsAbs(name) && Plain(Components(name))
    ensures JoinPaths(baseDir, Clean(name)) == Render(IsAbs(baseDir), Components(baseDir) + Components(name))
  {
    var clean := Clean(name);
    var rooted := IsAbs(baseDir);
    CleanNameNotRooted(name);
    if baseDir == "" {
      PushCleanName(false, [], name);
      assert Components(baseDir) == PushAll(false, [], [""]) == [];
    } else {
      var path := baseDir + [SEP] + clean;
      SplitConcat(baseDir, clean, SEP);
      PushAllConcat(rooted, [], Split(baseDir, SEP), Split(clean, SEP));
      PushCleanName(rooted, Components(baseDir), name);
      assert IsAbs(path) == rooted && Components(path) == Components(baseDir) + Components(name);
    }
  }

  /** Cleaning a rendered path changes nothing. */
  lemma RenderedComponents(rooted: bool, parts: seq<string>)
    requires Cleaned(rooted, parts) && (rooted || Plain(parts))
    ensures var path := Render(rooted, parts);
            IsAbs(path) == rooted && Components(path) == parts && Clean(path) == path
  {
    var path := Render(rooted, parts);
    var body := Join(parts, SEP);
    if parts == [] {
      SplitNone("", SEP);
    } else {
      JoinStart(parts);
      SplitJoin(parts, SEP);
    }
    PushAllPlain(rooted, [], parts);
    if rooted {
      SplitFirst("", path, SEP);
      assert path[1..] == body;
      assert Components(path) == PushAll(rooted, Push(rooted, [], ""), Split(body, SEP));
    } else if parts == [] {
      SplitNone(".", SEP);
      assert PushAll(rooted, [], ["."]) == PushAll(rooted, [], []);
    }
    if parts == [] {
      assert PushAll(rooted, [], [""]) == PushAll(rooted, [], []);
    }
  }

  // ---------------------------------------------------------------------
  // Containment
  // ---------------------------------------------------------------------

  /** When a name is accepted, for every base directory: it must be there and
      relative, must not climb out, and below a base without elements of its own
      (the root, or the current directory) it must not name anything. */
  predicate Acceptable(baseDir: string, name: string) {
    && name != "" && !IsAbs(name)
    && (Components(name) != [] ==> Components(name)[0] != ".." && Components(baseDir) != [])
  }

  /** The outcome of SafeJoinUnder on every input. The path it returns consists of
      the elements of the base and then those of the name, none of which is "..". */
  lemma SafeJoinOutcome(baseDir: string, name: string)
    ensures SafeJoinUnder(baseDir, name).Success? <==> Acceptable(baseDir, name)
    ensures SafeJoinUnder(baseDir, name) == Failure(OutOfRange) <==>
            && name != "" && !IsAbs(name)
            && Components(baseDir) == [] && Components(name) != [] && Components(name)[0] != ".."
    ensures SafeJoinUnder(baseDir, name) == Failure(EmptyName) <==> name == ""
    ensures SafeJoinUnder(baseDir, name) == Failure(AbsoluteName) <==> name != "" && name[0] == '/'
    ensures SafeJoinUnder(baseDir, name) == Failure(Traversal) <==>
            && name != "" && !IsAbs(name)
            && Components(name) != [] && Components(name)[0] == ".."
    ensures Acceptable(baseDir, name) ==>
              && ".." !in Components(name)
              && SafeJoinUnder(baseDir, name).value == Render(IsAbs(baseDir), Components(baseDir) + Components(name))
  {
    if name != "" && !IsAbs(name) {
      TraversalCheck(name);
      ComponentsCleaned(name);
      ComponentsCleaned(baseDir);
      var parts := Components(name);
      if parts == [] || parts[0] != ".." {
        forall i | 0 <= i < |parts| ensures parts[i] != ".." {
          NoParents(parts, i);
        }
        JoinedComponents(baseDir, name);
        RangeCheck(IsAbs(baseDir), Components(baseDir), parts);
      }
    }
  }

  /** Path containment: below a rooted base, a path that is returned is rooted and
      clean, its elements begin with those of the base, and it has no "..". */
  lemma Containment(baseDir: string, name: string)
    requires IsAbs(baseDir) && SafeJoinUnder(baseDir, name).Success?
    ensures var path := SafeJoinUnder(baseDir, name).value;
            && IsAbs(path) && Clean(path) == path
            && Components(path) == Components(baseDir) + Components(name)
            && ".." !in Components(path)
  {
    SafeJoinOutcome(baseDir, name);
    ComponentsCleaned(baseDir);
    ComponentsCleaned(name);
    var parts := Components(baseDir) + Components(name);
    assert Cleaned(true, parts);
    RenderedComponents(true, parts);
  }

  /** The last check never fires below a rooted base other than the root, and below the root it refuses every name. */
  lemma LastCheck(baseDir: string, name: string)
    requires IsAbs(baseDir)
    ensures Clean(baseDir) != [SEP] ==> SafeJoinUnder(baseDir, name) != Failure(OutOfRange)
    ensures Clean(baseDir) == [SEP] && SafeJoinUnder(baseDir, name).Success? ==> Components(name) == []
  {
    SafeJoinOutcome(baseDir, name);
    ComponentsCleaned(baseDir);
    if Components(baseDir) != [] {
      JoinStart(Components(baseDir));
    }
  }

  lemma BelowIsPrefix(f: seq<string>, d: seq<string>)
    requires Plain(f) && Plain(d) && f != [] && f <= d
    ensures Render(true, d) == Render(true, f) || Render(true, f) + [SEP] <= Render(true, d)
  {
    if |d| == |f| {
      assert d == f;
    } else {
      assert d == f + d[|f|..];
      JoinConcat(f, d[|f|..], SEP);
      assert Render(true, d) == Render(true, f) + [SEP] + Join(d[|f|..], SEP);
    }
  }

  lemma PrefixIsBelow(f: seq<string>, rooted: bool, d: seq<string>)
    requires Plain(f) && f != [] && Cleaned(rooted, d)
    requires Render(rooted, d) == Render(true, f) || Render(true, f) + [SEP] <= Render(rooted, d)
    ensures rooted && f <= d
  {
    var base, dir := Render(true, f), Render(rooted, d);
    JoinStart(f);
    SplitJoin(f, SEP);
    assert base[0] == SEP && dir[0] == SEP && |dir| > 1;
    if d != [] {
      JoinStart(d);
      SplitJoin(d, SEP);
    }
    var s := Join(d, SEP);
    assert rooted && d != [] && s == dir[1..];
    if dir != base {
      var rest := dir[|base| + 1..];
      assert s == Join(f, SEP) + [SEP] + rest;
      SplitConcat(Join(f, SEP), rest, SEP);
      assert d == f + Split(rest, SEP);
    } else {
      assert s == base[1..] == Join(f, SEP);
    }
  }

  /** One clean directory below another, read off the rendered paths. */
  lemma DirectoryCheck(filesDir: string, destDir: string)
    requires IsAbs(filesDir) && Components(filesDir) != []
    ensures Clean(destDir) == Clean(filesDir) || Clean(filesDir) + [SEP] <= Clean(destDir) <==>
            IsAbs(destDir) && Components(filesDir) <= Components(destDir)
  {
    var f, d := Components(filesDir), Components(destDir);
    ComponentsCleaned(filesDir);
    ComponentsCleaned(destDir);
    if IsAbs(destDir) && f <= d {
      BelowIsPrefix(f, d);
    }
    if Clean(destDir) == Clean(filesDir) || Clean(filesDir) + [SEP] <= Clean(destDir) {
      PrefixIsBelow(f, IsAbs(destDir), d);
    }
  }

  /** Whatever directory and name the server sends, an accepted file lands under
      filesDir, as the name's elements below the directory's; a push is accepted exactly
      when its directory is filesDir or below it and its name does not climb out, and
      else it is refused for the first of these that fails. */
  lemma PushedFilesStayInside(filesDir: string, requested: string, filename: string)
    requires IsAbs(filesDir) && Components(filesDir) != []
    ensures var destDir := if requested == "" then filesDir else requested;
            PushTarget(filesDir, requested, filename).Success? <==>
              IsAbs(destDir) && Components(filesDir) <= Components(destDir) && Acceptable(destDir, filename)
    ensures var destDir := if requested == "" then filesDir else requested;
            PushTarget(filesDir, requested, filename) == Failure(DirectoryOutOfRange) <==>
              !(IsAbs(destDir) && Components(filesDir) <= Components(destDir))
    ensures PushTarget(filesDir, requested, filename).Success? ==>
              var destDir := if requested == "" then filesDir else requested;
              var path := PushTarget(filesDir, requested, filename).value;
              && IsAbs(path) && Clean(path) == path && Components(filesDir) <= Components(path) && ".." !in Components(path)
              && Components(path) == Components(destDir) + Components(filename)
  {
    var destDir := if requested == "" then filesDir else requested;
    DirectoryCheck(filesDir, destDir);
    SafeJoinOutcome(destDir, filename);
    if PushTarget(filesDir, requested, filename).Success? {
      Containment(destDir, filename);
    }
  }

  /** A directory text that starts with filesDir but climbs out of it, into a sibling or
      back to where it came from: refused and accepted, as the place it names says. */
  lemma ClimbingOut(filesDir: string, part: string, filename: string)
    requires IsAbs(filesDir) && Components(filesDir) != [] && Ordinary(part)
    ensures PushTarget(filesDir, filesDir + "/..", filename) == Failure(DirectoryOutOfRange)
    ensures var files := Components(filesDir);
            PushTarget(filesDir, filesDir + "/../" + part, filename) == Failure(DirectoryOutOfRange) <==>
            part != files[|files| - 1]
  {
    var files := Components(filesDir);
    var up := filesDir + "/" + "..";
    ComponentsCleaned(filesDir);
    ElementsOfPath(filesDir, "..");
    ElementsOfPath(up, part);
    assert filesDir + "/.." == up && filesDir + "/../" + part == up + "/" + part;
    OtherLast(files, part);
    assert Components(up) == files[..|files| - 1] && Components(up + "/" + part) == files[..|files| - 1] + [part];
    hide Components, PushTarget, Acceptable;
    PushedFilesStayInside(filesDir, up, filename);
    PushedFilesStayInside(filesDir, up + "/" + part, filename);
  }

  lemma OtherLast(files: seq<string>, part: string)
    requires files != []
    ensures var n := |files| - 1;
            !(files <= files[..n]) && (files <= files[..n] + [part] <==> part == files[n])
  {
    var n := |files| - 1;
    assert files == files[..n] + [files[n]];
    assert (files[..n] + [part])[n] == part;
  }
}
