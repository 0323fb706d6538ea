/** How entry names built from clean parts are read back as paths. */
module BatchPaths {
  import opened Wrappers
  import opened Text
  import opened Keys
  import opened BatchLayout

  /** A folder name that stays one segment wherever it stands, the first place included. */
  predicate CleanFolder(w: string) {
    && w != "" && w != "." && w != ".." && w != "__MACOSX"
    && '/' !in w && '\\' !in w && '\0' !in w && !IsSpace(w[0])
  }

  lemma {:induction false} TrimRightAppend(a: string, b: string)
    requires TrimRight(b) != ""
    ensures TrimRight(a + b) == a + TrimRight(b)
  {
    if b != "" && IsSpace(b[|b| - 1]) {
      assert (a + b)[..|a + b| - 1] == a + b[..|b| - 1];
      TrimRightAppend(a, b[..|b| - 1]);
    }
  }

  lemma NoSpaceLeft(s: string)
    requires s == "" || !IsSpace(s[0])
    ensures TrimLeft(s) == s && Trim(s) == TrimRight(s)
  {
  }

  lemma {:induction false} NoSpaceStaysNonempty(s: string)
    requires s != "" && !IsSpace(s[0])
    ensures TrimRight(s) != "" && TrimRight(s) <= s
  {
    if IsSpace(s[|s| - 1]) {
      NoSpaceStaysNonempty(s[..|s| - 1]);
    }
  }

  lemma {:induction false} KeptAppend(a: seq<string>, b: seq<string>)
    ensures Kept(a + b) == Kept(a) + Kept(b)
  {
    if b == [] {
      assert a + b == a;
    } else {
      var n := |b| - 1;
      assert (a + b)[..|a + b| - 1] == a + b[..n];
      KeptAppend(a, b[..n]);
    }
  }

  lemma KeptOne(segment: string)
    ensures Kept([segment]) == if segment == "" || segment == "." then [] else [segment]
  {
    assert [segment][..0] == [];
  }

  lemma ForbiddenAppend(a: seq<string>, b: seq<string>)
    ensures HasForbidden(a + b) <==> HasForbidden(a) || HasForbidden(b)
  {
    if HasForbidden(a) {
      var i :| 0 <= i < |a| && ForbiddenSegment(a[i]);
      assert (a + b)[i] == a[i];
    }
    if HasForbidden(b) {
      var i :| 0 <= i < |b| && ForbiddenSegment(b[i]);
      assert (a + b)[|a| + i] == b[i];
    }
  }

  lemma BackslashesAppend(w: string, name: string)
    requires '\\' !in w
    ensures ReplaceBackslashes(w + "/" + name) == w + "/" + ReplaceBackslashes(name)
  {
    assert forall i :: 0 <= i < |w| ==> w[i] in w;
  }

  /** The path read from a value without a leading "./" or slash. */
  ghost function PathOf(value: string): Option<Path> {
    var segments := Split(value, '/');
    if HasForbidden(segments) || Kept(segments) == [] then None else Some(Kept(segments))
  }

  lemma SplitUnder(w: string, value: string)
    requires CleanFolder(w)
    ensures Split(w + "/" + value, '/') == [w] + Split(value, '/')
  {
    assert w + "/" + value == w + ['/'] + value;
    SplitSeparated(w, value, '/');
  }

  /** Under a clean folder, with or without a leading "./" that is dropped at the root. */
  lemma PathUnder(w: string, value: string)
    requires CleanFolder(w)
    ensures PathOf(value).Some? ==> PathOf(w + "/" + value) == Some([w] + PathOf(value).value)
    ensures PathOf(value).Some? ==> PathOf(w + "/./" + value) == Some([w] + PathOf(value).value)
  {
    var segments := Split(value, '/');
    SplitUnder(w, value);
    assert w + "/./" + value == w + "/" + ("." + "/" + value);
    SplitUnder(w, "." + "/" + value);
    assert "." + "/" + value == "." + ['/'] + value;
    SplitSeparated(".", value, '/');
    assert [w] + (["."] + segments) == [w] + ["."] + segments;
    KeptAppend([w], segments);
    KeptAppend([w] + ["."], segments);
    KeptAppend([w], ["."]);
    KeptOne(w);
    KeptOne(".");
    ForbiddenAppend([w], segments);
    ForbiddenAppend([w] + ["."], segments);
    ForbiddenAppend([w], ["."]);
    assert !HasForbidden([w]) && !HasForbidden(["."]);
  }

  /** A value under a clean folder starts with neither "./" nor a slash. */
  lemma UnderStartsClean(w: string, value: string)
    requires CleanFolder(w)
    ensures var v := w + "/" + value; v != "" && !HasPrefix(v, "/") && TrimPrefix(v, "./") == v
  {
    var v := w + "/" + value;
    assert v[0] == w[0] && w[0] in w;
    if |w| > 1 {
      assert v[1] == w[1] && w[1] in w;
    } else {
      assert w == [w[0]];
      assert w[0] == '.' ==> w == ".";
    }
  }

  lemma EmptyNameHasNoPath()
    ensures NormalizedPath("") == None
  {
    assert ReplaceBackslashes("") == "";
  }

  // --- any name under a folder ---------------------------------------------------------------

  predicate SpaceFirst(name: string) {
    name != "" && IsSpace(name[0])
  }

  /** The name's segments below a folder: only there, leading white space and slashes stay. */
  function InnerSegments(name: string): seq<string> {
    Split(TrimRight(ReplaceBackslashes(name)), '/')
  }

  lemma {:induction false} TrimRightBlank(a: string, b: string)
    requires TrimRight(b) == ""
    ensures TrimRight(a + b) == TrimRight(a)
  {
    if b == "" {
      assert a + b == a;
    } else {
      assert (a + b)[..|a + b| - 1] == a + b[..|b| - 1];
      TrimRightBlank(a, b[..|b| - 1]);
    }
  }

  lemma TrimUnder(w: string, t: string)
    requires CleanFolder(w)
    ensures Trim(w + "/" + t) == w + "/" + TrimRight(t)
  {
    NoSpaceLeft(w + "/" + t);
    assert w + "/" + t == (w + "/") + t;
    if TrimRight(t) == "" {
      TrimRightBlank(w + "/", t);
      assert !IsSpace('/');
    } else {
      TrimRightAppend(w + "/", t);
    }
  }

  /** Any entry name put under a clean folder: the folder goes in front of the inner segments. */
  lemma WrappedPath(w: string, name: string)
    requires CleanFolder(w)
    ensures NormalizedPath(w + "/" + name)
         == if HasForbidden(InnerSegments(name)) then None else Some([w] + Kept(InnerSegments(name)))
  {
    hide Split, Kept, HasForbidden, Trim;
    var u := TrimRight(ReplaceBackslashes(name));
    BackslashesAppend(w, name);
    TrimUnder(w, ReplaceBackslashes(name));
    UnderStartsClean(w, u);
    SplitUnder(w, u);
    KeptAppend([w], InnerSegments(name));
    KeptOne(w);
    ForbiddenAppend([w], InnerSegments(name));
    assert !HasForbidden([w]) by { NoForbiddenFolder(w); }
  }

  lemma NoForbiddenFolder(w: string)
    requires CleanFolder(w)
    ensures !HasForbidden([w])
  {
  }

  /** A name without leading white space has the same segments below a folder as at the root. */
  lemma InnerPlain(name: string)
    requires !SpaceFirst(name) && NormalizedPath(name).Some?
    ensures !HasForbidden(InnerSegments(name)) && Kept(InnerSegments(name)) == NormalizedPath(name).value
  {
    hide Split, Kept, HasForbidden;
    var t := ReplaceBackslashes(name);
    NoSpaceLeft(t);
    var u := TrimRight(t);
    if HasPrefix(u, "./") {
      var segments := Split(u[2..], '/');
      assert u == "." + ['/'] + u[2..];
      SplitSeparated(".", u[2..], '/');
      KeptAppend(["."], segments);
      KeptOne(".");
      ForbiddenAppend(["."], segments);
      assert !HasForbidden(["."]) by { NoForbiddenDot(); }
    }
  }

  lemma NoForbiddenDot()
    ensures !HasForbidden(["."])
  {
  }

  ghost predicate AllSpace(s: string) {
    forall i :: 0 <= i < |s| ==> IsSpace(s[i])
  }

  lemma {:induction false} LeadingSpace(s: string) returns (ws: string)
    ensures AllSpace(ws) && s == ws + TrimLeft(s)
    ensures ws == "" ==> s == "" || !IsSpace(s[0])
  {
    if s != "" && IsSpace(s[0]) {
      var rest := LeadingSpace(s[1..]);
      ws := [s[0]] + rest;
    } else {
      ws := "";
    }
  }

  lemma {:induction false} SplitSpaced(ws: string, u: string)
    requires AllSpace(ws)
    ensures Split(ws + u, '/') == [ws + Split(u, '/')[0]] + Split(u, '/')[1..]
  {
    if ws == "" {
      assert ws + u == u && ws + Split(u, '/')[0] == Split(u, '/')[0];
    } else {
      SplitSpaced(ws[1..], u);
      assert (ws + u)[1..] == ws[1..] + u;
      assert ws[0] != '/' by { assert IsSpace(ws[0]) && !IsSpace('/'); }
      var pieces := Split(u, '/');
      assert [ws[0]] + (ws[1..] + pieces[0]) == ws + pieces[0];
      assert ([ws[1..] + pieces[0]] + pieces[1..])[1..] == pieces[1..];
    }
  }

  /** White space before a first segment makes another segment of it, which counts. */
  lemma SpacedSegment(ws: string, first: string)
    requires AllSpace(ws) && ws != "" && '\0' !in first
    ensures Kept([ws + first]) == [ws + first] && !HasForbidden([ws + first])
  {
    KeptOne(ws + first);
    assert IsSpace((ws + first)[0]) && !IsSpace('.') && !IsSpace('\0');
  }

  /** The first segment of a path that does not start with "./" or a slash. */
  lemma FirstSegment(u: string)
    requires u != "" && u[0] != '/' && !HasPrefix(u, "./") && Kept(Split(u, '/')) != []
    ensures var first := Split(u, '/')[0]; first != "" && first != "." && first[0] == u[0]
  {
    var segments := Split(u, '/');
    JoinSplit(u, '/');
    if |segments| == 1 {
      assert segments == [segments[0]];
      KeptOne(segments[0]);
    } else {
      assert u == segments[0] + ['/'] + Join(segments[1..], '/');
    }
  }

  /**
    A name with leading white space, below a folder: the white space is part of its first
    segment, and makes one of a leading "./".
  */
  lemma InnerSpaced(name: string) returns (ws: string)
    requires SpaceFirst(name) && NormalizedPath(name).Some?
    ensures AllSpace(ws) && ws != "" && !HasForbidden(InnerSegments(name))
    ensures var p, q := NormalizedPath(name).value, Kept(InnerSegments(name));
      Shifted(ws, p, q)
  {
    hide Split, Kept, HasForbidden;
    var t := ReplaceBackslashes(name);
    assert t[0] == name[0] by { assert !IsSpace('\\'); }
    ws := LeadingSpace(t);
    var u := Trim(t);
    TrimRightAppend(ws, TrimLeft(t));
    assert TrimRight(t) == ws + u;
    SplitSpaced(ws, u);
    if HasPrefix(u, "./") {
      var segments := Split(u[2..], '/');
      assert u == "." + ['/'] + u[2..];
      SplitSeparated(".", u[2..], '/');
      assert InnerSegments(name) == [ws + "."] + segments;
      SpacedSegment(ws, ".");
      KeptAppend([ws + "."], segments);
      ForbiddenAppend([ws + "."], segments);
    } else {
      SpacedPlain(ws, u);
      TrimLeftStops(t);
      TrimRightStops(TrimLeft(t));
    }
  }

  /** `q` is `p` with white space before its first segment, or with a blank "." segment in front. */
  ghost predicate Shifted(ws: string, p: Path, q: Path) {
    && p != []
    && (q == [ws + "."] + p || (q == [ws + p[0]] + p[1..] && p[0] != "" && !IsSpace(p[0][0])))
  }

  lemma SpacedPlain(ws: string, u: string)
    requires AllSpace(ws) && ws != "" && u != "" && u[0] != '/' && !HasPrefix(u, "./")
    requires Kept(Split(u, '/')) != [] && !HasForbidden(Split(u, '/'))
    ensures var segments, inner := Split(u, '/'), [ws + Split(u, '/')[0]] + Split(u, '/')[1..];
      && !HasForbidden(inner)
      && Kept(segments)[0] != "" && Kept(segments)[0][0] == u[0]
      && Kept(inner) == [ws + Kept(segments)[0]] + Kept(segments)[1..]
  {
    hide Split, Kept, HasForbidden;
    var segments := Split(u, '/');
    var first, rest := segments[0], segments[1..];
    FirstSegment(u);
    assert segments == [first] + rest;
    KeptAppend([first], rest);
    KeptOne(first);
    ForbiddenAppend([first], rest);
    assert '\0' !in first by { AllowedSegment(first); }
    SpacedSegment(ws, first);
    KeptAppend([ws + first], rest);
    ForbiddenAppend([ws + first], rest);
  }

  lemma AllowedSegment(segment: string)
    requires !HasForbidden([segment])
    ensures '\0' !in segment
  {
    assert !ForbiddenSegment([segment][0]);
  }

  lemma {:induction false} AllKept(segments: seq<string>)
    requires forall i :: 0 <= i < |segments| ==> segments[i] != "" && segments[i] != "."
    ensures Kept(segments) == segments
  {
    if segments != [] {
      AllKept(segments[..|segments| - 1]);
    }
  }

  /** A stored extra's name as one segment. */
  predicate CleanName(name: string) {
    IsBasename(name) && Trimmed(name) && '\0' !in name
  }

  lemma CleanNamePath(name: string)
    requires CleanName(name)
    ensures PathOf(name) == Some([name]) && TrimRight(name) == name && ReplaceBackslashes(name) == name
  {
    SplitSeparated(name, "", '/');
    KeptOne(name);
    assert !HasForbidden([name]);
    assert forall i :: 0 <= i < |name| ==> name[i] in name;
  }

  /** A file in a clean folder. */
  lemma BaseNamePath(w: string, name: string)
    requires CleanFolder(w) && CleanName(name)
    ensures NormalizedPath(w + "/" + name) == Some([w, name])
  {
    hide Split, Kept, HasForbidden;
    CleanNamePath(name);
    BackslashesAppend(w, name);
    NoSpaceLeft(w + "/" + name);
    TrimRightAppend(w + "/", name);
    UnderStartsClean(w, name);
    PathUnder(w, name);
    assert [w] + [name] == [w, name];
  }

  lemma SpacedPath(w: string, folder: string, name: string)
    requires CleanFolder(w) && CleanFolder(folder) && CleanName(name)
    ensures NormalizedPath(" " + folder + "/" + name) == Some([folder, name])
  {
    hide Split, Kept, HasForbidden;
    BaseNamePath(folder, name);
    CleanNamePath(name);
    var plain, spaced := folder + "/" + name, " " + folder + "/" + name;
    BackslashesAppend(folder, name);
    BackslashesAppend(" " + folder, name);
    assert spaced[1..] == plain;
    NoSpaceLeft(plain);
    assert TrimLeft(spaced) == TrimLeft(plain);
  }

  /**
    Leading white space is dropped at the root and kept under a folder: there the same file
    is in another case folder.
  */
  lemma LeadingSpaceChangesFolder(w: string, folder: string, name: string)
    requires CleanFolder(w) && CleanFolder(folder) && CleanName(name)
    ensures NormalizedPath(" " + folder + "/" + name) == Some([folder, name])
    ensures NormalizedPath(w + "/" + (" " + folder + "/" + name)) == Some([w, " " + folder, name])
  {
    hide Split, Kept, HasForbidden;
    SpacedPath(w, folder, name);
    CleanNamePath(name);
    var rest := " " + folder + "/" + name;
    BackslashesAppend(" " + folder, name);
    BackslashesAppend(w, rest);
    NoSpaceLeft(w + "/" + rest);
    assert w + "/" + rest == (w + "/ " + folder + "/") + name;
    TrimRightAppend(w + "/ " + folder + "/", name);
    UnderStartsClean(w, rest);
    SpacedSegments(folder, name);
    PathUnder(w, rest);
    assert [w] + [" " + folder, name] == [w, " " + folder, name];
  }

  lemma SpacedSegments(folder: string, name: string)
    requires CleanFolder(folder) && CleanName(name)
    ensures PathOf(" " + folder + "/" + name) == Some([" " + folder, name])
  {
    var spaced := " " + folder;
    assert spaced + "/" + name == spaced + ['/'] + name;
    SplitSeparated(spaced, name, '/');
    SplitSeparated(name, "", '/');
    AllKept([spaced, name]);
    assert [spaced] + [name] == [spaced, name];
    assert |spaced| > 1 && !HasForbidden([spaced, name]);
  }

  /** A file in a clean folder's files/. */
  lemma FilesPath(w: string, name: string)
    requires CleanFolder(w) && CleanName(name)
    ensures NormalizedPath(w + "/files/" + name) == Some([w, "files", name])
  {
    hide Split, Kept, HasForbidden;
    CleanNamePath(name);
    assert w + "/files/" + name == w + "/" + ("files" + "/" + name);
    BackslashesAppend("files", name);
    BackslashesAppend(w, "files" + "/" + name);
    NoSpaceLeft(w + "/files/" + name);
    TrimRightAppend(w + "/files/", name);
    UnderStartsClean(w, "files" + "/" + name);
    PathUnder("files", name);
    PathUnder(w, "files" + "/" + name);
    assert [w] + (["files"] + [name]) == [w, "files", name];
  }
}
