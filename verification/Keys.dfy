/** Object keys and the paths they are built from (backend/storage/keys.go). */
module Keys {
  import opened Text

  // --- path.Clean --------------------------------------------------------------

  /** One element of path.Clean's walk: "." vanishes, ".." undoes the element before it. */
  function CleanStep(rooted: bool, out: seq<string>, segment: string): seq<string> {
    if segment == "" || segment == "." then out
    else if segment == ".." then
      if |out| > 0 && out[|out| - 1] != ".." then out[..|out| - 1]
      else if rooted then out
      else out + [".."]
    else out + [segment]
  }

  function CleanSegments(rooted: bool, segments: seq<string>): seq<string>
    decreases |segments|
  {
    if segments == [] then []
    else CleanStep(rooted, CleanSegments(rooted, segments[..|segments| - 1]), segments[|segments| - 1])
  }

  /** path.Clean: the shortest path naming the same element, "." for the empty one. */
  function Clean(path: string): string {
    var rooted := HasPrefix(path, "/");
    var out := CleanSegments(rooted, Split(path, '/'));
    var joined := if out == [] then "" else Join(out, '/');
    if rooted then "/" + joined else if joined == "" then "." else joined
  }

  predicate OutputPathValid(rel: string) {
    if rel == "" || rel == "." || HasPrefix(rel, "/") then false
    else
      var clean := Clean(rel);
      clean == rel && clean != ".." && !HasPrefix(clean, "../")
  }

  predicate PlainSegment(segment: string) {
    segment != "" && segment != "." && segment != ".."
  }

  predicate AllPlain(segments: seq<string>) {
    forall i :: 0 <= i < |segments| ==> PlainSegment(segments[i])
  }

  /** Cleaned elements are proper, and ".." only leads. */
  ghost predicate Cleaned(out: seq<string>) {
    && (forall i :: 0 <= i < |out| ==> out[i] != "" && out[i] != "." && '/' !in out[i])
    && (forall i :: 0 < i < |out| && out[i] == ".." ==> out[i - 1] == "..")
  }

  lemma CleanStepKeepsCleaned(rooted: bool, out: seq<string>, segment: string)
    requires Cleaned(out) && '/' !in segment
    ensures Cleaned(CleanStep(rooted, out, segment))
  {
  }

  lemma {:induction false} CleanSegmentsCleaned(rooted: bool, segments: seq<string>)
    requires forall i :: 0 <= i < |segments| ==> '/' !in segments[i]
    ensures Cleaned(CleanSegments(rooted, segments))
    decreases |segments|
  {
    if segments != [] {
      CleanSegmentsCleaned(rooted, segments[..|segments| - 1]);
      CleanStepKeepsCleaned(rooted, CleanSegments(rooted, segments[..|segments| - 1]), segments[|segments| - 1]);
    }
  }

  lemma {:induction false} ParentLeads(out: seq<string>, i: nat)
    requires Cleaned(out) && i < |out| && out[i] == ".."
    ensures out[0] == ".."
  {
    if i > 0 {
      ParentLeads(out, i - 1);
    }
  }

  lemma {:induction false} PlainSegmentsStay(rooted: bool, segments: seq<string>)
    requires AllPlain(segments)
    ensures CleanSegments(rooted, segments) == segments
    decreases |segments|
  {
    if segments != [] {
      PlainSegmentsStay(rooted, segments[..|segments| - 1]);
    }
  }

  lemma JoinFirst(pieces: seq<string>)
    requires |pieces| > 0
    ensures pieces[0] <= Join(pieces, '/')
    ensures |pieces| > 1 ==> pieces[0] + "/" <= Join(pieces, '/')
  {
  }

  lemma ValidPathIsPlain(rel: string)
    requires OutputPathValid(rel)
    ensures AllPlain(Split(rel, '/'))
  {
    var out := CleanSegments(false, Split(rel, '/'));
    CleanSegmentsCleaned(false, Split(rel, '/'));
    assert out != [] && Join(out, '/') == rel;
    SplitJoin(out, '/');
    JoinFirst(out);
    forall i | 0 <= i < |out| ensures PlainSegment(out[i]) {
      if out[i] == ".." {
        ParentLeads(out, i);
        assert false;
      }
    }
  }

  lemma PlainPathIsValid(rel: string)
    requires AllPlain(Split(rel, '/'))
    ensures OutputPathValid(rel)
  {
    var segments := Split(rel, '/');
    JoinSplit(rel, '/');
    JoinFirst(segments);
    assert PlainSegment(segments[0]);
    assert rel[0] == segments[0][0] && rel[0] in segments[0];
    SplitSeparated(".", "", '/');
    SplitSeparated("..", "", '/');
    ParentPrefixIsFirst(rel);
    PlainSegmentsStay(false, segments);
  }

  lemma ParentPrefixIsFirst(rel: string)
    ensures HasPrefix(rel, "../") ==> Split(rel, '/')[0] == ".."
  {
    if HasPrefix(rel, "../") {
      assert rel == ".." + ['/'] + rel[3..];
      SplitSeparated("..", rel[3..], '/');
    }
  }

  /**
    The test accepts exactly the paths whose slash-separated segments are all nonempty and
    neither "." nor "..".
  */
  lemma OutputPathValidExactly(rel: string)
    ensures OutputPathValid(rel) <==> AllPlain(Split(rel, '/'))
  {
    if OutputPathValid(rel) {
      ValidPathIsPlain(rel);
    } else if AllPlain(Split(rel, '/')) {
      PlainPathIsValid(rel);
    }
  }

  // --- output keys -------------------------------------------------------------

  function OutputPrefix(commit: int): string {
    Decimal(commit) + "/"
  }

  function OutputFileKey(commit: int, path: string): string {
    Decimal(commit) + "/" + path
  }

  /** Everything before the first slash and everything after it. */
  lemma FirstSlash(a: string, x: string, b: string, y: string)
    requires '/' !in a && '/' !in b
    requires a + "/" + x == b + "/" + y
    ensures a == b && x == y
  {
    SplitSeparated(a, x, '/');
    SplitSeparated(b, y, '/');
    assert a + "/" + x == a + ['/'] + x && b + "/" + y == b + ['/'] + y;
    assert ([a] + Split(x, '/'))[0] == ([b] + Split(y, '/'))[0];
    assert x == (a + "/" + x)[|a| + 1..] && y == (b + "/" + y)[|b| + 1..];
  }

  lemma DecimalHasNoSlash(n: int)
    ensures '/' !in Decimal(n)
  {
    DecimalCharacters(n);
  }

  /** Distinct (commit, path) pairs have distinct keys, and a key starts only with its own commit's prefix. */
  lemma OutputKeysDistinct(commit: int, path: string, other: int, otherPath: string)
    ensures OutputFileKey(commit, path) == OutputFileKey(other, otherPath) <==> commit == other && path == otherPath
    ensures HasPrefix(OutputFileKey(commit, path), OutputPrefix(other)) <==> commit == other
  {
    DecimalHasNoSlash(commit);
    DecimalHasNoSlash(other);
    if OutputFileKey(commit, path) == OutputFileKey(other, otherPath) {
      FirstSlash(Decimal(commit), path, Decimal(other), otherPath);
      DecimalInjective(commit, other);
    }
    if HasPrefix(OutputFileKey(commit, path), OutputPrefix(other)) {
      var key := OutputFileKey(commit, path);
      var rest := key[|OutputPrefix(other)|..];
      assert key == Decimal(other) + "/" + rest;
      FirstSlash(Decimal(commit), path, Decimal(other), rest);
      DecimalInjective(commit, other);
    }
    assert OutputFileKey(commit, path) == OutputPrefix(commit) + path;
  }

  /**
    ListOutputFiles: of the keys a commit's prefix selects, the valid paths behind it.  S3
    lists by prefix, so keys of other commits are never seen.
  */
  method ListOutputFiles(commit: int, keys: seq<string>) returns (paths: seq<string>)
    ensures forall p :: p in paths <==> OutputPathValid(p) && OutputFileKey(commit, p) in keys
  {
    var prefix := OutputPrefix(commit);
    paths := [];
    for i := 0 to |keys|
      invariant forall p :: p in paths <==> OutputPathValid(p) && OutputFileKey(commit, p) in keys[..i]
    {
      assert keys[..i + 1] == keys[..i] + [keys[i]];
      if HasPrefix(keys[i], prefix) {
        var rel := keys[i][|prefix|..];
        assert keys[i] == OutputFileKey(commit, rel);
        forall p ensures OutputFileKey(commit, p) == keys[i] <==> p == rel {
          OutputKeysDistinct(commit, p, commit, rel);
        }
        if OutputPathValid(rel) {
          paths := paths + [rel];
        }
      } else {
        forall p ensures OutputFileKey(commit, p) != keys[i] {
          OutputKeysDistinct(commit, p, commit, p);
        }
      }
    }
  }

  // --- base names --------------------------------------------------------------

  function ReplaceBackslashes(s: string): string {
    seq(|s|, i requires 0 <= i < |s| => if s[i] == '\\' then '/' else s[i])
  }

  function StripTrailingSlashes(s: string): string {
    if s != "" && s[|s| - 1] == '/' then StripTrailingSlashes(s[..|s| - 1]) else s
  }

  function LastElement(s: string): string {
    var pieces := Split(s, '/');
    pieces[|pieces| - 1]
  }

  /** path.Base. */
  function Base(path: string): string {
    if path == "" then "."
    else
      var base := LastElement(StripTrailingSlashes(path));
      if base == "" then "/" else base
  }

  function FileBasename(name: string): string {
    var base := Base(ReplaceBackslashes(Trim(name)));
    if base == "" || base == "." || base == ".." || base == "/" then "file" else base
  }

  /** A file name without directories; what every stored extra file is called. */
  predicate IsBasename(name: string) {
    PlainSegment(name) && '/' !in name && '\\' !in name
  }

  lemma {:induction false} SplitCharacters(s: string, sep: char, i: nat, c: char)
    requires i < |Split(s, sep)| && c in Split(s, sep)[i]
    ensures c in s
  {
    if s != "" {
      var rest := Split(s[1..], sep);
      if s[0] == sep {
        assert i > 0 && Split(s, sep)[i] == rest[i - 1];
        SplitCharacters(s[1..], sep, i - 1, c);
      } else if i > 0 {
        assert Split(s, sep)[i] == rest[i];
        SplitCharacters(s[1..], sep, i, c);
      } else if c != s[0] {
        assert c in rest[0];
        SplitCharacters(s[1..], sep, 0, c);
      }
    }
  }

  lemma {:induction false} StripCharacters(s: string)
    ensures StripTrailingSlashes(s) <= s
  {
    if s != "" && s[|s| - 1] == '/' {
      StripCharacters(s[..|s| - 1]);
    }
  }

  lemma BasenameIsBasename(name: string)
    ensures IsBasename(FileBasename(name))
  {
    var path := ReplaceBackslashes(Trim(name));
    StripCharacters(path);
    var pieces := Split(StripTrailingSlashes(path), '/');
    if '\\' in pieces[|pieces| - 1] {
      SplitCharacters(StripTrailingSlashes(path), '/', |pieces| - 1, '\\');
    }
  }

  lemma TrimCharacters(s: string)
    ensures forall c :: c in Trim(s) ==> c in s
  {
    TrimLeftStops(s);
    TrimRightStops(TrimLeft(s));
  }

  /** A name without separators is only trimmed; one that trims to nothing usable becomes "file". */
  lemma BasenameOfFlatName(name: string)
    requires '/' !in name && '\\' !in name
    ensures FileBasename(name) == if PlainSegment(Trim(name)) then Trim(name) else "file"
  {
    TrimCharacters(name);
    var t := Trim(name);
    assert ReplaceBackslashes(t) == t;
    if t != "" {
      assert StripTrailingSlashes(t) == t by { assert t[|t| - 1] in t; }
      SplitSeparated(t, "", '/');
    }
  }

  lemma {:induction false} SplitLast(a: string, b: string)
    requires '/' !in b
    ensures var pieces := Split(a + "/" + b, '/'); |pieces| > 1 && pieces[|pieces| - 1] == b
  {
    if a == "" {
      assert a + "/" + b == "" + ['/'] + b;
      SplitSeparated("", b, '/');
      SplitSeparated(b, "", '/');
    } else {
      SplitLast(a[1..], b);
      assert (a + "/" + b)[1..] == a[1..] + "/" + b;
    }
  }

  lemma BasenameOfPath(a: string, b: string)
    requires IsBasename(b)
    ensures LastElement(StripTrailingSlashes(a + "/" + b)) == b
    ensures LastElement(StripTrailingSlashes(a + "/" + b + "/")) == b
  {
    var path := a + "/" + b;
    assert path[|path| - 1] == b[|b| - 1] && b[|b| - 1] in b;
    assert (path + "/")[..|path|] == path;
    SplitLast(a, b);
  }

  /** With a folder in front, under either slash and with one at the end or not, the last part counts. */
  lemma BasenameUnderFolder(folder: string, name: string, separator: char, slashAtEnd: bool)
    requires IsBasename(name) && Trimmed(name) && separator in "/\\"
    ensures FileBasename(folder + [separator] + name + if slashAtEnd then [separator] else "") == name
  {
    hide Split, LastElement, StripTrailingSlashes;
    var end := if slashAtEnd then [separator] else "";
    var s := folder + [separator] + name + end;
    assert !IsSpace('/') && !IsSpace('\\');
    TrimmedPath(folder, separator, name, end);
    var a :| ReplaceBackslashes(Trim(s)) == a + "/" + name + if slashAtEnd then "/" else "";
    BasenameOfPath(a, name);
    assert a + "/" + name + "" == a + "/" + name;
  }

  lemma TrimmedPath(folder: string, separator: char, name: string, end: string)
    requires IsBasename(name) && Trimmed(name) && separator in "/\\" && (end == "" || end == [separator])
    ensures exists a :: ReplaceBackslashes(Trim(folder + [separator] + name + end)) == a + "/" + name + if end == "" then "" else "/"
  {
    var s := folder + [separator] + name + end;
    assert !IsSpace('/') && !IsSpace('\\');
    TrimLeftBefore(folder, separator, name + end);
    assert folder + [separator] + (name + end) == s;
    var t := TrimLeft(folder) + [separator] + name + end;
    assert TrimLeft(folder) + [separator] + (name + end) == t;
    assert t[|t| - 1] == if end == "" then name[|name| - 1] else separator;
    assert Trim(s) == t;
    var a := ReplaceBackslashes(TrimLeft(folder));
    assert forall c :: c in name ==> c != '\\';
    assert ReplaceBackslashes(t) == a + "/" + name + if end == "" then "" else "/";
  }

  lemma {:induction false} TrimLeftBefore(a: string, c: char, b: string)
    requires !IsSpace(c)
    ensures TrimLeft(a + [c] + b) == TrimLeft(a) + [c] + b
  {
    if a == "" {
      assert a + [c] + b == [c] + b;
    } else if IsSpace(a[0]) {
      assert (a + [c] + b)[1..] == a[1..] + [c] + b;
      TrimLeftBefore(a[1..], c, b);
    }
  }

  /** Taking the base name again changes exactly the names with white space at an end. */
  lemma BasenameFixpoint(name: string)
    requires IsBasename(name)
    ensures FileBasename(name) == name <==> Trimmed(name)
  {
    BasenameOfFlatName(name);
    TrimIsTrimmed(name);
    assert Trimmed("file") by { assert !IsSpace('f') && !IsSpace('e'); }
  }

  /**
    FileBasename is not idempotent: "dir\\ b", a name a multipart upload keeps as it is,
    becomes " b", and " b" becomes "b".
  */
  lemma BasenameNotIdempotent()
    ensures FileBasename("dir\\ b") == " b" && FileBasename(" b") == "b"
  {
    var n := "dir\\ b";
    assert TrimLeft(n) == n && TrimRight(n) == n;
    assert ReplaceBackslashes(n) == "dir/ b";
    assert StripTrailingSlashes("dir/ b") == "dir/ b";
    assert "dir/ b" == "dir" + ['/'] + " b";
    SplitSeparated("dir", " b", '/');
    SplitSeparated(" b", "", '/');
    BasenameOfFlatName(" b");
    assert TrimLeft(" b") == TrimLeft("b") == "b" by { assert " b"[1..] == "b"; }
    assert TrimRight("b") == "b";
  }

  // --- test case keys ----------------------------------------------------------

  function CaseInputKey(caseId: int): string {
    Decimal(caseId) + "/in"
  }

  function CaseOutputKey(caseId: int): string {
    Decimal(caseId) + "/out"
  }

  function CaseFileKey(caseId: int, filename: string): string {
    Decimal(caseId) + "/files/" + FileBasename(filename)
  }

  /** A case's keys are its own; an extra file's key is settled by its base name and never an input or output key. */
  lemma CaseKeysDistinct(a: int, b: int, f: string, g: string)
    ensures CaseInputKey(a) == CaseInputKey(b) <==> a == b
    ensures CaseOutputKey(a) == CaseOutputKey(b) <==> a == b
    ensures CaseFileKey(a, f) == CaseFileKey(b, g) <==> a == b && FileBasename(f) == FileBasename(g)
    ensures CaseInputKey(a) != CaseOutputKey(b) && CaseInputKey(a) != CaseFileKey(b, g)
    ensures CaseOutputKey(a) != CaseFileKey(b, g)
  {
    hide FileBasename, Decimal;
    var da, db := Decimal(a), Decimal(b);
    DecimalHasNoSlash(a);
    DecimalHasNoSlash(b);
    if da == db {
      DecimalInjective(a, b);
    }
    var fa, fb := "files/" + FileBasename(f), "files/" + FileBasename(g);
    assert CaseInputKey(a) == da + "/" + "in" && CaseInputKey(b) == db + "/" + "in";
    assert CaseOutputKey(a) == da + "/" + "out" && CaseOutputKey(b) == db + "/" + "out";
    assert CaseFileKey(a, f) == da + "/" + fa && CaseFileKey(b, g) == db + "/" + fb;
    if CaseInputKey(a) == CaseInputKey(b) { FirstSlash(da, "in", db, "in"); }
    if CaseOutputKey(a) == CaseOutputKey(b) { FirstSlash(da, "out", db, "out"); }
    if CaseInputKey(a) == CaseOutputKey(b) { FirstSlash(da, "in", db, "out"); }
    if CaseInputKey(a) == CaseFileKey(b, g) { FirstSlash(da, "in", db, fb); }
    if CaseOutputKey(a) == CaseFileKey(b, g) { FirstSlash(da, "out", db, fb); }
    if CaseFileKey(a, f) == CaseFileKey(b, g) {
      FirstSlash(da, fa, db, fb);
      assert FileBasename(f) == fa[6..] && FileBasename(g) == fb[6..];
    }
  }
}
