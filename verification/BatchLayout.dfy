/**
  The layout of a test-case archive (backend/services/test-cases-batch-service.go), stated
  without reference to the order in which files come: where each path goes, which sets of
  files are a list of cases, and which list that is.
*/
module BatchLayout {
  import opened Wrappers
  import opened Text
  import opened Keys
  import opened Sorting

  // --- paths ---------------------------------------------------------------------------

  /** A path as its slash-separated segments. */
  type Path = seq<string>

  function TrimPrefix(s: string, prefix: string): string {
    if HasPrefix(s, prefix) then s[|prefix|..] else s
  }

  predicate ForbiddenSegment(segment: string) {
    segment == ".." || '\0' in segment
  }

  /** The segments that count. */
  function Kept(segments: seq<string>): seq<string> {
    if segments == [] then []
    else
      var before, last := Kept(segments[..|segments| - 1]), segments[|segments| - 1];
      if last == "" || last == "." then before else before + [last]
  }

  ghost predicate HasForbidden(segments: seq<string>) {
    exists i :: 0 <= i < |segments| && ForbiddenSegment(segments[i])
  }

  function Unprefixed(name: string): string {
    TrimPrefix(Trim(ReplaceBackslashes(name)), "./")
  }

  ghost function NormalizedPath(name: string): Option<Path> {
    var value := Unprefixed(name);
    if value == "" || HasPrefix(value, "/") then None
    else
      var segments := Split(value, '/');
      if HasForbidden(segments) || Kept(segments) == [] then None else Some(Kept(segments))
  }

  method NormalizeArchivePath(name: string) returns (path: Option<Path>)
    ensures path == NormalizedPath(name)
  {
    var value := Unprefixed(name);
    if value == "" || HasPrefix(value, "/") {
      return None;
    }
    var segments := Split(value, '/');
    var cleaned: seq<string> := [];
    for i := 0 to |segments|
      invariant cleaned == Kept(segments[..i]) && !HasForbidden(segments[..i])
    {
      assert segments[..i + 1][..i] == segments[..i];
      if segments[i] == "" || segments[i] == "." {
        continue;
      }
      if ForbiddenSegment(segments[i]) {
        return None;
      }
      cleaned := cleaned + [segments[i]];
    }
    assert segments[..|segments|] == segments;
    path := if |cleaned| == 0 then None else Some(cleaned);
  }

  /** What macOS adds to every zip. */
  predicate IsMetadata(p: Path) {
    p == [] || p[0] == "__MACOSX" || p[|p| - 1] == ".DS_Store" || HasPrefix(p[|p| - 1], "._")
  }

  // --- where a file goes -----------------------------------------------------------------

  datatype Kind = In | Out | Other

  /** caseFileExtension. */
  function KindOf(name: string): Kind {
    if HasSuffix(ToLower(name), ".in") then In
    else if HasSuffix(ToLower(name), ".out") then Out
    else Other
  }

  lemma KindLength(name: string)
    ensures KindOf(name) == In ==> |name| >= 3
    ensures KindOf(name) == Out ==> |name| >= 4
  {
  }

  /** caseBaseName. */
  function BaseName(name: string): string {
    KindLength(name);
    match KindOf(name)
    case In => Trim(name[..|name| - 3])
    case Out => Trim(name[..|name| - 4])
    case Other => ""
  }

  datatype Place = Input(of: string) | Output(of: string) | Extra(of: string, name: string) | Ignored(name: string)

  /** Where in the archive a file may be: at the root, in a case folder, in its files/ folder. */
  datatype Slot = Root(name: string) | Own(folder: string, name: string) | Under(folder: string, name: string)

  function SlotOf(p: Path): Option<Slot> {
    if |p| == 1 then Some(Root(p[0]))
    else if |p| == 2 then Some(Own(p[0], p[1]))
    else if |p| == 3 && p[1] == "files" then Some(Under(p[0], p[2]))
    else None
  }

  /** What a file there is; None for a root file that is only an extension. */
  function PlaceOf(s: Slot): Option<Place> {
    match s
    case Root(name) => (
      match KindOf(name)
      case Other => Some(Ignored(name))
      case In => if BaseName(name) == "" then None else Some(Input(BaseName(name)))
      case Out => if BaseName(name) == "" then None else Some(Output(BaseName(name))))
    case Own(folder, name) => (
      match KindOf(name)
      case In => Some(Input(folder))
      case Out => Some(Output(folder))
      case Other => Some(Extra(folder, name)))
    case Under(folder, name) => Some(Extra(folder, name))
  }

  // --- which files are a list of cases ------------------------------------------------------

  /** The files of an archive that belong to cases. */
  type Files = map<Slot, string>

  /** Every file belongs to a case. */
  ghost predicate Placed(files: Files) {
    forall s :: s in files ==> PlaceOf(s).Some? && !PlaceOf(s).value.Ignored?
  }

  ghost predicate Holds(files: Files, place: Place) {
    exists s :: s in files && PlaceOf(s) == Some(place)
  }

  ghost function CaseNames(files: Files): set<string>
    requires Placed(files)
  {
    set s | s in files :: PlaceOf(s).value.of
  }

  /** No two files have one place, nor one name in a case folder and its files/ folder. */
  ghost predicate NoClash(files: Files) {
    && (forall s, t :: s in files && t in files && PlaceOf(s) == PlaceOf(t) ==> s == t)
    && (forall f, n :: Own(f, n) in files ==> Under(f, n) !in files)
  }

  /** A case sits at the root or in a folder, not both. */
  ghost predicate NotBoth(files: Files)
    requires Placed(files)
  {
    forall s, t :: s in files && t in files && s.Root? && !t.Root? ==> PlaceOf(s).value.of != t.folder
  }

  const MAX_CASES := 500

  /** These files are between 1 and 500 cases, each with one input and one output. */
  ghost predicate Parses(files: Files) {
    && Placed(files) && NoClash(files) && NotBoth(files)
    && 0 < |CaseNames(files)| <= MAX_CASES
    && forall n :: n in CaseNames(files) ==> Holds(files, Input(n)) && Holds(files, Output(n))
  }

  datatype ExtraFile = ExtraFile(name: string, data: string)

  datatype Case = Case(
    folder: string, inputName: string, inputData: string, outputName: string, outputData: string, extras: seq<ExtraFile>)

  /** Some file with this place has this name and content. */
  ghost predicate Gives(files: Files, place: Place, name: string, data: string) {
    exists s :: s in files && PlaceOf(s) == Some(place) && s.name == name && files[s] == data
  }

  ghost function ExtraNames(extras: seq<ExtraFile>): seq<string> {
    seq(|extras|, i requires 0 <= i < |extras| => extras[i].name)
  }

  /** The case of one name: its input, its output, and exactly its extras by name. */
  ghost predicate IsCaseOf(files: Files, c: Case) {
    && Gives(files, Input(c.folder), c.inputName, c.inputData)
    && Gives(files, Output(c.folder), c.outputName, c.outputData)
    && StrictlySorted(ExtraNames(c.extras))
    && forall e: ExtraFile :: e in c.extras <==> Gives(files, Extra(c.folder, e.name), e.name, e.data)
  }

  ghost function Folders(cases: seq<Case>): seq<string> {
    seq(|cases|, i requires 0 <= i < |cases| => cases[i].folder)
  }

  /** The cases of an archive, by name. */
  ghost predicate IsParseOf(files: Files, cases: seq<Case>) {
    && Parses(files)
    && StrictlySorted(Folders(cases))
    && (forall n :: n in Folders(cases) <==> n in CaseNames(files))
    && forall i :: 0 <= i < |cases| ==> IsCaseOf(files, cases[i])
  }

  // --- there is one such list -----------------------------------------------------------------

  lemma GivesOnce(files: Files, place: Place, n: string, d: string, m: string, e: string)
    requires NoClash(files) && Gives(files, place, n, d) && Gives(files, place, m, e)
    ensures n == m && d == e
  {
    var s :| s in files && PlaceOf(s) == Some(place) && s.name == n && files[s] == d;
    var t :| t in files && PlaceOf(t) == Some(place) && t.name == m && files[t] == e;
    assert s == t;
  }

  lemma SameExtras(files: Files, folder: string, a: seq<ExtraFile>, b: seq<ExtraFile>)
    requires NoClash(files)
    requires StrictlySorted(ExtraNames(a)) && StrictlySorted(ExtraNames(b))
    requires forall e: ExtraFile :: e in a <==> Gives(files, Extra(folder, e.name), e.name, e.data)
    requires forall e: ExtraFile :: e in b <==> Gives(files, Extra(folder, e.name), e.name, e.data)
    ensures a == b
  {
    forall n ensures n in ExtraNames(a) <==> n in ExtraNames(b) {
      if n in ExtraNames(a) {
        var i :| 0 <= i < |a| && a[i].name == n;
        assert a[i] in a && a[i] in b;
        var j :| 0 <= j < |b| && b[j] == a[i];
        assert ExtraNames(b)[j] == n;
      }
      if n in ExtraNames(b) {
        var i :| 0 <= i < |b| && b[i].name == n;
        assert b[i] in b && b[i] in a;
        var j :| 0 <= j < |a| && a[j] == b[i];
        assert ExtraNames(a)[j] == n;
      }
    }
    StrictlySortedIsUnique(ExtraNames(a), ExtraNames(b));
    assert |a| == |ExtraNames(a)| == |ExtraNames(b)| == |b|;
    forall i | 0 <= i < |a| ensures a[i] == b[i] {
      assert a[i].name == ExtraNames(a)[i] == ExtraNames(b)[i] == b[i].name;
      assert a[i] in a && b[i] in b;
      GivesOnce(files, Extra(folder, a[i].name), a[i].name, a[i].data, b[i].name, b[i].data);
    }
  }

  /** An archive's files determine its cases. */
  lemma ParseIsUnique(files: Files, a: seq<Case>, b: seq<Case>)
    requires IsParseOf(files, a) && IsParseOf(files, b)
    ensures a == b
  {
    StrictlySortedIsUnique(Folders(a), Folders(b));
    assert |a| == |Folders(a)| == |Folders(b)| == |b|;
    forall i | 0 <= i < |a| ensures a[i] == b[i] {
      var n := a[i].folder;
      assert n == Folders(a)[i] == Folders(b)[i] == b[i].folder;
      GivesOnce(files, Input(n), a[i].inputName, a[i].inputData, b[i].inputName, b[i].inputData);
      GivesOnce(files, Output(n), a[i].outputName, a[i].outputData, b[i].outputName, b[i].outputData);
      SameExtras(files, n, a[i].extras, b[i].extras);
    }
  }
}
