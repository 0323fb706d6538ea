/**
  From archive entries to parsed cases (readBatchArchive, batchArchiveRootFolder and
  ParseBatchTestCaseArchive, backend/services/test-cases-batch-service.go).  An archive is a
  sequence of named entries; `content` is None when an entry cannot be read.
*/
module BatchReading {
  import opened Wrappers
  import opened Text
  import opened Sorting
  import opened BatchLayout
  import opened BatchGroups
  import opened BatchArchive

  datatype Entry = Entry(name: string, isDir: bool, size: nat, content: Option<string>)

  const MAX_ENTRIES := 4000
  const MAX_EXPANDED := 256 * 0x10_0000
  const MAX_FILE := 32 * 0x10_0000

  // --- what the entries of an archive say ----------------------------------------------------

  datatype Where = Skipped | Invalid | At(path: Path)

  /** Where an entry is, below the wrapping folder if there is one. */
  ghost function Locate(e: Entry, wrapper: string): Where {
    if e.isDir then Skipped
    else
      match NormalizedPath(e.name)
      case None => Invalid
      case Some(p) =>
        if IsMetadata(p) then Skipped
        else if wrapper != "" && |p| > 1 && p[0] == wrapper then At(p[1..])
        else At(p)
  }

  ghost function PlaceIn(e: Entry, wrapper: string): Option<Place> {
    match Locate(e, wrapper)
    case At(p) => (match SlotOf(p) case Some(s) => PlaceOf(s) case None => None)
    case _ => None
  }

  /** The slot of an entry whose content belongs to a case. */
  ghost function CaseSlot(e: Entry, wrapper: string): Option<Slot> {
    if PlaceIn(e, wrapper).Some? && !PlaceIn(e, wrapper).value.Ignored? then SlotOf(Locate(e, wrapper).path) else None
  }

  /** The name of an ignored root file. */
  ghost function IgnoredName(e: Entry, wrapper: string): Option<string> {
    if PlaceIn(e, wrapper).Some? && PlaceIn(e, wrapper).value.Ignored? then Some(PlaceIn(e, wrapper).value.name) else None
  }

  /** An entry the layout has no place for. */
  ghost predicate IsBroken(e: Entry, wrapper: string) {
    Locate(e, wrapper) != Skipped && PlaceIn(e, wrapper).None?
  }

  ghost function FilesOf(entries: seq<Entry>, wrapper: string): Files {
    if entries == [] then map[]
    else
      var before, last := FilesOf(entries[..|entries| - 1], wrapper), entries[|entries| - 1];
      if CaseSlot(last, wrapper).Some? then before[CaseSlot(last, wrapper).value := last.content.GetOr("")] else before
  }

  ghost function IgnoredOf(entries: seq<Entry>, wrapper: string): seq<string> {
    if entries == [] then []
    else
      var before, last := IgnoredOf(entries[..|entries| - 1], wrapper), entries[|entries| - 1];
      if IgnoredName(last, wrapper).Some? then before + [IgnoredName(last, wrapper).value] else before
  }

  ghost function SizeOf(entries: seq<Entry>, wrapper: string): nat {
    if entries == [] then 0
    else
      var before, last := SizeOf(entries[..|entries| - 1], wrapper), entries[|entries| - 1];
      if Locate(last, wrapper).At? then before + last.size else before
  }

  predicate Readable(e: Entry) {
    e.size <= MAX_FILE && e.content.Some? && |e.content.value| <= MAX_FILE
  }

  ghost predicate AllReadable(entries: seq<Entry>, wrapper: string) {
    forall i :: 0 <= i < |entries| && CaseSlot(entries[i], wrapper).Some? ==> Readable(entries[i])
  }

  ghost predicate AnyBroken(entries: seq<Entry>, wrapper: string) {
    exists i :: 0 <= i < |entries| && IsBroken(entries[i], wrapper)
  }

  /** The archive can be read to its end. */
  ghost predicate Fits(entries: seq<Entry>, wrapper: string) {
    |entries| <= MAX_ENTRIES && SizeOf(entries, wrapper) <= MAX_EXPANDED && AllReadable(entries, wrapper)
  }

  ghost predicate ParsesAs(entries: seq<Entry>, wrapper: string) {
    Fits(entries, wrapper) && !AnyBroken(entries, wrapper) && Parses(FilesOf(entries, wrapper))
  }

  lemma {:induction false} SizeGrows(entries: seq<Entry>, wrapper: string, n: nat)
    requires n <= |entries|
    ensures SizeOf(entries[..n], wrapper) <= SizeOf(entries, wrapper)
    decreases |entries|
  {
    if n < |entries| {
      var shorter := entries[..|entries| - 1];
      assert shorter[..n] == entries[..n];
      SizeGrows(shorter, wrapper, n);
    } else {
      assert entries[..n] == entries;
    }
  }

  // --- adding a file to the groups -----------------------------------------------------------

  ghost predicate IsCaseSlot(s: Slot) {
    PlaceOf(s).Some? && !PlaceOf(s).value.Ignored?
  }

  function Added(m: map<string, Folder>, folder: string, name: string, content: string): map<string, Folder> {
    m[folder := FolderOf(m, folder)[name := content]]
  }

  lemma AddedHolds(m: map<string, Folder>, folder: string, name: string, content: string)
    ensures var after := Added(m, folder, name, content);
      && (forall f, n :: n in FolderOf(after, f) <==> (f == folder && n == name) || n in FolderOf(m, f))
      && (forall f, n :: n in FolderOf(after, f) ==>
            FolderOf(after, f)[n] == if f == folder && n == name then content else FolderOf(m, f)[n])
      && ((forall f :: f in m ==> m[f] != map[]) ==> forall f :: f in after ==> after[f] != map[])
  {
    var after := Added(m, folder, name, content);
    assert name in after[folder];
  }

  lemma StillPlaced(files: Files, s: Slot, content: string)
    requires Placed(files) && IsCaseSlot(s)
    ensures Placed(files[s := content])
  {
    hide PlaceOf;
  }

  lemma GroupedRoot(files: Files, g: Groups, name: string, content: string)
    requires Grouped(files, g) && IsCaseSlot(Root(name))
    ensures Grouped(files[Root(name) := content], g.(rootFiles := g.rootFiles[name := content]))
  {
    hide KindOf, BaseName, PlaceOf;
  }

  lemma GroupedOwn(files: Files, g: Groups, folder: string, name: string, content: string)
    requires Grouped(files, g)
    ensures Grouped(files[Own(folder, name) := content], g.(folders := Added(g.folders, folder, name, content)))
  {
    hide KindOf, BaseName, PlaceOf, Added, Placed;
    PlaceInFolder(Own(folder, name));
    StillPlaced(files, Own(folder, name), content);
    AddedHolds(g.folders, folder, name, content);
  }

  lemma GroupedUnder(files: Files, g: Groups, folder: string, name: string, content: string)
    requires Grouped(files, g)
    ensures Grouped(files[Under(folder, name) := content], g.(extraFolders := Added(g.extraFolders, folder, name, content)))
  {
    hide KindOf, BaseName, PlaceOf, Added, Placed;
    PlaceInFolder(Under(folder, name));
    StillPlaced(files, Under(folder, name), content);
    AddedHolds(g.extraFolders, folder, name, content);
  }

  // --- reading ------------------------------------------------------------------------------------

  class BatchArchiveEntries {
    var g: Groups
    var ignored: seq<string>
    const issues: IssueCollector

    /** What the groups hold. */
    ghost var files: Files

    ghost predicate Valid()
      reads this, issues
    {
      issues.Valid() && Grouped(files, g)
    }

    constructor ()
      ensures Valid() && files == map[] && ignored == [] && !issues.Failed() && fresh(issues)
    {
      g, ignored, files := Groups(map[], map[], map[]), [], map[];
      issues := new IssueCollector();
    }

    method ReadEntry(e: Entry) returns (r: Result<string, ArchiveError>)
      ensures r.Ok? <==> Readable(e)
      ensures r.Ok? ==> Some(r.value) == e.content
    {
      if e.size > MAX_FILE {
        return Err(TooLarge);
      }
      if e.content.None? {
        return Err(Unreadable);
      }
      if |e.content.value| > MAX_FILE {
        return Err(TooLarge);
      }
      return Ok(e.content.value);
    }

    /** addRootEntry: a case file is kept, anything else is ignored and reported. */
    method AddRootEntry(e: Entry, name: string) returns (ok: bool, error: ArchiveError)
      requires Valid()
      modifies this, issues
      ensures Valid()
      ensures ok <==> (IsCaseSlot(Root(name)) ==> Readable(e))
      ensures ok ==> files == if IsCaseSlot(Root(name)) then old(files)[Root(name) := e.content.GetOr("")] else old(files)
      ensures ok ==> ignored == if PlaceOf(Root(name)) == Some(Ignored(name)) then old(ignored) + [name] else old(ignored)
      ensures ok ==> (issues.Failed() <==> old(issues.Failed()) || PlaceOf(Root(name)).None?)
    {
      hide KindOf, BaseName, Grouped;
      error := TooLarge;
      if KindOf(name) == Other {
        ignored := ignored + [name];
        return true, error;
      }
      if BaseName(name) == "" {
        issues.Add(name, NoBaseName);
        return true, error;
      }
      var content := ReadEntry(e);
      if content.Err? {
        return false, content.error;
      }
      GroupedRoot(files, g, name, content.value);
      g := g.(rootFiles := g.rootFiles[name := content.value]);
      files := files[Root(name) := content.value];
      return true, error;
    }

    /** The switch on the number of segments. */
    method AddEntry(e: Entry, p: Path) returns (ok: bool, error: ArchiveError)
      requires Valid() && p != []
      modifies this, issues
      ensures Valid()
      ensures var place := if SlotOf(p).Some? then PlaceOf(SlotOf(p).value) else None;
        var ofCase := place.Some? && !place.value.Ignored?;
        && (ok <==> (ofCase ==> Readable(e)))
        && (ok ==> files == if ofCase then old(files)[SlotOf(p).value := e.content.GetOr("")] else old(files))
        && (ok ==> ignored == if place.Some? && place.value.Ignored? then old(ignored) + [place.value.name] else old(ignored))
        && (ok ==> (issues.Failed() <==> old(issues.Failed()) || place.None?))
    {
      hide KindOf, BaseName, Grouped;
      if |p| == 1 {
        ok, error := AddRootEntry(e, p[0]);
        return;
      }
      error := TooLarge;
      if |p| == 2 {
        PlaceInFolder(Own(p[0], p[1]));
        var content := ReadEntry(e);
        if content.Err? {
          return false, content.error;
        }
        GroupedOwn(files, g, p[0], p[1], content.value);
        g := g.(folders := Added(g.folders, p[0], p[1], content.value));
        files := files[Own(p[0], p[1]) := content.value];
      } else if |p| == 3 && p[1] == "files" {
        PlaceInFolder(Under(p[0], p[2]));
        var content := ReadEntry(e);
        if content.Err? {
          return false, content.error;
        }
        GroupedUnder(files, g, p[0], p[2], content.value);
        g := g.(extraFolders := Added(g.extraFolders, p[0], p[2], content.value));
        files := files[Under(p[0], p[2]) := content.value];
      } else {
        issues.Add(p[0], Unsupported(e.name));
      }
      return true, error;
    }
  }

  // --- the folder that wraps everything -----------------------------------------------------------

  /** Every case file is below `folder`, and some file is. */
  ghost predicate Wraps(entries: seq<Entry>, folder: string) {
    && (exists i :: 0 <= i < |entries| && IsBelow(entries[i], folder))
    && forall i :: 0 <= i < |entries| ==> MayBeside(entries[i], folder)
  }

  ghost predicate IsBelow(e: Entry, folder: string) {
    Locate(e, "").At? && |Locate(e, "").path| > 1 && Locate(e, "").path[0] == folder
  }

  /** Below the folder, or a root file the importer ignores, or not a file of the archive. */
  ghost predicate MayBeside(e: Entry, folder: string) {
    Locate(e, "").At? ==>
      if |Locate(e, "").path| > 1 then Locate(e, "").path[0] == folder else KindOf(Locate(e, "").path[0]) == Other
  }

  lemma {:induction false} KeptSegments(segments: seq<string>)
    ensures forall i :: 0 <= i < |Kept(segments)| ==> Kept(segments)[i] != ""
  {
    if segments != [] {
      KeptSegments(segments[..|segments| - 1]);
    }
  }

  lemma LocatedPath(e: Entry)
    requires Locate(e, "").At?
    ensures NormalizedPath(e.name) == Some(Locate(e, "").path)
    ensures Locate(e, "").path != [] && Locate(e, "").path[0] != ""
  {
    KeptSegments(Split(Unprefixed(e.name), '/'));
  }

  method BatchArchiveRootFolder(entries: seq<Entry>) returns (folder: string)
    ensures folder != "" ==> Wraps(entries, folder)
    ensures folder == "" ==> forall f :: !Wraps(entries, f)
  {
    hide KindOf, NormalizedPath;
    folder := "";
    for i := 0 to |entries|
      invariant folder == "" ==> forall j, f :: 0 <= j < i ==> !IsBelow(entries[j], f) && MayBeside(entries[j], f)
      invariant folder != "" ==> exists j :: 0 <= j < i && IsBelow(entries[j], folder)
      invariant forall j :: 0 <= j < i ==> MayBeside(entries[j], folder)
    {
      if entries[i].isDir {
        continue;
      }
      var path := NormalizeArchivePath(entries[i].name);
      if path.None? || IsMetadata(path.value) {
        continue;
      }
      LocatedPath(entries[i]);
      assert Locate(entries[i], "") == At(path.value);
      var first := path.value[0];
      if |path.value| == 1 {
        if KindOf(first) != Other {
          assert forall f :: !MayBeside(entries[i], f);
          return "";
        }
        continue;
      }
      if folder == "" {
        folder := first;
        assert IsBelow(entries[i], folder);
        continue;
      }
      if first != folder {
        ghost var j :| 0 <= j < i && IsBelow(entries[j], folder);
        assert forall f :: !(MayBeside(entries[i], f) && MayBeside(entries[j], f));
        return "";
      }
    }
  }

  lemma OneWrapper(entries: seq<Entry>, a: string, b: string)
    requires Wraps(entries, a) && Wraps(entries, b)
    ensures a == b && a != ""
  {
    hide KindOf, Locate;
    var i :| 0 <= i < |entries| && IsBelow(entries[i], a);
    LocatedPath(entries[i]);
    assert MayBeside(entries[i], b);
  }

  // --- reading an archive ---------------------------------------------------------------------------

  method ReadBatchArchive(entries: seq<Entry>, unwrapRoot: bool)
    returns (r: Result<BatchArchiveEntries, ArchiveError>, rootFolder: string)
    ensures |entries| > MAX_ENTRIES ==> r.Err?
    ensures |entries| <= MAX_ENTRIES ==>
      (if rootFolder != "" then Wraps(entries, rootFolder) else forall f :: !Wraps(entries, f))
    ensures r.Ok? <==> Fits(entries, if unwrapRoot then rootFolder else "")
    ensures r.Ok? ==> fresh(r.value) && fresh(r.value.issues) && r.value.Valid()
    ensures r.Ok? ==> r.value.files == FilesOf(entries, if unwrapRoot then rootFolder else "")
    ensures r.Ok? ==> r.value.ignored == IgnoredOf(entries, if unwrapRoot then rootFolder else "")
    ensures r.Ok? ==> (r.value.issues.Failed() <==> AnyBroken(entries, if unwrapRoot then rootFolder else ""))
  {
    if |entries| > MAX_ENTRIES {
      return Err(TooLarge), "";
    }
    rootFolder := BatchArchiveRootFolder(entries);
    r := ReadAll(entries, if unwrapRoot then rootFolder else "");
  }

  /** The loop over the entries. */
  method ReadAll(entries: seq<Entry>, wrapper: string) returns (r: Result<BatchArchiveEntries, ArchiveError>)
    requires |entries| <= MAX_ENTRIES
    ensures r.Ok? <==> Fits(entries, wrapper)
    ensures r.Ok? ==> fresh(r.value) && fresh(r.value.issues) && r.value.Valid()
    ensures r.Ok? ==> r.value.files == FilesOf(entries, wrapper) && r.value.ignored == IgnoredOf(entries, wrapper)
    ensures r.Ok? ==> (r.value.issues.Failed() <==> AnyBroken(entries, wrapper))
  {
    hide KindOf, NormalizedPath, Locate, PlaceIn, CaseSlot, IgnoredName, IsBroken;
    var groups := new BatchArchiveEntries();
    var expanded := 0;
    for i := 0 to |entries|
      invariant fresh(groups) && fresh(groups.issues) && groups.Valid()
      invariant expanded == SizeOf(entries[..i], wrapper) <= MAX_EXPANDED && AllReadable(entries[..i], wrapper)
      invariant groups.files == FilesOf(entries[..i], wrapper) && groups.ignored == IgnoredOf(entries[..i], wrapper)
      invariant groups.issues.Failed() <==> AnyBroken(entries[..i], wrapper)
    {
      assert entries[..i + 1][..i] == entries[..i] && entries[..i + 1] == entries[..i] + [entries[i]];
      BrokenPrefix(entries[..i], entries[i], wrapper);
      SizeGrows(entries, wrapper, i + 1);
      var ok, error, size := Record(groups, entries[i], wrapper, expanded);
      expanded := size;
      if !ok {
        assert !AllReadable(entries, wrapper) || SizeOf(entries, wrapper) > MAX_EXPANDED;
        return Err(error);
      }
    }
    assert entries[..|entries|] == entries;
    return Ok(groups);
  }

  lemma BrokenPrefix(entries: seq<Entry>, e: Entry, wrapper: string)
    ensures AnyBroken(entries + [e], wrapper) <==> AnyBroken(entries, wrapper) || IsBroken(e, wrapper)
  {
    hide IsBroken;
    if AnyBroken(entries, wrapper) {
      var i :| 0 <= i < |entries| && IsBroken(entries[i], wrapper);
      assert (entries + [e])[i] == entries[i];
    }
    assert (entries + [e])[|entries|] == e;
  }

  /** One round of the loop. */
  method Record(groups: BatchArchiveEntries, e: Entry, wrapper: string, expanded: nat)
    returns (ok: bool, error: ArchiveError, size: nat)
    requires groups.Valid() && expanded <= MAX_EXPANDED
    modifies groups, groups.issues
    ensures groups.Valid()
    ensures size == expanded + if Locate(e, wrapper).At? then e.size else 0
    ensures ok <==> size <= MAX_EXPANDED && (CaseSlot(e, wrapper).Some? ==> Readable(e))
    ensures ok ==> groups.files == if CaseSlot(e, wrapper).Some?
      then old(groups.files)[CaseSlot(e, wrapper).value := e.content.GetOr("")] else old(groups.files)
    ensures ok ==> groups.ignored == if IgnoredName(e, wrapper).Some?
      then old(groups.ignored) + [IgnoredName(e, wrapper).value] else old(groups.ignored)
    ensures ok ==> (groups.issues.Failed() <==> old(groups.issues.Failed()) || IsBroken(e, wrapper))
  {
    hide KindOf, NormalizedPath, Grouped, PlaceOf;
    size, error := expanded, TooLarge;
    if e.isDir {
      return true, error, size;
    }
    var path := NormalizeArchivePath(e.name);
    if path.None? {
      groups.issues.Add("", InvalidPath(e.name));
      return true, error, size;
    }
    if IsMetadata(path.value) {
      return true, error, size;
    }
    var segments := path.value;
    if wrapper != "" && |segments| > 1 && segments[0] == wrapper {
      segments := segments[1..];
    }
    size := size + e.size;
    if size > MAX_EXPANDED {
      return false, error, size;
    }
    ok, error := groups.AddEntry(e, segments);
  }

  method SortedIgnored(ignored: seq<string>) returns (sorted: seq<string>)
    ensures Sorted(sorted) && multiset(sorted) == multiset(ignored)
  {
    sorted := SortStrings(ignored);
  }

  datatype Parsed = Parsed(cases: seq<Case>, ignored: seq<string>)

  ghost predicate IsParsed(entries: seq<Entry>, wrapper: string, p: Parsed) {
    && ParsesAs(entries, wrapper) && IsParseOf(FilesOf(entries, wrapper), p.cases)
    && Sorted(p.ignored) && multiset(p.ignored) == multiset(IgnoredOf(entries, wrapper))
  }

  /** What an archive parses to, at most one thing. */
  lemma ParsedIsUnique(entries: seq<Entry>, wrapper: string, p: Parsed, q: Parsed)
    requires IsParsed(entries, wrapper, p) && IsParsed(entries, wrapper, q)
    ensures p == q
  {
    hide Parses, IsParseOf, FilesOf, IgnoredOf, ParsesAs;
    ParseIsUnique(FilesOf(entries, wrapper), p.cases, q.cases);
    SortedIsUnique(p.ignored, q.ignored);
  }

  /**
    ParseBatchTestCaseArchive: the archive as written if it parses so; otherwise, if it could
    be read and one folder wraps it, the archive inside that folder; otherwise an error.
  */
  method ParseBatchTestCaseArchive(entries: seq<Entry>) returns (r: Result<Parsed, ArchiveError>)
    ensures ParsesAs(entries, "") ==> r.Ok? && IsParsed(entries, "", r.value)
    ensures !ParsesAs(entries, "") ==>
      (r.Ok? <==> Fits(entries, "") && exists f :: Wraps(entries, f) && ParsesAs(entries, f))
    ensures !ParsesAs(entries, "") && r.Ok? ==> exists f :: Wraps(entries, f) && IsParsed(entries, f, r.value)
  {
    hide Parses, IsParseOf, FilesOf, IgnoredOf, SizeOf, Wraps, AnyBroken, Grouped;
    var direct, rootFolder := ReadBatchArchive(entries, false);
    if direct.Err? {
      return Err(direct.error);
    }
    RootKinds(direct.value.files, direct.value.g);
    var cases := TestCases(direct.value.g, direct.value.issues, direct.value.files);
    if cases.Ok? {
      var ignored := SortedIgnored(direct.value.ignored);
      return Ok(Parsed(cases.value, ignored));
    }
    if rootFolder == "" {
      return Err(cases.error);
    }
    var unwrapped, folder := ReadBatchArchive(entries, true);
    OneWrapper(entries, rootFolder, folder);
    forall f | Wraps(entries, f) ensures f == folder {
      OneWrapper(entries, f, folder);
    }
    if unwrapped.Err? {
      return Err(cases.error);
    }
    RootKinds(unwrapped.value.files, unwrapped.value.g);
    var inner := TestCases(unwrapped.value.g, unwrapped.value.issues, unwrapped.value.files);
    if inner.Err? {
      return Err(cases.error);
    }
    var ignored := SortedIgnored(unwrapped.value.ignored);
    return Ok(Parsed(inner.value, ignored));
  }

  lemma RootKinds(files: Files, g: Groups)
    requires Grouped(files, g)
    ensures forall n :: n in g.rootFiles ==> KindOf(n) != Other
  {
    hide KindOf, BaseName;
    forall n | n in g.rootFiles ensures KindOf(n) != Other {
      assert Root(n) in files;
    }
  }
}
