/**
  Exporting the test cases of an exercise (ExportExerciseTestCasesArchive,
  backend/services/test-cases-batch-service.go) and importing them again.
*/
module BatchExport {
  import opened Wrappers
  import opened Text
  import opened Keys
  import opened Sorting
  import opened BatchLayout
  import opened BatchGroups
  import opened BatchArchive
  import opened BatchReading
  import opened BatchOrder
  import opened BatchPaths

  datatype ExportCase = ExportCase(input: string, output: string, extras: seq<ExtraFile>)

  // --- the layout that is written -----------------------------------------------------------------

  /** fmt's %03d. */
  function Pad3(n: nat): string {
    if n < 1000 then [Digit(n / 100), Digit(n / 10 % 10), Digit(n % 10)] else Numeral(n)
  }

  function FolderName(i: nat): string {
    "caso_" + Pad3(i + 1)
  }

  function FileEntry(name: string, data: string): Entry {
    Entry(name, false, |data|, Some(data))
  }

  /** An extra whose name looks like a case file goes to the files/ subfolder. */
  function ExtraEntry(folder: string, e: ExtraFile): Entry {
    var name := FileBasename(e.name);
    FileEntry(if KindOf(name) != Other then folder + "/files/" + name else folder + "/" + name, e.data)
  }

  ghost function CaseEntries(folder: string, c: ExportCase): seq<Entry> {
    [FileEntry(folder + "/input.in", c.input), FileEntry(folder + "/output.out", c.output)]
      + seq(|c.extras|, k requires 0 <= k < |c.extras| => ExtraEntry(folder, c.extras[k]))
  }

  ghost function Exported(cases: seq<ExportCase>): seq<Entry> {
    if cases == [] then []
    else Exported(cases[..|cases| - 1]) + CaseEntries(FolderName(|cases| - 1), cases[|cases| - 1])
  }

  method WriteCase(folder: string, c: ExportCase) returns (written: seq<Entry>)
    ensures written == CaseEntries(folder, c)
  {
    hide KindOf, FileBasename;
    written := [FileEntry(folder + "/input.in", c.input)];
    written := written + [FileEntry(folder + "/output.out", c.output)];
    for k := 0 to |c.extras|
      invariant written == CaseEntries(folder, c.(extras := c.extras[..k]))
    {
      var name := FileBasename(c.extras[k].name);
      var entryName := folder + "/" + name;
      if KindOf(name) != Other {
        entryName := folder + "/files/" + name;
      }
      written := written + [FileEntry(entryName, c.extras[k].data)];
    }
    assert c.extras[..|c.extras|] == c.extras;
  }

  method ExportExerciseTestCasesArchive(cases: seq<ExportCase>) returns (entries: seq<Entry>)
    ensures entries == Exported(cases)
  {
    hide CaseEntries, Pad3;
    entries := [];
    for i := 0 to |cases|
      invariant entries == Exported(cases[..i])
    {
      assert cases[..i + 1][..i] == cases[..i];
      var written := WriteCase(FolderName(i), cases[i]);
      entries := entries + written;
    }
    assert cases[..|cases|] == cases;
  }

  // --- folder names ---------------------------------------------------------------------------------

  lemma {:induction false} PrecedesUnder(prefix: string, a: string, b: string)
    requires Precedes(a, b)
    ensures Precedes(prefix + a, prefix + b)
  {
    if prefix == "" {
      assert prefix + a == a && prefix + b == b;
    } else {
      PrecedesUnder(prefix[1..], a, b);
      assert (prefix + a)[1..] == prefix[1..] + a && (prefix + b)[1..] == prefix[1..] + b;
    }
  }

  lemma DigitOrder(a: nat, b: nat)
    requires a < 10 && b < 10
    ensures Digit(a) < Digit(b) <==> a < b
    ensures Digit(a) == Digit(b) <==> a == b
  {
  }

  lemma PrecedesThree(a: char, b: char, c: char, x: char, y: char, z: char)
    requires a < x || (a == x && (b < y || (b == y && c < z)))
    ensures Precedes([a, b, c], [x, y, z]) && [a, b, c] != [x, y, z]
  {
    assert [a, b, c][1..] == [b, c] && [x, y, z][1..] == [y, z];
    assert [b, c][1..] == [c] && [y, z][1..] == [z];
    if !(a < x) && !(b < y) {
      assert Precedes([c], [z]);
      assert Precedes([b, c], [y, z]);
    } else if !(a < x) {
      assert Precedes([b, c], [y, z]);
    }
    assert [a, b, c][0] == a && [a, b, c][1] == b && [a, b, c][2] == c;
    assert [x, y, z][0] == x && [x, y, z][1] == y && [x, y, z][2] == z;
  }

  lemma DigitsOrder(m: nat, n: nat)
    requires m < n < 1000
    ensures m / 100 < n / 100 ||
      (m / 100 == n / 100 && (m / 10 % 10 < n / 10 % 10 || (m / 10 % 10 == n / 10 % 10 && m % 10 < n % 10)))
  {
    var a, b, c := m / 100, m / 10 % 10, m % 10;
    var x, y, z := n / 100, n / 10 % 10, n % 10;
    assert m == 100 * a + 10 * b + c && n == 100 * x + 10 * y + z;
  }

  /** Padded numbers below a thousand sort as numbers. */
  lemma PaddedOrder(m: nat, n: nat)
    requires m < n < 1000
    ensures Precedes(Pad3(m), Pad3(n)) && Pad3(m) != Pad3(n)
  {
    hide Digit, Precedes;
    var a, b, c := m / 100, m / 10 % 10, m % 10;
    var x, y, z := n / 100, n / 10 % 10, n % 10;
    DigitsOrder(m, n);
    DigitOrder(a, x);
    DigitOrder(b, y);
    DigitOrder(c, z);
    PrecedesThree(Digit(a), Digit(b), Digit(c), Digit(x), Digit(y), Digit(z));
  }

  ghost function FolderNames(n: nat): seq<string> {
    seq(n, i requires 0 <= i < n => FolderName(i))
  }

  lemma FolderNamesSorted(n: nat)
    requires n < 1000
    ensures StrictlySorted(FolderNames(n))
  {
    hide Pad3;
    forall i, j | 0 <= i < j < n
      ensures Precedes(FolderNames(n)[i], FolderNames(n)[j]) && FolderNames(n)[i] != FolderNames(n)[j]
    {
      PaddedOrder(i + 1, j + 1);
      PrecedesUnder("caso_", Pad3(i + 1), Pad3(j + 1));
      assert FolderName(i)[5..] == Pad3(i + 1) && FolderName(j)[5..] == Pad3(j + 1);
    }
  }

  lemma FolderNameIsClean(i: nat)
    ensures CleanFolder(FolderName(i))
  {
    var w := FolderName(i);
    assert w[0] == 'c';
    var digits := Pad3(i + 1);
    assert forall k :: 0 <= k < |digits| ==> '0' <= digits[k] <= '9';
  }

  // --- what can be exported and read back --------------------------------------------------------------

  /** A distinct clean base name that is neither a case file's nor macOS metadata. */
  predicate GoodName(name: string) {
    && FileBasename(name) == name && '\0' !in name
    && name != "input.in" && name != "output.out"
    && name != ".DS_Store" && !HasPrefix(name, "._")
  }

  ghost predicate Exportable(c: ExportCase) {
    && (forall k :: 0 <= k < |c.extras| ==> GoodName(c.extras[k].name))
    && (forall j, k :: 0 <= j < k < |c.extras| ==> c.extras[j].name != c.extras[k].name)
    && |c.input| <= MAX_FILE && |c.output| <= MAX_FILE
    && (forall k :: 0 <= k < |c.extras| ==> |c.extras[k].data| <= MAX_FILE)
  }

  lemma GoodNameIsClean(name: string)
    requires GoodName(name)
    ensures CleanName(name)
  {
    BasenameIsBasename(name);
    BasenameFixpoint(name);
  }

  function ExtraSlot(folder: string, name: string): Slot {
    if KindOf(name) == Other then Own(folder, name) else Under(folder, name)
  }

  /** What the file at a slot of a case's folder is. */
  ghost predicate Exports(folder: string, c: ExportCase, s: Slot, data: string) {
    || (s == Own(folder, "input.in") && data == c.input)
    || (s == Own(folder, "output.out") && data == c.output)
    || exists k :: 0 <= k < |c.extras| && s == ExtraSlot(folder, c.extras[k].name) && data == c.extras[k].data
  }

  lemma CaseFileKinds()
    ensures KindOf("input.in") == In && KindOf("output.out") == Out
  {
    assert ToLower("input.in") == "input.in" && ToLower("output.out") == "output.out";
    assert "input.in"[5..] == ".in" && "output.out"[6..] == ".out";
  }

  lemma CaseFileNames()
    ensures CleanName("input.in") && CleanName("output.out")
    ensures !HasPrefix("input.in", "._") && !HasPrefix("output.out", "._")
  {
    hide KindOf;
    assert "input.in"[0] == 'i' && "output.out"[0] == 'o' && "._"[0] == '.';
  }

  lemma OwnEntry(folder: string, name: string, data: string)
    requires CleanFolder(folder) && CleanName(name) && name != ".DS_Store" && !HasPrefix(name, "._")
    ensures Locate(FileEntry(folder + "/" + name, data), "") == At([folder, name])
    ensures CaseSlot(FileEntry(folder + "/" + name, data), "") == Some(Own(folder, name))
  {
    hide NormalizedPath, KindOf, CleanName, CleanFolder;
    BaseNamePath(folder, name);
    PlaceInFolder(Own(folder, name));
    assert [folder, name][1] == name;
    assert folder != "__MACOSX" by { FolderIsNotMac(folder); }
  }

  lemma FolderIsNotMac(folder: string)
    requires CleanFolder(folder)
    ensures folder != "__MACOSX"
  {
  }

  lemma UnderEntry(folder: string, name: string, data: string)
    requires CleanFolder(folder) && CleanName(name) && name != ".DS_Store" && !HasPrefix(name, "._")
    ensures Locate(FileEntry(folder + "/files/" + name, data), "") == At([folder, "files", name])
    ensures CaseSlot(FileEntry(folder + "/files/" + name, data), "") == Some(Under(folder, name))
  {
    hide NormalizedPath, KindOf, CleanName, CleanFolder;
    FilesPath(folder, name);
    PlaceInFolder(Under(folder, name));
    assert [folder, "files", name][2] == name;
    assert folder != "__MACOSX" by { FolderIsNotMac(folder); }
  }

  /** An entry of the export: where it is, and that it is an exported file. */
  ghost predicate IsExported(folder: string, c: ExportCase, e: Entry) {
    && Locate(e, "").At? && CaseSlot(e, "").Some? && Readable(e)
    && Exports(folder, c, CaseSlot(e, "").value, e.content.GetOr(""))
  }

  lemma ExtraEntryIsExported(folder: string, c: ExportCase, k: nat)
    requires CleanFolder(folder) && Exportable(c) && k < |c.extras|
    ensures IsExported(folder, c, ExtraEntry(folder, c.extras[k]))
    ensures CaseSlot(ExtraEntry(folder, c.extras[k]), "") == Some(ExtraSlot(folder, c.extras[k].name))
  {
    hide NormalizedPath, KindOf, CleanName, CleanFolder, Locate, CaseSlot;
    var name := c.extras[k].name;
    assert GoodName(name);
    GoodNameIsClean(name);
    OwnEntry(folder, name, c.extras[k].data);
    UnderEntry(folder, name, c.extras[k].data);
  }

  lemma SideEntriesAreExported(folder: string, c: ExportCase)
    requires CleanFolder(folder) && Exportable(c)
    ensures IsExported(folder, c, FileEntry(folder + "/input.in", c.input))
    ensures IsExported(folder, c, FileEntry(folder + "/output.out", c.output))
    ensures CaseSlot(FileEntry(folder + "/input.in", c.input), "") == Some(Own(folder, "input.in"))
    ensures CaseSlot(FileEntry(folder + "/output.out", c.output), "") == Some(Own(folder, "output.out"))
  {
    hide NormalizedPath, KindOf, CleanName, CleanFolder, Locate, CaseSlot;
    CaseFileNames();
    assert folder + "/" + "input.in" == folder + "/input.in" && folder + "/" + "output.out" == folder + "/output.out";
    OwnEntry(folder, "input.in", c.input);
    OwnEntry(folder, "output.out", c.output);
  }

  lemma CaseEntriesAreExported(folder: string, c: ExportCase)
    requires CleanFolder(folder) && Exportable(c)
    ensures forall e :: e in CaseEntries(folder, c) ==> IsExported(folder, c, e)
  {
    hide KindOf, CleanFolder, Locate, CaseSlot, ExtraEntry, IsExported, Exportable;
    var entries := CaseEntries(folder, c);
    SideEntriesAreExported(folder, c);
    forall e | e in entries ensures IsExported(folder, c, e) {
      var i :| 0 <= i < |entries| && entries[i] == e;
      if i >= 2 {
        ExtraEntryIsExported(folder, c, i - 2);
      }
    }
  }

  lemma ExportsAreEntries(folder: string, c: ExportCase, s: Slot, d: string)
    requires CleanFolder(folder) && Exportable(c) && Exports(folder, c, s, d)
    ensures Holder(CaseEntries(folder, c), "", s, d)
  {
    hide KindOf, CleanFolder, Locate, CaseSlot, ExtraSlot, IsExported, Exportable, FileBasename;
    var entries := CaseEntries(folder, c);
    SideEntriesAreExported(folder, c);
    assert entries[0] in entries && entries[1] in entries;
    if k :| 0 <= k < |c.extras| && s == ExtraSlot(folder, c.extras[k].name) && d == c.extras[k].data {
      ExtraEntryIsExported(folder, c, k);
      assert entries[2 + k] == ExtraEntry(folder, c.extras[k]) && entries[2 + k] in entries;
    }
  }

  // --- the files of an export ------------------------------------------------------------------------

  /** What all the exported files are. */
  ghost predicate ExportsAny(cases: seq<ExportCase>, s: Slot, data: string) {
    exists i :: 0 <= i < |cases| && Exports(FolderName(i), cases[i], s, data)
  }

  ghost predicate AllExportable(cases: seq<ExportCase>) {
    forall i :: 0 <= i < |cases| ==> Exportable(cases[i])
  }

  ghost predicate IsExportedEntry(cases: seq<ExportCase>, e: Entry) {
    && Locate(e, "").At? && CaseSlot(e, "").Some? && Readable(e)
    && ExportsAny(cases, CaseSlot(e, "").value, e.content.GetOr(""))
  }

  lemma {:induction false} EntriesAreExported(cases: seq<ExportCase>)
    requires AllExportable(cases)
    ensures forall e :: e in Exported(cases) ==> IsExportedEntry(cases, e)
  {
    hide Locate, CaseSlot, Readable, Exports, CaseEntries, Exportable, FolderName;
    if cases != [] {
      var n := |cases| - 1;
      EntriesAreExported(cases[..n]);
      FolderNameIsClean(n);
      CaseEntriesAreExported(FolderName(n), cases[n]);
      forall e | e in Exported(cases) ensures IsExportedEntry(cases, e) {
        if e in Exported(cases[..n]) {
          var i :| 0 <= i < n && Exports(FolderName(i), cases[..n][i], CaseSlot(e, "").value, e.content.GetOr(""));
          assert Exports(FolderName(i), cases[i], CaseSlot(e, "").value, e.content.GetOr(""));
        } else {
          assert IsExported(FolderName(n), cases[n], e);
        }
      }
    }
  }

  lemma {:induction false} CaseIsInExport(cases: seq<ExportCase>, i: nat)
    requires i < |cases|
    ensures forall e :: e in CaseEntries(FolderName(i), cases[i]) ==> e in Exported(cases)
  {
    hide CaseEntries, FolderName;
    if i < |cases| - 1 {
      CaseIsInExport(cases[..|cases| - 1], i);
    }
  }

  lemma ExportedAreHeld(cases: seq<ExportCase>, s: Slot, d: string)
    requires AllExportable(cases) && ExportsAny(cases, s, d)
    ensures Holder(Exported(cases), "", s, d)
  {
    hide Locate, CaseSlot, Exports, CaseEntries, Exportable, FolderName;
    var i :| 0 <= i < |cases| && Exports(FolderName(i), cases[i], s, d);
    FolderNameIsClean(i);
    ExportsAreEntries(FolderName(i), cases[i], s, d);
    CaseIsInExport(cases, i);
  }

  /** Facts about one exported slot: its folder, its place, and its only content. */
  lemma ExportsPlace(folder: string, c: ExportCase, s: Slot, d: string)
    requires Exportable(c) && Exports(folder, c, s, d)
    ensures !s.Root? && s.folder == folder
    ensures PlaceOf(s) == Some(Input(folder)) <==> s == Own(folder, "input.in")
    ensures PlaceOf(s) == Some(Output(folder)) <==> s == Own(folder, "output.out")
    ensures s != Own(folder, "input.in") && s != Own(folder, "output.out") ==>
      PlaceOf(s) == Some(Extra(folder, s.name)) && s == ExtraSlot(folder, s.name) && GoodName(s.name)
  {
    hide KindOf, BaseName, FileBasename;
    CaseFileKinds();
    PlaceInFolder(s);
  }

  lemma ExportsOneContent(folder: string, c: ExportCase, s: Slot, d: string, e: string)
    requires Exportable(c) && Exports(folder, c, s, d) && Exports(folder, c, s, e)
    ensures d == e
  {
    hide KindOf, BaseName, FileBasename;
    CaseFileKinds();
  }

  lemma SameFolderSameCase(i: nat, j: nat)
    requires i < 999 && j < 999 && FolderName(i) == FolderName(j)
    ensures i == j
  {
    hide FolderName;
    FolderNamesSorted(999);
    assert FolderNames(999)[i] == FolderName(i) && FolderNames(999)[j] == FolderName(j);
  }

  lemma ExportHasNoConflict(cases: seq<ExportCase>)
    requires AllExportable(cases) && |cases| <= MAX_CASES
    ensures NoConflict(Exported(cases), "")
  {
    hide Locate, CaseSlot, Exports, Exportable, Exported, FolderName, Readable;
    EntriesAreExported(cases);
    forall e, f | e in Exported(cases) && f in Exported(cases) && SameSlot(e, f, "")
      ensures e.content.GetOr("") == f.content.GetOr("")
    {
      var s := CaseSlot(e, "").value;
      assert IsExportedEntry(cases, e) && IsExportedEntry(cases, f);
      var i :| 0 <= i < |cases| && Exports(FolderName(i), cases[i], s, e.content.GetOr(""));
      var j :| 0 <= j < |cases| && Exports(FolderName(j), cases[j], s, f.content.GetOr(""));
      ExportsPlace(FolderName(i), cases[i], s, e.content.GetOr(""));
      ExportsPlace(FolderName(j), cases[j], s, f.content.GetOr(""));
      SameFolderSameCase(i, j);
      ExportsOneContent(FolderName(i), cases[i], s, e.content.GetOr(""), f.content.GetOr(""));
    }
  }

  /** The files of the export, slot by slot. */
  lemma ExportedFiles(cases: seq<ExportCase>)
    requires AllExportable(cases) && |cases| <= MAX_CASES
    ensures forall s, d :: (s in FilesOf(Exported(cases), "") && FilesOf(Exported(cases), "")[s] == d) <==> ExportsAny(cases, s, d)
  {
    hide Locate, CaseSlot, Exports, Exportable, Exported, FolderName, FilesOf, Readable;
    ExportHasNoConflict(cases);
    EntriesAreExported(cases);
    FilesAreEntries(Exported(cases), "");
    forall s, d ensures Holder(Exported(cases), "", s, d) <==> ExportsAny(cases, s, d) {
      if ExportsAny(cases, s, d) {
        ExportedAreHeld(cases, s, d);
      }
      if Holder(Exported(cases), "", s, d) {
        var e :| e in Exported(cases) && CaseSlot(e, "") == Some(s) && e.content.GetOr("") == d;
        assert IsExportedEntry(cases, e);
      }
    }
  }

  // --- the export parses ---------------------------------------------------------------------------

  lemma ExportedSlot(cases: seq<ExportCase>, s: Slot) returns (i: nat)
    requires AllExportable(cases) && |cases| <= MAX_CASES && s in FilesOf(Exported(cases), "")
    ensures i < |cases| && Exports(FolderName(i), cases[i], s, FilesOf(Exported(cases), "")[s])
  {
    hide Locate, CaseSlot, Exports, Exportable, Exported, FolderName, FilesOf, AllExportable;
    var d := FilesOf(Exported(cases), "")[s];
    ExportedFiles(cases);
    assert ExportsAny(cases, s, d);
    i :| 0 <= i < |cases| && Exports(FolderName(i), cases[i], s, d);
  }

  lemma ExportedIsPlaced(cases: seq<ExportCase>, s: Slot)
    requires AllExportable(cases) && |cases| <= MAX_CASES && s in FilesOf(Exported(cases), "")
    ensures !s.Root? && IsCaseSlot(s)
    ensures exists i :: 0 <= i < |cases| && s.folder == FolderName(i) && PlaceOf(s).value.of == FolderName(i)
  {
    hide Exports, Exportable, Exported, FolderName, FilesOf, PlaceOf;
    var i := ExportedSlot(cases, s);
    ExportsPlace(FolderName(i), cases[i], s, FilesOf(Exported(cases), "")[s]);
    PlaceInFolder(s);
  }

  lemma ExportedOnePlace(cases: seq<ExportCase>, s: Slot, t: Slot)
    requires AllExportable(cases) && |cases| <= MAX_CASES
    requires s in FilesOf(Exported(cases), "") && t in FilesOf(Exported(cases), "") && PlaceOf(s) == PlaceOf(t)
    ensures s == t
  {
    hide Exports, Exportable, Exported, FolderName, FilesOf, PlaceOf, ExtraSlot, GoodName;
    var files := FilesOf(Exported(cases), "");
    var i := ExportedSlot(cases, s);
    var j := ExportedSlot(cases, t);
    ExportsPlace(FolderName(i), cases[i], s, files[s]);
    ExportsPlace(FolderName(j), cases[j], t, files[t]);
    PlaceInFolder(s);
    PlaceInFolder(t);
  }

  lemma ExportedNotTwice(cases: seq<ExportCase>, f: string, n: string)
    requires AllExportable(cases) && |cases| <= MAX_CASES && Own(f, n) in FilesOf(Exported(cases), "")
    ensures Under(f, n) !in FilesOf(Exported(cases), "")
  {
    hide Exports, Exportable, Exported, FolderName, FilesOf, PlaceOf, KindOf;
    var files := FilesOf(Exported(cases), "");
    var i := ExportedSlot(cases, Own(f, n));
    ExportsPlace(FolderName(i), cases[i], Own(f, n), files[Own(f, n)]);
    if Under(f, n) in files {
      var j := ExportedSlot(cases, Under(f, n));
      ExportsPlace(FolderName(j), cases[j], Under(f, n), files[Under(f, n)]);
    }
  }

  lemma ExportedCaseNames(cases: seq<ExportCase>)
    requires AllExportable(cases) && |cases| <= MAX_CASES && Placed(FilesOf(Exported(cases), ""))
    ensures forall n :: n in CaseNames(FilesOf(Exported(cases), "")) <==> n in FolderNames(|cases|)
    ensures |CaseNames(FilesOf(Exported(cases), ""))| == |cases|
  {
    hide Exportable, Exported, FolderName, FilesOf, PlaceOf, AllExportable;
    var files, names := FilesOf(Exported(cases), ""), FolderNames(|cases|);
    forall n ensures n in CaseNames(files) <==> n in names {
      if n in CaseNames(files) {
        var s :| s in files && PlaceOf(s).value.of == n;
        ExportedIsPlaced(cases, s);
        var i :| 0 <= i < |cases| && s.folder == FolderName(i) && PlaceOf(s).value.of == FolderName(i);
        assert names[i] == n;
      }
      if n in names {
        var i :| 0 <= i < |cases| && names[i] == n;
        ExportedSide(cases, i);
        CaseNameOf(files, Own(n, "input.in"));
      }
    }
    FolderNamesSorted(|cases|);
    StrictSize(names, CaseNames(files));
  }

  lemma ExportedSide(cases: seq<ExportCase>, i: nat)
    requires AllExportable(cases) && |cases| <= MAX_CASES && i < |cases|
    ensures var files, f := FilesOf(Exported(cases), ""), FolderName(i);
      && Own(f, "input.in") in files && files[Own(f, "input.in")] == cases[i].input
      && Own(f, "output.out") in files && files[Own(f, "output.out")] == cases[i].output
      && PlaceOf(Own(f, "input.in")) == Some(Input(f)) && PlaceOf(Own(f, "output.out")) == Some(Output(f))
  {
    hide Exportable, Exported, FolderName, FilesOf, KindOf, AllExportable, ExtraSlot;
    var f := FolderName(i);
    ExportedFiles(cases);
    CaseFileKinds();
    assert Exports(f, cases[i], Own(f, "input.in"), cases[i].input);
    assert Exports(f, cases[i], Own(f, "output.out"), cases[i].output);
    assert ExportsAny(cases, Own(f, "input.in"), cases[i].input);
    assert ExportsAny(cases, Own(f, "output.out"), cases[i].output);
  }

  /** The exported files are a list of cases. */
  lemma ExportedFilesParse(cases: seq<ExportCase>)
    requires AllExportable(cases) && 0 < |cases| <= MAX_CASES
    ensures Parses(FilesOf(Exported(cases), ""))
  {
    hide Exports, Exportable, Exported, FolderName, FilesOf, PlaceOf, AllExportable, FolderNames;
    var files := FilesOf(Exported(cases), "");
    forall s | s in files ensures !s.Root? && IsCaseSlot(s) {
      ExportedIsPlaced(cases, s);
    }
    forall s, t | s in files && t in files && PlaceOf(s) == PlaceOf(t) ensures s == t {
      ExportedOnePlace(cases, s, t);
    }
    forall f, n | Own(f, n) in files ensures Under(f, n) !in files {
      ExportedNotTwice(cases, f, n);
    }
    ExportedCaseNames(cases);
    forall n | n in CaseNames(files) ensures Holds(files, Input(n)) && Holds(files, Output(n)) {
      var s :| s in files && PlaceOf(s).value.of == n;
      ExportedIsPlaced(cases, s);
      var i :| 0 <= i < |cases| && s.folder == FolderName(i) && PlaceOf(s).value.of == FolderName(i);
      ExportedSide(cases, i);
    }
  }

  lemma {:induction false} NothingIgnored(entries: seq<Entry>)
    requires forall e :: e in entries ==> CaseSlot(e, "").Some?
    ensures IgnoredOf(entries, "") == []
  {
    hide Locate, SlotOf, PlaceOf;
    if entries != [] {
      assert entries[|entries| - 1] in entries;
      NothingIgnored(entries[..|entries| - 1]);
    }
  }

  // --- the size of an export -----------------------------------------------------------------------

  ghost function ExtraBytes(extras: seq<ExtraFile>): nat {
    if extras == [] then 0 else ExtraBytes(extras[..|extras| - 1]) + |extras[|extras| - 1].data|
  }

  /** Two entries for each case and one for each extra. */
  ghost function EntryCount(cases: seq<ExportCase>): nat {
    if cases == [] then 0
    else EntryCount(cases[..|cases| - 1]) + 2 + |cases[|cases| - 1].extras|
  }

  ghost function ByteCount(cases: seq<ExportCase>): nat {
    if cases == [] then 0
    else
      var last := cases[|cases| - 1];
      ByteCount(cases[..|cases| - 1]) + |last.input| + |last.output| + ExtraBytes(last.extras)
  }

  ghost predicate WithinLimits(cases: seq<ExportCase>) {
    EntryCount(cases) <= MAX_ENTRIES && ByteCount(cases) <= MAX_EXPANDED
  }

  lemma {:induction false} SizeAppends(a: seq<Entry>, b: seq<Entry>)
    ensures SizeOf(a + b, "") == SizeOf(a, "") + SizeOf(b, "")
  {
    hide Locate;
    if b == [] {
      assert a + b == a;
    } else {
      assert (a + b)[..|a + b| - 1] == a + b[..|b| - 1];
      SizeAppends(a, b[..|b| - 1]);
    }
  }

  lemma SizeOfOne(e: Entry)
    requires Locate(e, "").At?
    ensures SizeOf([e], "") == e.size
  {
    hide Locate;
    assert [e][..0] == [];
  }

  ghost function ExtraEntries(folder: string, extras: seq<ExtraFile>): seq<Entry> {
    seq(|extras|, k requires 0 <= k < |extras| => ExtraEntry(folder, extras[k]))
  }

  lemma ExtraEntrySize(folder: string, e: ExtraFile)
    ensures ExtraEntry(folder, e).size == |e.data|
  {
    hide KindOf, FileBasename;
  }

  lemma NoSize()
    ensures SizeOf([], "") == 0
  {
  }

  lemma LastExtra(extras: seq<ExtraFile>, n: nat)
    requires 0 < n <= |extras|
    ensures ExtraBytes(extras[..n]) == ExtraBytes(extras[..n - 1]) + |extras[n - 1].data|
  {
    assert extras[..n][..n - 1] == extras[..n - 1];
  }

  lemma {:induction false} SizeOfExtras(folder: string, c: ExportCase, n: nat)
    requires CleanFolder(folder) && Exportable(c) && n <= |c.extras|
    ensures SizeOf(ExtraEntries(folder, c.extras[..n]), "") == ExtraBytes(c.extras[..n])
  {
    hide Locate, CleanFolder, Exportable, KindOf, FileBasename, CaseSlot, SizeOf, ExtraEntry, Exports, Readable;
    if n == 0 {
      NoSize();
      assert ExtraEntries(folder, c.extras[..0]) == [];
    } else {
      LastExtra(c.extras, n);
      SizeOfExtras(folder, c, n - 1);
      ExtraEntryIsExported(folder, c, n - 1);
      ExtraEntrySize(folder, c.extras[n - 1]);
      SizeOfOne(ExtraEntry(folder, c.extras[n - 1]));
      assert ExtraEntries(folder, c.extras[..n]) == ExtraEntries(folder, c.extras[..n - 1]) + [ExtraEntry(folder, c.extras[n - 1])];
      SizeAppends(ExtraEntries(folder, c.extras[..n - 1]), [ExtraEntry(folder, c.extras[n - 1])]);
    }
  }

  lemma SizeOfCase(folder: string, c: ExportCase)
    requires CleanFolder(folder) && Exportable(c)
    ensures SizeOf(CaseEntries(folder, c), "") == |c.input| + |c.output| + ExtraBytes(c.extras)
    ensures |CaseEntries(folder, c)| == 2 + |c.extras|
  {
    hide Locate, CleanFolder, Exportable, KindOf, FileBasename, CaseSlot, SizeOf, ExtraEntry;
    var a, b := FileEntry(folder + "/input.in", c.input), FileEntry(folder + "/output.out", c.output);
    SideEntriesAreExported(folder, c);
    SizeOfOne(a);
    SizeOfOne(b);
    SizeAppends([a], [b]);
    SizeOfExtras(folder, c, |c.extras|);
    assert c.extras[..|c.extras|] == c.extras;
    SizeAppends([a] + [b], ExtraEntries(folder, c.extras));
    assert CaseEntries(folder, c) == [a] + [b] + ExtraEntries(folder, c.extras);
  }

  lemma EmptyExport()
    ensures Exported([]) == [] && SizeOf(Exported([]), "") == 0 && EntryCount([]) == 0 && ByteCount([]) == 0
  {
  }

  /** What an export takes, in terms of its cases. */
  lemma {:induction false} ExportSize(cases: seq<ExportCase>)
    requires AllExportable(cases)
    ensures |Exported(cases)| == EntryCount(cases) && SizeOf(Exported(cases), "") == ByteCount(cases)
  {
    hide Locate, Exportable, CaseEntries, FolderName, SizeOf;
    if cases == [] {
      EmptyExport();
    } else {
      var n := |cases| - 1;
      ExportSize(cases[..n]);
      FolderNameIsClean(n);
      SizeOfCase(FolderName(n), cases[n]);
      SizeAppends(Exported(cases[..n]), CaseEntries(FolderName(n), cases[n]));
    }
  }

  /** An export of 1 to 500 cases, within the size limits, parses as it is. */
  lemma ExportParses(cases: seq<ExportCase>)
    requires AllExportable(cases) && 0 < |cases| <= MAX_CASES
    requires WithinLimits(cases)
    ensures ParsesAs(Exported(cases), "") && IgnoredOf(Exported(cases), "") == []
  {
    hide Locate, CaseSlot, Exports, Exportable, Exported, FolderName, FilesOf, Parses, Readable, PlaceOf, SizeOf;
    var entries := Exported(cases);
    ExportSize(cases);
    EntriesAreExported(cases);
    ExportedFilesParse(cases);
    forall i | 0 <= i < |entries| ensures Readable(entries[i]) && !IsBroken(entries[i], "") {
      assert entries[i] in entries;
      assert IsExportedEntry(cases, entries[i]);
      SlotMeansNotBroken(entries[i]);
    }
    NothingIgnored(entries);
  }

  lemma SlotMeansNotBroken(e: Entry)
    requires CaseSlot(e, "").Some?
    ensures !IsBroken(e, "")
  {
    hide Locate, SlotOf, PlaceOf;
  }

  // --- and gives the cases back -----------------------------------------------------------------------

  lemma SameCase(cases: seq<ExportCase>, i: nat, c: Case)
    requires AllExportable(cases) && 0 < |cases| <= MAX_CASES && i < |cases|
    requires c.folder == FolderName(i) && IsCaseOf(FilesOf(Exported(cases), ""), c)
    ensures c.inputData == cases[i].input && c.outputData == cases[i].output
    ensures forall e: ExtraFile :: e in c.extras <==> e in cases[i].extras
  {
    hide Exports, Exportable, Exported, FolderName, FilesOf, PlaceOf, AllExportable, KindOf;
    var files, f := FilesOf(Exported(cases), ""), FolderName(i);
    ExportedFilesParse(cases);
    ExportedSide(cases, i);
    var a, b := Own(f, "input.in"), Own(f, "output.out");
    assert Gives(files, Input(f), "input.in", files[a]) && Gives(files, Output(f), "output.out", files[b]);
    GivesOnce(files, Input(f), c.inputName, c.inputData, "input.in", files[a]);
    GivesOnce(files, Output(f), c.outputName, c.outputData, "output.out", files[b]);
    forall e: ExtraFile ensures e in c.extras <==> e in cases[i].extras {
      SameExtra(cases, i, e);
    }
  }

  lemma SameExtra(cases: seq<ExportCase>, i: nat, e: ExtraFile)
    requires AllExportable(cases) && 0 < |cases| <= MAX_CASES && i < |cases|
    ensures Gives(FilesOf(Exported(cases), ""), Extra(FolderName(i), e.name), e.name, e.data) <==> e in cases[i].extras
  {
    hide Exported, FolderName, FilesOf, PlaceOf, KindOf, FileBasename;
    var files, f := FilesOf(Exported(cases), ""), FolderName(i);
    if e in cases[i].extras {
      var k :| 0 <= k < |cases[i].extras| && cases[i].extras[k] == e;
      var s := ExtraSlot(f, e.name);
      assert Exports(f, cases[i], s, e.data) && ExportsAny(cases, s, e.data);
      ExportedFiles(cases);
      ExtraSlotPlace(f, e.name);
    }
    if Gives(files, Extra(f, e.name), e.name, e.data) {
      var s :| s in files && PlaceOf(s) == Some(Extra(f, e.name)) && s.name == e.name && files[s] == e.data;
      ExtraIsExported(cases, i, s);
    }
  }

  lemma ExtraSlotPlace(folder: string, name: string)
    ensures PlaceOf(ExtraSlot(folder, name)) == Some(Extra(folder, name)) && ExtraSlot(folder, name).name == name
  {
    hide KindOf, BaseName;
  }

  lemma ExtraIsExported(cases: seq<ExportCase>, i: nat, s: Slot)
    requires AllExportable(cases) && 0 < |cases| <= MAX_CASES && i < |cases|
    requires s in FilesOf(Exported(cases), "") && PlaceOf(s) == Some(Extra(FolderName(i), s.name))
    ensures ExtraFile(s.name, FilesOf(Exported(cases), "")[s]) in cases[i].extras
  {
    hide Exportable, Exported, FolderName, FilesOf, PlaceOf, KindOf, GoodName, ExtraSlot, Exports;
    var files := FilesOf(Exported(cases), "");
    var j := ExportedSlot(cases, s);
    ExportsPlace(FolderName(j), cases[j], s, files[s]);
    PlaceInFolder(s);
    SameFolderSameCase(i, j);
    ExportedExtra(FolderName(i), cases[i], s, files[s]);
  }

  lemma ExportedExtra(folder: string, c: ExportCase, s: Slot, d: string)
    requires Exports(folder, c, s, d) && s != Own(folder, "input.in") && s != Own(folder, "output.out")
    ensures ExtraFile(s.name, d) in c.extras
  {
    hide KindOf;
    var k :| 0 <= k < |c.extras| && s == ExtraSlot(folder, c.extras[k].name) && d == c.extras[k].data;
    assert c.extras[k] == ExtraFile(s.name, d);
  }

  /** Case by case: the same inputs and outputs, and the same extras, by name. */
  ghost predicate GivesBack(cases: seq<ExportCase>, p: Parsed) {
    && p.ignored == [] && |p.cases| == |cases|
    && forall i :: 0 <= i < |cases| ==>
         && p.cases[i].inputData == cases[i].input && p.cases[i].outputData == cases[i].output
         && |p.cases[i].extras| == |cases[i].extras|
         && forall e: ExtraFile :: e in p.cases[i].extras <==> e in cases[i].extras
  }

  lemma {:induction false} DistinctSize(a: seq<ExtraFile>)
    requires forall i, j :: 0 <= i < j < |a| ==> a[i] != a[j]
    ensures |set e | e in a| == |a|
  {
    if a != [] {
      var n := |a| - 1;
      DistinctSize(a[..n]);
      assert a == a[..n] + [a[n]];
      assert (set e | e in a) == (set e | e in a[..n]) + {a[n]};
    } else {
      assert (set e | e in a) == {};
    }
  }

  lemma SameMembersSameLength(a: seq<ExtraFile>, b: seq<ExtraFile>)
    requires forall i, j :: 0 <= i < j < |a| ==> a[i] != a[j]
    requires forall i, j :: 0 <= i < j < |b| ==> b[i] != b[j]
    requires forall e :: e in a <==> e in b
    ensures |a| == |b|
  {
    DistinctSize(a);
    DistinctSize(b);
    assert (set e | e in a) == (set e | e in b);
  }

  lemma ExtrasSameLength(c: Case, exported: ExportCase)
    requires StrictlySorted(ExtraNames(c.extras)) && Exportable(exported)
    requires forall e: ExtraFile :: e in c.extras <==> e in exported.extras
    ensures |c.extras| == |exported.extras|
  {
    hide GoodName, Precedes;
    forall i, j | 0 <= i < j < |c.extras| ensures c.extras[i] != c.extras[j] {
      assert ExtraNames(c.extras)[i] != ExtraNames(c.extras)[j];
    }
    SameMembersSameLength(c.extras, exported.extras);
  }

  /**
    Importing an export of 1 to 500 cases within the size limits gives back the cases in
    order, with their inputs, outputs and extra files, and ignores nothing.
  */
  lemma ExportThenImport(cases: seq<ExportCase>, p: Parsed)
    requires AllExportable(cases) && 0 < |cases| <= MAX_CASES
    requires IsParsed(Exported(cases), "", p)
    ensures GivesBack(cases, p)
  {
    hide Exportable, Exported, FolderName, FilesOf, Parses, IsCaseOf, AnyBroken, AllReadable, SizeOf, AllExportable;
    var files := FilesOf(Exported(cases), "");
    ExportedFilesParse(cases);
    ExportedPlaced(cases);
    ExportedCaseNames(cases);
    FolderNamesSorted(|cases|);
    StrictlySortedIsUnique(Folders(p.cases), FolderNames(|cases|));
    assert |p.cases| == |Folders(p.cases)| == |FolderNames(|cases|)|;
    ExportIgnoresNothing(cases);
    assert |p.ignored| == |multiset(p.ignored)|;
    forall i | 0 <= i < |cases|
      ensures p.cases[i].inputData == cases[i].input && p.cases[i].outputData == cases[i].output
      ensures |p.cases[i].extras| == |cases[i].extras|
      ensures forall e: ExtraFile :: e in p.cases[i].extras <==> e in cases[i].extras
    {
      assert Folders(p.cases)[i] == p.cases[i].folder && FolderNames(|cases|)[i] == FolderName(i);
      SameCase(cases, i, p.cases[i]);
      OneExportable(cases, i);
      CaseExtrasSorted(files, p.cases[i]);
      ExtrasSameLength(p.cases[i], cases[i]);
    }
  }

  lemma OneExportable(cases: seq<ExportCase>, i: nat)
    requires AllExportable(cases) && i < |cases|
    ensures Exportable(cases[i])
  {
  }

  lemma CaseExtrasSorted(files: Files, c: Case)
    requires IsCaseOf(files, c)
    ensures StrictlySorted(ExtraNames(c.extras))
  {
    hide Precedes, PlaceOf;
  }

  lemma ExportedPlaced(cases: seq<ExportCase>)
    requires AllExportable(cases) && 0 < |cases| <= MAX_CASES
    ensures Placed(FilesOf(Exported(cases), ""))
  {
    hide Exported, FilesOf, PlaceOf, KindOf, AllExportable;
    ExportedFilesParse(cases);
  }

  lemma ExportIgnoresNothing(cases: seq<ExportCase>)
    requires AllExportable(cases)
    ensures IgnoredOf(Exported(cases), "") == []
  {
    hide Locate, CaseSlot, Exported, ExportsAny, Readable;
    EntriesAreExported(cases);
    NothingIgnored(Exported(cases));
  }

  /** The round trip as it runs. */
  method ExportAndImport(cases: seq<ExportCase>) returns (r: Result<Parsed, ArchiveError>)
    requires AllExportable(cases) && 0 < |cases| <= MAX_CASES
    requires WithinLimits(cases)
    ensures r.Ok? && GivesBack(cases, r.value)
  {
    hide Exportable, Exported, AllExportable, ParsesAs, IsParsed, GivesBack, Wraps;
    var entries := ExportExerciseTestCasesArchive(cases);
    ExportParses(cases);
    r := ParseBatchTestCaseArchive(entries);
    ExportThenImport(cases, r.value);
  }

  /** The smallest round trip: one case with one extra that looks like an input. */
  method OneCaseRoundTrip(input: string, output: string, extra: string) returns (r: Result<Parsed, ArchiveError>)
    requires |input| <= MAX_FILE && |output| <= MAX_FILE && |extra| <= MAX_FILE
    ensures r.Ok? && |r.value.cases| == 1
    ensures r.Ok? ==> var c := r.value.cases[0];
      c.inputData == input && c.outputData == output && c.extras == [ExtraFile("more.in", extra)]
  {
    hide KindOf, FileBasename, Exported, IsParsed;
    var c := ExportCase(input, output, [ExtraFile("more.in", extra)]);
    MoreIsGood();
    assert Exportable(c);
    LastExtra(c.extras, 1);
    assert c.extras[..1] == c.extras && c.extras[..0] == [];
    OneCaseSize(c);
    r := ExportAndImport([c]);
    var extras := r.value.cases[0].extras;
    assert extras[0] in extras && c.extras[0] in c.extras;
    assert extras == [extras[0]];
  }

  lemma OneCaseSize(c: ExportCase)
    ensures EntryCount([c]) == 2 + |c.extras|
    ensures ByteCount([c]) == |c.input| + |c.output| + ExtraBytes(c.extras)
  {
    var cases := [c];
    assert cases[..0] == [] && cases[|cases| - 1] == c;
    assert ByteCount(cases[..0]) == 0;
  }

  lemma MoreIsGood()
    ensures GoodName("more.in")
  {
    var name := "more.in";
    assert TrimLeft(name) == name && TrimRight(name) == name;
    BasenameOfFlatName(name);
    assert name[0] == 'm' && "._"[0] == '.';
  }
}
