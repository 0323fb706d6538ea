/**
  The names of a case's files, letter by letter: which archives of two files are one case, and
  which files can be an input or an output at all.
*/
module BatchPairs {
  import opened Wrappers
  import opened Text
  import opened Keys
  import opened BatchLayout
  import opened BatchGroups
  import opened BatchArchive
  import opened BatchReading
  import opened BatchPaths

  function FileNamed(name: string, data: string): Entry {
    Entry(name, false, |data|, Some(data))
  }

  /** ".in" in upper or lower case. */
  predicate InSuffix(s: string) {
    |s| == 3 && s[0] == '.' && s[1] in "iI" && s[2] in "nN"
  }

  /** ".out" in upper or lower case. */
  predicate OutSuffix(s: string) {
    |s| == 4 && s[0] == '.' && s[1] in "oO" && s[2] in "uU" && s[3] in "tT"
  }

  predicate IsInName(name: string) {
    |name| >= 3 && InSuffix(name[|name| - 3..])
  }

  predicate IsOutName(name: string) {
    |name| >= 4 && OutSuffix(name[|name| - 4..])
  }

  lemma LowerIs(c: char, lower: char)
    requires 'a' <= lower <= 'z'
    ensures LowerChar(c) == lower <==> c == lower || c == lower - 'a' + 'A'
  {
  }

  lemma LowerDot(c: char)
    ensures LowerChar(c) == '.' <==> c == '.'
  {
  }

  lemma InSuffixIff(s: string)
    requires |s| == 3
    ensures ToLower(s) == ".in" <==> InSuffix(s)
  {
    LowerDot(s[0]);
    LowerIs(s[1], 'i');
    LowerIs(s[2], 'n');
    assert ToLower(s) == ".in" <==> LowerChar(s[0]) == '.' && LowerChar(s[1]) == 'i' && LowerChar(s[2]) == 'n';
  }

  lemma OutSuffixIff(s: string)
    requires |s| == 4
    ensures ToLower(s) == ".out" <==> OutSuffix(s)
  {
    LowerDot(s[0]);
    LowerIs(s[1], 'o');
    LowerIs(s[2], 'u');
    LowerIs(s[3], 't');
    assert ToLower(s) == ".out" <==>
      LowerChar(s[0]) == '.' && LowerChar(s[1]) == 'o' && LowerChar(s[2]) == 'u' && LowerChar(s[3]) == 't';
  }

  lemma LowerTail(name: string, k: nat)
    requires k <= |name|
    ensures HasSuffix(ToLower(name), ToLower(name[|name| - k..]))
    ensures forall suffix: string :: |suffix| == k ==> (HasSuffix(ToLower(name), suffix) <==> ToLower(name[|name| - k..]) == suffix)
  {
    assert ToLower(name)[|name| - k..] == ToLower(name[|name| - k..]);
  }

  lemma NotBothNames(name: string)
    ensures !(IsInName(name) && IsOutName(name))
  {
  }

  /** The kind of a file is settled by the letters of its suffix. */
  lemma KindIsSuffix(name: string)
    ensures KindOf(name) == In <==> IsInName(name)
    ensures KindOf(name) == Out <==> IsOutName(name)
  {
    hide ToLower, HasSuffix, InSuffix, OutSuffix;
    NotBothNames(name);
    if |name| >= 3 {
      InSuffixIff(name[|name| - 3..]);
      LowerTail(name, 3);
    }
    if |name| >= 4 {
      OutSuffixIff(name[|name| - 4..]);
      LowerTail(name, 4);
    }
    ShortHasNoSuffix(name);
  }

  lemma ShortHasNoSuffix(name: string)
    ensures |name| < 3 ==> !HasSuffix(ToLower(name), ".in")
    ensures |name| < 4 ==> !HasSuffix(ToLower(name), ".out")
  {
  }

  // --- what can be an input or an output -----------------------------------------------------

  /** A file whose name ends in neither suffix is an extra in a folder, and ignored at the root. */
  lemma OtherNamesAreNoSides(e: Entry, wrapper: string)
    requires PlaceIn(e, wrapper).Some?
    ensures Locate(e, wrapper).At? && Locate(e, wrapper).path != []
    ensures var p := Locate(e, wrapper).path;
      && (PlaceIn(e, wrapper).value.Input? ==> IsInName(p[|p| - 1]))
      && (PlaceIn(e, wrapper).value.Output? ==> IsOutName(p[|p| - 1]))
      && (!IsInName(p[|p| - 1]) && !IsOutName(p[|p| - 1]) ==>
            if |p| == 1 then PlaceIn(e, wrapper).value == Ignored(p[0])
            else PlaceIn(e, wrapper).value == Extra(p[0], p[|p| - 1]))
  {
    hide KindOf, BaseName, NormalizedPath, Locate, IsInName, IsOutName;
    var p := Locate(e, wrapper).path;
    KindIsSuffix(p[|p| - 1]);
  }

  /** Every case of a parsed archive has an input named like one and an output named like one. */
  lemma CasesHaveNamedSides(entries: seq<Entry>, wrapper: string, p: Parsed, i: nat)
    requires IsParsed(entries, wrapper, p) && i < |p.cases|
    ensures IsInName(p.cases[i].inputName) && IsOutName(p.cases[i].outputName)
  {
    hide KindOf, BaseName, FilesOf, Fits, AnyBroken, Parses, IsInName, IsOutName;
    var files, c := FilesOf(entries, wrapper), p.cases[i];
    assert IsCaseOf(files, c);
    var s :| s in files && PlaceOf(s) == Some(Input(c.folder)) && s.name == c.inputName;
    var t :| t in files && PlaceOf(t) == Some(Output(c.folder)) && t.name == c.outputName;
    KindIsSuffix(s.name);
    KindIsSuffix(t.name);
  }

  // --- two files that are one case --------------------------------------------------------------

  function PairOf(folder: string, inputName: string, input: string, outputName: string, output: string): Parsed {
    Parsed([Case(folder, inputName, input, outputName, output, [])], [])
  }

  /** An input and an output of one case, both at the root or both in its folder, are that case. */
  lemma PairParses(folder: string, s: Slot, t: Slot, input: string, output: string)
    requires PlaceOf(s) == Some(Input(folder)) && PlaceOf(t) == Some(Output(folder))
    requires s.Root? == t.Root? && !s.Under? && !t.Under?
    ensures IsParseOf(map[s := input, t := output], PairOf(folder, s.name, input, t.name, output).cases)
  {
    hide KindOf, BaseName, PlaceOf;
    var files := map[s := input, t := output];
    assert s in files && t in files && s != t && files[s] == input && files[t] == output;
    assert Placed(files);
    assert NoClash(files);
    assert CaseNames(files) == {folder};
    assert NotBoth(files) by { BothFolders(folder, s, t); }
    assert Holds(files, Input(folder)) && Holds(files, Output(folder));
    assert Parses(files);
    var cases := PairOf(folder, s.name, input, t.name, output).cases;
    assert Folders(cases) == [folder];
    assert Gives(files, Input(folder), s.name, input);
    assert Gives(files, Output(folder), t.name, output);
  }

  lemma BothFolders(folder: string, s: Slot, t: Slot)
    requires PlaceOf(s) == Some(Input(folder)) && PlaceOf(t) == Some(Output(folder))
    requires s.Root? == t.Root?
    ensures !s.Root? ==> s.folder == t.folder == folder
  {
    if !s.Root? {
      PlaceInFolder(s);
      PlaceInFolder(t);
    }
  }

  lemma PairIsParsed(entries: seq<Entry>, wrapper: string, folder: string, s: Slot, t: Slot, input: string, output: string)
    requires |entries| == 2 && |input| <= MAX_FILE && |output| <= MAX_FILE
    requires entries[0].size == |input| && entries[0].content == Some(input)
    requires entries[1].size == |output| && entries[1].content == Some(output)
    requires PlaceOf(s) == Some(Input(folder)) && PlaceOf(t) == Some(Output(folder))
    requires s.Root? == t.Root? && !s.Under? && !t.Under?
    requires CaseSlot(entries[0], wrapper) == Some(s) && CaseSlot(entries[1], wrapper) == Some(t)
    ensures IsParsed(entries, wrapper, PairOf(folder, s.name, input, t.name, output))
  {
    hide Locate, KindOf, BaseName, IsParseOf, PlaceOf, SlotOf;
    var first := [entries[0]];
    assert entries[..1] == first && first[..0] == [];
    assert FilesOf(first, wrapper) == map[s := input];
    assert FilesOf(entries, wrapper) == map[s := input, t := output];
    assert SizeOf(first, wrapper) == |input|;
    assert SizeOf(entries, wrapper) == |input| + |output|;
    assert IgnoredName(entries[0], wrapper).None? && IgnoredName(entries[1], wrapper).None?;
    assert IgnoredOf(first[..0], wrapper) == [];
    assert IgnoredOf(first, wrapper) == [];
    assert IgnoredOf(entries, wrapper) == IgnoredOf(entries[..1], wrapper);
    PairParses(folder, s, t, input, output);
    ParseOfParses(FilesOf(entries, wrapper), PairOf(folder, s.name, input, t.name, output).cases);
  }

  lemma ParseOfParses(files: Files, cases: seq<Case>)
    requires IsParseOf(files, cases)
    ensures Parses(files)
  {
  }

  /** A case's name, to which a suffix is added. */
  predicate PlainCaseName(name: string) {
    CleanName(name) && !HasPrefix(name, "._")
  }

  lemma SuffixedName(name: string, suffix: string)
    requires PlainCaseName(name) && (InSuffix(suffix) || OutSuffix(suffix))
    ensures CleanName(name + suffix) && name + suffix != ".DS_Store" && !HasPrefix(name + suffix, "._")
    ensures InSuffix(suffix) ==> KindOf(name + suffix) == In
    ensures OutSuffix(suffix) ==> KindOf(name + suffix) == Out
    ensures BaseName(name + suffix) == name
  {
    var full := name + suffix;
    assert full[|name|..] == suffix && full[..|name|] == name;
    KindIsSuffix(full);
    TrimIsTrimmed(name);
    assert full[|full| - 1] == suffix[|suffix| - 1] && full[0] == name[0];
    SuffixedIsPlain(name, suffix);
  }

  lemma SuffixedIsPlain(name: string, suffix: string)
    requires PlainCaseName(name) && (InSuffix(suffix) || OutSuffix(suffix))
    ensures CleanName(name + suffix) && name + suffix != ".DS_Store" && !HasPrefix(name + suffix, "._")
  {
    var full := name + suffix;
    assert full[|full| - 1] == suffix[|suffix| - 1] && full[0] == name[0];
    assert forall c :: c in full ==> c in name || c in suffix;
    assert full[|name|] == '.';
    assert ".DS_Store"[8] == 'e' && "._"[0] == '.' && "._"[1] == '_';
    assert |name| == 1 ==> name == [name[0]];
    assert |name| >= 2 ==> full[..2] == name[..2];
  }

  lemma RootNamePath(name: string)
    requires CleanName(name)
    ensures NormalizedPath(name) == Some([name])
  {
    hide Split, Kept, HasForbidden;
    CleanNamePath(name);
    TrimIsTrimmed(name);
    assert "./"[1] == '/' && "/"[0] == '/';
    assert (|name| >= 2 ==> name[1] in name) && (name != "" ==> name[0] in name);
  }

  /** At the root: whatever the case of the suffixes' letters, the two files are the case of that name. */
  lemma RootPair(name: string, i: string, o: string, input: string, output: string)
    requires PlainCaseName(name) && InSuffix(i) && OutSuffix(o) && |input| <= MAX_FILE && |output| <= MAX_FILE
    ensures IsParsed([FileNamed(name + i, input), FileNamed(name + o, output)], "",
                     PairOf(name, name + i, input, name + o, output))
  {
    hide KindOf, BaseName, NormalizedPath, CleanName, InSuffix, OutSuffix;
    NameOfCase(name);
    SuffixedName(name, i);
    SuffixedName(name, o);
    RootNamePath(name + i);
    RootNamePath(name + o);
    assert name + i != "__MACOSX" && name + o != "__MACOSX" by { NotMacName(name, i); NotMacName(name, o); }
    var entries := [FileNamed(name + i, input), FileNamed(name + o, output)];
    PairIsParsed(entries, "", name, Root(name + i), Root(name + o), input, output);
  }

  lemma NameOfCase(name: string)
    requires PlainCaseName(name)
    ensures name != ""
  {
  }

  lemma NotMacName(name: string, suffix: string)
    requires InSuffix(suffix) || OutSuffix(suffix)
    ensures name + suffix != "__MACOSX"
  {
    var full := name + suffix;
    assert full[|name|] == '.';
    assert forall k :: 0 <= k < 8 ==> "__MACOSX"[k] != '.';
  }

  /** In a folder: they are the folder's case. */
  lemma FolderPair(folder: string, name: string, other: string, i: string, o: string, input: string, output: string)
    requires CleanFolder(folder) && PlainCaseName(name) && PlainCaseName(other)
    requires InSuffix(i) && OutSuffix(o) && |input| <= MAX_FILE && |output| <= MAX_FILE
    ensures IsParsed([FileNamed(folder + "/" + (name + i), input), FileNamed(folder + "/" + (other + o), output)], "",
                     PairOf(folder, name + i, input, other + o, output))
  {
    hide KindOf, BaseName, NormalizedPath, CleanName, InSuffix, OutSuffix, PlainCaseName;
    SuffixedName(name, i);
    SuffixedName(other, o);
    BaseNamePath(folder, name + i);
    BaseNamePath(folder, other + o);
    PlaceInFolder(Own(folder, name + i));
    PlaceInFolder(Own(folder, other + o));
    assert [folder, name + i][1] == name + i && [folder, other + o][1] == other + o;
    var entries := [FileNamed(folder + "/" + (name + i), input), FileNamed(folder + "/" + (other + o), output)];
    PairIsParsed(entries, "", folder, Own(folder, name + i), Own(folder, other + o), input, output);
  }

  /** The import of such a pair, run end to end. */
  method ImportRootPair(name: string, i: string, o: string, input: string, output: string) returns (r: Result<Parsed, ArchiveError>)
    requires PlainCaseName(name) && InSuffix(i) && OutSuffix(o) && |input| <= MAX_FILE && |output| <= MAX_FILE
    ensures r == Ok(Parsed([Case(name, name + i, input, name + o, output, [])], []))
  {
    hide IsParsed, InSuffix, OutSuffix, PlainCaseName;
    var entries := [FileNamed(name + i, input), FileNamed(name + o, output)];
    ghost var p := PairOf(name, name + i, input, name + o, output);
    RootPair(name, i, o, input, output);
    ParsedArchiveParses(entries, p);
    r := ParseBatchTestCaseArchive(entries);
    ParsedIsUnique(entries, "", r.value, p);
  }

  lemma ParsedArchiveParses(entries: seq<Entry>, p: Parsed)
    requires IsParsed(entries, "", p)
    ensures ParsesAs(entries, "")
  {
  }
}
