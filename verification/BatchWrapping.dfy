/**
  Zipping the folder that holds the cases instead of the files in it: the retry inside the
  folder gives the same cases.
*/
module BatchWrapping {
  import opened Wrappers
  import opened Text
  import opened BatchLayout
  import opened BatchGroups
  import opened BatchArchive
  import opened BatchReading
  import opened BatchOrder
  import opened BatchPaths
  import opened BatchPairs

  function Wrap(w: string, e: Entry): Entry {
    e.(name := w + "/" + e.name)
  }

  function WrapAll(w: string, entries: seq<Entry>): seq<Entry> {
    seq(|entries|, i requires 0 <= i < |entries| => Wrap(w, entries[i]))
  }

  // --- one entry ---------------------------------------------------------------------------

  /** The path of a name below a folder. */
  function InnerPath(name: string): Path {
    Kept(InnerSegments(name))
  }

  predicate IsFinderFile(segment: string) {
    segment == ".DS_Store" || HasPrefix(segment, "._")
  }

  /**
    A folder in front changes nothing about the entry: its name does not start with white
    space, or it is a Finder file anyway; and it is not in a __MACOSX folder at the root,
    unless it is a Finder file there.
  */
  ghost predicate ReadsAlike(e: Entry) {
    e.isDir || (
      NormalizedPath(e.name).Some? &&
      var p, q := NormalizedPath(e.name).value, InnerPath(e.name);
      if SpaceFirst(e.name) then q != [] && IsFinderFile(q[|q| - 1])
      else p != [] && (p[0] == "__MACOSX" ==> IsFinderFile(p[|p| - 1])))
  }

  ghost predicate AllReadAlike(entries: seq<Entry>) {
    forall i :: 0 <= i < |entries| ==> ReadsAlike(entries[i])
  }

  /** The importer takes the name of a file. */
  ghost predicate Named(e: Entry) {
    e.isDir || NormalizedPath(e.name).Some?
  }

  lemma PathIsNotEmpty(name: string)
    requires NormalizedPath(name).Some?
    ensures NormalizedPath(name).value != []
  {
  }

  lemma ShiftedPath(ws: string, p: Path, q: Path)
    requires AllSpace(ws) && ws != "" && Shifted(ws, p, q)
    ensures q != [] && q != p
    ensures IsFinderFile(q[|q| - 1]) ==> q[|q| - 1] == p[|p| - 1]
  {
    assert !IsSpace('.') && ".DS_Store"[0] == '.' && "._"[0] == '.';
    if q == [ws + p[0]] + p[1..] {
      assert |q[0]| > |p[0]|;
      if |p| == 1 {
        assert q[0][0] == ws[0];
      }
    }
  }

  /** The path below a folder against the path at the root. */
  lemma InnerPathFacts(name: string)
    requires NormalizedPath(name).Some?
    ensures var p, q := NormalizedPath(name).value, InnerPath(name);
      && p != [] && q != [] && !HasForbidden(InnerSegments(name))
      && (q == p <==> !SpaceFirst(name))
      && (SpaceFirst(name) && IsFinderFile(q[|q| - 1]) ==> IsFinderFile(p[|p| - 1]))
  {
    hide NormalizedPath, Kept, InnerSegments, IsFinderFile, HasForbidden;
    PathIsNotEmpty(name);
    if SpaceFirst(name) {
      var ws := InnerSpaced(name);
      ShiftedPath(ws, NormalizedPath(name).value, InnerPath(name));
    } else {
      InnerPlain(name);
    }
  }

  /** Where a wrapped entry is, seen from outside and from inside the folder. */
  lemma WrappedPlace(w: string, e: Entry)
    requires CleanFolder(w) && !e.isDir && NormalizedPath(e.name).Some?
    ensures var q := InnerPath(e.name);
      && q != []
      && Locate(Wrap(w, e), "") == (if IsFinderFile(q[|q| - 1]) then Skipped else At([w] + q))
      && Locate(Wrap(w, e), w) == (if IsFinderFile(q[|q| - 1]) then Skipped else At(q))
  {
    hide NormalizedPath, InnerSegments, Kept, HasForbidden;
    InnerPathFacts(e.name);
    WrappedPath(w, e.name);
    var q := InnerPath(e.name);
    assert ([w] + q)[|q|] == q[|q| - 1] && ([w] + q)[1..] == q;
  }

  /** Inside the folder an entry is where it was at the root, if and only if it reads alike. */
  lemma EntryReadsAlikeIff(w: string, e: Entry)
    requires CleanFolder(w) && Named(e)
    ensures Locate(Wrap(w, e), w) == Locate(e, "") <==> ReadsAlike(e)
    ensures Locate(Wrap(w, e), w) != Invalid && Locate(e, "") != Invalid
    ensures !ReadsAlike(e) ==> !e.isDir && Locate(Wrap(w, e), w) == At(InnerPath(e.name))
  {
    hide NormalizedPath, InnerSegments, Kept, HasForbidden, InnerPath;
    if !e.isDir {
      WrappedPlace(w, e);
      InnerPathFacts(e.name);
    }
  }

  /** An entry that reads alike, seen from outside and from inside. */
  lemma WrappedEntry(w: string, e: Entry)
    requires CleanFolder(w) && ReadsAlike(e)
    ensures Locate(Wrap(w, e), w) == Locate(e, "")
    ensures Locate(Wrap(w, e), "") == if Locate(e, "").At? then At([w] + Locate(e, "").path) else Skipped
    ensures Locate(e, "") != Invalid
  {
    hide NormalizedPath, InnerSegments, Kept, IsFinderFile, HasForbidden, InnerPath;
    EntryReadsAlikeIff(w, e);
    if !e.isDir {
      WrappedPlace(w, e);
    }
  }

  // --- archives whose entries all read alike -------------------------------------------------

  /** Entries in the same places with the same contents are read alike. */
  lemma {:induction false} ReadAlike(a: seq<Entry>, wa: string, b: seq<Entry>, wb: string)
    requires |a| == |b|
    requires forall i :: 0 <= i < |a| ==>
      Locate(a[i], wa) == Locate(b[i], wb) && a[i].content == b[i].content && a[i].size == b[i].size
    ensures FilesOf(a, wa) == FilesOf(b, wb) && IgnoredOf(a, wa) == IgnoredOf(b, wb) && SizeOf(a, wa) == SizeOf(b, wb)
    ensures AllReadable(a, wa) <==> AllReadable(b, wb)
    ensures AnyBroken(a, wa) <==> AnyBroken(b, wb)
  {
    hide Locate, SlotOf, PlaceOf;
    SameReadings(a, wa, b, wb);
    if a != [] {
      ReadAlike(a[..|a| - 1], wa, b[..|b| - 1], wb);
    }
  }

  lemma SameReadings(a: seq<Entry>, wa: string, b: seq<Entry>, wb: string)
    requires |a| == |b|
    requires forall i :: 0 <= i < |a| ==>
      Locate(a[i], wa) == Locate(b[i], wb) && a[i].content == b[i].content && a[i].size == b[i].size
    ensures AllReadable(a, wa) <==> AllReadable(b, wb)
    ensures AnyBroken(a, wa) <==> AnyBroken(b, wb)
  {
    hide Locate, SlotOf, PlaceOf;
    forall i | 0 <= i < |a|
      ensures CaseSlot(a[i], wa) == CaseSlot(b[i], wb) && IsBroken(a[i], wa) == IsBroken(b[i], wb)
    {
      assert Locate(a[i], wa) == Locate(b[i], wb);
    }
  }

  lemma ParsedIsNamed(a: seq<Entry>, i: nat)
    requires !AnyBroken(a, "") && i < |a|
    ensures Named(a[i])
  {
    hide NormalizedPath;
    assert !IsBroken(a[i], "");
  }

  /** Inside the folder the wrapped archive is the archive. */
  lemma InsideIsTheSame(w: string, a: seq<Entry>, p: Parsed)
    requires CleanFolder(w) && AllReadAlike(a) && IsParsed(a, "", p)
    ensures IsParsed(WrapAll(w, a), w, p)
  {
    hide Locate, NormalizedPath, Parses, IsParseOf, FilesOf, IgnoredOf, SizeOf, AllReadable, ReadsAlike;
    var b := WrapAll(w, a);
    forall i | 0 <= i < |a| ensures Locate(a[i], "") == Locate(b[i], w) {
      WrappedEntry(w, a[i]);
    }
    ReadAlike(a, "", b, w);
  }

  lemma {:induction false} SomeFile(entries: seq<Entry>, wrapper: string) returns (i: nat)
    requires FilesOf(entries, wrapper) != map[]
    ensures i < |entries| && CaseSlot(entries[i], wrapper).Some?
  {
    hide CaseSlot;
    var n := |entries| - 1;
    if CaseSlot(entries[n], wrapper).Some? {
      i := n;
    } else {
      i := SomeFile(entries[..n], wrapper);
    }
  }

  lemma ParsesHasFiles(files: Files)
    requires Parses(files)
    ensures files != map[]
  {
    hide KindOf, BaseName, PlaceOf;
    assert CaseNames(files) != {};
    var n :| n in CaseNames(files);
    var s :| s in files && PlaceOf(s).value.of == n;
  }

  /** The folder is found, whatever the names. */
  lemma FolderIsFound(w: string, a: seq<Entry>, p: Parsed)
    requires CleanFolder(w) && IsParsed(a, "", p)
    ensures Wraps(WrapAll(w, a), w)
  {
    hide Locate, NormalizedPath, Parses, IsParseOf, SlotOf, PlaceOf, KindOf;
    var b := WrapAll(w, a);
    forall i | 0 <= i < |a|
      ensures MayBeside(b[i], w) && (Locate(a[i], "").At? ==> IsBelow(b[i], w))
    {
      ParsedIsNamed(a, i);
      WrappedIsBelow(w, a[i]);
    }
    ParsesHasFiles(FilesOf(a, ""));
    var i := SomeFile(a, "");
    assert IsBelow(b[i], w);
  }

  lemma WrappedIsBelow(w: string, e: Entry)
    requires CleanFolder(w) && Named(e)
    ensures MayBeside(Wrap(w, e), w) && (Locate(e, "").At? ==> IsBelow(Wrap(w, e), w))
  {
    hide NormalizedPath, InnerSegments, Kept, HasForbidden, InnerPath, KindOf;
    if !e.isDir {
      WrappedPlace(w, e);
      InnerPathFacts(e.name);
    }
  }

  /** The root files the importer ignores, and so does not read, could be read. */
  ghost predicate IgnoredReadable(a: seq<Entry>) {
    forall i :: 0 <= i < |a| && IgnoredName(a[i], "").Some? ==> Readable(a[i])
  }

  lemma WrappedSlot(w: string, e: Entry)
    requires CleanFolder(w) && ReadsAlike(e)
    ensures IgnoredName(e, "").Some? ==> CaseSlot(Wrap(w, e), "") == Some(Own(w, IgnoredName(e, "").value))
    ensures CaseSlot(e, "").Some? && CaseSlot(e, "").value.Root? ==>
      CaseSlot(Wrap(w, e), "") == Some(Own(w, CaseSlot(e, "").value.name))
    ensures CaseSlot(e, "").Some? && !CaseSlot(e, "").value.Root? && CaseSlot(e, "") != Some(Own("files", CaseSlot(e, "").value.name)) ==>
      IsBroken(Wrap(w, e), "")
    ensures CaseSlot(Wrap(w, e), "").Some? ==> CaseSlot(e, "").Some? || IgnoredName(e, "").Some? || IsBroken(e, "")
  {
    hide Locate, NormalizedPath, KindOf, BaseName;
    WrappedEntry(w, e);
    if Locate(e, "").At? {
      LocatedPath(e);
      var p := Locate(e, "").path;
      if |p| == 1 {
        assert [w] + p == [w, p[0]];
        PlaceInFolder(Own(w, p[0]));
      }
    }
  }

  lemma OutsideReadable(w: string, a: seq<Entry>)
    requires CleanFolder(w) && AllReadAlike(a) && !AnyBroken(a, "") && AllReadable(a, "")
    ensures AllReadable(WrapAll(w, a), "") <==> IgnoredReadable(a)
  {
    hide Locate, NormalizedPath, KindOf, BaseName, ReadsAlike, IgnoredName, CaseSlot, IsBroken;
    var b := WrapAll(w, a);
    forall i | 0 <= i < |a|
      ensures IgnoredName(a[i], "").Some? ==> CaseSlot(b[i], "").Some?
      ensures CaseSlot(b[i], "").Some? ==> CaseSlot(a[i], "").Some? || IgnoredName(a[i], "").Some?
      ensures Readable(a[i]) == Readable(b[i])
    {
      WrappedSlot(w, a[i]);
      assert !IsBroken(a[i], "");
    }
    if AllReadable(b, "") {
      forall i | 0 <= i < |a| && IgnoredName(a[i], "").Some? ensures Readable(a[i]) {
        assert CaseSlot(b[i], "").Some?;
      }
    }
  }

  lemma {:induction false} OutsideSize(w: string, a: seq<Entry>)
    requires CleanFolder(w) && forall i :: 0 <= i < |a| ==> ReadsAlike(a[i])
    ensures SizeOf(WrapAll(w, a), "") == SizeOf(a, "")
  {
    hide Locate, ReadsAlike;
    if a != [] {
      var n := |a| - 1;
      assert WrapAll(w, a)[..n] == WrapAll(w, a[..n]);
      OutsideSize(w, a[..n]);
      WrappedEntry(w, a[n]);
    }
  }

  /**
    Wrapping a parsed archive: the folder is found, inside it the archive parses to the same
    cases and ignored list, and the attempt is reached if and only if the ignored root files,
    which now look like files of a case, can be read.
  */
  lemma WrappingIsTransparent(w: string, a: seq<Entry>, p: Parsed)
    requires CleanFolder(w) && AllReadAlike(a) && IsParsed(a, "", p)
    ensures Wraps(WrapAll(w, a), w) && IsParsed(WrapAll(w, a), w, p)
    ensures Fits(WrapAll(w, a), "") <==> IgnoredReadable(a)
  {
    hide Parses, IsParseOf, FilesOf, IgnoredOf, ReadsAlike, Wraps, AllReadable, SizeOf, IgnoredReadable;
    FolderIsFound(w, a, p);
    InsideIsTheSame(w, a, p);
    OutsideReadable(w, a);
    OutsideSize(w, a);
  }

  // --- archives with entries that do not -------------------------------------------------------

  /** No two entries name the same file. */
  ghost predicate DistinctPlaces(entries: seq<Entry>, wrapper: string) {
    forall i, j :: 0 <= i < j < |entries| && Locate(entries[i], wrapper).At? ==>
      Locate(entries[i], wrapper) != Locate(entries[j], wrapper)
  }

  /** Where a file belongs, with its name. */
  datatype Use = Use(place: Place, name: string)

  ghost function UseOf(e: Entry, wrapper: string): Option<Use> {
    match Locate(e, wrapper)
    case At(p) => (
      match SlotOf(p)
      case Some(s) => if PlaceOf(s).Some? then Some(Use(PlaceOf(s).value, s.name)) else None
      case None => None)
    case _ => None
  }

  function LeadOf(s: string): nat {
    if s != "" && IsSpace(s[0]) then 1 + LeadOf(s[1..]) else 0
  }

  /** How much leading white space a use has, in the case's name and in its own. */
  function Blanks(u: Use): nat {
    LeadOf(u.name) + match u.place case Ignored(_) => 0 case _ => LeadOf(u.place.of)
  }

  lemma {:induction false} LeadOfSpaced(ws: string, x: string)
    requires AllSpace(ws)
    ensures LeadOf(ws + x) == |ws| + LeadOf(x)
    ensures TrimLeft(ws + x) == TrimLeft(x)
  {
    if ws == "" {
      assert ws + x == x;
    } else {
      LeadOfSpaced(ws[1..], x);
      assert (ws + x)[1..] == ws[1..] + x;
    }
  }

  lemma {:induction false} TrimmedHasNoLead(x: string)
    requires Trimmed(x)
    ensures LeadOf(x) == 0
  {
  }

  lemma LowerSpaced(ws: string, x: string)
    ensures |ToLower(ws + x)| == |ws| + |x| && ToLower(ws + x)[|ws|..] == ToLower(x)
  {
    hide LowerChar;
  }

  lemma SpaceIsNoDot(c: char)
    requires IsSpace(c)
    ensures LowerChar(c) != '.'
  {
  }

  lemma SuffixSpaced(ws: string, x: string, suffix: string)
    requires AllSpace(ws) && suffix != "" && suffix[0] == '.'
    ensures HasSuffix(ToLower(ws + x), suffix) <==> HasSuffix(ToLower(x), suffix)
  {
    hide ToLower, LowerChar, IsSpace;
    var long, short := ToLower(ws + x), ToLower(x);
    if |suffix| <= |x| {
      LowerSpaced(ws, x);
      assert long[|long| - |suffix|..] == short[|short| - |suffix|..];
    } else if |suffix| <= |long| {
      var k := |long| - |suffix|;
      assert IsSpace(ws[k]) && (ws + x)[k] == ws[k];
      SpaceIsNoDot(ws[k]);
      assert long[k..][0] == long[k] == LowerChar(ws[k]);
    }
  }

  lemma TrimSpaced(ws: string, x: string)
    requires AllSpace(ws)
    ensures Trim(ws + x) == Trim(x)
  {
    LeadOfSpaced(ws, x);
  }

  lemma KindSpaced(ws: string, x: string)
    requires AllSpace(ws)
    ensures KindOf(ws + x) == KindOf(x)
  {
    hide HasSuffix, ToLower;
    SuffixSpaced(ws, x, ".in");
    SuffixSpaced(ws, x, ".out");
  }

  lemma BaseNameSpaced(ws: string, x: string)
    requires AllSpace(ws)
    ensures BaseName(ws + x) == BaseName(x)
  {
    hide KindOf, Trim;
    KindSpaced(ws, x);
    KindLength(x);
    if KindOf(x) == In {
      assert (ws + x)[..|ws + x| - 3] == ws + x[..|x| - 3];
      TrimSpaced(ws, x[..|x| - 3]);
    } else if KindOf(x) == Out {
      assert (ws + x)[..|ws + x| - 4] == ws + x[..|x| - 4];
      TrimSpaced(ws, x[..|x| - 4]);
    }
  }

  lemma RootNameHasNoLead(s: Slot)
    requires s.Root? && PlaceOf(s).Some? && !PlaceOf(s).value.Ignored?
    ensures LeadOf(PlaceOf(s).value.of) == 0
  {
    KindLength(s.name);
    TrimIsTrimmed(if KindOf(s.name) == In then s.name[..|s.name| - 3] else s.name[..|s.name| - 4]);
    TrimmedHasNoLead(BaseName(s.name));
  }

  /** White space before the first segment, at the root: the file's name has more of it. */
  lemma ShiftedAtRoot(ws: string, name: string)
    requires AllSpace(ws) && ws != "" && PlaceOf(Root(name)).Some?
    ensures PlaceOf(Root(ws + name)).Some?
    ensures Blanks(Use(PlaceOf(Root(ws + name)).value, ws + name)) > Blanks(Use(PlaceOf(Root(name)).value, name))
  {
    hide KindOf, BaseName, LeadOf;
    KindSpaced(ws, name);
    BaseNameSpaced(ws, name);
    LeadOfSpaced(ws, name);
  }

  /** In a case folder: the case's name has more of it. */
  lemma ShiftedInFolder(ws: string, first: string, s: Slot, t: Slot)
    requires AllSpace(ws) && ws != "" && !t.Root? && t.folder == ws + first && t.name == s.name
    requires PlaceOf(s).Some?
    requires s.Root? || (s.folder == first && LeadOf(first) == 0) || LeadOf(s.folder) == 0
    ensures PlaceOf(t).Some?
    ensures Blanks(Use(PlaceOf(t).value, t.name)) > Blanks(Use(PlaceOf(s).value, s.name))
  {
    hide KindOf, BaseName, LeadOf;
    PlaceInFolder(t);
    LeadOfSpaced(ws, first);
    if s.Root? {
      if !PlaceOf(s).value.Ignored? {
        RootNameHasNoLead(s);
      }
    } else {
      PlaceInFolder(s);
    }
  }

  /** A moved file, if it still has a place, has more leading white space. */
  lemma ShiftedUse(ws: string, p: Path, q: Path)
    requires AllSpace(ws) && ws != "" && Shifted(ws, p, q)
    requires SlotOf(p).Some? && PlaceOf(SlotOf(p).value).Some? && SlotOf(q).Some?
    ensures PlaceOf(SlotOf(q).value).Some?
    ensures Blanks(Use(PlaceOf(SlotOf(q).value).value, SlotOf(q).value.name))
          > Blanks(Use(PlaceOf(SlotOf(p).value).value, SlotOf(p).value.name))
  {
    hide KindOf, BaseName, PlaceOf, Blanks;
    var s, t := SlotOf(p).value, SlotOf(q).value;
    if q == [ws + "."] + p {
      assert q[0] == ws + "." && q[1] == p[0] && (|q| == 3 ==> q[2] == p[1]);
      assert LeadOf("files") == 0 by { assert "files"[0] == 'f' && !IsSpace('f'); }
      ShiftedInFolder(ws, ".", s, t);
    } else {
      assert LeadOf(p[0]) == 0;
      if |p| == 1 {
        ShiftedAtRoot(ws, p[0]);
      } else {
        ShiftedInFolder(ws, p[0], s, t);
      }
    }
  }

  /** An entry that does not read alike, and has a place at the root and below, has moved to more white space. */
  lemma MovedUse(w: string, e: Entry)
    requires CleanFolder(w) && Named(e) && !ReadsAlike(e)
    requires UseOf(e, "").Some? && !IsBroken(Wrap(w, e), w)
    ensures UseOf(Wrap(w, e), w).Some? && Blanks(UseOf(Wrap(w, e), w).value) > Blanks(UseOf(e, "").value)
  {
    hide NormalizedPath, InnerSegments, Kept, IsFinderFile, HasForbidden, KindOf, BaseName, PlaceOf, SlotOf, Blanks;
    EntryReadsAlikeIff(w, e);
    LocatedPath(e);
    SpacedMove(w, e);
    var ws := InnerSpaced(e.name);
    ShiftedUse(ws, Locate(e, "").path, InnerPath(e.name));
  }

  /** An entry at a path of the root that does not read alike starts with white space. */
  lemma SpacedMove(w: string, e: Entry)
    requires CleanFolder(w) && Named(e) && !ReadsAlike(e) && Locate(e, "").At?
    ensures SpaceFirst(e.name)
  {
    hide NormalizedPath, InnerSegments, Kept, IsFinderFile, HasForbidden, InnerPath;
    PathIsNotEmpty(e.name);
  }

  // --- which files a list of cases is made of -----------------------------------------------------

  ghost predicate HasUse(files: Files, u: Use) {
    exists s :: s in files && PlaceOf(s) == Some(u.place) && s.name == u.name
  }

  lemma ExtraNamed(s: Slot)
    requires PlaceOf(s).Some? && PlaceOf(s).value.Extra?
    ensures PlaceOf(s).value.name == s.name
  {
    hide KindOf, BaseName;
  }

  /** Files that parse to the same cases have the same uses. */
  lemma SameUses(a: Files, b: Files, cases: seq<Case>, s: Slot)
    requires IsParseOf(a, cases) && IsParseOf(b, cases) && s in b
    ensures PlaceOf(s).Some? && HasUse(a, Use(PlaceOf(s).value, s.name))
  {
    hide KindOf, BaseName, PlaceOf;
    assert PlaceOf(s).value.of in CaseNames(b);
    assert PlaceOf(s).value.of in Folders(cases);
    var i :| 0 <= i < |cases| && Folders(cases)[i] == PlaceOf(s).value.of;
    var c := cases[i];
    match PlaceOf(s).value {
      case Input(n) =>
        assert Gives(b, Input(n), s.name, b[s]);
        GivesOnce(b, Input(n), c.inputName, c.inputData, s.name, b[s]);
        assert Gives(a, Input(n), s.name, c.inputData);
      case Output(n) =>
        assert Gives(b, Output(n), s.name, b[s]);
        GivesOnce(b, Output(n), c.outputName, c.outputData, s.name, b[s]);
        assert Gives(a, Output(n), s.name, c.outputData);
      case Extra(n, name) =>
        ExtraNamed(s);
        var e := ExtraFile(name, b[s]);
        assert Gives(b, Extra(n, e.name), e.name, e.data);
        assert e in c.extras;
        assert Gives(a, Extra(n, e.name), e.name, e.data);
      case Ignored(_) =>
    }
  }

  lemma {:induction false} SlotHasEntry(entries: seq<Entry>, wrapper: string, s: Slot) returns (i: nat)
    requires s in FilesOf(entries, wrapper)
    ensures i < |entries| && CaseSlot(entries[i], wrapper) == Some(s)
  {
    hide CaseSlot;
    var n := |entries| - 1;
    if CaseSlot(entries[n], wrapper) == Some(s) {
      i := n;
    } else {
      i := SlotHasEntry(entries[..n], wrapper, s);
    }
  }

  lemma {:induction false} NameHasEntry(entries: seq<Entry>, wrapper: string, name: string) returns (i: nat)
    requires name in IgnoredOf(entries, wrapper)
    ensures i < |entries| && IgnoredName(entries[i], wrapper) == Some(name)
  {
    hide IgnoredName;
    var n := |entries| - 1;
    if IgnoredName(entries[n], wrapper) == Some(name) {
      i := n;
    } else {
      i := NameHasEntry(entries[..n], wrapper, name);
    }
  }

  lemma UseOfSlot(e: Entry, wrapper: string)
    ensures CaseSlot(e, wrapper).Some? ==> var s := CaseSlot(e, wrapper).value;
      PlaceOf(s).Some? && !PlaceOf(s).value.Ignored? && UseOf(e, wrapper) == Some(Use(PlaceOf(s).value, s.name))
    ensures IgnoredName(e, wrapper).Some? ==>
      UseOf(e, wrapper) == Some(Use(Ignored(IgnoredName(e, wrapper).value), IgnoredName(e, wrapper).value))
    ensures UseOf(e, wrapper).Some? ==> CaseSlot(e, wrapper).Some? || IgnoredName(e, wrapper).Some?
  {
    hide Locate, KindOf, BaseName;
    if Locate(e, wrapper).At? && SlotOf(Locate(e, wrapper).path).Some? {
      IgnoredIsNamed(SlotOf(Locate(e, wrapper).path).value);
    }
  }

  lemma IgnoredIsNamed(s: Slot)
    ensures PlaceOf(s).Some? && PlaceOf(s).value.Ignored? ==> s.Root? && PlaceOf(s).value.name == s.name
  {
    hide KindOf, BaseName;
  }

  /** Two archives that parse to the same thing have entries for the same uses. */
  lemma UseIsShared(a: seq<Entry>, b: seq<Entry>, w: string, p: Parsed, j: nat) returns (i: nat)
    requires IsParsed(a, "", p) && IsParsed(b, w, p) && j < |b| && UseOf(b[j], w).Some?
    ensures i < |a| && UseOf(a[i], "") == UseOf(b[j], w)
  {
    hide Locate, PlaceOf, SlotOf, UseOf, FilesOf, IgnoredOf, CaseSlot, IgnoredName, IsParseOf, AnyBroken, Fits, Parses;
    UseOfSlot(b[j], w);
    if CaseSlot(b[j], w).Some? {
      var s := CaseSlot(b[j], w).value;
      EntrySlotIsFile(b, w, j);
      SameUses(FilesOf(a, ""), FilesOf(b, w), p.cases, s);
      var t :| t in FilesOf(a, "") && PlaceOf(t) == PlaceOf(s) && t.name == s.name;
      i := SlotHasEntry(a, "", t);
    } else {
      var name := IgnoredName(b[j], w).value;
      IgnoredIsListed(b, w, b[j]);
      assert name in multiset(IgnoredOf(b, w));
      assert name in multiset(IgnoredOf(a, ""));
      i := NameHasEntry(a, "", name);
    }
    UseOfSlot(a[i], "");
  }

  lemma SlotOfOnce(p: Path, q: Path)
    requires SlotOf(p).Some? && SlotOf(p) == SlotOf(q)
    ensures p == q
  {
  }

  /** In an archive that parses, entries of one use are at one path. */
  lemma OneUseOnePath(b: seq<Entry>, w: string, i: nat, j: nat)
    requires ParsesAs(b, w) && i < |b| && j < |b| && UseOf(b[i], w).Some? && UseOf(b[i], w) == UseOf(b[j], w)
    ensures Locate(b[i], w).At? && Locate(b[i], w) == Locate(b[j], w)
  {
    hide Locate, PlaceOf, SlotOf, FilesOf, AnyBroken, Fits;
    var s, t := SlotOf(Locate(b[i], w).path).value, SlotOf(Locate(b[j], w).path).value;
    if PlaceOf(s).value.Ignored? {
      IgnoredIsNamed(s);
      IgnoredIsNamed(t);
    } else {
      EntrySlotIsFile(b, w, i);
      EntrySlotIsFile(b, w, j);
    }
    SlotOfOnce(Locate(b[i], w).path, Locate(b[j], w).path);
  }

  /** Every use of the archive has at most this much leading white space. */
  ghost predicate BlanksUpTo(a: seq<Entry>, most: nat) {
    forall i :: 0 <= i < |a| && UseOf(a[i], "").Some? ==> Blanks(UseOf(a[i], "").value) <= most
  }

  lemma {:induction false} SomeBound(a: seq<Entry>) returns (most: nat)
    ensures BlanksUpTo(a, most)
  {
    hide UseOf, Blanks;
    most := 0;
    for i := 0 to |a|
      invariant forall k :: 0 <= k < i && UseOf(a[k], "").Some? ==> Blanks(UseOf(a[k], "").value) <= most
    {
      if UseOf(a[i], "").Some? && Blanks(UseOf(a[i], "").value) > most {
        most := Blanks(UseOf(a[i], "").value);
      }
    }
  }

  /** What the wrapped archive makes of entry `k`, some entry `j` must have been before. */
  lemma TakenOver(w: string, a: seq<Entry>, p: Parsed, k: nat) returns (j: nat)
    requires CleanFolder(w) && IsParsed(a, "", p) && IsParsed(WrapAll(w, a), w, p) && DistinctPlaces(WrapAll(w, a), w)
    requires k < |a| && !ReadsAlike(a[k])
    ensures j < |a| && !ReadsAlike(a[j]) && UseOf(a[j], "").Some?
    ensures UseOf(a[k], "").Some? ==> Blanks(UseOf(a[j], "").value) > Blanks(UseOf(a[k], "").value)
  {
    hide Locate, PlaceOf, SlotOf, ReadsAlike, Blanks, NormalizedPath, FilesOf, IgnoredOf, IsParseOf, Fits, Parses, InnerPath;
    var b := WrapAll(w, a);
    ParsedIsNamed(a, k);
    EntryReadsAlikeIff(w, a[k]);
    assert !IsBroken(b[k], w);
    if UseOf(a[k], "").Some? {
      MovedUse(w, a[k]);
    }
    j := UseIsShared(a, b, w, p, k);
    if ReadsAlike(a[j]) {
      WrappedEntry(w, a[j]);
      assert UseOf(b[j], w) == UseOf(b[k], w);
      OneUseOnePath(b, w, j, k);
      assert false;
    }
  }

  lemma {:induction false} NobodyMoves(w: string, a: seq<Entry>, p: Parsed, k: nat, most: nat)
    requires CleanFolder(w) && IsParsed(a, "", p) && IsParsed(WrapAll(w, a), w, p) && DistinctPlaces(WrapAll(w, a), w)
    requires BlanksUpTo(a, most) && k < |a| && !ReadsAlike(a[k]) && UseOf(a[k], "").Some?
    ensures false
    decreases most - Blanks(UseOf(a[k], "").value)
  {
    hide Locate, UseOf, ReadsAlike, Blanks, IsParsed, DistinctPlaces;
    var j := TakenOver(w, a, p, k);
    NobodyMoves(w, a, p, j, most);
  }

  /**
    Wrapping, for any parsed archive.  Inside the folder it parses to the same thing if every
    entry reads alike; and, when no two entries name one file there, only if.
  */
  lemma WrappingIsTransparentIff(w: string, a: seq<Entry>, p: Parsed)
    requires CleanFolder(w) && IsParsed(a, "", p)
    ensures AllReadAlike(a) ==> IsParsed(WrapAll(w, a), w, p)
    ensures DistinctPlaces(WrapAll(w, a), w) ==> (IsParsed(WrapAll(w, a), w, p) <==> AllReadAlike(a))
  {
    hide Locate, UseOf, ReadsAlike, IsParsed, DistinctPlaces, BlanksUpTo;
    if AllReadAlike(a) {
      InsideIsTheSame(w, a, p);
    } else if IsParsed(WrapAll(w, a), w, p) && DistinctPlaces(WrapAll(w, a), w) {
      var k :| 0 <= k < |a| && !ReadsAlike(a[k]);
      var j := TakenOver(w, a, p, k);
      var most := SomeBound(a);
      NobodyMoves(w, a, p, j, most);
    }
  }

  /**
    The import of any wrapped archive that is not a single case as it is.  The folder is found;
    when every entry reads alike, the import gives exactly what the archive gives if the ignored
    root files can be read, and fails otherwise; when some entry does not, and no two entries
    name one file in the folder, the import gives something else or fails.
  */
  method ImportWrapped(w: string, a: seq<Entry>, ghost p: Parsed) returns (r: Result<Parsed, ArchiveError>)
    requires CleanFolder(w) && IsParsed(a, "", p)
    ensures !ParsesAs(WrapAll(w, a), "") && AllReadAlike(a) ==> (r == Ok(p) <==> IgnoredReadable(a)) && (r.Ok? <==> IgnoredReadable(a))
    ensures !ParsesAs(WrapAll(w, a), "") && DistinctPlaces(WrapAll(w, a), w) ==>
      (r == Ok(p) <==> AllReadAlike(a) && IgnoredReadable(a))
    ensures !ParsesAs(WrapAll(w, a), "") && r.Ok? ==> IsParsed(WrapAll(w, a), w, r.value)
  {
    hide IsParsed, Wraps, ReadsAlike, Fits, IgnoredReadable, DistinctPlaces, FilesOf, AnyBroken, Parses;
    ghost var b := WrapAll(w, a);
    FolderIsFound(w, a, p);
    WrappingIsTransparentIff(w, a, p);
    if AllReadAlike(a) {
      WrappingIsTransparent(w, a, p);
    }
    r := ParseBatchTestCaseArchive(WrapAll(w, a));
    if !ParsesAs(b, "") {
      if r.Ok? {
        ghost var f :| Wraps(b, f) && IsParsed(b, f, r.value);
        OneWrapper(b, f, w);
        if AllReadAlike(a) {
          ParsedIsUnique(b, w, p, r.value);
        }
      }
      if AllReadAlike(a) && IgnoredReadable(a) {
        ParsedParses(b, w, p);
      }
    }
  }

  lemma ParsedParses(entries: seq<Entry>, wrapper: string, p: Parsed)
    requires IsParsed(entries, wrapper, p)
    ensures ParsesAs(entries, wrapper)
  {
  }

  // --- when the wrapped archive is not a case as it is --------------------------------------------

  lemma {:induction false} EntrySlotIsFile(entries: seq<Entry>, wrapper: string, i: nat)
    requires i < |entries| && CaseSlot(entries[i], wrapper).Some?
    ensures CaseSlot(entries[i], wrapper).value in FilesOf(entries, wrapper)
  {
    hide CaseSlot;
    var n := |entries| - 1;
    if i < n {
      EntrySlotIsFile(entries[..n], wrapper, i);
    }
  }

  /** A file in a case folder not named files has no place below another folder. */
  lemma WrappedFolderFile(w: string, e: Entry)
    requires CleanFolder(w) && Named(e)
    requires CaseSlot(e, "").Some? && !CaseSlot(e, "").value.Root? && CaseSlot(e, "").value.folder != "files"
    ensures IsBroken(Wrap(w, e), "")
  {
    hide NormalizedPath, InnerSegments, Kept, HasForbidden, InnerPath, PlaceOf;
    LocatedPath(e);
    WrappedPlace(w, e);
    InnerPathFacts(e.name);
    var p, q := Locate(e, "").path, InnerPath(e.name);
    FirstStaysOther(e.name);
    assert ([w] + q)[1] == q[0];
  }

  /** Below a folder a path of several segments keeps several, and its first one becomes no "files". */
  lemma FirstStaysOther(name: string)
    requires NormalizedPath(name).Some?
    ensures var p, q := NormalizedPath(name).value, InnerPath(name);
      |q| >= |p| > 0 && (p[0] != "files" ==> q[0] != "files")
  {
    hide NormalizedPath, InnerSegments, Kept, HasForbidden;
    InnerPathFacts(name);
    if SpaceFirst(name) {
      var ws := InnerSpaced(name);
      var q := InnerPath(name);
      assert q[0][0] == ws[0] && "files"[0] == 'f' && !IsSpace('f');
    }
  }

  /** A root file of a case has no place below a folder, or is the same kind of file of that folder's case. */
  lemma WrappedRootFile(w: string, e: Entry) returns (name: string)
    requires CleanFolder(w) && Named(e) && CaseSlot(e, "").Some? && CaseSlot(e, "").value.Root?
    ensures IsBroken(Wrap(w, e), "") || CaseSlot(Wrap(w, e), "") == Some(Own(w, name))
    ensures KindOf(name) == KindOf(CaseSlot(e, "").value.name) && BaseName(name) == BaseName(CaseSlot(e, "").value.name)
  {
    hide NormalizedPath, InnerSegments, Kept, HasForbidden, KindOf, BaseName, PlaceOf;
    LocatedPath(e);
    WrappedPlace(w, e);
    InnerPathFacts(e.name);
    var p, q := Locate(e, "").path, InnerPath(e.name);
    name := p[0];
    if SpaceFirst(e.name) {
      var ws := InnerSpaced(e.name);
      if q == [ws + p[0]] + p[1..] {
        name := ws + p[0];
        KindSpaced(ws, p[0]);
        BaseNameSpaced(ws, p[0]);
        assert [w] + q == [w, name];
      } else {
        BlankIsNotFiles(ws);
        assert [w] + q == [w, ws + ".", p[0]];
      }
    } else {
      assert [w] + q == [w, name];
    }
    PlaceInFolder(Own(w, name));
  }

  lemma BlankIsNotFiles(ws: string)
    requires AllSpace(ws) && ws != ""
    ensures ws + "." != "files"
  {
    assert (ws + ".")[0] == ws[0] && "files"[0] == 'f' && !IsSpace('f');
  }

  /** Two root inputs become two inputs of one case. */
  lemma TwoPairsFail(w: string, a: seq<Entry>, p: Parsed, i: nat, j: nat)
    requires CleanFolder(w) && IsParsed(a, "", p) && i < |a| && j < |a|
    requires CaseSlot(a[i], "").Some? && CaseSlot(a[i], "").value.Root? && KindOf(CaseSlot(a[i], "").value.name) == In
    requires CaseSlot(a[j], "").Some? && CaseSlot(a[j], "").value.Root? && KindOf(CaseSlot(a[j], "").value.name) == In
    requires CaseSlot(a[i], "") != CaseSlot(a[j], "")
    ensures !ParsesAs(WrapAll(w, a), "")
  {
    hide Locate, NormalizedPath, KindOf, BaseName, IgnoredName, IsBroken, CaseSlot, FilesOf, Fits, Named;
    var b := WrapAll(w, a);
    ParsedIsNamed(a, i);
    ParsedIsNamed(a, j);
    EntrySlotIsFile(a, "", i);
    EntrySlotIsFile(a, "", j);
    var m := WrappedRootFile(w, a[i]);
    var n := WrappedRootFile(w, a[j]);
    if ParsesAs(b, "") {
      assert !IsBroken(b[i], "") && !IsBroken(b[j], "");
      EntrySlotIsFile(b, "", i);
      EntrySlotIsFile(b, "", j);
      PlaceInFolder(Own(w, m));
      PlaceInFolder(Own(w, n));
    }
  }

  /** A case folder with another name than files is a folder in a case folder. */
  lemma CaseFolderFails(w: string, a: seq<Entry>, p: Parsed, i: nat)
    requires CleanFolder(w) && IsParsed(a, "", p) && i < |a|
    requires CaseSlot(a[i], "").Some? && !CaseSlot(a[i], "").value.Root? && CaseSlot(a[i], "").value.folder != "files"
    ensures !ParsesAs(WrapAll(w, a), "")
  {
    hide Locate, NormalizedPath, KindOf, BaseName, IgnoredName, IsBroken, CaseSlot, FilesOf, Named;
    ParsedIsNamed(a, i);
    WrappedFolderFile(w, a[i]);
    assert IsBroken(WrapAll(w, a)[i], "");
  }

  // --- an archive that wrapping changes -----------------------------------------------------------

  /** The input and the output of one case, their names starting with a space. */
  function SpacedPair(folder: string, input: string, output: string): seq<Entry> {
    [FileNamed(" " + folder + "/x.in", input), FileNamed(" " + folder + "/x.out", output)]
  }

  function XCase(folder: string, input: string, output: string): Parsed {
    PairOf(folder, "x.in", input, "x.out", output)
  }

  lemma PairNames()
    ensures KindOf("x.in") == In && KindOf("x.out") == Out
    ensures CleanName("x.in") && CleanName("x.out")
    ensures !IsFinderFile("x.in") && !IsFinderFile("x.out")
  {
    hide CleanName, KindOf;
    assert PlainCaseName("x") by { XIsPlain(); }
    SuffixedName("x", ".in");
    SuffixedName("x", ".out");
    assert "x" + ".in" == "x.in" && "x" + ".out" == "x.out";
    assert "x.in"[0] == 'x' && "x.out"[0] == 'x' && "._"[0] == '.' && ".DS_Store"[0] == '.';
  }

  lemma XIsPlain()
    ensures PlainCaseName("x")
  {
    assert "x"[0] == 'x' && !IsSpace('x');
  }

  lemma XCaseIsParsed(entries: seq<Entry>, wrapper: string, folder: string, input: string, output: string)
    requires |entries| == 2 && |input| <= MAX_FILE && |output| <= MAX_FILE
    requires entries[0].size == |input| && entries[0].content == Some(input)
    requires entries[1].size == |output| && entries[1].content == Some(output)
    requires Locate(entries[0], wrapper) == At([folder, "x.in"]) && Locate(entries[1], wrapper) == At([folder, "x.out"])
    ensures IsParsed(entries, wrapper, XCase(folder, input, output))
  {
    hide Locate, KindOf, BaseName, IsParsed;
    PairNames();
    PlaceInFolder(Own(folder, "x.in"));
    PlaceInFolder(Own(folder, "x.out"));
    assert [folder, "x.in"][0] == folder && [folder, "x.in"][1] == "x.in";
    assert [folder, "x.out"][0] == folder && [folder, "x.out"][1] == "x.out";
    PairIsParsed(entries, wrapper, folder, Own(folder, "x.in"), Own(folder, "x.out"), input, output);
  }

  /**
    The failing input: two names with a leading space parse as case `folder`; wrapped, they
    parse inside the folder as case " folder", which is what the import then gives.
  */
  lemma SpacedPairChanges(w: string, folder: string, input: string, output: string)
    requires CleanFolder(w) && CleanFolder(folder) && folder != "files" && |input| <= MAX_FILE && |output| <= MAX_FILE
    ensures IsParsed(SpacedPair(folder, input, output), "", XCase(folder, input, output))
    ensures IsParsed(WrapAll(w, SpacedPair(folder, input, output)), w, XCase(" " + folder, input, output))
    ensures !ParsesAs(WrapAll(w, SpacedPair(folder, input, output)), "")
    ensures XCase(" " + folder, input, output) != XCase(folder, input, output)
  {
    hide NormalizedPath, KindOf, BaseName, IsParsed, PlaceOf, ParsesAs;
    var a := SpacedPair(folder, input, output);
    var b := WrapAll(w, a);
    PairNames();
    assert " " + folder + "/" + "x.in" == a[0].name && " " + folder + "/" + "x.out" == a[1].name;
    LeadingSpaceChangesFolder(w, folder, "x.in");
    LeadingSpaceChangesFolder(w, folder, "x.out");
    assert [folder, "x.in"][1] == "x.in" && [folder, "x.out"][1] == "x.out";
    var x, y := [w, " " + folder, "x.in"], [w, " " + folder, "x.out"];
    assert x[2] == "x.in" && y[2] == "x.out" && x[1..] == [" " + folder, "x.in"] && y[1..] == [" " + folder, "x.out"];
    XCaseIsParsed(a, "", folder, input, output);
    XCaseIsParsed(b, w, " " + folder, input, output);
    PlaceInFolder(Own(folder, "x.in"));
    assert CaseSlot(a[0], "") == Some(Own(folder, "x.in"));
    CaseFolderFails(w, a, XCase(folder, input, output), 0);
    assert |" " + folder| > |folder|;
  }
}
