/**
  What a parsed archive does not depend on, and what it does not lose: the order of the
  entries is irrelevant, and every file has exactly one use.
*/
module BatchOrder {
  import opened Wrappers
  import opened Sorting
  import opened BatchLayout
  import opened BatchGroups
  import opened BatchArchive
  import opened BatchReading

  ghost predicate SameSlot(e: Entry, f: Entry, wrapper: string) {
    CaseSlot(e, wrapper).Some? && CaseSlot(e, wrapper) == CaseSlot(f, wrapper)
  }

  /** No two entries have one path that belongs to a case with different contents. */
  ghost predicate NoConflict(entries: seq<Entry>, wrapper: string) {
    forall e, f :: e in entries && f in entries && SameSlot(e, f, wrapper) ==> e.content.GetOr("") == f.content.GetOr("")
  }

  // --- one use for every file -----------------------------------------------------------------

  ghost predicate Holder(entries: seq<Entry>, wrapper: string, s: Slot, data: string) {
    exists e :: e in entries && CaseSlot(e, wrapper) == Some(s) && e.content.GetOr("") == data
  }

  /** The files are the contents of the entries, each at its slot. */
  lemma {:induction false} FilesAreEntries(entries: seq<Entry>, wrapper: string)
    requires NoConflict(entries, wrapper)
    ensures forall s, d :: (s in FilesOf(entries, wrapper) && FilesOf(entries, wrapper)[s] == d) <==> Holder(entries, wrapper, s, d)
  {
    hide CaseSlot;
    if entries != [] {
      var before, last := entries[..|entries| - 1], entries[|entries| - 1];
      assert entries == before + [last];
      FilesAreEntries(before, wrapper);
      forall s, d
        ensures (s in FilesOf(entries, wrapper) && FilesOf(entries, wrapper)[s] == d) <==> Holder(entries, wrapper, s, d)
      {
        assert Holder(entries, wrapper, s, d) <==>
          Holder(before, wrapper, s, d) || (CaseSlot(last, wrapper) == Some(s) && last.content.GetOr("") == d);
        if CaseSlot(last, wrapper) == Some(s) {
          assert last in entries;
          assert Holder(before, wrapper, s, d) ==> last.content.GetOr("") == d;
        }
      }
    }
  }

  /** What a case makes of a file. */
  ghost predicate IsUsedBy(c: Case, s: Slot, data: string) {
    match PlaceOf(s)
    case Some(Input(n)) => c.folder == n && c.inputName == s.name && c.inputData == data
    case Some(Output(n)) => c.folder == n && c.outputName == s.name && c.outputData == data
    case Some(Extra(n, name)) => c.folder == n && ExtraFile(name, data) in c.extras
    case _ => false
  }

  lemma ExtraKeepsName(s: Slot)
    requires PlaceOf(s).Some? && PlaceOf(s).value.Extra?
    ensures PlaceOf(s).value.name == s.name
  {
    hide KindOf, BaseName;
  }

  lemma CaseUsesItsFile(files: Files, c: Case, s: Slot)
    requires Placed(files) && NoClash(files) && IsCaseOf(files, c) && s in files && PlaceOf(s).value.of == c.folder
    ensures IsUsedBy(c, s, files[s])
  {
    hide KindOf, BaseName, PlaceOf;
    var place := PlaceOf(s).value;
    match place {
      case Input(n) =>
        assert Gives(files, Input(n), s.name, files[s]);
        GivesOnce(files, Input(n), c.inputName, c.inputData, s.name, files[s]);
      case Output(n) =>
        assert Gives(files, Output(n), s.name, files[s]);
        GivesOnce(files, Output(n), c.outputName, c.outputData, s.name, files[s]);
      case Extra(n, name) =>
        ExtraKeepsName(s);
        var e := ExtraFile(name, files[s]);
        assert Gives(files, Extra(n, e.name), e.name, e.data);
        assert e in c.extras;
      case Ignored(_) =>
    }
  }

  /** Every file of a parsed archive is used by exactly one case: as its input, its output or one extra. */
  lemma EveryFileIsUsedOnce(files: Files, cases: seq<Case>, s: Slot) returns (i: nat)
    requires IsParseOf(files, cases) && s in files
    ensures i < |cases| && IsUsedBy(cases[i], s, files[s])
    ensures forall j :: 0 <= j < |cases| && j != i ==> !IsUsedBy(cases[j], s, files[s])
  {
    hide KindOf, BaseName, PlaceOf;
    var n := PlaceOf(s).value.of;
    CaseNameOf(files, s);
    assert n in Folders(cases);
    i :| 0 <= i < |cases| && Folders(cases)[i] == n;
    CaseUsesItsFile(files, cases[i], s);
    forall j | 0 <= j < |cases| && j != i ensures cases[j].folder != n {
      assert Folders(cases)[j] != Folders(cases)[i];
    }
  }

  /**
    A successful direct parse loses nothing: every file that is not metadata is an ignored
    root file, or the input, the output or an extra of exactly one case.
  */
  lemma NothingIsLost(entries: seq<Entry>, p: Parsed, e: Entry)
    requires IsParsed(entries, "", p) && NoConflict(entries, "") && e in entries && Locate(e, "").At?
    ensures IgnoredName(e, "").Some? || CaseSlot(e, "").Some?
    ensures IgnoredName(e, "").Some? ==> CaseSlot(e, "").None? && IgnoredName(e, "").value in p.ignored
    ensures CaseSlot(e, "").Some? ==>
      exists i :: 0 <= i < |p.cases| && IsUsedBy(p.cases[i], CaseSlot(e, "").value, e.content.GetOr(""))
        && forall j :: 0 <= j < |p.cases| && j != i ==> !IsUsedBy(p.cases[j], CaseSlot(e, "").value, e.content.GetOr(""))
  {
    hide KindOf, BaseName, Parses, IsParseOf, Locate, PlaceOf;
    var k :| 0 <= k < |entries| && entries[k] == e;
    assert !IsBroken(entries[k], "");
    if IgnoredName(e, "").Some? {
      IgnoredIsListed(entries, "", e);
      assert IgnoredName(e, "").value in multiset(IgnoredOf(entries, ""));
    } else {
      var files, s := FilesOf(entries, ""), CaseSlot(e, "").value;
      FilesAreEntries(entries, "");
      assert Holder(entries, "", s, e.content.GetOr(""));
      var i := EveryFileIsUsedOnce(files, p.cases, s);
    }
  }

  /** An entry with this place has this content. */
  ghost predicate ComesFrom(entries: seq<Entry>, place: Place, data: string) {
    exists e :: e in entries && PlaceIn(e, "") == Some(place) && e.content.GetOr("") == data
  }

  lemma GivenComesFrom(entries: seq<Entry>, place: Place, name: string, data: string)
    requires NoConflict(entries, "") && Gives(FilesOf(entries, ""), place, name, data)
    ensures ComesFrom(entries, place, data)
  {
    hide Locate, SlotOf, PlaceOf;
    var files := FilesOf(entries, "");
    var s :| s in files && PlaceOf(s) == Some(place) && s.name == name && files[s] == data;
    FilesAreEntries(entries, "");
    assert Holder(entries, "", s, data);
  }

  /** And it invents nothing: every input, output and extra is the content of an entry in its place. */
  lemma NothingIsInvented(entries: seq<Entry>, p: Parsed, i: nat)
    requires IsParsed(entries, "", p) && NoConflict(entries, "") && i < |p.cases|
    ensures var c := p.cases[i];
      && ComesFrom(entries, Input(c.folder), c.inputData)
      && ComesFrom(entries, Output(c.folder), c.outputData)
      && forall x: ExtraFile :: x in c.extras ==> ComesFrom(entries, Extra(c.folder, x.name), x.data)
  {
    hide Parses, FilesOf, PlaceIn, PlaceOf, NoConflict, ComesFrom, Gives, AnyBroken, AllReadable;
    var c := p.cases[i];
    assert IsCaseOf(FilesOf(entries, ""), c);
    GivenComesFrom(entries, Input(c.folder), c.inputName, c.inputData);
    GivenComesFrom(entries, Output(c.folder), c.outputName, c.outputData);
    forall x: ExtraFile | x in c.extras ensures ComesFrom(entries, Extra(c.folder, x.name), x.data) {
      GivenComesFrom(entries, Extra(c.folder, x.name), x.name, x.data);
    }
  }

  lemma {:induction false} IgnoredIsListed(entries: seq<Entry>, wrapper: string, e: Entry)
    requires e in entries && IgnoredName(e, wrapper).Some?
    ensures IgnoredName(e, wrapper).value in IgnoredOf(entries, wrapper)
  {
    hide IgnoredName;
    if entries[|entries| - 1] != e {
      IgnoredIsListed(entries[..|entries| - 1], wrapper, e);
    }
  }

  // --- the order of the entries ------------------------------------------------------------------

  function Without(entries: seq<Entry>, i: nat): seq<Entry>
    requires i < |entries|
  {
    entries[..i] + entries[i + 1..]
  }

  lemma WithoutEarlier(entries: seq<Entry>, i: nat)
    requires i < |entries| - 1
    ensures var n, shorter := |entries| - 1, Without(entries, i);
      |shorter| == n && shorter[..n - 1] == Without(entries[..n], i) && shorter[n - 1] == entries[n] && entries[..n][i] == entries[i]
  {
  }

  lemma {:induction false} OneLessSize(entries: seq<Entry>, wrapper: string, i: nat)
    requires i < |entries|
    ensures SizeOf(entries, wrapper) ==
      SizeOf(Without(entries, i), wrapper) + (if Locate(entries[i], wrapper).At? then entries[i].size else 0)
  {
    hide Locate, Without;
    var n := |entries| - 1;
    if i == n {
      WithoutLast(entries);
    } else {
      WithoutEarlier(entries, i);
      OneLessSize(entries[..n], wrapper, i);
    }
  }

  lemma WithoutLast(entries: seq<Entry>)
    requires entries != []
    ensures Without(entries, |entries| - 1) == entries[..|entries| - 1]
  {
  }

  ghost function IgnoredBag(e: Entry, wrapper: string): multiset<string> {
    if IgnoredName(e, wrapper).Some? then multiset{IgnoredName(e, wrapper).value} else multiset{}
  }

  lemma IgnoredGrows(entries: seq<Entry>, wrapper: string)
    requires entries != []
    ensures multiset(IgnoredOf(entries, wrapper)) ==
      multiset(IgnoredOf(entries[..|entries| - 1], wrapper)) + IgnoredBag(entries[|entries| - 1], wrapper)
  {
    hide IgnoredName;
  }

  lemma {:induction false} OneLessIgnored(entries: seq<Entry>, wrapper: string, i: nat)
    requires i < |entries|
    ensures multiset(IgnoredOf(entries, wrapper)) ==
      multiset(IgnoredOf(Without(entries, i), wrapper)) + IgnoredBag(entries[i], wrapper)
  {
    hide IgnoredName, IgnoredBag, IgnoredOf, Without;
    var n := |entries| - 1;
    IgnoredGrows(entries, wrapper);
    if i == n {
      WithoutLast(entries);
    } else {
      WithoutEarlier(entries, i);
      OneLessIgnored(entries[..n], wrapper, i);
      IgnoredGrows(Without(entries, i), wrapper);
    }
  }

  lemma WithoutBag(entries: seq<Entry>, i: nat)
    requires i < |entries|
    ensures multiset(Without(entries, i)) == multiset(entries) - multiset{entries[i]}
  {
    assert entries == entries[..i] + [entries[i]] + entries[i + 1..];
  }

  lemma {:induction false} SameSums(a: seq<Entry>, b: seq<Entry>, wrapper: string)
    requires multiset(a) == multiset(b)
    ensures |a| == |b| && SizeOf(a, wrapper) == SizeOf(b, wrapper)
    ensures multiset(IgnoredOf(a, wrapper)) == multiset(IgnoredOf(b, wrapper))
  {
    hide Locate, IgnoredName, IgnoredBag, IgnoredOf, SizeOf;
    assert |a| == |multiset(a)| == |multiset(b)| == |b|;
    if a != [] {
      var n := |a| - 1;
      SameMembers(a, b);
      assert a[n] in a;
      var i :| 0 <= i < |b| && b[i] == a[n];
      OneLessSize(a, wrapper, n);
      OneLessSize(b, wrapper, i);
      OneLessIgnored(a, wrapper, n);
      OneLessIgnored(b, wrapper, i);
      WithoutBag(a, n);
      WithoutBag(b, i);
      SameSums(Without(a, n), Without(b, i), wrapper);
    }
  }

  lemma SameMembers(a: seq<Entry>, b: seq<Entry>)
    requires multiset(a) == multiset(b)
    ensures forall e :: e in a <==> e in b
  {
    assert forall e :: e in a <==> e in multiset(a);
    assert forall e :: e in b <==> e in multiset(b);
  }

  lemma SameFiles(a: seq<Entry>, b: seq<Entry>, wrapper: string)
    requires (forall e :: e in a <==> e in b) && NoConflict(a, wrapper)
    ensures NoConflict(b, wrapper) && FilesOf(a, wrapper) == FilesOf(b, wrapper)
  {
    hide CaseSlot;
    FilesAreEntries(a, wrapper);
    FilesAreEntries(b, wrapper);
    var fa, fb := FilesOf(a, wrapper), FilesOf(b, wrapper);
    forall s, d ensures Holder(a, wrapper, s, d) <==> Holder(b, wrapper, s, d) {
    }
    forall s ensures s in fa <==> s in fb {
      if s in fa {
        assert Holder(a, wrapper, s, fa[s]);
      }
      if s in fb {
        assert Holder(b, wrapper, s, fb[s]);
      }
    }
    forall s | s in fa ensures fa[s] == fb[s] {
      assert Holder(a, wrapper, s, fa[s]);
    }
  }

  lemma SameFlags(a: seq<Entry>, b: seq<Entry>, wrapper: string)
    requires forall e :: e in a <==> e in b
    ensures AllReadable(a, wrapper) ==> AllReadable(b, wrapper)
    ensures AnyBroken(a, wrapper) ==> AnyBroken(b, wrapper)
  {
    hide CaseSlot, IsBroken, Readable;
    if AllReadable(a, wrapper) {
      forall i | 0 <= i < |b| && CaseSlot(b[i], wrapper).Some? ensures Readable(b[i]) {
        assert b[i] in a;
        var j :| 0 <= j < |a| && a[j] == b[i];
      }
    }
    if AnyBroken(a, wrapper) {
      var i :| 0 <= i < |a| && IsBroken(a[i], wrapper);
      assert a[i] in b;
      var j :| 0 <= j < |b| && b[j] == a[i];
    }
  }

  /** Permuting the entries of an archive gives the same cases and the same ignored list. */
  lemma EntryOrderIsIrrelevant(a: seq<Entry>, b: seq<Entry>, wrapper: string, p: Parsed)
    requires multiset(a) == multiset(b) && NoConflict(a, wrapper)
    ensures ParsesAs(a, wrapper) <==> ParsesAs(b, wrapper)
    ensures IsParsed(a, wrapper, p) <==> IsParsed(b, wrapper, p)
  {
    hide Parses, IsParseOf, FilesOf, IgnoredOf, SizeOf, AllReadable, AnyBroken, NoConflict;
    SameMembers(a, b);
    SameSums(a, b, wrapper);
    SameFiles(a, b, wrapper);
    SameFlags(a, b, wrapper);
    SameFlags(b, a, wrapper);
  }
}
