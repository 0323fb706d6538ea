/**
  The groups an archive's files are kept in before they become cases
  (batchArchiveEntries, backend/services/test-cases-batch-service.go), and why checking the
  groups name by name decides whether the files are a list of cases.
*/
module BatchGroups {
  import opened Wrappers
  import opened Sorting
  import opened BatchLayout

  /** A folder's files by name. */
  type Folder = map<string, string>

  datatype Groups = Groups(
    folders: map<string, Folder>, extraFolders: map<string, Folder>, rootFiles: map<string, string>)

  function FolderOf(m: map<string, Folder>, name: string): Folder {
    if name in m then m[name] else map[]
  }

  /** The groups hold exactly `files`. */
  ghost predicate Grouped(files: Files, g: Groups) {
    && Placed(files)
    && (forall n :: n in g.rootFiles <==> Root(n) in files)
    && (forall n :: n in g.rootFiles ==> g.rootFiles[n] == files[Root(n)])
    && (forall f, n :: n in FolderOf(g.folders, f) <==> Own(f, n) in files)
    && (forall f, n :: n in FolderOf(g.folders, f) ==> FolderOf(g.folders, f)[n] == files[Own(f, n)])
    && (forall f, n :: n in FolderOf(g.extraFolders, f) <==> Under(f, n) in files)
    && (forall f, n :: n in FolderOf(g.extraFolders, f) ==> FolderOf(g.extraFolders, f)[n] == files[Under(f, n)])
    && (forall f :: f in g.folders ==> g.folders[f] != map[])
    && (forall f :: f in g.extraFolders ==> g.extraFolders[f] != map[])
  }

  /** The root files of one kind, by base name. */
  ghost predicate PairedBy(roots: Folder, kind: Kind, m: map<string, string>) {
    && (forall n :: n in roots && KindOf(n) == kind ==> BaseName(n) in m)
    && (forall b :: b in m ==> m[b] in roots && KindOf(m[b]) == kind && BaseName(m[b]) == b)
  }

  ghost predicate RootsDistinct(roots: Folder) {
    forall a, b :: a in roots && b in roots && KindOf(a) == KindOf(b) && BaseName(a) == BaseName(b) ==> a == b
  }

  ghost predicate IsOnly(own: Folder, kind: Kind, name: string) {
    name in own && KindOf(name) == kind && forall n :: n in own && KindOf(n) == kind ==> n == name
  }

  ghost predicate HasOnly(own: Folder, kind: Kind) {
    exists name :: IsOnly(own, kind, name)
  }

  /** One input, one output, and no name both in the folder and in its files/. */
  ghost predicate FolderOk(own: Folder, extra: Folder) {
    HasOnly(own, In) && HasOnly(own, Out) && own.Keys !! extra.Keys
  }

  ghost predicate NameOk(g: Groups, inputs: map<string, string>, outputs: map<string, string>, n: string) {
    if n in g.folders then n !in inputs && n !in outputs && FolderOk(g.folders[n], FolderOf(g.extraFolders, n))
    else n in inputs && n in outputs
  }

  ghost predicate Accepted(g: Groups, inputs: map<string, string>, outputs: map<string, string>) {
    && RootsDistinct(g.rootFiles)
    && g.extraFolders.Keys <= g.folders.Keys
    && 0 < |Names(g, inputs, outputs)| <= MAX_CASES
    && forall n :: n in Names(g, inputs, outputs) ==> NameOk(g, inputs, outputs, n)
  }

  lemma FolderHasAFile(files: Files, g: Groups, f: string) returns (n: string)
    requires Grouped(files, g) && f in g.folders
    ensures Own(f, n) in files && n in g.folders[f]
  {
    assert g.folders[f].Keys != {};
    n :| n in g.folders[f].Keys;
    assert n in FolderOf(g.folders, f);
  }

  lemma ExtraFolderHasAFile(files: Files, g: Groups, f: string) returns (n: string)
    requires Grouped(files, g) && f in g.extraFolders
    ensures Under(f, n) in files && n in g.extraFolders[f]
  {
    assert g.extraFolders[f].Keys != {};
    n :| n in g.extraFolders[f].Keys;
    assert n in FolderOf(g.extraFolders, f);
  }

  lemma CaseNameOf(files: Files, s: Slot)
    requires Placed(files) && s in files
    ensures PlaceOf(s).value.of in CaseNames(files)
    ensures !s.Root? ==> PlaceOf(s).value.of == s.folder
  {
  }

  lemma RootBelongsToAName(roots: Folder, inputs: map<string, string>, outputs: map<string, string>, n: string)
    requires PairedBy(roots, In, inputs) && PairedBy(roots, Out, outputs) && n in roots
    requires PlaceOf(Root(n)).Some? && !PlaceOf(Root(n)).value.Ignored?
    ensures PlaceOf(Root(n)).value.of in inputs.Keys + outputs.Keys
  {
    hide KindOf, BaseName;
  }

  lemma FileBelongsToAName(
      files: Files, g: Groups, inputs: map<string, string>, outputs: map<string, string>, s: Slot)
    requires Grouped(files, g) && PairedBy(g.rootFiles, In, inputs) && PairedBy(g.rootFiles, Out, outputs) && s in files
    ensures PlaceOf(s).value.of in g.folders.Keys + inputs.Keys + outputs.Keys + g.extraFolders.Keys
  {
    hide KindOf, BaseName;
    if s.Root? {
      RootBelongsToAName(g.rootFiles, inputs, outputs, s.name);
    } else {
      FolderOfFile(files, g, s);
    }
  }

  lemma FolderOfFile(files: Files, g: Groups, s: Slot)
    requires Grouped(files, g) && s in files && !s.Root?
    ensures s.folder in g.folders.Keys + g.extraFolders.Keys
    ensures s.Own? ==> s.folder in g.folders && s.name in g.folders[s.folder] && g.folders[s.folder][s.name] == files[s]
    ensures s.Under? ==>
      s.folder in g.extraFolders && s.name in g.extraFolders[s.folder] && g.extraFolders[s.folder][s.name] == files[s]
  {
    if s.Own? {
      assert s.name in FolderOf(g.folders, s.folder);
    } else {
      assert s.name in FolderOf(g.extraFolders, s.folder);
    }
  }

  lemma GroupNamesAreCaseNames(files: Files, g: Groups)
    requires Grouped(files, g)
    ensures g.folders.Keys <= CaseNames(files) && g.extraFolders.Keys <= CaseNames(files)
  {
    forall n | n in g.folders ensures n in CaseNames(files) {
      var f := FolderHasAFile(files, g, n);
      CaseNameOf(files, Own(n, f));
    }
    forall n | n in g.extraFolders ensures n in CaseNames(files) {
      var f := ExtraFolderHasAFile(files, g, n);
      CaseNameOf(files, Under(n, f));
    }
  }

  lemma PairNamesAreCaseNames(files: Files, g: Groups, kind: Kind, m: map<string, string>)
    requires Grouped(files, g) && PairedBy(g.rootFiles, kind, m) && kind != Other
    ensures m.Keys <= CaseNames(files)
  {
    forall n | n in m ensures n in CaseNames(files) {
      CaseNameOf(files, Root(m[n]));
    }
  }

  lemma NamesAreCaseNames(files: Files, g: Groups, inputs: map<string, string>, outputs: map<string, string>)
    requires Grouped(files, g) && PairedBy(g.rootFiles, In, inputs) && PairedBy(g.rootFiles, Out, outputs)
    ensures CaseNames(files) == g.folders.Keys + inputs.Keys + outputs.Keys + g.extraFolders.Keys
  {
    GroupNamesAreCaseNames(files, g);
    PairNamesAreCaseNames(files, g, In, inputs);
    PairNamesAreCaseNames(files, g, Out, outputs);
    forall n | n in CaseNames(files) ensures n in g.folders.Keys + inputs.Keys + outputs.Keys + g.extraFolders.Keys {
      var s :| s in files && PlaceOf(s).value.of == n;
      FileBelongsToAName(files, g, inputs, outputs, s);
    }
  }

  // --- acceptance means the files are cases -------------------------------------------------

  lemma RootPlace(files: Files, g: Groups, inputs: map<string, string>, outputs: map<string, string>, s: Slot)
    requires Grouped(files, g) && PairedBy(g.rootFiles, In, inputs) && PairedBy(g.rootFiles, Out, outputs)
    requires s in files && s.Root?
    ensures var place := PlaceOf(s).value;
      (place.Input? && KindOf(s.name) == In && BaseName(s.name) == place.of && place.of in inputs)
      || (place.Output? && KindOf(s.name) == Out && BaseName(s.name) == place.of && place.of in outputs)
  {
    hide KindOf, BaseName;
  }

  lemma AcceptedNotBoth(files: Files, g: Groups, inputs: map<string, string>, outputs: map<string, string>)
    requires Grouped(files, g) && PairedBy(g.rootFiles, In, inputs) && PairedBy(g.rootFiles, Out, outputs)
    requires Accepted(g, inputs, outputs)
    ensures NotBoth(files)
  {
    hide KindOf, BaseName;
    forall s, t | s in files && t in files && s.Root? && !t.Root? ensures PlaceOf(s).value.of != t.folder {
      RootPlace(files, g, inputs, outputs, s);
      FolderOfFile(files, g, t);
      assert NameOk(g, inputs, outputs, t.folder);
    }
  }

  lemma OnlyOne(own: Folder, kind: Kind, a: string, b: string)
    requires HasOnly(own, kind) && a in own && b in own && KindOf(a) == KindOf(b) == kind
    ensures a == b
  {
    hide KindOf;
    var n :| IsOnly(own, kind, n);
  }

  /** A file's place tells its folder, and its kind unless it is an extra. */
  lemma PlaceInFolder(s: Slot)
    requires !s.Root?
    ensures PlaceOf(s).Some? && !PlaceOf(s).value.Ignored? && PlaceOf(s).value.of == s.folder
    ensures PlaceOf(s).value.Input? <==> s.Own? && KindOf(s.name) == In
    ensures PlaceOf(s).value.Output? <==> s.Own? && KindOf(s.name) == Out
    ensures PlaceOf(s).value.Extra? ==> PlaceOf(s).value.name == s.name
  {
    hide KindOf, BaseName;
  }

  lemma AcceptedFolder(files: Files, g: Groups, inputs: map<string, string>, outputs: map<string, string>, s: Slot)
    requires Grouped(files, g) && Accepted(g, inputs, outputs) && s in files && !s.Root?
    ensures s.folder in g.folders && s.folder !in inputs && s.folder !in outputs
    ensures FolderOk(g.folders[s.folder], FolderOf(g.extraFolders, s.folder))
  {
    hide KindOf, BaseName;
    FolderOfFile(files, g, s);
    assert NameOk(g, inputs, outputs, s.folder);
  }

  lemma AcceptedInFolder(files: Files, g: Groups, inputs: map<string, string>, outputs: map<string, string>, s: Slot, t: Slot)
    requires Grouped(files, g) && Accepted(g, inputs, outputs)
    requires s in files && t in files && s.Own? && !t.Root? && PlaceOf(s) == PlaceOf(t)
    ensures s == t
  {
    hide KindOf, BaseName, PlaceOf, Accepted;
    PlaceInFolder(s);
    PlaceInFolder(t);
    AcceptedFolder(files, g, inputs, outputs, s);
    FolderOfFile(files, g, s);
    FolderOfFile(files, g, t);
    var own := g.folders[s.folder];
    if PlaceOf(s).value.Input? {
      OnlyOne(own, In, s.name, t.name);
    } else if PlaceOf(s).value.Output? {
      OnlyOne(own, Out, s.name, t.name);
    }
  }

  lemma AcceptedOnePlace(files: Files, g: Groups, inputs: map<string, string>, outputs: map<string, string>, s: Slot, t: Slot)
    requires Grouped(files, g) && PairedBy(g.rootFiles, In, inputs) && PairedBy(g.rootFiles, Out, outputs)
    requires Accepted(g, inputs, outputs) && s in files && t in files && PlaceOf(s) == PlaceOf(t)
    ensures s == t
  {
    hide KindOf, BaseName, PlaceOf;
    if s.Root? {
      RootPlace(files, g, inputs, outputs, s);
      if t.Root? {
        RootPlace(files, g, inputs, outputs, t);
      } else {
        AcceptedFolder(files, g, inputs, outputs, t);
        PlaceInFolder(t);
      }
    } else if t.Root? {
      RootPlace(files, g, inputs, outputs, t);
      AcceptedFolder(files, g, inputs, outputs, s);
      PlaceInFolder(s);
    } else if s.Own? {
      AcceptedInFolder(files, g, inputs, outputs, s, t);
    } else if t.Own? {
      AcceptedInFolder(files, g, inputs, outputs, t, s);
    } else {
      PlaceInFolder(s);
      PlaceInFolder(t);
    }
  }

  lemma AcceptedNotTwice(files: Files, g: Groups, inputs: map<string, string>, outputs: map<string, string>, f: string, n: string)
    requires Grouped(files, g) && Accepted(g, inputs, outputs) && Own(f, n) in files
    ensures Under(f, n) !in files
  {
    hide KindOf, BaseName, PlaceOf, Accepted;
    AcceptedFolder(files, g, inputs, outputs, Own(f, n));
    FolderOfFile(files, g, Own(f, n));
    assert n !in FolderOf(g.extraFolders, f);
  }

  lemma AcceptedNoClash(files: Files, g: Groups, inputs: map<string, string>, outputs: map<string, string>)
    requires Grouped(files, g) && PairedBy(g.rootFiles, In, inputs) && PairedBy(g.rootFiles, Out, outputs)
    requires Accepted(g, inputs, outputs)
    ensures NoClash(files)
  {
    hide KindOf, BaseName, PlaceOf, Accepted, PairedBy, Grouped;
    forall s, t | s in files && t in files && PlaceOf(s) == PlaceOf(t) ensures s == t {
      AcceptedOnePlace(files, g, inputs, outputs, s, t);
    }
    forall f, n | Own(f, n) in files ensures Under(f, n) !in files {
      AcceptedNotTwice(files, g, inputs, outputs, f, n);
    }
  }

  lemma AcceptedHoldsBoth(
      files: Files, g: Groups, inputs: map<string, string>, outputs: map<string, string>, n: string)
    requires Grouped(files, g) && PairedBy(g.rootFiles, In, inputs) && PairedBy(g.rootFiles, Out, outputs)
    requires NameOk(g, inputs, outputs, n)
    ensures Holds(files, Input(n)) && Holds(files, Output(n))
  {
    hide KindOf, BaseName;
    if n in g.folders {
      var own := FolderOf(g.folders, n);
      var i :| IsOnly(own, In, i);
      var o :| IsOnly(own, Out, o);
      assert Own(n, i) in files && PlaceOf(Own(n, i)) == Some(Input(n));
      assert Own(n, o) in files && PlaceOf(Own(n, o)) == Some(Output(n));
    } else {
      assert Root(inputs[n]) in files && Root(outputs[n]) in files;
      assert PlaceOf(Root(inputs[n])) == Some(Input(n)) && PlaceOf(Root(outputs[n])) == Some(Output(n));
    }
  }

  ghost function Names(g: Groups, inputs: map<string, string>, outputs: map<string, string>): set<string> {
    g.folders.Keys + inputs.Keys + outputs.Keys
  }

  lemma NamesWithExtras(files: Files, g: Groups, inputs: map<string, string>, outputs: map<string, string>)
    requires Grouped(files, g) && PairedBy(g.rootFiles, In, inputs) && PairedBy(g.rootFiles, Out, outputs)
    requires g.extraFolders.Keys <= g.folders.Keys
    ensures CaseNames(files) == Names(g, inputs, outputs)
  {
    hide PairedBy, PlaceOf;
    NamesAreCaseNames(files, g, inputs, outputs);
  }

  /** Groups that are accepted name by name hold the files of a list of cases. */
  lemma AcceptedParses(files: Files, g: Groups, inputs: map<string, string>, outputs: map<string, string>)
    requires Grouped(files, g) && PairedBy(g.rootFiles, In, inputs) && PairedBy(g.rootFiles, Out, outputs)
    requires Accepted(g, inputs, outputs)
    ensures Parses(files)
  {
    hide KindOf, BaseName, PlaceOf, PairedBy, NameOk, NoClash, NotBoth, Holds;
    AcceptedNoClash(files, g, inputs, outputs);
    AcceptedNotBoth(files, g, inputs, outputs);
    NamesWithExtras(files, g, inputs, outputs);
    forall n | n in CaseNames(files) ensures Holds(files, Input(n)) && Holds(files, Output(n)) {
      AcceptedHoldsBoth(files, g, inputs, outputs, n);
    }
  }

  // --- and the other way round -----------------------------------------------------------------

  lemma ParsedRootsDistinct(files: Files, g: Groups)
    requires Grouped(files, g) && Parses(files)
    ensures RootsDistinct(g.rootFiles)
  {
    hide KindOf, BaseName;
    forall a, b | a in g.rootFiles && b in g.rootFiles && KindOf(a) == KindOf(b) && BaseName(a) == BaseName(b) ensures a == b {
      assert Root(a) in files && Root(b) in files;
      assert PlaceOf(Root(a)) == PlaceOf(Root(b));
    }
  }

  /** A folder's case has its input and output in the folder itself. */
  lemma ParsedFolderHolds(files: Files, g: Groups, folder: string, t: Slot) returns (i: string, o: string)
    requires Grouped(files, g) && Parses(files) && t in files && !t.Root? && t.folder == folder
    ensures Own(folder, i) in files && KindOf(i) == In && Own(folder, o) in files && KindOf(o) == Out
  {
    hide KindOf, BaseName;
    CaseNameOf(files, t);
    assert Holds(files, Input(folder)) && Holds(files, Output(folder));
    var a :| a in files && PlaceOf(a) == Some(Input(folder));
    var b :| b in files && PlaceOf(b) == Some(Output(folder));
    i, o := a.name, b.name;
  }

  lemma ParsedFolderOk(files: Files, g: Groups, folder: string)
    requires Grouped(files, g) && Parses(files) && folder in g.folders
    ensures FolderOk(g.folders[folder], FolderOf(g.extraFolders, folder))
  {
    hide KindOf, BaseName;
    var first := FolderHasAFile(files, g, folder);
    var i, o := ParsedFolderHolds(files, g, folder, Own(folder, first));
    var own := FolderOf(g.folders, folder);
    forall n | n in own && KindOf(n) == In ensures n == i {
      assert PlaceOf(Own(folder, n)) == PlaceOf(Own(folder, i));
    }
    forall n | n in own && KindOf(n) == Out ensures n == o {
      assert PlaceOf(Own(folder, n)) == PlaceOf(Own(folder, o));
    }
    assert IsOnly(own, In, i) && IsOnly(own, Out, o);
    forall n | n in own ensures n !in FolderOf(g.extraFolders, folder) {
      assert Own(folder, n) in files;
    }
  }

  lemma PairedNameIsNoFolder(files: Files, g: Groups, kind: Kind, m: map<string, string>, n: string)
    requires Grouped(files, g) && PairedBy(g.rootFiles, kind, m) && NotBoth(files) && n in m
    ensures n !in g.folders
  {
    hide KindOf, BaseName;
    assert Root(m[n]) in files && PlaceOf(Root(m[n])).value.of == n;
    forall f | f in g.folders ensures exists t :: t in files && t.Own? && t.folder == f {
      var x := FolderHasAFile(files, g, f);
      assert Own(f, x) in files;
    }
  }

  lemma ParsedPair(files: Files, g: Groups, inputs: map<string, string>, outputs: map<string, string>, n: string, a: Slot)
    requires Grouped(files, g) && PairedBy(g.rootFiles, In, inputs) && PairedBy(g.rootFiles, Out, outputs)
    requires n !in g.folders && a in files
    ensures PlaceOf(a) == Some(Input(n)) ==> n in inputs
    ensures PlaceOf(a) == Some(Output(n)) ==> n in outputs
  {
    hide KindOf, BaseName, PlaceOf;
    if a.Root? {
      RootPlace(files, g, inputs, outputs, a);
    } else {
      PlaceInFolder(a);
      FolderOfFile(files, g, a);
    }
  }

  lemma ParsedNameOk(files: Files, g: Groups, inputs: map<string, string>, outputs: map<string, string>, n: string)
    requires Grouped(files, g) && PairedBy(g.rootFiles, In, inputs) && PairedBy(g.rootFiles, Out, outputs)
    requires Parses(files) && n in CaseNames(files)
    ensures NameOk(g, inputs, outputs, n)
  {
    hide KindOf, BaseName, PlaceOf, PairedBy, Grouped, NoClash, NotBoth;
    if n in g.folders {
      ParsedFolderOk(files, g, n);
      if n in inputs {
        PairedNameIsNoFolder(files, g, In, inputs, n);
      }
      if n in outputs {
        PairedNameIsNoFolder(files, g, Out, outputs, n);
      }
    } else {
      assert Holds(files, Input(n)) && Holds(files, Output(n));
      var a :| a in files && PlaceOf(a) == Some(Input(n));
      var b :| b in files && PlaceOf(b) == Some(Output(n));
      ParsedPair(files, g, inputs, outputs, n, a);
      ParsedPair(files, g, inputs, outputs, n, b);
    }
  }

  lemma ParsedExtrasInFolders(files: Files, g: Groups)
    requires Grouped(files, g) && Parses(files)
    ensures g.extraFolders.Keys <= g.folders.Keys
  {
    hide KindOf, BaseName, PlaceOf, Parses;
    forall f | f in g.extraFolders ensures f in g.folders {
      var n := ExtraFolderHasAFile(files, g, f);
      var i, o := ParsedFolderHolds(files, g, f, Under(f, n));
      FolderOfFile(files, g, Own(f, i));
    }
  }

  lemma ParsedAccepted(files: Files, g: Groups, inputs: map<string, string>, outputs: map<string, string>)
    requires Grouped(files, g) && PairedBy(g.rootFiles, In, inputs) && PairedBy(g.rootFiles, Out, outputs)
    requires Parses(files)
    ensures Accepted(g, inputs, outputs)
  {
    hide KindOf, BaseName, PlaceOf, PairedBy, NameOk, RootsDistinct, NoClash, NotBoth, Holds;
    ParsedRootsDistinct(files, g);
    ParsedExtrasInFolders(files, g);
    NamesWithExtras(files, g, inputs, outputs);
    forall n | n in Names(g, inputs, outputs) ensures NameOk(g, inputs, outputs, n) {
      ParsedNameOk(files, g, inputs, outputs, n);
    }
  }

  /** Checking the groups name by name decides exactly whether the files are a list of cases. */
  lemma AcceptedIffParses(files: Files, g: Groups, inputs: map<string, string>, outputs: map<string, string>)
    requires Grouped(files, g) && PairedBy(g.rootFiles, In, inputs) && PairedBy(g.rootFiles, Out, outputs)
    ensures Accepted(g, inputs, outputs) <==> Parses(files)
  {
    if Accepted(g, inputs, outputs) {
      AcceptedParses(files, g, inputs, outputs);
    } else if Parses(files) {
      ParsedAccepted(files, g, inputs, outputs);
    }
  }

  // --- the cases themselves --------------------------------------------------------------------

  lemma NoExtrasWithoutFolder(files: Files, g: Groups, n: string)
    requires Grouped(files, g) && g.extraFolders.Keys <= g.folders.Keys && n !in g.folders
    ensures forall name :: !Holds(files, Extra(n, name))
  {
    hide KindOf, BaseName;
    forall s | s in files && !s.Root? ensures s.folder in g.folders {
      FolderOfFile(files, g, s);
    }
  }

  lemma RootPairGives(files: Files, g: Groups, kind: Kind, m: map<string, string>, n: string)
    requires Grouped(files, g) && PairedBy(g.rootFiles, kind, m) && n in m && kind != Other
    ensures Gives(files, if kind == In then Input(n) else Output(n), m[n], g.rootFiles[m[n]])
  {
    hide KindOf, BaseName;
    assert Root(m[n]) in files;
  }

  /** A root pair is a case without extras. */
  lemma RootPairIsCase(files: Files, g: Groups, inputs: map<string, string>, outputs: map<string, string>, n: string)
    requires Grouped(files, g) && PairedBy(g.rootFiles, In, inputs) && PairedBy(g.rootFiles, Out, outputs)
    requires g.extraFolders.Keys <= g.folders.Keys && n !in g.folders && n in inputs && n in outputs
    ensures inputs[n] in g.rootFiles && outputs[n] in g.rootFiles
    ensures IsCaseOf(files, Case(n, inputs[n], g.rootFiles[inputs[n]], outputs[n], g.rootFiles[outputs[n]], []))
  {
    hide KindOf, BaseName, PlaceOf, Grouped;
    NoExtrasWithoutFolder(files, g, n);
    RootPairGives(files, g, In, inputs, n);
    RootPairGives(files, g, Out, outputs, n);
    forall e: ExtraFile ensures !Gives(files, Extra(n, e.name), e.name, e.data) {
      assert !Holds(files, Extra(n, e.name));
    }
  }

  /** A folder's extras: its other files, and all of its files/. */
  ghost predicate IsExtra(own: Folder, extra: Folder, i: string, o: string, e: ExtraFile) {
    || (e.name in own && e.name != i && e.name != o && own[e.name] == e.data)
    || (e.name in extra && extra[e.name] == e.data)
  }

  lemma ExtraIsGiven(files: Files, g: Groups, n: string, i: string, o: string, e: ExtraFile)
    requires Grouped(files, g) && n in g.folders
    requires IsOnly(g.folders[n], In, i) && IsOnly(g.folders[n], Out, o)
    requires IsExtra(g.folders[n], FolderOf(g.extraFolders, n), i, o, e)
    ensures Gives(files, Extra(n, e.name), e.name, e.data)
  {
    hide KindOf, BaseName, PlaceOf;
    var own, extra := FolderOf(g.folders, n), FolderOf(g.extraFolders, n);
    if e.name in own && e.name != i && e.name != o && own[e.name] == e.data {
      PlaceInFolder(Own(n, e.name));
      assert Own(n, e.name) in files;
    } else {
      PlaceInFolder(Under(n, e.name));
      assert e.name in extra && Under(n, e.name) in files;
    }
  }

  lemma GivenIsExtra(files: Files, g: Groups, n: string, i: string, o: string, e: ExtraFile)
    requires Grouped(files, g) && n in g.folders
    requires IsOnly(g.folders[n], In, i) && IsOnly(g.folders[n], Out, o)
    requires Gives(files, Extra(n, e.name), e.name, e.data)
    ensures IsExtra(g.folders[n], FolderOf(g.extraFolders, n), i, o, e)
  {
    hide KindOf, BaseName, PlaceOf;
    var s :| s in files && PlaceOf(s) == Some(Extra(n, e.name)) && s.name == e.name && files[s] == e.data;
    assert !s.Root? by {
      ExtraIsNoRoot(s);
    }
    PlaceInFolder(s);
    FolderOfFile(files, g, s);
  }

  lemma ExtraIsNoRoot(s: Slot)
    requires PlaceOf(s).Some? && PlaceOf(s).value.Extra?
    ensures !s.Root?
  {
    hide KindOf, BaseName;
  }

  lemma FolderIsCase(files: Files, g: Groups, n: string, i: string, o: string, extras: seq<ExtraFile>)
    requires Grouped(files, g) && n in g.folders
    requires IsOnly(g.folders[n], In, i) && IsOnly(g.folders[n], Out, o)
    requires StrictlySorted(ExtraNames(extras))
    requires forall e: ExtraFile :: e in extras <==> IsExtra(g.folders[n], FolderOf(g.extraFolders, n), i, o, e)
    ensures IsCaseOf(files, Case(n, i, g.folders[n][i], o, g.folders[n][o], extras))
  {
    hide KindOf, BaseName;
    var own := FolderOf(g.folders, n);
    assert i in own && o in own;
    assert Own(n, i) in files && PlaceOf(Own(n, i)) == Some(Input(n));
    assert Own(n, o) in files && PlaceOf(Own(n, o)) == Some(Output(n));
    forall e: ExtraFile ensures e in extras <==> Gives(files, Extra(n, e.name), e.name, e.data) {
      if e in extras {
        ExtraIsGiven(files, g, n, i, o, e);
      } else if Gives(files, Extra(n, e.name), e.name, e.data) {
        GivenIsExtra(files, g, n, i, o, e);
      }
    }
  }
}
