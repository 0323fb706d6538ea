/**
  Reading a test-case archive (backend/services/test-cases-batch-service.go): entries are
  sorted into groups, problems are collected, and the groups become cases.  Go's map order
  is any order.
*/
module BatchArchive {
  import opened Wrappers
  import opened Sorting
  import opened BatchLayout
  import opened BatchGroups
  import MapOrder

  // --- problems -----------------------------------------------------------------------------

  datatype Reason =
    | InvalidPath(name: string)
    | Unsupported(name: string)
    | NoBaseName
    | FilesOutsideFolder
    | ManyForOneCase(kind: Kind, first: string, second: string)
    | FolderAndRoot
    | Missing(kind: Kind)
    | TooMany(kind: Kind, names: seq<string>)
    | DuplicateExtra(name: string)

  const ROOT_LABEL := "(root)"

  /** issueCollector: a list of reasons for each folder, in first-seen order. */
  class IssueCollector {
    var order: seq<string>
    var reasons: map<string, seq<Reason>>

    ghost predicate Valid()
      reads this
    {
      && (forall i, j :: 0 <= i < j < |order| ==> order[i] != order[j])
      && (forall f :: f in order <==> f in reasons)
      && (forall f :: f in reasons ==> reasons[f] != [])
    }

    predicate Failed()
      reads this
    {
      order != []
    }

    constructor ()
      ensures Valid() && !Failed()
    {
      order, reasons := [], map[];
    }

    /** A folder joins the order once; a reason is not repeated; nothing is forgotten. */
    method Add(folder: string, reason: Reason)
      requires Valid()
      modifies this
      ensures Valid() && Failed()
      ensures var f := if folder == "" then ROOT_LABEL else folder;
        && order == (if f in old(reasons) then old(order) else old(order) + [f])
        && reasons.Keys == old(reasons).Keys + {f} && reason in reasons[f]
        && (forall g :: g in old(reasons) ==> old(reasons)[g] <= reasons[g])
        && (forall g :: g in old(reasons) && g != f ==> reasons[g] == old(reasons)[g])
    {
      var f := if folder == "" then ROOT_LABEL else folder;
      if f !in reasons {
        order := order + [f];
      }
      var list := if f in reasons then reasons[f] else [];
      for i := 0 to |list|
        invariant reason !in list[..i] && list == (if f in old(reasons) then old(reasons)[f] else [])
        invariant reasons == old(reasons) && order == (if f in old(reasons) then old(order) else old(order) + [f])
      {
        if list[i] == reason {
          return;
        }
        assert list[..i + 1] == list[..i] + [list[i]];
      }
      reasons := reasons[f := list + [reason]];
    }
  }

  // --- walking maps in order --------------------------------------------------------------------

  /** The keys of a map, collected in any order and sorted. */
  method SortedKeys(m: map<string, string>) returns (names: seq<string>)
    ensures StrictlySorted(names) && forall x :: x in names <==> x in m
  {
    var collected: seq<string> := [];
    var todo := m.Keys;
    while todo != {}
      invariant todo <= m.Keys && forall x :: x in collected <==> x in m.Keys - todo
      decreases todo
    {
      var x := MapOrder.Next(todo);
      todo := todo - {x};
      collected := collected + [x];
    }
    names := UniqueSorted(collected);
  }

  method NamesOfKind(own: Folder, kind: Kind) returns (names: seq<string>)
    ensures StrictlySorted(names) && forall x :: x in names <==> x in own && KindOf(x) == kind
  {
    hide KindOf;
    var collected: seq<string> := [];
    var todo := own.Keys;
    while todo != {}
      invariant todo <= own.Keys && forall x :: x in collected <==> x in own.Keys - todo && KindOf(x) == kind
      decreases todo
    {
      var x := MapOrder.Next(todo);
      todo := todo - {x};
      if KindOf(x) == kind {
        collected := collected + [x];
      }
    }
    names := UniqueSorted(collected);
  }

  lemma {:induction false} StrictSize(names: seq<string>, all: set<string>)
    requires StrictlySorted(names) && forall x :: x in names <==> x in all
    ensures |names| == |all|
  {
    if names == [] {
      assert all == {};
    } else {
      var last := names[|names| - 1];
      var shorter := names[..|names| - 1];
      assert names == shorter + [last];
      forall x | x in shorter ensures x != last {
        var i :| 0 <= i < |shorter| && shorter[i] == x;
        assert names[i] == x;
      }
      StrictSize(shorter, all - {last});
    }
  }

  lemma OneNameIsOnly(own: Folder, kind: Kind, names: seq<string>)
    requires StrictlySorted(names) && forall x :: x in names <==> x in own && KindOf(x) == kind
    ensures |names| == 1 ==> IsOnly(own, kind, names[0])
    ensures HasOnly(own, kind) ==> |names| == 1
  {
    hide KindOf;
    if |names| == 1 {
      assert names[0] in names;
    }
    if HasOnly(own, kind) {
      var n :| IsOnly(own, kind, n);
      assert n in names;
      StrictSize(names, {n});
    }
  }

  // --- pairing the root files ------------------------------------------------------------------

  ghost predicate PairedSoFar(names: seq<string>, kind: Kind, m: map<string, string>) {
    && (forall n :: n in names && KindOf(n) == kind ==> BaseName(n) in m)
    && (forall b :: b in m ==> m[b] in names && KindOf(m[b]) == kind && BaseName(m[b]) == b)
  }

  ghost predicate NamesDistinct(names: seq<string>) {
    forall a, b :: a in names && b in names && KindOf(a) == KindOf(b) && BaseName(a) == BaseName(b) ==> a == b
  }

  lemma NextPair(names: seq<string>, name: string, kind: Kind, m: map<string, string>)
    requires PairedSoFar(names, kind, m) && name !in names
    ensures KindOf(name) != kind ==> PairedSoFar(names + [name], kind, m)
    ensures KindOf(name) == kind && BaseName(name) in m ==>
      PairedSoFar(names + [name], kind, m) && !NamesDistinct(names + [name])
    ensures KindOf(name) == kind && BaseName(name) !in m ==>
      PairedSoFar(names + [name], kind, m[BaseName(name) := name])
      && (NamesDistinct(names + [name]) <==> NamesDistinct(names))
  {
    hide KindOf, BaseName;
    var longer := names + [name];
    assert forall x :: x in longer <==> x in names || x == name;
    if KindOf(name) == kind && BaseName(name) in m {
      var other := m[BaseName(name)];
      assert other in longer && name in longer && other != name;
    }
    if KindOf(name) == kind && BaseName(name) !in m && NamesDistinct(names) {
      forall a, b | a in longer && b in longer && KindOf(a) == KindOf(b) && BaseName(a) == BaseName(b) ensures a == b {
        assert a in names ==> a == name || BaseName(a) in m || KindOf(a) != kind;
        assert b in names ==> b == name || BaseName(b) in m || KindOf(b) != kind;
      }
    }
    if KindOf(name) == kind && BaseName(name) !in m && NamesDistinct(longer) {
      forall a, b | a in names && b in names && KindOf(a) == KindOf(b) && BaseName(a) == BaseName(b) ensures a == b {
        assert a in longer && b in longer;
      }
    }
  }

  /** One root file of a kind: the first of its base name is kept, another is a problem. */
  method AddPair(ghost names: seq<string>, name: string, kind: Kind, m: map<string, string>, issues: IssueCollector)
    returns (after: map<string, string>)
    requires issues.Valid() && PairedSoFar(names, kind, m) && name !in names && KindOf(name) == kind
    modifies issues
    ensures issues.Valid() && PairedSoFar(names + [name], kind, after)
    ensures old(issues.Failed()) ==> issues.Failed()
    ensures issues.Failed() || !NamesDistinct(names) <==> old(issues.Failed()) || !NamesDistinct(names + [name])
  {
    hide KindOf, BaseName;
    NextPair(names, name, kind, m);
    if NamesDistinct(names + [name]) {
      DistinctPrefix(names, names + [name]);
    }
    if BaseName(name) in m {
      issues.Add(BaseName(name), ManyForOneCase(kind, m[BaseName(name)], name));
      return m;
    }
    return m[BaseName(name) := name];
  }

  lemma DistinctPrefix(names: seq<string>, longer: seq<string>)
    requires NamesDistinct(longer) && names <= longer
    ensures NamesDistinct(names)
  {
    hide KindOf, BaseName;
    assert forall x :: x in names ==> x in longer;
  }

  lemma PairedWhole(roots: Folder, names: seq<string>, kind: Kind, m: map<string, string>)
    requires (forall x :: x in names <==> x in roots) && PairedSoFar(names, kind, m)
    ensures PairedBy(roots, kind, m) && (NamesDistinct(names) <==> RootsDistinct(roots))
  {
    hide KindOf, BaseName;
  }

  lemma OtherKindStaysPaired(names: seq<string>, name: string, kind: Kind, m: map<string, string>)
    requires PairedSoFar(names, kind, m) && KindOf(name) != kind
    ensures PairedSoFar(names + [name], kind, m)
  {
    hide KindOf, BaseName;
  }

  /** rootPairNames: the root files by base name; a name that declares two of a kind is a problem. */
  method RootPairNames(roots: Folder, issues: IssueCollector) returns (inputs: map<string, string>, outputs: map<string, string>)
    requires issues.Valid() && forall n :: n in roots ==> KindOf(n) != Other
    modifies issues
    ensures issues.Valid() && (issues.Failed() <==> old(issues.Failed()) || !RootsDistinct(roots))
    ensures PairedBy(roots, In, inputs) && PairedBy(roots, Out, outputs)
  {
    hide KindOf, BaseName, PairedSoFar, NamesDistinct, PairedBy, RootsDistinct;
    var names := SortedKeys(roots);
    NothingPaired(In);
    NothingPaired(Out);
    inputs, outputs := map[], map[];
    for i := 0 to |names|
      invariant issues.Valid() && (issues.Failed() <==> old(issues.Failed()) || !NamesDistinct(names[..i]))
      invariant PairedSoFar(names[..i], In, inputs) && PairedSoFar(names[..i], Out, outputs)
    {
      var name := names[i];
      assert names[..i + 1] == names[..i] + [name];
      assert name in names && name !in names[..i];
      if KindOf(name) == Out {
        OtherKindStaysPaired(names[..i], name, In, inputs);
        outputs := AddPair(names[..i], name, Out, outputs, issues);
      } else {
        OtherKindStaysPaired(names[..i], name, Out, outputs);
        inputs := AddPair(names[..i], name, In, inputs, issues);
      }
      if NamesDistinct(names[..i + 1]) {
        DistinctPrefix(names[..i], names[..i + 1]);
      }
    }
    assert names[..|names|] == names;
    PairedWhole(roots, names, In, inputs);
    PairedWhole(roots, names, Out, outputs);
  }

  lemma NothingPaired(kind: Kind)
    ensures PairedSoFar([], kind, map[]) && NamesDistinct([])
  {
    hide KindOf, BaseName;
  }

  // --- a case folder -------------------------------------------------------------------------------

  lemma StrictInsert(names: seq<string>, k: nat, x: string)
    requires StrictlySorted(names) && k <= |names| && x !in names
    requires forall i :: 0 <= i < k ==> Precedes(names[i], x)
    requires forall i :: k <= i < |names| ==> Precedes(x, names[i])
    ensures StrictlySorted(names[..k] + [x] + names[k..])
  {
    var after := names[..k] + [x] + names[k..];
    assert forall i :: 0 <= i < |after| ==> after[i] == if i < k then names[i] else if i == k then x else names[i - 1];
  }

  method InsertExtra(s: seq<ExtraFile>, x: ExtraFile) returns (t: seq<ExtraFile>)
    requires StrictlySorted(ExtraNames(s)) && x.name !in ExtraNames(s)
    ensures StrictlySorted(ExtraNames(t)) && forall e :: e in t <==> e in s || e == x
  {
    var k := 0;
    while k < |s| && Precedes(s[k].name, x.name)
      invariant 0 <= k <= |s|
      invariant forall i :: 0 <= i < k ==> Precedes(s[i].name, x.name)
    {
      k := k + 1;
    }
    forall i | k <= i < |s| ensures Precedes(x.name, s[i].name) {
      PrecedesIsTotal(s[k].name, x.name);
      if i > k {
        assert Precedes(ExtraNames(s)[k], ExtraNames(s)[i]);
        PrecedesTransitive(x.name, s[k].name, s[i].name);
      }
    }
    t := s[..k] + [x] + s[k..];
    assert s == s[..k] + s[k..];
    ghost var names := ExtraNames(s);
    StrictInsert(names, k, x.name);
    assert ExtraNames(t) == names[..k] + [x.name] + names[k..];
  }

  /** sort.Slice on the extras, which have distinct names. */
  method SortExtras(s: seq<ExtraFile>) returns (t: seq<ExtraFile>)
    requires forall i, j :: 0 <= i < j < |s| ==> s[i].name != s[j].name
    ensures StrictlySorted(ExtraNames(t)) && forall e :: e in t <==> e in s
  {
    t := [];
    for i := 0 to |s|
      invariant StrictlySorted(ExtraNames(t)) && forall e :: e in t <==> e in s[..i]
    {
      forall k | 0 <= k < |t| ensures ExtraNames(t)[k] != s[i].name {
        assert t[k] in t;
        var j :| 0 <= j < i && s[j] == t[k];
      }
      assert s[..i + 1] == s[..i] + [s[i]];
      t := InsertExtra(t, s[i]);
    }
    assert s[..|s|] == s;
  }

  ghost predicate IsFolderCase(name: string, own: Folder, extra: Folder, c: Case) {
    && c.folder == name && c.inputName != c.outputName
    && IsOnly(own, In, c.inputName) && IsOnly(own, Out, c.outputName)
    && c.inputData == own[c.inputName] && c.outputData == own[c.outputName]
    && StrictlySorted(ExtraNames(c.extras))
    && forall e: ExtraFile :: e in c.extras <==> IsExtra(own, extra, c.inputName, c.outputName, e)
  }

  /** The folder's other files and its files/, in any order; a name in both is a problem. */
  method CollectExtras(name: string, own: Folder, extra: Folder, i: string, o: string, issues: IssueCollector)
    returns (extras: seq<ExtraFile>)
    requires issues.Valid()
    modifies issues
    ensures issues.Valid() && (issues.Failed() <==> old(issues.Failed()) || !(own.Keys !! extra.Keys))
    ensures forall j, k :: 0 <= j < k < |extras| ==> extras[j].name != extras[k].name
    ensures own.Keys !! extra.Keys ==> forall e: ExtraFile :: e in extras <==> IsExtra(own, extra, i, o, e)
  {
    extras := [];
    var seen: set<string> := {};
    var todo := own.Keys;
    while todo != {}
      invariant todo <= own.Keys && seen == own.Keys - todo && issues.Valid()
      invariant issues.Failed() <==> old(issues.Failed())
      invariant forall e: ExtraFile :: e in extras <==>
        e.name in seen && e.name != i && e.name != o && own[e.name] == e.data
      invariant forall j, k :: 0 <= j < k < |extras| ==> extras[j].name != extras[k].name
      decreases todo
    {
      var f := MapOrder.Next(todo);
      todo := todo - {f};
      forall j | 0 <= j < |extras| ensures extras[j].name != f {
        assert extras[j] in extras;
      }
      seen := seen + {f};
      if f == i || f == o {
        continue;
      }
      extras := extras + [ExtraFile(f, own[f])];
    }
    ghost var ownExtras := extras;
    todo := extra.Keys;
    while todo != {}
      invariant todo <= extra.Keys && seen == own.Keys + (extra.Keys - todo) && issues.Valid()
      invariant issues.Failed() <==> old(issues.Failed()) || !(own.Keys !! (extra.Keys - todo))
      invariant forall e: ExtraFile :: e in extras <==>
        e in ownExtras || (e.name in extra.Keys - todo && e.name !in own && extra[e.name] == e.data)
      invariant forall j, k :: 0 <= j < k < |extras| ==> extras[j].name != extras[k].name
      decreases todo
    {
      var f := MapOrder.Next(todo);
      forall j | 0 <= j < |extras| ensures extras[j].name in seen {
        assert extras[j] in extras;
      }
      if f in seen {
        todo := todo - {f};
        issues.Add(name, DuplicateExtra(f));
        continue;
      }
      todo := todo - {f};
      seen := seen + {f};
      extras := extras + [ExtraFile(f, extra[f])];
    }
  }

  /** folderCase: exactly one input and one output, and the rest as extras. */
  method FolderCase(name: string, own: Folder, extra: Folder, issues: IssueCollector) returns (c: Option<Case>)
    requires issues.Valid()
    modifies issues
    ensures issues.Valid() && (issues.Failed() <==> old(issues.Failed()) || !FolderOk(own, extra))
    ensures FolderOk(own, extra) ==> c.Some? && IsFolderCase(name, own, extra, c.value)
  {
    hide KindOf, BaseName;
    var inputNames := NamesOfKind(own, In);
    var outputNames := NamesOfKind(own, Out);
    OneNameIsOnly(own, In, inputNames);
    OneNameIsOnly(own, Out, outputNames);
    var broken := false;
    if |inputNames| == 0 {
      issues.Add(name, Missing(In));
      broken := true;
    } else if |inputNames| > 1 {
      issues.Add(name, TooMany(In, inputNames));
      broken := true;
    }
    if |outputNames| == 0 {
      issues.Add(name, Missing(Out));
      broken := true;
    } else if |outputNames| > 1 {
      issues.Add(name, TooMany(Out, outputNames));
      broken := true;
    }
    if broken {
      return None;
    }
    var i, o := inputNames[0], outputNames[0];
    var collected := CollectExtras(name, own, extra, i, o, issues);
    var extras := SortExtras(collected);
    c := Some(Case(name, i, own[i], o, own[o], extras));
  }

  // --- the cases of an archive ------------------------------------------------------------------

  datatype ArchiveError = TooLarge | Unreadable | Problems

  method AllNames(g: Groups, inputs: map<string, string>, outputs: map<string, string>) returns (names: seq<string>)
    ensures StrictlySorted(names) && (forall x :: x in names <==> x in Names(g, inputs, outputs))
    ensures |names| == |Names(g, inputs, outputs)|
  {
    var roots := SortedKeys(inputs);
    var more := SortedKeys(outputs);
    var folders := FolderNames(g.folders);
    names := UniqueSorted(folders + roots + more);
    StrictSize(names, Names(g, inputs, outputs));
  }

  method FolderNames(m: map<string, Folder>) returns (names: seq<string>)
    ensures forall x :: x in names <==> x in m
  {
    names := [];
    var todo := m.Keys;
    while todo != {}
      invariant todo <= m.Keys && forall x :: x in names <==> x in m.Keys - todo
      decreases todo
    {
      var x := MapOrder.Next(todo);
      todo := todo - {x};
      names := names + [x];
    }
  }

  /** A files/ folder without its case folder is a problem. */
  method CheckExtraFolders(g: Groups, issues: IssueCollector)
    requires issues.Valid()
    modifies issues
    ensures issues.Valid()
    ensures issues.Failed() <==> old(issues.Failed()) || !(g.extraFolders.Keys <= g.folders.Keys)
  {
    var todo := g.extraFolders.Keys;
    while todo != {}
      invariant todo <= g.extraFolders.Keys && issues.Valid()
      invariant issues.Failed() <==> old(issues.Failed()) || !(g.extraFolders.Keys - todo <= g.folders.Keys)
      decreases todo
    {
      var name := MapOrder.Next(todo);
      if name !in g.folders {
        issues.Add(name, FilesOutsideFolder);
      }
      todo := todo - {name};
    }
  }

  ghost predicate IsCaseOfName(g: Groups, inputs: map<string, string>, outputs: map<string, string>, n: string, c: Case) {
    if n in g.folders then IsFolderCase(n, g.folders[n], FolderOf(g.extraFolders, n), c)
    else
      && n in inputs && inputs[n] in g.rootFiles && n in outputs && outputs[n] in g.rootFiles
      && c == Case(n, inputs[n], g.rootFiles[inputs[n]], outputs[n], g.rootFiles[outputs[n]], [])
  }

  /** One round of the loop over the case names. */
  method NameCase(g: Groups, inputs: map<string, string>, outputs: map<string, string>, n: string, issues: IssueCollector)
    returns (c: Option<Case>)
    requires issues.Valid() && n in Names(g, inputs, outputs)
    requires PairedBy(g.rootFiles, In, inputs) && PairedBy(g.rootFiles, Out, outputs)
    modifies issues
    ensures issues.Valid() && (issues.Failed() <==> old(issues.Failed()) || !NameOk(g, inputs, outputs, n))
    ensures NameOk(g, inputs, outputs, n) ==> c.Some? && IsCaseOfName(g, inputs, outputs, n, c.value)
  {
    hide KindOf, BaseName;
    c := None;
    if n in g.folders {
      if n in inputs || n in outputs {
        issues.Add(n, FolderAndRoot);
      } else {
        c := FolderCase(n, g.folders[n], FolderOf(g.extraFolders, n), issues);
      }
      return;
    }
    if n !in inputs {
      issues.Add(n, Missing(In));
    }
    if n !in outputs {
      issues.Add(n, Missing(Out));
    }
    if n in inputs && n in outputs {
      c := Some(Case(n, inputs[n], g.rootFiles[inputs[n]], outputs[n], g.rootFiles[outputs[n]], []));
    }
  }

  lemma NamedCaseIsCase(
      files: Files, g: Groups, inputs: map<string, string>, outputs: map<string, string>, n: string, c: Case)
    requires Grouped(files, g) && PairedBy(g.rootFiles, In, inputs) && PairedBy(g.rootFiles, Out, outputs)
    requires g.extraFolders.Keys <= g.folders.Keys && IsCaseOfName(g, inputs, outputs, n, c)
    ensures c.folder == n && IsCaseOf(files, c)
  {
    hide KindOf, BaseName, PairedBy, Grouped, IsCaseOf;
    if n in g.folders {
      FolderIsCase(files, g, n, c.inputName, c.outputName, c.extras);
    } else {
      RootPairIsCase(files, g, inputs, outputs, n);
    }
  }

  lemma CasesAreParse(
      files: Files, g: Groups, inputs: map<string, string>, outputs: map<string, string>, names: seq<string>, cases: seq<Case>)
    requires Grouped(files, g) && PairedBy(g.rootFiles, In, inputs) && PairedBy(g.rootFiles, Out, outputs)
    requires Accepted(g, inputs, outputs) && |cases| == |names|
    requires StrictlySorted(names) && forall x :: x in names <==> x in Names(g, inputs, outputs)
    requires forall i :: 0 <= i < |names| ==> IsCaseOfName(g, inputs, outputs, names[i], cases[i])
    ensures IsParseOf(files, cases)
  {
    hide KindOf, BaseName, PairedBy, Grouped, IsCaseOf, IsCaseOfName, Parses, NameOk, Names, CaseNames, RootsDistinct;
    AcceptedParses(files, g, inputs, outputs);
    NamesWithExtras(files, g, inputs, outputs);
    forall i | 0 <= i < |cases| ensures cases[i].folder == names[i] && IsCaseOf(files, cases[i]) {
      NamedCaseIsCase(files, g, inputs, outputs, names[i], cases[i]);
    }
    assert Folders(cases) == names;
  }

  /** The loop over the names: a case for each as long as every name is in order. */
  method NamedCases(g: Groups, inputs: map<string, string>, outputs: map<string, string>, names: seq<string>, issues: IssueCollector)
    returns (cases: seq<Case>)
    requires issues.Valid() && !issues.Failed() && forall x :: x in names <==> x in Names(g, inputs, outputs)
    requires PairedBy(g.rootFiles, In, inputs) && PairedBy(g.rootFiles, Out, outputs)
    modifies issues
    ensures issues.Valid()
    ensures issues.Failed() <==> !(forall x :: x in names ==> NameOk(g, inputs, outputs, x))
    ensures !issues.Failed() ==> |cases| == |names|
    ensures !issues.Failed() ==> forall i :: 0 <= i < |names| ==> IsCaseOfName(g, inputs, outputs, names[i], cases[i])
  {
    hide KindOf, BaseName, PairedBy, NameOk, IsCaseOfName;
    cases := [];
    for i := 0 to |names|
      invariant issues.Valid()
      invariant issues.Failed() <==> !(forall j :: 0 <= j < i ==> NameOk(g, inputs, outputs, names[j]))
      invariant !issues.Failed() ==> |cases| == i
      invariant !issues.Failed() ==> forall j :: 0 <= j < i ==> IsCaseOfName(g, inputs, outputs, names[j], cases[j])
    {
      assert names[i] in names;
      var c := NameCase(g, inputs, outputs, names[i], issues);
      if c.Some? {
        cases := cases + [c.value];
      }
    }
    assert forall x :: x in names ==> exists j :: 0 <= j < |names| && names[j] == x;
  }

  /**
    testCases: succeeds exactly when reading found no problem and the files are a list of
    cases, and gives that list.
  */
  method TestCases(g: Groups, issues: IssueCollector, ghost files: Files) returns (r: Result<seq<Case>, ArchiveError>)
    requires issues.Valid() && Grouped(files, g) && forall n :: n in g.rootFiles ==> KindOf(n) != Other
    modifies issues
    ensures r.Ok? <==> !old(issues.Failed()) && Parses(files)
    ensures r.Ok? ==> IsParseOf(files, r.value)
  {
    hide KindOf, BaseName, PairedBy, NameOk, IsCaseOfName, Grouped, Parses, IsParseOf, RootsDistinct;
    var inputs, outputs := RootPairNames(g.rootFiles, issues);
    CheckExtraFolders(g, issues);
    var names := AllNames(g, inputs, outputs);
    AcceptedIffParses(files, g, inputs, outputs);
    if issues.Failed() {
      return Err(Problems);
    }
    if |names| == 0 {
      return Err(Problems);
    }
    if |names| > MAX_CASES {
      return Err(TooLarge);
    }
    var cases := NamedCases(g, inputs, outputs, names, issues);
    if issues.Failed() {
      return Err(Problems);
    }
    CasesAreParse(files, g, inputs, outputs, names, cases);
    return Ok(cases);
  }
}
