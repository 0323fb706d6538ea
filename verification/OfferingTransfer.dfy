/**
  The limits and the extra-file names of an offering archive
  (backend/services/offering-transfer-service.go): validated, rendered by extension on
  export, and mapped back to language ids on import.
*/
module OfferingTransfer {
  import opened Wrappers
  import opened Text
  import opened Keys
  import opened Limits

  /** A language as an exercise lists it. */
  datatype Language = Language(id: int, extension: string)

  datatype ArchiveLimit = ArchiveLimit(extension: string, overrides: Overrides)

  /** `legacy` holds the four values of archives older than per-language limits. */
  datatype ArchiveCase = ArchiveCase(limits: seq<ArchiveLimit>, legacy: Limits, files: seq<string>)

  datatype ArchiveExercise = ArchiveExercise(
    extensions: seq<string>, limits: seq<ArchiveLimit>, cases: seq<ArchiveCase>,
    compilationFiles: seq<string>, attachedFiles: seq<string>)

  datatype Problem = InvalidTransfer | UnregisteredType(extension: string) | TooLarge | ServerError

  const MAX_EXERCISES := 500
  const MAX_TEST_CASES := 5000

  // --- validation -------------------------------------------------------------------------

  ghost predicate DistinctExtensions(extensions: seq<string>) {
    forall i, j :: 0 <= i < j < |extensions| ==> ToLower(extensions[i]) != ToLower(extensions[j])
  }

  ghost predicate Lists(extensions: seq<string>, lower: string) {
    exists i :: 0 <= i < |extensions| && ToLower(extensions[i]) == lower
  }

  lemma ListsPrefix(extensions: seq<string>, last: string, lower: string)
    ensures Lists(extensions + [last], lower) <==> Lists(extensions, lower) || lower == ToLower(last)
  {
    if Lists(extensions, lower) {
      var i :| 0 <= i < |extensions| && ToLower(extensions[i]) == lower;
      assert (extensions + [last])[i] == extensions[i];
    }
    assert (extensions + [last])[|extensions|] == last;
  }

  function ExtensionsOf(limits: seq<ArchiveLimit>): seq<string> {
    seq(|limits|, i requires 0 <= i < |limits| => limits[i].extension)
  }

  /** Every entry names an allowed extension, once, with usable values. */
  ghost predicate ValidLimits(limits: seq<ArchiveLimit>, extensions: seq<string>) {
    && DistinctExtensions(ExtensionsOf(limits))
    && forall i :: 0 <= i < |limits| ==>
         Lists(extensions, ToLower(limits[i].extension)) && Usable(limits[i].overrides)
  }

  /** The loop over an exercise's extensions; their lower-case forms are collected. */
  method CollectExtensions(extensions: seq<string>) returns (ok: bool, seen: set<string>)
    ensures ok <==> DistinctExtensions(extensions)
    ensures ok ==> forall e :: e in seen <==> Lists(extensions, e)
  {
    ok, seen := true, {};
    for i := 0 to |extensions|
      invariant DistinctExtensions(extensions[..i])
      invariant forall e :: e in seen <==> Lists(extensions[..i], e)
    {
      assert extensions[..i + 1] == extensions[..i] + [extensions[i]];
      var lower := ToLower(extensions[i]);
      if lower in seen {
        ghost var j :| 0 <= j < i && ToLower(extensions[..i][j]) == lower;
        assert ToLower(extensions[j]) == ToLower(extensions[i]);
        return false, seen;
      }
      forall e ensures Lists(extensions[..i + 1], e) <==> Lists(extensions[..i], e) || e == lower {
        ListsPrefix(extensions[..i], extensions[i], e);
      }
      forall j | 0 <= j < i ensures ToLower(extensions[j]) != lower {
        assert extensions[..i][j] == extensions[j];
      }
      seen := seen + {lower};
    }
    assert extensions[..|extensions|] == extensions;
  }

  method ValidateArchiveLimits(limits: seq<ArchiveLimit>, allowed: set<string>, ghost extensions: seq<string>) returns (ok: bool)
    requires forall e :: e in allowed <==> Lists(extensions, e)
    ensures ok <==> ValidLimits(limits, extensions)
  {
    ghost var names := ExtensionsOf(limits);
    var seen: set<string> := {};
    for i := 0 to |limits|
      invariant forall e :: e in seen <==> Lists(names[..i], e)
      invariant ValidLimits(limits[..i], extensions)
    {
      var lower := ToLower(limits[i].extension);
      assert names[..i + 1] == names[..i] + [names[i]] && names[i] == limits[i].extension;
      assert ExtensionsOf(limits[..i]) == names[..i] && ExtensionsOf(limits[..i + 1]) == names[..i + 1];
      if lower in seen {
        ghost var j :| 0 <= j < i && ToLower(names[..i][j]) == lower;
        assert ToLower(names[j]) == ToLower(names[i]);
        return false;
      }
      forall e ensures Lists(names[..i + 1], e) <==> Lists(names[..i], e) || e == lower {
        ListsPrefix(names[..i], names[i], e);
      }
      forall j | 0 <= j < i ensures ToLower(names[j]) != lower {
        assert names[..i][j] == names[j];
      }
      seen := seen + {lower};
      if lower !in allowed {
        return false;
      }
      var o := limits[i].overrides;
      if o.cpu.Some? && o.cpu.value <= 0 {
        return false;
      }
      if (o.memory.Some? && o.memory.value < 0) || (o.stack.Some? && o.stack.value < 0) ||
         (o.fileSize.Some? && o.fileSize.value < 0) {
        return false;
      }
      assert limits[..i + 1] == limits[..i] + [limits[i]];
    }
    assert limits[..|limits|] == limits;
    return true;
  }

  // --- extra-file names ----------------------------------------------------------------------

  /** A plain file name, but for white space around it. */
  predicate PlainName(name: string) {
    FileBasename(name) == Trim(name)
  }

  ghost predicate ValidNames(names: seq<string>) {
    && (forall i :: 0 <= i < |names| ==> PlainName(names[i]))
    && forall i, j :: 0 <= i < j < |names| ==> Trim(names[i]) != Trim(names[j])
  }

  /** The checks on one name. */
  method CleanName(name: string) returns (cleaned: Option<string>)
    ensures cleaned == if PlainName(name) then Some(Trim(name)) else None
  {
    var base, trimmed := FileBasename(name), Trim(name);
    if base == "" || (base == "file" && trimmed == "") {
      BasenameIsBasename(name);
      return None;
    }
    if base != trimmed {
      return None;
    }
    return Some(base);
  }

  ghost predicate Cleans(names: seq<string>, cleaned: seq<string>) {
    |cleaned| == |names| && forall i :: 0 <= i < |names| ==> cleaned[i] == Trim(names[i])
  }

  ghost predicate AllPlainNames(names: seq<string>) {
    forall i :: 0 <= i < |names| ==> PlainName(names[i])
  }

  ghost predicate AllDifferent(names: seq<string>) {
    forall i, j :: 0 <= i < j < |names| ==> names[i] != names[j]
  }

  lemma CleanedNamesAreValid(names: seq<string>, cleaned: seq<string>)
    requires Cleans(names, cleaned)
    ensures ValidNames(names) <==> AllPlainNames(names) && AllDifferent(cleaned)
  {
  }

  lemma CleansExtended(names: seq<string>, cleaned: seq<string>, name: string)
    requires Cleans(names, cleaned) && AllPlainNames(names) && PlainName(name)
    ensures Cleans(names + [name], cleaned + [Trim(name)]) && AllPlainNames(names + [name])
  {
  }

  /** A name that is not plain, or repeats an earlier one, spoils the list. */
  lemma SpoiledNames(names: seq<string>, cleaned: seq<string>, i: nat)
    requires i < |names| && Cleans(names[..i], cleaned)
    requires !PlainName(names[i]) || Trim(names[i]) in cleaned
    ensures !ValidNames(names)
  {
    if PlainName(names[i]) {
      var j :| 0 <= j < i && cleaned[j] == Trim(names[i]);
      assert names[..i][j] == names[j];
    }
  }

  /** validateArchiveFileNames: the cleaned names replace the given ones. */
  method ValidateArchiveFileNames(names: seq<string>) returns (ok: bool, cleaned: seq<string>)
    ensures ok <==> ValidNames(names)
    ensures ok ==> Cleans(names, cleaned)
  {
    cleaned := [];
    var seen: set<string> := {};
    for i := 0 to |names|
      invariant Cleans(names[..i], cleaned) && AllPlainNames(names[..i]) && AllDifferent(cleaned)
      invariant forall n :: n in seen <==> n in cleaned
    {
      var base := CleanName(names[i]);
      if base.None? || base.value in seen {
        SpoiledNames(names, cleaned, i);
        return false, [];
      }
      assert names[..i + 1] == names[..i] + [names[i]];
      CleansExtended(names[..i], cleaned, names[i]);
      seen := seen + {base.value};
      cleaned := cleaned + [base.value];
    }
    assert names[..|names|] == names;
    CleanedNamesAreValid(names, cleaned);
    ok := true;
  }

  /** Names that passed keep their base name, so the objects of one case have distinct keys. */
  lemma ValidatedKeysDistinct(names: seq<string>, cleaned: seq<string>, caseId: int, i: nat, j: nat)
    requires ValidNames(names) && Cleans(names, cleaned)
    requires i < j < |names|
    ensures FileBasename(cleaned[i]) == cleaned[i] && CaseFileKey(caseId, cleaned[i]) != CaseFileKey(caseId, cleaned[j])
  {
    TrimmedPlainNameStays(names[i]);
    TrimmedPlainNameStays(names[j]);
    CaseKeysDistinct(caseId, caseId, cleaned[i], cleaned[j]);
  }

  lemma TrimmedPlainNameStays(name: string)
    requires PlainName(name)
    ensures FileBasename(Trim(name)) == Trim(name)
  {
    BasenameIsBasename(name);
    TrimIsTrimmed(name);
    BasenameFixpoint(Trim(name));
  }

  // --- the whole manifest --------------------------------------------------------------------

  ghost predicate ValidCase(c: ArchiveCase, extensions: seq<string>) {
    && c.legacy.cpu >= 0 && c.legacy.memory >= 0 && c.legacy.stack >= 0 && c.legacy.fileSize >= 0
    && ValidLimits(c.limits, extensions)
    && ValidNames(c.files)
  }

  ghost predicate ValidExercise(e: ArchiveExercise) {
    && DistinctExtensions(e.extensions)
    && ValidLimits(e.limits, e.extensions)
    && (forall i :: 0 <= i < |e.cases| ==> ValidCase(e.cases[i], e.extensions))
    && ValidNames(e.compilationFiles) && ValidNames(e.attachedFiles)
  }

  ghost function CaseCount(exercises: seq<ArchiveExercise>): nat {
    if exercises == [] then 0 else CaseCount(exercises[..|exercises| - 1]) + |exercises[|exercises| - 1].cases|
  }

  ghost predicate ValidManifest(exercises: seq<ArchiveExercise>) {
    && |exercises| <= MAX_EXERCISES && CaseCount(exercises) <= MAX_TEST_CASES
    && forall i :: 0 <= i < |exercises| ==> ValidExercise(exercises[i])
  }

  method ValidateCase(c: ArchiveCase, allowed: set<string>, ghost extensions: seq<string>) returns (ok: bool)
    requires forall e :: e in allowed <==> Lists(extensions, e)
    ensures ok <==> ValidCase(c, extensions)
  {
    if c.legacy.cpu < 0 || c.legacy.memory < 0 || c.legacy.stack < 0 || c.legacy.fileSize < 0 {
      return false;
    }
    ok := ValidateArchiveLimits(c.limits, allowed, extensions);
    if ok {
      var cleaned;
      ok, cleaned := ValidateArchiveFileNames(c.files);
    }
  }

  method ValidateExercise(e: ArchiveExercise) returns (ok: bool)
    ensures ok <==> ValidExercise(e)
  {
    var seen;
    ok, seen := CollectExtensions(e.extensions);
    if !ok {
      return;
    }
    ok := ValidateArchiveLimits(e.limits, seen, e.extensions);
    if !ok {
      return;
    }
    for i := 0 to |e.cases|
      invariant forall j :: 0 <= j < i ==> ValidCase(e.cases[j], e.extensions)
    {
      ok := ValidateCase(e.cases[i], seen, e.extensions);
      if !ok {
        return;
      }
    }
    var cleaned;
    ok, cleaned := ValidateArchiveFileNames(e.compilationFiles);
    if ok {
      ok, cleaned := ValidateArchiveFileNames(e.attachedFiles);
    }
  }

  lemma {:induction false} CaseCountGrows(exercises: seq<ArchiveExercise>, n: nat)
    requires n <= |exercises|
    ensures CaseCount(exercises[..n]) <= CaseCount(exercises)
    decreases |exercises|
  {
    if n < |exercises| {
      var shorter := exercises[..|exercises| - 1];
      assert shorter[..n] == exercises[..n];
      CaseCountGrows(shorter, n);
    } else {
      assert exercises[..n] == exercises;
    }
  }

  /** The counts, extensions, limits and file names of validateOfferingManifest. */
  method ValidateOfferingManifest(exercises: seq<ArchiveExercise>) returns (ok: bool)
    ensures ok <==> ValidManifest(exercises)
  {
    if |exercises| > MAX_EXERCISES {
      return false;
    }
    var totalCases := 0;
    for i := 0 to |exercises|
      invariant totalCases == CaseCount(exercises[..i]) <= MAX_TEST_CASES
      invariant forall j :: 0 <= j < i ==> ValidExercise(exercises[j])
    {
      assert exercises[..i + 1][..i] == exercises[..i];
      CaseCountGrows(exercises, i + 1);
      if |exercises[i].cases| > MAX_TEST_CASES {
        return false;
      }
      totalCases := totalCases + |exercises[i].cases|;
      if totalCases > MAX_TEST_CASES {
        return false;
      }
      ok := ValidateExercise(exercises[i]);
      if !ok {
        return;
      }
    }
    assert exercises[..|exercises|] == exercises;
    ok := true;
  }

  // --- export ----------------------------------------------------------------------------------

  /** One layer's overrides for the archive; `owner` is the exercise or the case. */
  ghost function Archived(table: OverrideTable, owner: int, languages: seq<Language>): seq<ArchiveLimit> {
    if languages == [] then []
    else
      var before, last := Archived(table, owner, languages[..|languages| - 1]), languages[|languages| - 1];
      var o := Stored(table, owner, last.id);
      if o.Empty() then before else before + [ArchiveLimit(last.extension, o)]
  }

  method ArchiveLimits(table: OverrideTable, owner: int, languages: seq<Language>) returns (limits: seq<ArchiveLimit>)
    ensures limits == Archived(table, owner, languages)
  {
    limits := [];
    for i := 0 to |languages|
      invariant limits == Archived(table, owner, languages[..i])
    {
      assert languages[..i + 1][..i] == languages[..i];
      var o := Stored(table, owner, languages[i].id);
      if o.Empty() {
        continue;
      }
      limits := limits + [ArchiveLimit(languages[i].extension, o)];
    }
    assert languages[..|languages|] == languages;
  }

  // --- import ----------------------------------------------------------------------------------

  /** The language an extension stands for; a later one wins. */
  function IdFor(types: seq<Language>, lower: string): Option<int> {
    if types == [] then None
    else if ToLower(types[|types| - 1].extension) == lower then Some(types[|types| - 1].id)
    else IdFor(types[..|types| - 1], lower)
  }

  /** The entries an import stores for one layer, in order. */
  ghost predicate EntriesFor(limits: seq<ArchiveLimit>, types: seq<Language>, entries: seq<Entry>) {
    && |entries| == |limits|
    && forall i :: 0 <= i < |limits| ==>
         entries[i].overrides == limits[i].overrides && IdFor(types, ToLower(limits[i].extension)) == Some(entries[i].language)
  }

  /** archiveLimitsByExtension fails exactly when some entry's extension is none of the types'. */
  method ArchiveLimitsByExtension(limits: seq<ArchiveLimit>, types: seq<Language>) returns (r: Result<seq<Entry>, Problem>)
    ensures r.Ok? <==> forall i :: 0 <= i < |limits| ==> IdFor(types, ToLower(limits[i].extension)).Some?
    ensures r.Ok? ==> EntriesFor(limits, types, r.value)
  {
    if |limits| == 0 {
      return Ok([]);
    }
    var byExtension: map<string, int> := map[];
    for i := 0 to |types|
      invariant forall e :: (if e in byExtension then Some(byExtension[e]) else None) == IdFor(types[..i], e)
    {
      assert types[..i + 1][..i] == types[..i];
      byExtension := byExtension[ToLower(types[i].extension) := types[i].id];
    }
    assert types[..|types|] == types;
    var entries: seq<Entry> := [];
    for i := 0 to |limits|
      invariant EntriesFor(limits[..i], types, entries)
    {
      var lower := ToLower(limits[i].extension);
      assert (if lower in byExtension then Some(byExtension[lower]) else None) == IdFor(types, lower);
      if lower !in byExtension {
        return Err(InvalidTransfer);
      }
      entries := entries + [Entry(byExtension[lower], limits[i].overrides)];
      assert limits[..i + 1] == limits[..i] + [limits[i]];
    }
    assert limits[..|limits|] == limits;
    return Ok(entries);
  }

  function Positive(v: int): Option<int> {
    if v > 0 then Some(v) else None
  }

  function LegacyOverrides(legacy: Limits): Overrides {
    Overrides(Positive(legacy.cpu), Positive(legacy.memory), Positive(legacy.stack), Positive(legacy.fileSize))
  }

  /** The four values of an old archive, applied to every language. */
  ghost predicate LegacyEntries(legacy: Limits, types: seq<Language>, entries: seq<Entry>) {
    if LegacyOverrides(legacy).Empty() then entries == []
    else |entries| == |types| && forall i :: 0 <= i < |types| ==> entries[i] == Entry(types[i].id, LegacyOverrides(legacy))
  }

  method ArchiveCaseLimits(c: ArchiveCase, types: seq<Language>) returns (r: Result<seq<Entry>, Problem>)
    ensures r.Ok? <==> forall i :: 0 <= i < |c.limits| ==> IdFor(types, ToLower(c.limits[i].extension)).Some?
    ensures r.Ok? && c.limits == [] ==> LegacyEntries(c.legacy, types, r.value)
    ensures r.Ok? && c.limits != [] ==> EntriesFor(c.limits, types, r.value)
  {
    if |c.limits| == 0 {
      if c.legacy.cpu <= 0 && c.legacy.memory <= 0 && c.legacy.stack <= 0 && c.legacy.fileSize <= 0 {
        return Ok([]);
      }
      var o := NO_OVERRIDES;
      if c.legacy.cpu > 0 {
        o := o.(cpu := Some(c.legacy.cpu));
      }
      if c.legacy.memory > 0 {
        o := o.(memory := Some(c.legacy.memory));
      }
      if c.legacy.stack > 0 {
        o := o.(stack := Some(c.legacy.stack));
      }
      if c.legacy.fileSize > 0 {
        o := o.(fileSize := Some(c.legacy.fileSize));
      }
      var entries: seq<Entry> := [];
      for i := 0 to |types|
        invariant |entries| == i && forall j :: 0 <= j < i ==> entries[j] == Entry(types[j].id, o)
      {
        entries := entries + [Entry(types[i].id, o)];
      }
      return Ok(entries);
    }
    r := ArchiveLimitsByExtension(c.limits, types);
  }

  /** The types an imported exercise allows: each extension with the id it is registered under here. */
  ghost predicate TypesFor(extensions: seq<string>, registered: map<string, int>, types: seq<Language>) {
    && |types| == |extensions|
    && forall i :: 0 <= i < |extensions| ==>
         ToLower(extensions[i]) in registered && types[i] == Language(registered[ToLower(extensions[i])], extensions[i])
  }

  lemma {:induction false} ListedExtensionHasId(extensions: seq<string>, registered: map<string, int>, types: seq<Language>, lower: string)
    requires TypesFor(extensions, registered, types) && Lists(extensions, lower)
    ensures lower in registered && IdFor(types, lower) == Some(registered[lower])
  {
    var i :| 0 <= i < |extensions| && ToLower(extensions[i]) == lower;
    var n := |extensions| - 1;
    if ToLower(extensions[n]) != lower {
      assert extensions[..n][i] == extensions[i];
      ListedExtensionHasId(extensions[..n], registered, types[..n], lower);
    }
  }

  /** After validation no layer of the manifest fails in archiveLimitsByExtension. */
  lemma ValidatedLimitsAlwaysResolve(extensions: seq<string>, registered: map<string, int>, types: seq<Language>, limits: seq<ArchiveLimit>)
    requires ValidLimits(limits, extensions) && TypesFor(extensions, registered, types)
    ensures forall i :: 0 <= i < |limits| ==> IdFor(types, ToLower(limits[i].extension)).Some?
  {
    forall i | 0 <= i < |limits| ensures IdFor(types, ToLower(limits[i].extension)).Some? {
      ListedExtensionHasId(extensions, registered, types, ToLower(limits[i].extension));
    }
  }

  /** What an archived layer says about an extension. */
  ghost function OverridesFor(limits: seq<ArchiveLimit>, lower: string): Overrides {
    if limits == [] then NO_OVERRIDES
    else if ToLower(limits[|limits| - 1].extension) == lower then limits[|limits| - 1].overrides
    else OverridesFor(limits[..|limits| - 1], lower)
  }

  /** No two extensions are registered under one id. */
  ghost predicate Injective(registered: map<string, int>) {
    forall a, b :: a in registered && b in registered && registered[a] == registered[b] ==> a == b
  }

  /** `owner` has, for every language of the exercise, what `limits` says about its extension. */
  ghost predicate LayerStored(
      limits: seq<ArchiveLimit>, extensions: seq<string>, registered: map<string, int>, table: OverrideTable, owner: int) {
    forall lower :: Lists(extensions, lower) && lower in registered ==>
      Stored(table, owner, registered[lower]) == OverridesFor(limits, lower)
  }

  ghost predicate CaseStored(
      c: ArchiveCase, extensions: seq<string>, registered: map<string, int>, table: OverrideTable, owner: int) {
    if c.limits == [] then
      forall lower :: Lists(extensions, lower) && lower in registered ==>
        Stored(table, owner, registered[lower]) == LegacyOverrides(c.legacy)
    else LayerStored(c.limits, extensions, registered, table, owner)
  }

  lemma {:induction false} OverridesForEntry(limits: seq<ArchiveLimit>, i: nat)
    requires i < |limits| && DistinctExtensions(ExtensionsOf(limits))
    ensures OverridesFor(limits, ToLower(limits[i].extension)) == limits[i].overrides
  {
    var n := |limits| - 1;
    if i < n {
      assert ToLower(ExtensionsOf(limits)[i]) != ToLower(ExtensionsOf(limits)[n]);
      assert ExtensionsOf(limits[..n]) == ExtensionsOf(limits)[..n];
      OverridesForEntry(limits[..n], i);
    }
  }

  lemma {:induction false} OverridesForOther(limits: seq<ArchiveLimit>, lower: string)
    requires forall i :: 0 <= i < |limits| ==> ToLower(limits[i].extension) != lower
    ensures OverridesFor(limits, lower) == NO_OVERRIDES
  {
    if limits != [] {
      OverridesForOther(limits[..|limits| - 1], lower);
    }
  }

  /** The ids of a layer's entries: each limit's extension as registered. */
  lemma EntryIds(
      limits: seq<ArchiveLimit>, extensions: seq<string>, registered: map<string, int>, types: seq<Language>, entries: seq<Entry>)
    requires ValidLimits(limits, extensions) && TypesFor(extensions, registered, types) && EntriesFor(limits, types, entries)
    ensures forall i :: 0 <= i < |limits| ==>
      ToLower(limits[i].extension) in registered && entries[i].language == registered[ToLower(limits[i].extension)]
    ensures Injective(registered) ==> DistinctLanguages(entries)
  {
    forall i | 0 <= i < |limits|
      ensures ToLower(limits[i].extension) in registered && entries[i].language == registered[ToLower(limits[i].extension)]
    {
      ListedExtensionHasId(extensions, registered, types, ToLower(limits[i].extension));
    }
    if Injective(registered) {
      forall i, j | 0 <= i < j < |entries| ensures entries[i].language != entries[j].language {
        assert ToLower(ExtensionsOf(limits)[i]) != ToLower(ExtensionsOf(limits)[j]);
      }
    }
  }

  lemma StoredAfterEntries(m: OverrideTable, owner: int, entries: seq<Entry>, other: int, language: int)
    requires DistinctLanguages(entries) && forall k :: k in m ==> k.0 != owner
    ensures other != owner ==> Stored(WithEntries(m, owner, entries), other, language) == Stored(m, other, language)
    ensures (exists i :: 0 <= i < |entries| && entries[i].language == language) ==>
      exists i :: 0 <= i < |entries| && entries[i].language == language
        && Stored(WithEntries(m, owner, entries), owner, language) == entries[i].overrides
    ensures !(exists i :: 0 <= i < |entries| && entries[i].language == language) ==>
      Stored(WithEntries(m, owner, entries), owner, language) == NO_OVERRIDES
  {
    assert Cleared(m, owner) == m;
    ReplacedExactly(m, owner, entries, (other, language));
    ReplacedExactly(m, owner, entries, (owner, language));
    var after := WithEntries(m, owner, entries);
    if i :| 0 <= i < |entries| && entries[i].language == language {
      if !entries[i].overrides.Empty() {
        assert Sets(entries, language, entries[i].overrides);
      } else if (owner, language) in after {
        assert Sets(entries, language, after[(owner, language)]);
      }
    }
  }

  /** Storing a valid layer's entries stores the layer. */
  lemma LayerIsStored(
      limits: seq<ArchiveLimit>, extensions: seq<string>, registered: map<string, int>, types: seq<Language>,
      entries: seq<Entry>, m: OverrideTable, owner: int)
    requires ValidLimits(limits, extensions) && TypesFor(extensions, registered, types) && EntriesFor(limits, types, entries)
    requires Injective(registered) && forall k :: k in m ==> k.0 != owner
    ensures LayerStored(limits, extensions, registered, WithEntries(m, owner, entries), owner)
  {
    EntryIds(limits, extensions, registered, types, entries);
    forall lower | Lists(extensions, lower) && lower in registered
      ensures Stored(WithEntries(m, owner, entries), owner, registered[lower]) == OverridesFor(limits, lower)
    {
      StoredAfterEntries(m, owner, entries, owner, registered[lower]);
      if i :| 0 <= i < |entries| && entries[i].language == registered[lower] {
        OverridesForEntry(limits, i);
      } else {
        forall i | 0 <= i < |limits| ensures ToLower(limits[i].extension) != lower {
          assert entries[i].language != registered[lower];
        }
        OverridesForOther(limits, lower);
      }
    }
  }

  lemma LegacyIsStored(
      legacy: Limits, extensions: seq<string>, registered: map<string, int>, types: seq<Language>,
      entries: seq<Entry>, m: OverrideTable, owner: int)
    requires TypesFor(extensions, registered, types) && LegacyEntries(legacy, types, entries)
    requires DistinctExtensions(extensions) && Injective(registered) && forall k :: k in m ==> k.0 != owner
    ensures DistinctLanguages(entries)
    ensures forall lower :: Lists(extensions, lower) && lower in registered ==>
      Stored(WithEntries(m, owner, entries), owner, registered[lower]) == LegacyOverrides(legacy)
  {
    forall i, j | 0 <= i < j < |entries| ensures entries[i].language != entries[j].language {
      assert ToLower(extensions[i]) != ToLower(extensions[j]);
    }
    forall lower | Lists(extensions, lower) && lower in registered
      ensures Stored(WithEntries(m, owner, entries), owner, registered[lower]) == LegacyOverrides(legacy)
    {
      StoredAfterEntries(m, owner, entries, owner, registered[lower]);
      var i :| 0 <= i < |extensions| && ToLower(extensions[i]) == lower;
      if !LegacyOverrides(legacy).Empty() {
        assert entries[i].language == registered[lower];
      }
    }
  }

  /** A positive value of an old archive is stored as that override, any other as none. */
  ghost predicate LegacyValue(stored: Option<int>, given: int) {
    (given > 0 ==> stored == Some(given)) && (given <= 0 ==> stored == None)
  }

  /** For every listed language the case's row holds the old archive's four values, each in its own column. */
  ghost predicate OldCaseReads(
      legacy: Limits, extensions: seq<string>, registered: map<string, int>, table: OverrideTable, caseId: int) {
    forall i :: 0 <= i < |extensions| && ToLower(extensions[i]) in registered ==>
      var row := (caseId, registered[ToLower(extensions[i])]);
      && (row in table <==> legacy.cpu > 0 || legacy.memory > 0 || legacy.stack > 0 || legacy.fileSize > 0)
      && (row in table ==>
            && LegacyValue(table[row].cpu, legacy.cpu) && LegacyValue(table[row].memory, legacy.memory)
            && LegacyValue(table[row].stack, legacy.stack) && LegacyValue(table[row].fileSize, legacy.fileSize))
  }

  lemma LegacyIsRead(
      legacy: Limits, extensions: seq<string>, registered: map<string, int>, types: seq<Language>,
      entries: seq<Entry>, m: OverrideTable, owner: int)
    requires TypesFor(extensions, registered, types) && LegacyEntries(legacy, types, entries)
    requires DistinctExtensions(extensions) && Injective(registered) && forall k :: k in m ==> k.0 != owner
    ensures OldCaseReads(legacy, extensions, registered, WithEntries(m, owner, entries), owner)
  {
    var after := WithEntries(m, owner, entries);
    LegacyIsStored(legacy, extensions, registered, types, entries, m, owner);
    assert Cleared(m, owner) == m;
    forall i | 0 <= i < |extensions| && ToLower(extensions[i]) in registered
      ensures Stored(after, owner, registered[ToLower(extensions[i])]) == LegacyOverrides(legacy)
      ensures (owner, registered[ToLower(extensions[i])]) in after <==> !LegacyOverrides(legacy).Empty()
    {
      var id := registered[ToLower(extensions[i])];
      assert Lists(extensions, ToLower(extensions[i]));
      ReplacedExactly(m, owner, entries, (owner, id));
      if (owner, id) in after {
        assert Sets(entries, id, after[(owner, id)]);
      }
    }
  }

  datatype Imported = Imported(types: seq<Language>, exerciseLimits: OverrideTable, caseLimits: OverrideTable)

  /** The languages of an imported exercise; the first extension not registered here fails the import. */
  method ImportTypes(extensions: seq<string>, registered: map<string, int>) returns (r: Result<seq<Language>, Problem>)
    ensures r.Ok? ==> TypesFor(extensions, registered, r.value)
    ensures r.Err? ==> r.error.ServerError? || r.error.UnregisteredType?
    ensures r.Err? && r.error.UnregisteredType? ==> ToLower(r.error.extension) !in registered
  {
    var types: seq<Language> := [];
    for i := 0 to |extensions|
      invariant TypesFor(extensions[..i], registered, types)
    {
      var lower := ToLower(extensions[i]);
      if lower !in registered {
        return Err(UnregisteredType(extensions[i]));
      }
      var inserted: bool := *;
      if !inserted {
        return Err(ServerError);
      }
      types := types + [Language(registered[lower], extensions[i])];
    }
    assert extensions[..|extensions|] == extensions;
    return Ok(types);
  }

  /** One archived case, stored under its new id. */
  method ImportCase(
      c: ArchiveCase, ghost extensions: seq<string>, ghost registered: map<string, int>, types: seq<Language>,
      m: OverrideTable, caseId: int)
    returns (r: Result<OverrideTable, Problem>)
    requires ValidCase(c, extensions) && DistinctExtensions(extensions) && TypesFor(extensions, registered, types)
    requires Injective(registered) && forall k :: k in m ==> k.0 != caseId
    ensures r.Err? ==> r.error == ServerError
    ensures r.Ok? ==> CaseStored(c, extensions, registered, r.value, caseId)
    ensures r.Ok? && c.limits == [] ==> OldCaseReads(c.legacy, extensions, registered, r.value, caseId)
    ensures r.Ok? ==> forall k :: k in r.value ==> k in m || k.0 == caseId
    ensures r.Ok? ==> OthersKept(m, r.value, caseId)
    ensures r.Ok? ==> forall other, language :: other != caseId ==> Stored(r.value, other, language) == Stored(m, other, language)
  {
    ValidatedLimitsAlwaysResolve(extensions, registered, types, c.limits);
    var entries := ArchiveCaseLimits(c, types);
    var ok, after := InsertLimits(m, caseId, entries.value);
    if !ok {
      return Err(ServerError);
    }
    if c.limits == [] {
      LegacyIsStored(c.legacy, extensions, registered, types, entries.value, m, caseId);
      LegacyIsRead(c.legacy, extensions, registered, types, entries.value, m, caseId);
    } else {
      EntryIds(c.limits, extensions, registered, types, entries.value);
      LayerIsStored(c.limits, extensions, registered, types, entries.value, m, caseId);
    }
    forall other, language | other != caseId ensures Stored(after, other, language) == Stored(m, other, language) {
      StoredAfterEntries(m, caseId, entries.value, other, language);
    }
    assert Cleared(m, caseId) == m;
    forall k: (int, int) | k.0 != caseId ensures (k in after <==> k in m) && (k in m ==> after[k] == m[k]) {
      ReplacedExactly(m, caseId, entries.value, k);
    }
    return Ok(after);
  }

  ghost predicate OthersKept(before: OverrideTable, after: OverrideTable, caseId: int) {
    forall k: (int, int) :: k.0 != caseId ==> (k in after <==> k in before) && (k in before ==> after[k] == before[k])
  }

  /** The first `n` cases that come from old archives read so. */
  ghost predicate OldCasesRead(e: ArchiveExercise, registered: map<string, int>, table: OverrideTable, ids: seq<int>, n: nat)
    requires n <= |ids| == |e.cases|
  {
    forall i :: 0 <= i < n && e.cases[i].limits == [] ==> OldCaseReads(e.cases[i].legacy, e.extensions, registered, table, ids[i])
  }

  lemma OldCasesStay(
      e: ArchiveExercise, registered: map<string, int>, before: OverrideTable, after: OverrideTable, ids: seq<int>, n: nat)
    requires n < |ids| == |e.cases| && OldCasesRead(e, registered, before, ids, n)
    requires forall i :: 0 <= i < n ==> ids[i] != ids[n]
    requires OthersKept(before, after, ids[n])
    requires e.cases[n].limits == [] ==> OldCaseReads(e.cases[n].legacy, e.extensions, registered, after, ids[n])
    ensures OldCasesRead(e, registered, after, ids, n + 1)
  {
    hide ToLower;
    forall i | 0 <= i < n && e.cases[i].limits == []
      ensures OldCaseReads(e.cases[i].legacy, e.extensions, registered, after, ids[i])
    {
      assert OldCaseReads(e.cases[i].legacy, e.extensions, registered, before, ids[i]);
    }
  }

  /** `ids[..n]` hold the first `n` cases. */
  ghost predicate CasesStored(
      e: ArchiveExercise, registered: map<string, int>, table: OverrideTable, ids: seq<int>, n: nat)
    requires n <= |ids| == |e.cases|
  {
    forall i :: 0 <= i < n ==> CaseStored(e.cases[i], e.extensions, registered, table, ids[i])
  }

  lemma CasesStay(
      e: ArchiveExercise, registered: map<string, int>, before: OverrideTable, after: OverrideTable, ids: seq<int>, n: nat)
    requires n < |ids| == |e.cases| && CasesStored(e, registered, before, ids, n)
    requires forall i :: 0 <= i < n ==> ids[i] != ids[n]
    requires forall other, language :: other != ids[n] ==> Stored(after, other, language) == Stored(before, other, language)
    requires CaseStored(e.cases[n], e.extensions, registered, after, ids[n])
    ensures CasesStored(e, registered, after, ids, n + 1)
  {
    forall i | 0 <= i < n ensures CaseStored(e.cases[i], e.extensions, registered, after, ids[i]) {
      assert CaseStored(e.cases[i], e.extensions, registered, before, ids[i]);
    }
  }

  /**
    The limits part of the import of one exercise, in its transaction.  A validated exercise
    fails only for an extension not registered here or a failed statement, never in
    archiveLimitsByExtension.
  */
  method ImportExercise(e: ArchiveExercise, registered: map<string, int>, exerciseId: int, caseIds: seq<int>)
    returns (r: Result<Imported, Problem>)
    requires ValidExercise(e) && Injective(registered)
    requires |caseIds| == |e.cases| && forall i, j :: 0 <= i < j < |caseIds| ==> caseIds[i] != caseIds[j]
    ensures r.Err? ==> r.error.ServerError? || r.error.UnregisteredType?
    ensures r.Err? && r.error.UnregisteredType? ==> ToLower(r.error.extension) !in registered
    ensures r.Ok? ==> TypesFor(e.extensions, registered, r.value.types)
    ensures r.Ok? ==> LayerStored(e.limits, e.extensions, registered, r.value.exerciseLimits, exerciseId)
    ensures r.Ok? ==> CasesStored(e, registered, r.value.caseLimits, caseIds, |caseIds|)
    ensures r.Ok? ==> OldCasesRead(e, registered, r.value.caseLimits, caseIds, |caseIds|)
  {
    var types := ImportTypes(e.extensions, registered);
    if types.Err? {
      return Err(types.error);
    }
    ValidatedLimitsAlwaysResolve(e.extensions, registered, types.value, e.limits);
    var entries := ArchiveLimitsByExtension(e.limits, types.value);
    var ok, exerciseLimits := InsertLimits(map[], exerciseId, entries.value);
    if !ok {
      return Err(ServerError);
    }
    LayerIsStored(e.limits, e.extensions, registered, types.value, entries.value, map[], exerciseId);
    var caseLimits: OverrideTable := map[];
    for i := 0 to |e.cases|
      invariant CasesStored(e, registered, caseLimits, caseIds, i) && OldCasesRead(e, registered, caseLimits, caseIds, i)
      invariant forall k :: k in caseLimits ==> k.0 in caseIds[..i]
    {
      assert caseIds[..i + 1] == caseIds[..i] + [caseIds[i]];
      var stored := ImportCase(e.cases[i], e.extensions, registered, types.value, caseLimits, caseIds[i]);
      if stored.Err? {
        return Err(stored.error);
      }
      CasesStay(e, registered, caseLimits, stored.value, caseIds, i);
      OldCasesStay(e, registered, caseLimits, stored.value, caseIds, i);
      caseLimits := stored.value;
    }
    return Ok(Imported(types.value, exerciseLimits, caseLimits));
  }

  // --- there and back -----------------------------------------------------------------------------

  ghost function LanguageExtensions(languages: seq<Language>): seq<string> {
    seq(|languages|, i requires 0 <= i < |languages| => languages[i].extension)
  }

  ghost predicate RendersLanguage(table: OverrideTable, owner: int, languages: seq<Language>, limit: ArchiveLimit) {
    exists i :: 0 <= i < |languages| && limit == ArchiveLimit(languages[i].extension, Stored(table, owner, languages[i].id))
  }

  lemma {:induction false} ArchivedEntries(table: OverrideTable, owner: int, languages: seq<Language>)
    ensures forall limit :: limit in Archived(table, owner, languages) ==> RendersLanguage(table, owner, languages, limit)
  {
    if languages != [] {
      var n := |languages| - 1;
      ArchivedEntries(table, owner, languages[..n]);
      var added := ArchiveLimit(languages[n].extension, Stored(table, owner, languages[n].id));
      forall limit | limit in Archived(table, owner, languages) ensures RendersLanguage(table, owner, languages, limit) {
        if limit != added {
          assert limit in Archived(table, owner, languages[..n]);
          var i :| 0 <= i < n && limit ==
            ArchiveLimit(languages[..n][i].extension, Stored(table, owner, languages[..n][i].id));
          assert languages[..n][i] == languages[i];
        }
      }
    }
  }

  /** The archive says about a language's extension exactly what is stored for it, zeros included. */
  lemma {:induction false} ArchiveSaysWhatIsStored(table: OverrideTable, owner: int, languages: seq<Language>, i: nat)
    requires i < |languages| && DistinctExtensions(LanguageExtensions(languages))
    ensures OverridesFor(Archived(table, owner, languages), ToLower(languages[i].extension)) == Stored(table, owner, languages[i].id)
  {
    var n := |languages| - 1;
    var shorter, names := languages[..n], LanguageExtensions(languages);
    assert LanguageExtensions(shorter) == names[..n];
    if i < n {
      assert ToLower(names[i]) != ToLower(names[n]);
      ArchiveSaysWhatIsStored(table, owner, shorter, i);
    } else {
      var before := Archived(table, owner, shorter);
      ArchivedEntries(table, owner, shorter);
      forall k | 0 <= k < |before| ensures ToLower(before[k].extension) != ToLower(languages[n].extension) {
        assert before[k] in before;
        var j :| 0 <= j < n && before[k] == ArchiveLimit(shorter[j].extension, Stored(table, owner, shorter[j].id));
        assert ToLower(names[j]) != ToLower(names[n]);
      }
      OverridesForOther(before, ToLower(languages[n].extension));
      assert Archived(table, owner, languages) == before ||
        (var all := Archived(table, owner, languages); all[..|all| - 1] == before);
    }
  }

  /** What an exporter writes passes the importer's validation. */
  lemma {:induction false} ExportedLimitsAreValid(table: OverrideTable, owner: int, languages: seq<Language>)
    requires DistinctExtensions(LanguageExtensions(languages))
    requires forall i :: 0 <= i < |languages| ==> Usable(Stored(table, owner, languages[i].id))
    ensures ValidLimits(Archived(table, owner, languages), LanguageExtensions(languages))
  {
    if languages != [] {
      var n := |languages| - 1;
      var shorter, names := languages[..n], LanguageExtensions(languages);
      assert LanguageExtensions(shorter) == names[..n] && names == names[..n] + [names[n]];
      ExportedLimitsAreValid(table, owner, shorter);
      var before, all := Archived(table, owner, shorter), Archived(table, owner, languages);
      ArchivedEntries(table, owner, shorter);
      forall k | 0 <= k < |before| ensures ToLower(before[k].extension) != ToLower(names[n]) {
        assert before[k] in before;
        var j :| 0 <= j < n && before[k] == ArchiveLimit(shorter[j].extension, Stored(table, owner, shorter[j].id));
        assert ToLower(names[j]) != ToLower(names[n]);
      }
      forall lower ensures Lists(names, lower) <==> Lists(names[..n], lower) || lower == ToLower(names[n]) {
        ListsPrefix(names[..n], names[n], lower);
      }
      if |all| > |before| {
        assert ExtensionsOf(all) == ExtensionsOf(before) + [names[n]];
      }
    }
  }

  /**
    Exporting an exercise and importing it under other language ids gives every case and
    language the same resolved limits and sources, field by field.
  */
  lemma TransferKeepsResolvedLimits(
      exerciseLimits: OverrideTable, caseLimits: OverrideTable, exercise: int, caseId: int, languages: seq<Language>,
      e: ArchiveExercise, c: ArchiveCase, registered: map<string, int>,
      newExerciseLimits: OverrideTable, newCaseLimits: OverrideTable, newExercise: int, newCase: int,
      platform: Limits, i: nat, f: Field)
    requires i < |languages| && DistinctExtensions(LanguageExtensions(languages))
    requires forall lower :: Lists(e.extensions, lower) <==> Lists(LanguageExtensions(languages), lower)
    requires forall lower :: Lists(e.extensions, lower) ==> lower in registered
    requires e.limits == Archived(exerciseLimits, exercise, languages)
    requires c.limits == Archived(caseLimits, caseId, languages) && c.legacy == Limits(0, 0, 0, 0)
    requires LayerStored(e.limits, e.extensions, registered, newExerciseLimits, newExercise)
    requires CaseStored(c, e.extensions, registered, newCaseLimits, newCase)
    ensures ToLower(languages[i].extension) in registered
    ensures
      var here, there := languages[i].id, registered[ToLower(languages[i].extension)];
      ResolvedField(platform, [Layer(Stored(newExerciseLimits, newExercise, there), FromExercise),
                               Layer(Stored(newCaseLimits, newCase, there), FromCase)], f)
      == ResolvedField(platform, [Layer(Stored(exerciseLimits, exercise, here), FromExercise),
                                  Layer(Stored(caseLimits, caseId, here), FromCase)], f)
  {
    var lower := ToLower(languages[i].extension);
    assert ToLower(LanguageExtensions(languages)[i]) == lower;
    assert Lists(e.extensions, lower);
    ArchiveSaysWhatIsStored(exerciseLimits, exercise, languages, i);
    ArchiveSaysWhatIsStored(caseLimits, caseId, languages, i);
  }

  /** One case resolves to the same limits and sources on both sides, for one language. */
  ghost predicate SameResolved(
      exerciseLimits: OverrideTable, caseLimits: OverrideTable, exercise: int, caseId: int, here: int,
      newExerciseLimits: OverrideTable, newCaseLimits: OverrideTable, newExercise: int, newCase: int, there: int) {
    forall platform, f ::
      ResolvedField(platform, [Layer(Stored(newExerciseLimits, newExercise, there), FromExercise),
                               Layer(Stored(newCaseLimits, newCase, there), FromCase)], f)
      == ResolvedField(platform, [Layer(Stored(exerciseLimits, exercise, here), FromExercise),
                                  Layer(Stored(caseLimits, caseId, here), FromCase)], f)
  }

  /** An exercise as it is stored: its languages, limits, cases with their files, and own files. */
  datatype StoredExercise = StoredExercise(
    id: int, languages: seq<Language>, limits: OverrideTable,
    caseIds: seq<int>, caseLimits: OverrideTable, caseFiles: seq<seq<string>>,
    compilationFiles: seq<string>, attachedFiles: seq<string>)

  /** What an exercise must be like for its archive to pass validation. */
  ghost predicate Transferable(s: StoredExercise) {
    && DistinctExtensions(LanguageExtensions(s.languages))
    && (forall i :: 0 <= i < |s.languages| ==> Usable(Stored(s.limits, s.id, s.languages[i].id)))
    && (forall c, i :: 0 <= c < |s.caseIds| && 0 <= i < |s.languages| ==>
          Usable(Stored(s.caseLimits, s.caseIds[c], s.languages[i].id)))
    && (forall c :: 0 <= c < |s.caseFiles| ==> ValidNames(s.caseFiles[c]))
    && ValidNames(s.compilationFiles) && ValidNames(s.attachedFiles)
  }

  ghost predicate IsArchiveOf(s: StoredExercise, e: ArchiveExercise) {
    && e.extensions == LanguageExtensions(s.languages)
    && e.limits == Archived(s.limits, s.id, s.languages)
    && |e.cases| == |s.caseIds| == |s.caseFiles|
    && (forall c :: 0 <= c < |e.cases| ==>
          e.cases[c] == ArchiveCase(Archived(s.caseLimits, s.caseIds[c], s.languages), Limits(0, 0, 0, 0), s.caseFiles[c]))
    && e.compilationFiles == s.compilationFiles && e.attachedFiles == s.attachedFiles
  }

  lemma TransferableIsValid(s: StoredExercise, e: ArchiveExercise)
    requires IsArchiveOf(s, e) && Transferable(s)
    ensures ValidExercise(e)
  {
    ExportedLimitsAreValid(s.limits, s.id, s.languages);
    forall c | 0 <= c < |e.cases| ensures ValidCase(e.cases[c], e.extensions) {
      ExportedLimitsAreValid(s.caseLimits, s.caseIds[c], s.languages);
    }
  }

  /** The exporter's side, for one exercise. */
  method ExportExercise(s: StoredExercise) returns (e: ArchiveExercise)
    requires |s.caseFiles| == |s.caseIds|
    ensures IsArchiveOf(s, e)
  {
    var limits := ArchiveLimits(s.limits, s.id, s.languages);
    var extensions: seq<string> := [];
    for i := 0 to |s.languages|
      invariant extensions == LanguageExtensions(s.languages)[..i]
    {
      extensions := extensions + [s.languages[i].extension];
    }
    var cases: seq<ArchiveCase> := [];
    for c := 0 to |s.caseIds|
      invariant |cases| == c
      invariant forall j :: 0 <= j < c ==>
        cases[j] == ArchiveCase(Archived(s.caseLimits, s.caseIds[j], s.languages), Limits(0, 0, 0, 0), s.caseFiles[j])
    {
      var caseLimits := ArchiveLimits(s.caseLimits, s.caseIds[c], s.languages);
      cases := cases + [ArchiveCase(caseLimits, Limits(0, 0, 0, 0), s.caseFiles[c])];
    }
    e := ArchiveExercise(extensions, limits, cases, s.compilationFiles, s.attachedFiles);
  }

  /**
    Export, validation and import of one exercise, run one after the other.  A transferable
    exercise always passes the validation, and what the import stores resolves, for every case,
    language, platform and field, to the limits and sources of the exported exercise.
  */
  method TransferExercise(s: StoredExercise, registered: map<string, int>, newId: int, newCaseIds: seq<int>)
    returns (r: Result<Imported, Problem>)
    requires |s.caseFiles| == |s.caseIds| == |newCaseIds| && Injective(registered)
    requires forall i, j :: 0 <= i < j < |newCaseIds| ==> newCaseIds[i] != newCaseIds[j]
    ensures r.Err? && r.error.InvalidTransfer? ==> !Transferable(s)
    ensures r.Err? ==> r.error.InvalidTransfer? || r.error.ServerError? || r.error.UnregisteredType?
    ensures r.Ok? ==> TypesFor(LanguageExtensions(s.languages), registered, r.value.types)
    ensures r.Ok? ==> forall c, i :: 0 <= c < |newCaseIds| && 0 <= i < |s.languages| ==>
      SameResolved(s.limits, s.caseLimits, s.id, s.caseIds[c], s.languages[i].id,
                   r.value.exerciseLimits, r.value.caseLimits, newId, newCaseIds[c], r.value.types[i].id)
  {
    hide DistinctExtensions, ValidLimits, LayerStored, CaseStored, Injective, ValidNames, ValidCase;
    var e := ExportExercise(s);
    var valid := ValidateExercise(e);
    if !valid {
      if Transferable(s) {
        TransferableIsValid(s, e);
      }
      return Err(InvalidTransfer);
    }
    r := ImportExercise(e, registered, newId, newCaseIds);
    if r.Ok? {
      forall c, i | 0 <= c < |newCaseIds| && 0 <= i < |s.languages|
        ensures SameResolved(s.limits, s.caseLimits, s.id, s.caseIds[c], s.languages[i].id,
                             r.value.exerciseLimits, r.value.caseLimits, newId, newCaseIds[c], r.value.types[i].id)
      {
        TransferredCase(s, e, registered, r.value, newId, newCaseIds[c], c, i);
      }
    }
  }

  lemma TransferredCase(
      s: StoredExercise, e: ArchiveExercise, registered: map<string, int>, imported: Imported,
      newId: int, newCase: int, c: nat, i: nat)
    requires IsArchiveOf(s, e) && DistinctExtensions(e.extensions) && c < |e.cases| && i < |s.languages|
    requires TypesFor(e.extensions, registered, imported.types)
    requires LayerStored(e.limits, e.extensions, registered, imported.exerciseLimits, newId)
    requires CaseStored(e.cases[c], e.extensions, registered, imported.caseLimits, newCase)
    ensures SameResolved(s.limits, s.caseLimits, s.id, s.caseIds[c], s.languages[i].id,
                         imported.exerciseLimits, imported.caseLimits, newId, newCase, imported.types[i].id)
  {
    hide LayerStored, CaseStored, DistinctExtensions, Archived, ResolvedField, Stored;
    forall lower | Lists(e.extensions, lower) ensures lower in registered {
      ListedExtensionHasId(e.extensions, registered, imported.types, lower);
    }
    forall platform, f
      ensures ResolvedField(platform, [Layer(Stored(imported.exerciseLimits, newId, imported.types[i].id), FromExercise),
                                       Layer(Stored(imported.caseLimits, newCase, imported.types[i].id), FromCase)], f)
           == ResolvedField(platform, [Layer(Stored(s.limits, s.id, s.languages[i].id), FromExercise),
                                       Layer(Stored(s.caseLimits, s.caseIds[c], s.languages[i].id), FromCase)], f)
    {
      TransferKeepsResolvedLimits(
        s.limits, s.caseLimits, s.id, s.caseIds[c], s.languages, e, e.cases[c], registered,
        imported.exerciseLimits, imported.caseLimits, newId, newCase, platform, i, f);
    }
  }
}
