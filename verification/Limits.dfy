/**
  Execution limits per language (backend/services/limits-service.go, exercises-service.go):
  resolved in layers for display, frozen by one SQL statement per submission, and stored as
  overrides that follow the languages an exercise allows.

  Requests are taken one after the other; every statement of a transaction takes effect
  together or not at all.
*/
module Limits {
  import opened Wrappers
  import MapOrder

  datatype Field = Cpu | Memory | Stack | FileSize

  datatype Overrides = Overrides(cpu: Option<int>, memory: Option<int>, stack: Option<int>, fileSize: Option<int>) {
    predicate Empty() {
      cpu.None? && memory.None? && stack.None? && fileSize.None?
    }

    function Get(f: Field): Option<int> {
      match f
      case Cpu => cpu
      case Memory => memory
      case Stack => stack
      case FileSize => fileSize
    }
  }

  const NO_OVERRIDES := Overrides(None, None, None, None)

  datatype Limits = Limits(cpu: int, memory: int, stack: int, fileSize: int) {
    function Get(f: Field): int {
      match f
      case Cpu => cpu
      case Memory => memory
      case Stack => stack
      case FileSize => fileSize
    }
  }

  datatype Source = Platform | FromExercise | FromCase

  datatype Sources = Sources(cpu: Source, memory: Source, stack: Source, fileSize: Source) {
    function Get(f: Field): Source {
      match f
      case Cpu => cpu
      case Memory => memory
      case Stack => stack
      case FileSize => fileSize
    }
  }

  // --- resolution ------------------------------------------------------------------------

  datatype Layer = Layer(overrides: Overrides, source: Source)

  /** The last layer with a value wins. */
  function ResolvedField(platform: Limits, layers: seq<Layer>, f: Field): (int, Source) {
    if layers == [] then (platform.Get(f), Platform)
    else
      var last := layers[|layers| - 1];
      if last.overrides.Get(f).Some? then (last.overrides.Get(f).value, last.source)
      else ResolvedField(platform, layers[..|layers| - 1], f)
  }

  ghost predicate ResolvesTo(platform: Limits, layers: seq<Layer>, limits: Limits, sources: Sources) {
    forall f :: (limits.Get(f), sources.Get(f)) == ResolvedField(platform, layers, f)
  }

  /** resolveLimits: the layers come from the most general to the most specific. */
  method ResolveLimits(platform: Limits, layers: seq<Layer>) returns (limits: Limits, sources: Sources)
    ensures ResolvesTo(platform, layers, limits, sources)
  {
    limits, sources := platform, Sources(Platform, Platform, Platform, Platform);
    for i := 0 to |layers|
      invariant ResolvesTo(platform, layers[..i], limits, sources)
    {
      assert layers[..i + 1][..i] == layers[..i];
      var o, source := layers[i].overrides, layers[i].source;
      ghost var limitsBefore, sourcesBefore := limits, sources;
      if o.cpu.Some? {
        limits, sources := limits.(cpu := o.cpu.value), sources.(cpu := source);
      }
      if o.memory.Some? {
        limits, sources := limits.(memory := o.memory.value), sources.(memory := source);
      }
      if o.stack.Some? {
        limits, sources := limits.(stack := o.stack.value), sources.(stack := source);
      }
      if o.fileSize.Some? {
        limits, sources := limits.(fileSize := o.fileSize.value), sources.(fileSize := source);
      }
      forall f
        ensures (limits.Get(f), sources.Get(f)) ==
          if o.Get(f).Some? then (o.Get(f).value, source) else (limitsBefore.Get(f), sourcesBefore.Get(f))
      {
      }
    }
    assert layers[..|layers|] == layers;
  }

  lemma ResolvedTwice(platform: Limits, general: Layer, specific: Layer, f: Field)
    ensures ResolvedField(platform, [general, specific], f) ==
      if specific.overrides.Get(f).Some? then (specific.overrides.Get(f).value, specific.source)
      else if general.overrides.Get(f).Some? then (general.overrides.Get(f).value, general.source)
      else (platform.Get(f), Platform)
  {
    assert [general, specific][..1] == [general] && [general][..0] == [];
    assert ResolvedField(platform, [general], f) ==
      if general.overrides.Get(f).Some? then (general.overrides.Get(f).value, general.source) else (platform.Get(f), Platform);
  }

  // --- the tables ---------------------------------------------------------------------------

  datatype Exercise = Exercise(isGhost: bool, realId: Option<int>)

  datatype Commit = Commit(exercise: int, language: Option<int>)

  /** Keys of the limit tables are (exercise or case, language); of the snapshot, (commit, case). */
  datatype Tables = Tables(
    exercises: map<int, Exercise>,
    allowed: map<int, set<int>>,
    cases: map<int, int>,
    exerciseLimits: map<(int, int), Overrides>,
    caseLimits: map<(int, int), Overrides>,
    commits: map<int, Commit>,
    snapshots: map<(int, int), Limits>)

  /** The exercise that owns the cases and the limits; a ghost's are its real exercise's. */
  function AuthoringId(t: Tables, exercise: int): int {
    if exercise in t.exercises && t.exercises[exercise].isGhost && t.exercises[exercise].realId.Some?
    then t.exercises[exercise].realId.value
    else exercise
  }

  function Allowed(t: Tables, exercise: int): set<int> {
    if exercise in t.allowed then t.allowed[exercise] else {}
  }

  function Stored(m: map<(int, int), Overrides>, owner: int, language: int): Overrides {
    if (owner, language) in m then m[(owner, language)] else NO_OVERRIDES
  }

  function LayersOf(t: Tables, exercise: int, caseId: int, language: int): seq<Layer> {
    [Layer(Stored(t.exerciseLimits, exercise, language), FromExercise),
     Layer(Stored(t.caseLimits, caseId, language), FromCase)]
  }

  // --- the snapshot ---------------------------------------------------------------------------

  function Coalesce(a: Option<int>, b: Option<int>, c: int): int {
    if a.Some? then a.value else if b.Some? then b.value else c
  }

  /** One row of the INSERT ... SELECT: the joins find nothing for a commit without a language. */
  function SnapshotRow(t: Tables, platform: Limits, caseId: int, language: Option<int>): Limits
    requires caseId in t.cases
  {
    var ofCase := if language.Some? then Stored(t.caseLimits, caseId, language.value) else NO_OVERRIDES;
    var ofExercise := if language.Some? then Stored(t.exerciseLimits, t.cases[caseId], language.value) else NO_OVERRIDES;
    Limits(Coalesce(ofCase.cpu, ofExercise.cpu, platform.cpu),
           Coalesce(ofCase.memory, ofExercise.memory, platform.memory),
           Coalesce(ofCase.stack, ofExercise.stack, platform.stack),
           Coalesce(ofCase.fileSize, ofExercise.fileSize, platform.fileSize))
  }

  /** The (commit, case) pairs the statement selects. */
  function Selected(t: Tables, commits: set<int>): set<(int, int)> {
    set c, k | c in commits && c in t.commits && t.commits[c].exercise in t.exercises
      && k in t.cases && t.cases[k] == AuthoringId(t, t.commits[c].exercise) :: (c, k)
  }

  /** SnapshotCommitLimits: existing rows stay, by ON CONFLICT DO NOTHING. */
  function AfterSnapshot(t: Tables, platform: Limits, commits: set<int>): Tables {
    var rows := map p | p in Selected(t, commits) :: SnapshotRow(t, platform, p.1, t.commits[p.0].language);
    t.(snapshots := rows + t.snapshots)
  }

  /** `owner` has the cases and limits of an exercise: the real exercise of a ghost, itself of any other. */
  ghost predicate Owns(t: Tables, exercise: int, owner: int) {
    exercise in t.exercises &&
    match t.exercises[exercise]
    case Exercise(true, Some(r)) => owner == r
    case _ => owner == exercise
  }

  /** The statement has a row for the pair: the commit is given and submitted to an exercise that has the case. */
  ghost predicate Covers(t: Tables, commits: set<int>, commit: int, caseId: int) {
    commit in commits && commit in t.commits && caseId in t.cases && Owns(t, t.commits[commit].exercise, t.cases[caseId])
  }

  /** The value of a field: the case's override for the language, else its exercise's, else the platform's. */
  ghost predicate FieldReads(t: Tables, platform: Limits, caseId: int, language: Option<int>, f: Field, value: int)
    requires caseId in t.cases
  {
    match language
    case None => value == platform.Get(f)
    case Some(l) =>
      if (caseId, l) in t.caseLimits && t.caseLimits[(caseId, l)].Get(f).Some?
      then t.caseLimits[(caseId, l)].Get(f) == Some(value)
      else if (t.cases[caseId], l) in t.exerciseLimits && t.exerciseLimits[(t.cases[caseId], l)].Get(f).Some?
      then t.exerciseLimits[(t.cases[caseId], l)].Get(f) == Some(value)
      else value == platform.Get(f)
  }

  lemma OwnerIsAuthoring(t: Tables, exercise: int)
    ensures forall owner :: Owns(t, exercise, owner) ==> owner == AuthoringId(t, exercise)
  {
  }

  lemma CoversNames(t: Tables, commits: set<int>, commit: int, caseId: int)
    requires Covers(t, commits, commit, caseId)
    ensures commit in t.commits && caseId in t.cases
  {
  }

  /** Afterwards there is a row for every covered pair, no other new one, and the old rows are as they were. */
  lemma SnapshotRowsIff(t: Tables, platform: Limits, commits: set<int>, commit: int, caseId: int)
    ensures var rows := AfterSnapshot(t, platform, commits).snapshots;
      && ((commit, caseId) in rows <==> (commit, caseId) in t.snapshots || Covers(t, commits, commit, caseId))
      && ((commit, caseId) in t.snapshots ==> rows[(commit, caseId)] == t.snapshots[(commit, caseId)])
  {
    assert (commit, caseId) in Selected(t, commits) <==> Covers(t, commits, commit, caseId);
  }

  /** What a new row holds. */
  lemma SnapshotRowReads(t: Tables, platform: Limits, commits: set<int>, commit: int, caseId: int, f: Field)
    requires Covers(t, commits, commit, caseId) && (commit, caseId) !in t.snapshots
    ensures (commit, caseId) in AfterSnapshot(t, platform, commits).snapshots
    ensures FieldReads(t, platform, caseId, t.commits[commit].language, f,
                       AfterSnapshot(t, platform, commits).snapshots[(commit, caseId)].Get(f))
  {
    SnapshotRowsIff(t, platform, commits, commit, caseId);
    assert (commit, caseId) in Selected(t, commits);
  }

  /**
    A covered pair has, field by field, what the layered resolution gives for the commit's
    language, unless its row was there before.
  */
  lemma SnapshotEqualsResolution(
      t: Tables, platform: Limits, commits: set<int>, commit: int, caseId: int, language: int, limits: Limits, sources: Sources)
    requires Covers(t, commits, commit, caseId) && t.commits[commit].language == Some(language)
    requires ResolvesTo(platform, LayersOf(t, t.cases[caseId], caseId, language), limits, sources)
    ensures (commit, caseId) in AfterSnapshot(t, platform, commits).snapshots
    ensures AfterSnapshot(t, platform, commits).snapshots[(commit, caseId)] ==
      if (commit, caseId) in t.snapshots then t.snapshots[(commit, caseId)] else limits
  {
    SnapshotRowsIff(t, platform, commits, commit, caseId);
    assert (commit, caseId) in Selected(t, commits);
    var row := SnapshotRow(t, platform, caseId, Some(language));
    var layers := LayersOf(t, t.cases[caseId], caseId, language);
    forall f ensures row.Get(f) == limits.Get(f) {
      ResolvedTwice(platform, layers[0], layers[1], f);
      assert (limits.Get(f), sources.Get(f)) == ResolvedField(platform, layers, f);
    }
    SameLimits(row, limits);
  }

  lemma SameLimits(a: Limits, b: Limits)
    requires forall f :: a.Get(f) == b.Get(f)
    ensures a == b
  {
    assert a.Get(Cpu) == b.Get(Cpu) && a.Get(Memory) == b.Get(Memory);
    assert a.Get(Stack) == b.Get(Stack) && a.Get(FileSize) == b.Get(FileSize);
  }

  /** A submission whose language was not recognised runs under the platform's limits. */
  lemma UnknownLanguageRunsOnPlatform(t: Tables, platform: Limits, commits: set<int>, commit: int, caseId: int)
    requires Covers(t, commits, commit, caseId) && (commit, caseId) !in t.snapshots
    requires t.commits[commit].language.None?
    ensures (commit, caseId) in AfterSnapshot(t, platform, commits).snapshots
    ensures AfterSnapshot(t, platform, commits).snapshots[(commit, caseId)] == platform
  {
    SnapshotRowsIff(t, platform, commits, commit, caseId);
    assert (commit, caseId) in Selected(t, commits);
  }

  /** Each source names the layer that holds the value. */
  lemma SourcesNameTheLayer(t: Tables, platform: Limits, caseId: int, language: int, limits: Limits, sources: Sources, f: Field)
    requires caseId in t.cases
    requires ResolvesTo(platform, LayersOf(t, t.cases[caseId], caseId, language), limits, sources)
    ensures var ofCase, ofExercise := Stored(t.caseLimits, caseId, language), Stored(t.exerciseLimits, t.cases[caseId], language);
      match sources.Get(f)
      case FromCase => ofCase.Get(f) == Some(limits.Get(f))
      case FromExercise => ofCase.Get(f) == None && ofExercise.Get(f) == Some(limits.Get(f))
      case Platform => ofCase.Get(f) == None && ofExercise.Get(f) == None && limits.Get(f) == platform.Get(f)
  {
    var layers := LayersOf(t, t.cases[caseId], caseId, language);
    ResolvedTwice(platform, layers[0], layers[1], f);
    assert (limits.Get(f), sources.Get(f)) == ResolvedField(platform, layers, f);
  }

  // --- validation ------------------------------------------------------------------------------

  datatype Entry = Entry(language: int, overrides: Overrides)

  predicate Usable(o: Overrides) {
    && (o.cpu.Some? ==> o.cpu.value > 0)
    && (o.memory.Some? ==> o.memory.value >= 0)
    && (o.stack.Some? ==> o.stack.value >= 0)
    && (o.fileSize.Some? ==> o.fileSize.value >= 0)
  }

  ghost predicate DistinctLanguages(entries: seq<Entry>) {
    forall i, j :: 0 <= i < j < |entries| ==> entries[i].language != entries[j].language
  }

  ghost predicate ValidEntries(allowed: set<int>, entries: seq<Entry>) {
    && DistinctLanguages(entries)
    && forall i :: 0 <= i < |entries| ==> entries[i].language in allowed && Usable(entries[i].overrides)
  }

  method ValidateLanguageLimits(allowed: set<int>, entries: seq<Entry>) returns (ok: bool)
    ensures ok <==> ValidEntries(allowed, entries)
  {
    var seen: set<int> := {};
    for i := 0 to |entries|
      invariant ValidEntries(allowed, entries[..i])
      invariant forall language :: language in seen <==> exists j :: 0 <= j < i && entries[j].language == language
    {
      var o := entries[i].overrides;
      if entries[i].language !in allowed {
        return false;
      }
      if entries[i].language in seen {
        return false;
      }
      seen := seen + {entries[i].language};
      if o.cpu.Some? && o.cpu.value <= 0 {
        return false;
      }
      if o.memory.Some? && o.memory.value < 0 {
        return false;
      }
      if o.stack.Some? && o.stack.value < 0 {
        return false;
      }
      if o.fileSize.Some? && o.fileSize.value < 0 {
        return false;
      }
    }
    return true;
  }

  // --- writing overrides ----------------------------------------------------------------------

  type OverrideTable = map<(int, int), Overrides>

  function Cleared(m: OverrideTable, owner: int): OverrideTable {
    map k | k in m && k.0 != owner :: m[k]
  }

  /** The rows the insert loop adds; an entry that overrides nothing is not stored. */
  function WithEntries(m: OverrideTable, owner: int, entries: seq<Entry>): OverrideTable {
    if entries == [] then m
    else
      var last := entries[|entries| - 1];
      var before := WithEntries(m, owner, entries[..|entries| - 1]);
      if last.overrides.Empty() then before else before[(owner, last.language) := last.overrides]
  }

  ghost predicate Sets(entries: seq<Entry>, language: int, o: Overrides) {
    exists i :: 0 <= i < |entries| && entries[i].language == language && entries[i].overrides == o && !o.Empty()
  }

  lemma SetsPrefix(entries: seq<Entry>, last: Entry, language: int, o: Overrides)
    ensures Sets(entries + [last], language, o) <==>
      Sets(entries, language, o) || (last == Entry(language, o) && !o.Empty())
  {
    if Sets(entries, language, o) {
      var i :| 0 <= i < |entries| && entries[i].language == language && entries[i].overrides == o;
      assert (entries + [last])[i] == entries[i];
    }
    assert (entries + [last])[|entries|] == last;
  }

  /** After replacing, an owner has exactly the non-empty entries, and other owners are untouched. */
  lemma {:induction false} ReplacedExactly(m: OverrideTable, owner: int, entries: seq<Entry>, k: (int, int))
    requires DistinctLanguages(entries)
    ensures var after := WithEntries(Cleared(m, owner), owner, entries);
      && (k.0 != owner ==> (k in after <==> k in m) && (k in m ==> after[k] == m[k]))
      && (k.0 == owner ==> forall o :: Sets(entries, k.1, o) <==> k in after && after[k] == o)
      && (k.0 == owner && k in after ==> Sets(entries, k.1, after[k]))
  {
    if entries != [] {
      var before, last := entries[..|entries| - 1], entries[|entries| - 1];
      assert entries == before + [last];
      ReplacedExactly(m, owner, before, k);
      forall o ensures Sets(entries, k.1, o) <==> Sets(before, k.1, o) || (last == Entry(k.1, o) && !o.Empty()) {
        SetsPrefix(before, last, k.1, o);
      }
      assert last.language == k.1 ==> forall o :: !Sets(before, k.1, o);
    }
  }

  /** Of `owner` exactly the entries that override something are stored, and other owners' rows are untouched. */
  ghost predicate StoresEntries(before: OverrideTable, owner: int, entries: seq<Entry>, after: OverrideTable) {
    && (forall k: (int, int) :: k.0 != owner ==> (k in after <==> k in before) && (k in before ==> after[k] == before[k]))
    && (forall i :: 0 <= i < |entries| && entries[i].overrides != Overrides(None, None, None, None) ==>
          (owner, entries[i].language) in after && after[(owner, entries[i].language)] == entries[i].overrides)
    && (forall k: (int, int) :: k in after && k.0 == owner ==>
          exists i :: 0 <= i < |entries| && entries[i] == Entry(k.1, after[k]) && after[k] != Overrides(None, None, None, None))
  }

  lemma ReplacedStoresEntries(m: OverrideTable, owner: int, entries: seq<Entry>)
    requires DistinctLanguages(entries)
    ensures StoresEntries(m, owner, entries, WithEntries(Cleared(m, owner), owner, entries))
  {
    hide WithEntries, Cleared;
    var after := WithEntries(Cleared(m, owner), owner, entries);
    forall k: (int, int)
      ensures k.0 != owner ==> (k in after <==> k in m) && (k in m ==> after[k] == m[k])
      ensures k.0 == owner && k in after ==> Sets(entries, k.1, after[k])
    {
      ReplacedExactly(m, owner, entries, k);
    }
    forall i | 0 <= i < |entries| && entries[i].overrides != Overrides(None, None, None, None)
      ensures (owner, entries[i].language) in after && after[(owner, entries[i].language)] == entries[i].overrides
    {
      assert Sets(entries, entries[i].language, entries[i].overrides);
      ReplacedExactly(m, owner, entries, (owner, entries[i].language));
    }
  }

  /** The insert loop; a statement may fail, and so does a row that is already there. */
  method InsertLimits(m: OverrideTable, owner: int, entries: seq<Entry>) returns (ok: bool, after: OverrideTable)
    ensures ok ==> after == WithEntries(m, owner, entries)
  {
    ok, after := true, m;
    for i := 0 to |entries|
      invariant ok && after == WithEntries(m, owner, entries[..i])
    {
      assert entries[..i + 1][..i] == entries[..i];
      if entries[i].overrides.Empty() {
        continue;
      }
      var accepted: bool := *;
      if !accepted || (owner, entries[i].language) in after {
        return false, m;
      }
      after := after[(owner, entries[i].language) := entries[i].overrides];
    }
    assert entries[..|entries|] == entries;
  }

  // --- what each request does to the tables ------------------------------------------------------

  function AfterReplaceExercise(t: Tables, exercise: int, entries: seq<Entry>): Tables {
    var owner := AuthoringId(t, exercise);
    t.(exerciseLimits := WithEntries(Cleared(t.exerciseLimits, owner), owner, entries))
  }

  function AfterReplaceCase(t: Tables, caseId: int, entries: seq<Entry>): Tables {
    t.(caseLimits := WithEntries(Cleared(t.caseLimits, caseId), caseId, entries))
  }

  /** The allowed languages change on the exercise itself; the stale overrides go from the one that owns them. */
  function AfterUpdateAllowed(t: Tables, exercise: int, languages: set<int>): Tables {
    var owner := AuthoringId(t, exercise);
    t.(allowed := t.allowed[exercise := languages],
       exerciseLimits := map k | k in t.exerciseLimits && (k.0 == owner ==> k.1 in languages) :: t.exerciseLimits[k],
       caseLimits := map k | k in t.caseLimits && (k.0 in t.cases && t.cases[k.0] == owner ==> k.1 in languages)
                     :: t.caseLimits[k])
  }

  function DedupedIds(ids: seq<int>): seq<int> {
    if ids == [] then []
    else
      var before, last := DedupedIds(ids[..|ids| - 1]), ids[|ids| - 1];
      if last in before then before else before + [last]
  }

  /** dedupeIDs keeps every id once. */
  lemma {:induction false} DedupedIdsKeepAll(ids: seq<int>)
    ensures forall id :: id in DedupedIds(ids) <==> id in ids
    ensures forall i, j :: 0 <= i < j < |DedupedIds(ids)| ==> DedupedIds(ids)[i] != DedupedIds(ids)[j]
  {
    if ids != [] {
      DedupedIdsKeepAll(ids[..|ids| - 1]);
      assert ids == ids[..|ids| - 1] + [ids[|ids| - 1]];
    }
  }

  method DedupeIds(ids: seq<int>) returns (out: seq<int>)
    ensures out == DedupedIds(ids)
  {
    out := [];
    var seen: set<int> := {};
    for i := 0 to |ids|
      invariant out == DedupedIds(ids[..i])
      invariant forall id :: id in seen <==> id in out
    {
      assert ids[..i + 1][..i] == ids[..i];
      if ids[i] !in seen {
        seen := seen + {ids[i]};
        out := out + [ids[i]];
      }
    }
    assert ids[..|ids|] == ids;
  }

  function SetOf(ids: seq<int>): set<int> {
    set id | id in ids
  }

  lemma SameIds(a: seq<int>, b: seq<int>)
    requires forall id :: id in a <==> id in b
    ensures SetOf(a) == SetOf(b)
  {
    forall id ensures id in SetOf(a) <==> id in SetOf(b) {
      assert id in a <==> id in b;
    }
  }

  /** What a row of the listing shows. */
  datatype Shown = Shown(overrides: Overrides, limits: Limits, sources: Sources)

  datatype Outcome = Done | Rejected | Failed

  class LimitStore {
    var t: Tables
    const platform: Limits

    constructor (t: Tables, platform: Limits)
      ensures this.t == t && this.platform == platform
    {
      this.t, this.platform := t, platform;
    }

    /** A commit may fail without effect, or fail after taking effect. */
    method CommitTransaction(after: Tables) returns (outcome: Outcome)
      modifies this`t
      ensures outcome.Done? ==> t == after
      ensures outcome.Failed? ==> t == old(t) || t == after
      ensures !outcome.Rejected?
    {
      var applied: bool, reported: bool := *, *;
      if applied {
        t := after;
      }
      outcome := if applied && reported then Done else Failed;
    }

    method ReplaceExerciseLanguageLimits(exercise: int, entries: seq<Entry>) returns (outcome: Outcome)
      modifies this`t
      ensures var valid := ValidEntries(Allowed(old(t), AuthoringId(old(t), exercise)), entries);
        && (outcome.Done? ==> valid && t == AfterReplaceExercise(old(t), exercise, entries))
        && (outcome.Rejected? ==> !valid)
        && (!valid ==> t == old(t))
      ensures outcome.Rejected? ==> t == old(t)
      ensures t == old(t) || t == AfterReplaceExercise(old(t), exercise, entries)
      ensures outcome.Done? ==> forall owner :: Owns(old(t), exercise, owner) ==>
        StoresEntries(old(t).exerciseLimits, owner, entries, t.exerciseLimits)
      ensures outcome.Rejected? ==> forall owner :: Owns(old(t), exercise, owner) && owner in old(t).allowed ==>
        !ValidEntries(old(t).allowed[owner], entries)
    {
      OwnerIsAuthoring(t, exercise);
      var owner := AuthoringId(t, exercise);
      var loaded: bool := *;
      if !loaded {
        return Failed;
      }
      var ok := ValidateLanguageLimits(Allowed(t, owner), entries);
      if !ok {
        return Rejected;
      }
      var limits;
      ReplacedStoresEntries(t.exerciseLimits, owner, entries);
      ok, limits := InsertLimits(Cleared(t.exerciseLimits, owner), owner, entries);
      if !ok {
        return Failed;
      }
      outcome := CommitTransaction(t.(exerciseLimits := limits));
    }

    /** The case part of a create or update, with the rest of its transaction left out. */
    method ReplaceTestCaseLanguageLimits(caseId: int, entries: seq<Entry>) returns (outcome: Outcome)
      requires caseId in t.cases
      modifies this`t
      ensures var valid := ValidEntries(Allowed(old(t), old(t.cases[caseId])), entries);
        && (outcome.Done? ==> valid && t == AfterReplaceCase(old(t), caseId, entries))
        && (outcome.Rejected? ==> !valid)
        && (!valid ==> t == old(t))
      ensures t == old(t) || t == AfterReplaceCase(old(t), caseId, entries)
      ensures outcome.Done? ==> StoresEntries(old(t).caseLimits, caseId, entries, t.caseLimits)
      ensures outcome.Rejected? && old(t).cases[caseId] in old(t).allowed ==>
        !ValidEntries(old(t).allowed[old(t).cases[caseId]], entries)
    {
      var loaded: bool := *;
      if !loaded {
        return Failed;
      }
      var ok := ValidateLanguageLimits(Allowed(t, t.cases[caseId]), entries);
      if !ok {
        return Rejected;
      }
      var limits;
      ReplacedStoresEntries(t.caseLimits, caseId, entries);
      ok, limits := InsertLimits(Cleared(t.caseLimits, caseId), caseId, entries);
      if !ok {
        return Failed;
      }
      outcome := CommitTransaction(t.(caseLimits := limits));
    }

    /** The allowed-language part of UpdateExercise. */
    method UpdateExercise(exercise: int, requested: seq<int>) returns (outcome: Outcome)
      modifies this`t
      ensures outcome.Done? ==> t == AfterUpdateAllowed(old(t), exercise, SetOf(requested))
      ensures t == old(t) || t == AfterUpdateAllowed(old(t), exercise, SetOf(requested))
      ensures outcome.Done? ==> exercise in t.allowed && forall l :: l in t.allowed[exercise] <==> l in requested
      ensures outcome.Done? ==> forall owner, l :: Owns(old(t), exercise, owner) ==>
        ((owner, l) in t.exerciseLimits <==> (owner, l) in old(t).exerciseLimits && l in requested)
      ensures outcome.Done? ==> forall k, l :: k in old(t).cases && Owns(old(t), exercise, old(t).cases[k]) ==>
        ((k, l) in t.caseLimits <==> (k, l) in old(t).caseLimits && l in requested)
    {
      OwnerIsAuthoring(t, exercise);
      var ids := DedupeIds(requested);
      DedupedIdsKeepAll(requested);
      var owner := AuthoringId(t, exercise);
      var allowed := t.allowed[exercise := {}];
      var inserted: set<int> := {};
      for i := 0 to |ids|
        invariant inserted == SetOf(ids[..i]) && allowed == t.allowed[exercise := inserted] && t == old(t)
      {
        var accepted: bool := *;
        if !accepted {
          return Failed;
        }
        assert SetOf(ids[..i + 1]) == SetOf(ids[..i]) + {ids[i]};
        inserted := inserted + {ids[i]};
        allowed := allowed[exercise := inserted];
        assert allowed == t.allowed[exercise := inserted];
      }
      assert ids[..|ids|] == ids;
      SameIds(ids, requested);
      var cleared: bool := *;
      if !cleared {
        return Failed;
      }
      var exerciseLimits := map k | k in t.exerciseLimits && (k.0 == owner ==> k.1 in inserted) :: t.exerciseLimits[k];
      var caseLimits := map k | k in t.caseLimits && (k.0 in t.cases && t.cases[k.0] == owner ==> k.1 in inserted)
                        :: t.caseLimits[k];
      var pending := t.(allowed := allowed, exerciseLimits := exerciseLimits, caseLimits := caseLimits);
      outcome := CommitTransaction(pending);
    }

    /** One statement inside the transaction that queues the commits. */
    method SnapshotCommitLimits(commits: set<int>) returns (outcome: Outcome)
      modifies this`t
      ensures outcome.Done? ==> t == AfterSnapshot(old(t), platform, commits)
      ensures t == old(t) || t == AfterSnapshot(old(t), platform, commits)
      ensures outcome.Done? ==> forall c, k ::
        ((c, k) in t.snapshots <==> (c, k) in old(t).snapshots || Covers(old(t), commits, c, k))
      ensures outcome.Done? ==> forall c, k, f :: Covers(old(t), commits, c, k) && (c, k) !in old(t).snapshots ==>
        (c, k) in t.snapshots && FieldReads(old(t), platform, k, old(t).commits[c].language, f, t.snapshots[(c, k)].Get(f))
      ensures outcome.Done? ==> forall row :: row in old(t).snapshots ==> row in t.snapshots && t.snapshots[row] == old(t).snapshots[row]
    {
      hide Covers, FieldReads;
      forall c, k
        ensures (c, k) in AfterSnapshot(t, platform, commits).snapshots <==> (c, k) in t.snapshots || Covers(t, commits, c, k)
      {
        SnapshotRowsIff(t, platform, commits, c, k);
      }
      forall c, k, f | Covers(t, commits, c, k) && (c, k) !in t.snapshots
        ensures (c, k) in AfterSnapshot(t, platform, commits).snapshots
        ensures c in t.commits && k in t.cases
        ensures FieldReads(t, platform, k, t.commits[c].language, f, AfterSnapshot(t, platform, commits).snapshots[(c, k)].Get(f))
      {
        CoversNames(t, commits, c, k);
        SnapshotRowReads(t, platform, commits, c, k, f);
      }
      outcome := CommitTransaction(AfterSnapshot(t, platform, commits));
    }

    /** TestCaseLanguageLimits: every case with every language the exercise allows. */
    method TestCaseLanguageLimits(exercise: int, caseIds: seq<int>) returns (resolved: map<int, map<int, Shown>>)
      ensures forall k :: k in resolved <==> k in caseIds
      ensures forall k :: k in resolved ==> ShowsEveryLanguage(exercise, k, Allowed(t, exercise), resolved[k])
    {
      resolved := map[];
      for i := 0 to |caseIds|
        invariant forall k :: k in resolved <==> k in caseIds[..i]
        invariant forall k :: k in resolved ==> ShowsEveryLanguage(exercise, k, Allowed(t, exercise), resolved[k])
      {
        var perLanguage := ShowLanguages(exercise, caseIds[i]);
        resolved := resolved[caseIds[i] := perLanguage];
      }
    }

    ghost predicate ShowsEveryLanguage(exercise: int, caseId: int, languages: set<int>, shown: map<int, Shown>)
      reads this
    {
      && shown.Keys == languages
      && forall l :: l in shown ==>
           && shown[l].overrides == Stored(t.caseLimits, caseId, l)
           && ResolvesTo(platform, LayersOf(t, exercise, caseId, l), shown[l].limits, shown[l].sources)
    }

    method ShowLanguages(exercise: int, caseId: int) returns (shown: map<int, Shown>)
      ensures ShowsEveryLanguage(exercise, caseId, Allowed(t, exercise), shown)
    {
      shown := map[];
      var todo := Allowed(t, exercise);
      while todo != {}
        invariant todo <= Allowed(t, exercise)
        invariant ShowsEveryLanguage(exercise, caseId, Allowed(t, exercise) - todo, shown)
        decreases todo
      {
        var l := MapOrder.Next(todo);
        todo := todo - {l};
        var limits, sources := ResolveLimits(platform, LayersOf(t, exercise, caseId, l));
        shown := shown[l := Shown(Stored(t.caseLimits, caseId, l), limits, sources)];
      }
    }
  }

  /** What the listing shows for a case and a language is what a submission in it is frozen with. */
  lemma ListingEqualsSnapshot(store: LimitStore, exercise: int, commits: set<int>, commit: int, caseId: int, shown: map<int, Shown>)
    requires Covers(store.t, commits, commit, caseId) && store.t.commits[commit].language.Some?
    requires (commit, caseId) !in store.t.snapshots
    requires store.t.cases[caseId] == exercise
    requires store.t.commits[commit].language.value in Allowed(store.t, exercise)
    requires store.ShowsEveryLanguage(exercise, caseId, Allowed(store.t, exercise), shown)
    ensures (commit, caseId) in AfterSnapshot(store.t, store.platform, commits).snapshots
    ensures AfterSnapshot(store.t, store.platform, commits).snapshots[(commit, caseId)]
         == shown[store.t.commits[commit].language.value].limits
  {
    var l := store.t.commits[commit].language.value;
    SnapshotEqualsResolution(store.t, store.platform, commits, commit, caseId, l, shown[l].limits, shown[l].sources);
  }

  // --- every reachable state -------------------------------------------------------------------

  /** Foreign keys. */
  ghost predicate References(t: Tables) {
    && (forall k :: k in t.cases ==> t.cases[k] in t.exercises)
    && (forall k :: k in t.exerciseLimits ==> k.0 in t.exercises)
    && (forall k :: k in t.caseLimits ==> k.0 in t.cases)
    && (forall k :: k in t.snapshots ==> k.0 in t.commits && k.1 in t.cases)
    && (forall c :: c in t.commits ==> t.commits[c].exercise in t.exercises)
  }

  /** Overrides of an exercise that owns its limits, and of its cases, name only languages it allows. */
  ghost predicate OverridesAllowed(t: Tables) {
    && (forall k :: k in t.exerciseLimits && AuthoringId(t, k.0) == k.0 ==> k.1 in Allowed(t, k.0))
    && (forall k :: k in t.caseLimits && k.0 in t.cases && AuthoringId(t, t.cases[k.0]) == t.cases[k.0] ==>
          k.1 in Allowed(t, t.cases[k.0]))
  }

  /**
    Replacing an exercise's limits keeps the invariant if and only if every entry that is
    stored names a language allowed at the time of the write.
  */
  lemma ReplaceKeepsOverridesAllowedIff(t: Tables, exercise: int, entries: seq<Entry>)
    requires OverridesAllowed(t) && DistinctLanguages(entries)
    requires AuthoringId(t, AuthoringId(t, exercise)) == AuthoringId(t, exercise)
    ensures OverridesAllowed(AfterReplaceExercise(t, exercise, entries)) <==>
      forall i :: 0 <= i < |entries| && !entries[i].overrides.Empty() ==>
        entries[i].language in Allowed(t, AuthoringId(t, exercise))
  {
    var owner := AuthoringId(t, exercise);
    var after := AfterReplaceExercise(t, exercise, entries);
    forall k ensures k in after.exerciseLimits <==>
      if k.0 == owner then exists o :: Sets(entries, k.1, o) else k in t.exerciseLimits
    {
      ReplacedExactly(t.exerciseLimits, owner, entries, k);
      if k.0 == owner && k in after.exerciseLimits {
        assert Sets(entries, k.1, after.exerciseLimits[k]);
      }
    }
    forall i | 0 <= i < |entries| && !entries[i].overrides.Empty()
      ensures (owner, entries[i].language) in after.exerciseLimits
    {
      assert Sets(entries, entries[i].language, entries[i].overrides);
    }
  }

  /**
    The languages are loaded before the transaction begins.  When one of them is disallowed
    in between, the write stores an override for a language the exercise no longer allows.
  */
  lemma StaleValidationStoresForbiddenOverride(t: Tables, exercise: int, language: int, o: Overrides)
    requires OverridesAllowed(t) && AuthoringId(t, exercise) == exercise
    requires language in Allowed(t, exercise) && Usable(o) && !o.Empty()
    ensures var entries := [Entry(language, o)];
      && ValidEntries(Allowed(t, exercise), entries)
      && !OverridesAllowed(AfterReplaceExercise(AfterUpdateAllowed(t, exercise, {}), exercise, entries))
  {
    var entries := [Entry(language, o)];
    var between := AfterUpdateAllowed(t, exercise, {});
    UpdateAllowedKeepsInvariant(t, exercise, {});
    ReplaceKeepsOverridesAllowedIff(between, exercise, entries);
    assert entries[0].language !in Allowed(between, exercise);
  }

  lemma UpdateAllowedKeepsInvariant(t: Tables, exercise: int, languages: set<int>)
    requires OverridesAllowed(t)
    ensures OverridesAllowed(AfterUpdateAllowed(t, exercise, languages))
    ensures References(t) ==> References(AfterUpdateAllowed(t, exercise, languages))
  {
  }

  lemma ReplaceCaseKeepsInvariant(t: Tables, caseId: int, entries: seq<Entry>)
    requires OverridesAllowed(t) && References(t) && caseId in t.cases
    requires ValidEntries(Allowed(t, t.cases[caseId]), entries)
    ensures OverridesAllowed(AfterReplaceCase(t, caseId, entries)) && References(AfterReplaceCase(t, caseId, entries))
  {
    var after := AfterReplaceCase(t, caseId, entries);
    forall k | k in after.caseLimits
      ensures k.0 in t.cases && (k.0 == caseId ==> k.1 in Allowed(t, t.cases[caseId])) && (k.0 != caseId ==> k in t.caseLimits)
    {
      ReplacedExactly(t.caseLimits, caseId, entries, k);
    }
  }

  lemma ReplaceExerciseKeepsInvariant(t: Tables, exercise: int, entries: seq<Entry>)
    requires OverridesAllowed(t) && References(t) && AuthoringId(t, exercise) in t.exercises
    requires ValidEntries(Allowed(t, AuthoringId(t, exercise)), entries)
    ensures OverridesAllowed(AfterReplaceExercise(t, exercise, entries))
    ensures References(AfterReplaceExercise(t, exercise, entries))
  {
    var owner, after := AuthoringId(t, exercise), AfterReplaceExercise(t, exercise, entries);
    forall k | k in after.exerciseLimits
      ensures k.0 in t.exercises && (k.0 == owner ==> k.1 in Allowed(t, owner)) && (k.0 != owner ==> k in t.exerciseLimits)
    {
      ReplacedExactly(t.exerciseLimits, owner, entries, k);
    }
  }

  datatype Op =
    | CreateExercise(id: int, exercise: Exercise, languages: set<int>)
    | UpdateAllowed(id: int, languages: set<int>)
    | ReplaceExerciseLimits(id: int, entries: seq<Entry>)
    | CreateCase(caseId: int, id: int, entries: seq<Entry>)
    | ReplaceCaseLimits(caseId: int, entries: seq<Entry>)
    | DeleteCase(caseId: int)
    | Submit(commit: int, id: int, language: Option<int>)
    | Resnapshot(commits: set<int>)

  /** Ids are drawn fresh, rows exist where foreign keys ask for them, and entries were validated. */
  ghost predicate Enabled(t: Tables, op: Op) {
    match op
    case CreateExercise(id, e, _) => id !in t.exercises && (e.realId.Some? ==> e.realId.value in t.exercises)
    case UpdateAllowed(id, _) => id in t.exercises
    case ReplaceExerciseLimits(id, entries) =>
      AuthoringId(t, id) in t.exercises && ValidEntries(Allowed(t, AuthoringId(t, id)), entries)
    case CreateCase(k, id, entries) =>
      && k !in t.cases && AuthoringId(t, id) in t.exercises
      && ValidEntries(Allowed(t, AuthoringId(t, id)), entries)
    case ReplaceCaseLimits(k, entries) => k in t.cases && ValidEntries(Allowed(t, t.cases[k]), entries)
    case DeleteCase(_) => true
    case Submit(c, id, _) => c !in t.commits && id in t.exercises
    case Resnapshot(_) => true
  }

  function AfterCreateExercise(t: Tables, id: int, e: Exercise, languages: set<int>): Tables {
    t.(exercises := t.exercises[id := e], allowed := t.allowed[id := languages])
  }

  /** The limits and the snapshots of a case go with it. */
  function AfterDeleteCase(t: Tables, caseId: int): Tables {
    t.(cases := map k | k in t.cases && k != caseId :: t.cases[k],
       caseLimits := Cleared(t.caseLimits, caseId),
       snapshots := map p | p in t.snapshots && p.1 != caseId :: t.snapshots[p])
  }

  ghost function Next(t: Tables, platform: Limits, op: Op): Tables {
    match op
    case CreateExercise(id, e, languages) => AfterCreateExercise(t, id, e, languages)
    case UpdateAllowed(id, languages) => AfterUpdateAllowed(t, id, languages)
    case ReplaceExerciseLimits(id, entries) => AfterReplaceExercise(t, id, entries)
    case CreateCase(k, id, entries) => AfterReplaceCase(t.(cases := t.cases[k := AuthoringId(t, id)]), k, entries)
    case ReplaceCaseLimits(k, entries) => AfterReplaceCase(t, k, entries)
    case DeleteCase(k) => AfterDeleteCase(t, k)
    // The commit and its snapshot are one transaction.
    case Submit(c, id, language) =>
      AfterSnapshot(t.(commits := t.commits[c := Commit(id, language)]), platform, {c})
    case Resnapshot(commits) => AfterSnapshot(t, platform, commits)
  }

  lemma CreatedKeepsInvariant(t: Tables, id: int, e: Exercise, languages: set<int>)
    requires References(t) && OverridesAllowed(t) && id !in t.exercises
    ensures References(AfterCreateExercise(t, id, e, languages))
    ensures OverridesAllowed(AfterCreateExercise(t, id, e, languages))
  {
    var after := AfterCreateExercise(t, id, e, languages);
    assert forall x :: x != id ==> AuthoringId(after, x) == AuthoringId(t, x) && Allowed(after, x) == Allowed(t, x);
    forall c | c in t.cases ensures t.cases[c] != id {
      assert t.cases[c] in t.exercises;
    }
    forall k | k in t.caseLimits ensures k.0 in t.cases && t.cases[k.0] != id {
      var c: int := k.0;
      assert c in t.cases && t.cases[c] != id;
    }
  }

  lemma DeletedKeepsInvariant(t: Tables, caseId: int)
    requires References(t) && OverridesAllowed(t)
    ensures References(AfterDeleteCase(t, caseId)) && OverridesAllowed(AfterDeleteCase(t, caseId))
  {
    var after := AfterDeleteCase(t, caseId);
    assert after.exercises == t.exercises && after.allowed == t.allowed;
    assert forall e :: AuthoringId(after, e) == AuthoringId(t, e) && Allowed(after, e) == Allowed(t, e);
  }

  lemma SnapshotKeepsInvariant(t: Tables, platform: Limits, commits: set<int>)
    requires References(t) && OverridesAllowed(t)
    ensures References(AfterSnapshot(t, platform, commits)) && OverridesAllowed(AfterSnapshot(t, platform, commits))
  {
  }

  lemma NewCaseKeepsInvariant(t: Tables, caseId: int, exercise: int)
    requires References(t) && OverridesAllowed(t) && caseId !in t.cases && exercise in t.exercises
    ensures References(t.(cases := t.cases[caseId := exercise])) && OverridesAllowed(t.(cases := t.cases[caseId := exercise]))
  {
  }

  lemma CommitKeepsInvariant(t: Tables, commit: int, c: Commit)
    requires References(t) && OverridesAllowed(t) && c.exercise in t.exercises
    ensures References(t.(commits := t.commits[commit := c])) && OverridesAllowed(t.(commits := t.commits[commit := c]))
  {
  }

  lemma StepKeepsInvariant(t: Tables, platform: Limits, op: Op)
    requires References(t) && OverridesAllowed(t) && Enabled(t, op)
    ensures References(Next(t, platform, op)) && OverridesAllowed(Next(t, platform, op))
  {
    match op
    case CreateExercise(id, e, languages) => CreatedKeepsInvariant(t, id, e, languages);
    case UpdateAllowed(id, languages) => UpdateAllowedKeepsInvariant(t, id, languages);
    case ReplaceExerciseLimits(id, entries) => ReplaceExerciseKeepsInvariant(t, id, entries);
    case CreateCase(k, id, entries) =>
      NewCaseKeepsInvariant(t, k, AuthoringId(t, id));
      ReplaceCaseKeepsInvariant(t.(cases := t.cases[k := AuthoringId(t, id)]), k, entries);
    case ReplaceCaseLimits(k, entries) => ReplaceCaseKeepsInvariant(t, k, entries);
    case DeleteCase(k) => DeletedKeepsInvariant(t, k);
    case Submit(c, id, language) =>
      CommitKeepsInvariant(t, c, Commit(id, language));
      SnapshotKeepsInvariant(t.(commits := t.commits[c := Commit(id, language)]), platform, {c});
    case Resnapshot(commits) => SnapshotKeepsInvariant(t, platform, commits);
  }

  /** A snapshot row, once there, is the same after any step, until its case is deleted. */
  lemma StepKeepsSnapshot(t: Tables, platform: Limits, op: Op, row: (int, int))
    requires row in t.snapshots && op != DeleteCase(row.1)
    ensures row in Next(t, platform, op).snapshots && Next(t, platform, op).snapshots[row] == t.snapshots[row]
  {
  }

  ghost predicate IsRun(platform: Limits, states: seq<Tables>, ops: seq<Op>) {
    && |states| == |ops| + 1
    && forall i :: 0 <= i < |ops| ==> Enabled(states[i], ops[i]) && states[i + 1] == Next(states[i], platform, ops[i])
  }

  /** In every reachable state stored overrides name only allowed languages. */
  lemma {:induction false} OverridesStayAllowed(platform: Limits, states: seq<Tables>, ops: seq<Op>, i: nat)
    requires IsRun(platform, states, ops) && References(states[0]) && OverridesAllowed(states[0]) && i < |states|
    ensures References(states[i]) && OverridesAllowed(states[i])
  {
    if i > 0 {
      OverridesStayAllowed(platform, states, ops, i - 1);
      StepKeepsInvariant(states[i - 1], platform, ops[i - 1]);
    }
  }

  /** Whatever is edited or snapshotted later, a submission's row for a case that stays is never changed. */
  lemma {:induction false} SnapshotsNeverChange(
      platform: Limits, states: seq<Tables>, ops: seq<Op>, i: nat, j: nat, row: (int, int))
    requires IsRun(platform, states, ops) && i <= j < |states| && row in states[i].snapshots
    requires forall k :: i <= k < j ==> ops[k] != DeleteCase(row.1)
    ensures row in states[j].snapshots && states[j].snapshots[row] == states[i].snapshots[row]
  {
    if i < j {
      SnapshotsNeverChange(platform, states, ops, i, j - 1, row);
      StepKeepsSnapshot(states[j - 1], platform, ops[j - 1], row);
    }
  }
}
