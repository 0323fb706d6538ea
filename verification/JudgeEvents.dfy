/**
  Persistence of judge events (backend/judge/events.go).

  One commit's tables are the commit row and the rows keyed by that commit: case
  results, artifacts, phase timings and alerts.  Every SQL statement is one step on
  these tables.  Timestamps are not part of the model; whether compilation_finished
  is set is.
*/
module JudgeEvents {
  import opened Wrappers
  import Text

  // --- rows --------------------------------------------------------------------

  datatype CommitStatus =
    | Pending | Queued | Compiling | Running
    | Completed | Uncompleted | CompilationError | ServerError | Timeout | Plagiarism

  /** The statuses a commit never leaves; the SQL guard names the same six. */
  predicate IsTerminalStatus(s: CommitStatus) {
    || s == Completed || s == Uncompleted || s == CompilationError
    || s == ServerError || s == Timeout || s == Plagiarism
  }

  datatype CommitRow = CommitRow(
    status: CommitStatus,
    numCorrectCases: int,
    score: string,
    compiled: Option<bool>,
    compilationMessage: Option<string>,
    compilationError: Option<string>,
    compilationFinished: bool)

  datatype CaseStatus = KilledWithSignal | Correct | BadFormattedOutput

  datatype CaseRow = CaseRow(
    cpuTime: string, wallTime: Option<string>, memUsage: int,
    userOutput: string, userOutputType: string,
    status: CaseStatus, reason: Option<string>, statusMessage: string, errorMessage: string)

  datatype ArtifactState = ArtifactPending | ArtifactReady | ArtifactFailed

  datatype ArtifactRow = ArtifactRow(state: ArtifactState, reason: Option<string>, limitBytes: Option<int>)

  datatype TimingRow = TimingRow(
    durationMs: int, cpuMs: Option<int>, memPeakBytes: Option<int>, source: string, detail: Option<string>)

  datatype AlertRow = AlertRow(severity: string, message: string, details: Option<string>)

  datatype Tables = Tables(
    row: CommitRow,
    results: map<int, CaseRow>,
    artifacts: map<int, ArtifactRow>,
    timings: map<string, TimingRow>,
    alerts: map<string, AlertRow>)

  // --- events ------------------------------------------------------------------

  /** A field holding an enumerated value: absent, one of the values, or some other text. */
  datatype Field<T> = Absent | Known(value: T) | Other(text: string)

  datatype Phase = Phase(
    name: string, durationMs: int, cpuMs: Option<int>, memPeakBytes: Option<int>, source: string, detail: string)

  datatype CaseReport = CaseReport(
    cpuTime: string, wallTime: string, memUsage: Option<int>, reason: string,
    statusMessage: string, userOutput: string, userOutputType: string, errorMessage: string)

  datatype Event =
    | StatusEvent(status: Field<CommitStatus>)
    | CompilationEvent(compiled: Option<bool>, message: string, error: string)
    | CaseResultEvent(testCase: int, caseStatus: Field<CaseStatus>, report: CaseReport)
    | TimingsEvent(phases: seq<Phase>)
    | AlertEvent(code: string, message: string, severity: string, details: string)
    | ArtifactEvent(testCase: int, state: Field<ArtifactState>, reason: string, limitBytes: Option<int>)
    | FinishedEvent(status: Field<CommitStatus>, numCorrectCases: Option<int>, score: string,
                    compilationMessage: string, compilationError: string)
    | ErrorEvent(message: string)
    | UnknownEvent(kind: string)

  function NullIfEmpty(s: string): Option<string> {
    if s == "" then None else Some(s)
  }

  function OrElse(s: string, default: string): string {
    if s == "" then default else s
  }

  /** Events PersistEvent accepts without touching the database. */
  predicate Skipped(ev: Event) {
    match ev
    case StatusEvent(Known(s)) => IsTerminalStatus(s)
    case TimingsEvent(phases) => phases == []
    case ArtifactEvent(testCase, state, _, _) => testCase == 0 || !state.Known?
    case ErrorEvent(_) => true
    case UnknownEvent(_) => true
    case _ => false
  }

  /** Events that fail validation, or that no column type accepts. */
  predicate Rejected(ev: Event) {
    match ev
    case StatusEvent(status) => !status.Known?
    case CaseResultEvent(testCase, caseStatus, _) => testCase == 0 || !caseStatus.Known?
    case TimingsEvent(phases) => exists i :: 0 <= i < |phases| && (phases[i].name == "" || phases[i].durationMs < 0)
    case AlertEvent(code, message, _, _) => Text.Trim(code) == "" || Text.Trim(message) == ""
    case FinishedEvent(status, _, _, _, _) => !status.Known?
    case _ => false
  }

  /** Timings and alerts: the run goes on when one of them cannot be stored. */
  predicate Supplemental(ev: Event) {
    ev.TimingsEvent? || ev.AlertEvent?
  }

  // --- effect of each statement ------------------------------------------------

  function CaseRowOf(status: CaseStatus, r: CaseReport): CaseRow {
    CaseRow(OrElse(r.cpuTime, "0"), NullIfEmpty(r.wallTime), r.memUsage.GetOr(0),
            r.userOutput, OrElse(r.userOutputType, "text"),
            status, NullIfEmpty(r.reason), r.statusMessage, r.errorMessage)
  }

  function TimingRowOf(p: Phase): TimingRow {
    TimingRow(p.durationMs, p.cpuMs, p.memPeakBytes, OrElse(p.source, "judge"), NullIfEmpty(p.detail))
  }

  function TimingsOf(phases: seq<Phase>): map<string, TimingRow> {
    if phases == [] then map[]
    else
      var last := phases[|phases| - 1];
      TimingsOf(phases[..|phases| - 1])[last.name := TimingRowOf(last)]
  }

  function Coalesce<T>(a: Option<T>, b: Option<T>): Option<T> {
    if a.Some? then a else b
  }

  /** The tables after the event was stored; the commit row and its case results are guarded. */
  function Effect(ev: Event, t: Tables): Tables {
    if Skipped(ev) || Rejected(ev) then t
    else
      match ev
      case StatusEvent(status) =>
        if IsTerminalStatus(t.row.status) then t
        else t.(row := t.row.(status := status.value))
      case CompilationEvent(compiled, message, error) =>
        if IsTerminalStatus(t.row.status) then t
        else t.(row := t.row.(compiled := Some(compiled.GetOr(false)),
                              compilationMessage := Some(message),
                              compilationError := Some(error),
                              compilationFinished := true))
      case CaseResultEvent(testCase, caseStatus, report) =>
        if IsTerminalStatus(t.row.status) then t
        else t.(results := t.results[testCase := CaseRowOf(caseStatus.value, report)])
      case TimingsEvent(phases) =>
        t.(timings := t.timings + TimingsOf(phases))
      case AlertEvent(code, message, severity, details) =>
        if Text.Trim(code) in t.alerts then t
        else t.(alerts := t.alerts[Text.Trim(code) :=
                 AlertRow(OrElse(severity, "warning"), Text.Trim(message), NullIfEmpty(details))])
      case ArtifactEvent(testCase, state, reason, limitBytes) =>
        t.(artifacts := t.artifacts[testCase := ArtifactRow(state.value, NullIfEmpty(reason), limitBytes)])
      case FinishedEvent(status, numCorrectCases, score, message, error) =>
        if IsTerminalStatus(t.row.status) then t
        else t.(row := CommitRow(
                  status.value, numCorrectCases.GetOr(0), OrElse(score, "0"), t.row.compiled,
                  Coalesce(NullIfEmpty(message), t.row.compilationMessage),
                  Coalesce(NullIfEmpty(error), t.row.compilationError),
                  true))
      case _ => t
  }

  /** MarkCommitServerError, and the sweeper's update of one stale commit. */
  function ServerErrorEffect(t: Tables): Tables {
    if IsTerminalStatus(t.row.status) then t
    else t.(row := t.row.(status := ServerError, compilationFinished := true))
  }

  // --- what is read back -------------------------------------------------------

  /** A column holds the text that was given, or the default when none was. */
  ghost predicate TextOr(stored: string, given: string, default: string) {
    (given != "" ==> stored == given) && (given == "" ==> stored == default)
  }

  /** A nullable column holds the text that was given, or NULL. */
  ghost predicate TextOrNull(stored: Option<string>, given: string) {
    (given != "" ==> stored == Some(given)) && (given == "" ==> stored == None)
  }

  /** A text that was given replaces the stored one; an empty one keeps it. */
  ghost predicate Replaces(after: Option<string>, given: string, before: Option<string>) {
    (given != "" ==> after == Some(given)) && (given == "" ==> after == before)
  }

  ghost predicate NumberOr(stored: int, given: Option<int>, default: int) {
    (given.Some? ==> stored == given.value) && (given.None? ==> stored == default)
  }

  /** The row after a stored verdict on an open commit. */
  ghost predicate ShowsVerdict(after: CommitRow, ev: Event, before: CommitRow)
    requires ev.FinishedEvent? && ev.status.Known?
  {
    && after.status == ev.status.value && after.compilationFinished
    && TextOr(after.score, ev.score, "0")
    && NumberOr(after.numCorrectCases, ev.numCorrectCases, 0)
    && Replaces(after.compilationMessage, ev.compilationMessage, before.compilationMessage)
    && Replaces(after.compilationError, ev.compilationError, before.compilationError)
    && after.compiled == before.compiled
  }

  ghost predicate ShowsCompilation(after: CommitRow, ev: Event)
    requires ev.CompilationEvent?
  {
    && (ev.compiled.Some? ==> after.compiled == Some(ev.compiled.value))
    && (ev.compiled.None? ==> after.compiled == Some(false))
    && after.compilationMessage == Some(ev.message) && after.compilationError == Some(ev.error)
    && after.compilationFinished
  }

  ghost predicate ShowsCase(row: CaseRow, ev: Event)
    requires ev.CaseResultEvent? && ev.caseStatus.Known?
  {
    && row.status == ev.caseStatus.value
    && TextOr(row.cpuTime, ev.report.cpuTime, "0")
    && TextOrNull(row.wallTime, ev.report.wallTime)
    && NumberOr(row.memUsage, ev.report.memUsage, 0)
    && row.userOutput == ev.report.userOutput
    && TextOr(row.userOutputType, ev.report.userOutputType, "text")
    && TextOrNull(row.reason, ev.report.reason)
    && row.statusMessage == ev.report.statusMessage && row.errorMessage == ev.report.errorMessage
  }

  ghost predicate ShowsArtifact(row: ArtifactRow, ev: Event)
    requires ev.ArtifactEvent? && ev.state.Known?
  {
    row.state == ev.state.value && TextOrNull(row.reason, ev.reason) && row.limitBytes == ev.limitBytes
  }

  ghost predicate ShowsPhase(row: TimingRow, p: Phase) {
    && row.durationMs == p.durationMs && row.cpuMs == p.cpuMs && row.memPeakBytes == p.memPeakBytes
    && TextOr(row.source, p.source, "judge") && TextOrNull(row.detail, p.detail)
  }

  ghost predicate ShowsAlert(row: AlertRow, ev: Event)
    requires ev.AlertEvent?
  {
    && TextOr(row.severity, ev.severity, "warning")
    && row.message == Text.Trim(ev.message) && TextOrNull(row.details, ev.details)
  }

  /** The rest of the row when a status is stored. */
  lemma StatusReadsBack(ev: Event, t: Tables)
    requires ev.StatusEvent? && ev.status.Known? && t.row.status in {Pending, Queued, Compiling, Running}
    ensures ev.status.value in {Pending, Queued, Compiling, Running} ==>
      Effect(ev, t) == t.(row := t.row.(status := ev.status.value))
    ensures ev.status.value !in {Pending, Queued, Compiling, Running} ==> Effect(ev, t) == t
  {
  }

  lemma VerdictReadsBack(ev: Event, t: Tables)
    requires ev.FinishedEvent? && ev.status.Known? && t.row.status in {Pending, Queued, Compiling, Running}
    ensures ShowsVerdict(Effect(ev, t).row, ev, t.row)
  {
  }

  lemma CompilationReadsBack(ev: Event, t: Tables)
    requires ev.CompilationEvent? && t.row.status in {Pending, Queued, Compiling, Running}
    ensures ShowsCompilation(Effect(ev, t).row, ev)
    ensures Effect(ev, t).row.status == t.row.status && Effect(ev, t).row.score == t.row.score
    ensures Effect(ev, t).row.numCorrectCases == t.row.numCorrectCases
  {
  }

  lemma CaseReadsBack(ev: Event, t: Tables)
    requires ev.CaseResultEvent? && ev.testCase != 0 && ev.caseStatus.Known?
    requires t.row.status in {Pending, Queued, Compiling, Running}
    ensures ev.testCase in Effect(ev, t).results && ShowsCase(Effect(ev, t).results[ev.testCase], ev)
  {
  }

  lemma ArtifactReadsBack(ev: Event, t: Tables)
    requires ev.ArtifactEvent? && ev.testCase != 0 && ev.state.Known?
    ensures ev.testCase in Effect(ev, t).artifacts && ShowsArtifact(Effect(ev, t).artifacts[ev.testCase], ev)
  {
  }

  /** The last phase of a name is the one stored. */
  lemma {:induction false} PhasesReadBack(phases: seq<Phase>, k: nat)
    requires k < |phases| && forall j :: k < j < |phases| ==> phases[j].name != phases[k].name
    ensures phases[k].name in TimingsOf(phases) && ShowsPhase(TimingsOf(phases)[phases[k].name], phases[k])
  {
    if k < |phases| - 1 {
      PhasesReadBack(phases[..|phases| - 1], k);
    }
  }

  lemma AlertReadsBack(ev: Event, t: Tables)
    requires ev.AlertEvent? && Text.Trim(ev.code) != "" && Text.Trim(ev.message) != ""
    ensures Text.Trim(ev.code) in Effect(ev, t).alerts
    ensures Text.Trim(ev.code) !in t.alerts ==> ShowsAlert(Effect(ev, t).alerts[Text.Trim(ev.code)], ev)
    ensures Text.Trim(ev.code) in t.alerts ==> Effect(ev, t) == t
  {
  }

  // --- the statements ----------------------------------------------------------

  /** What the database did with a statement, and what it told the caller. */
  datatype WriteOutcome = Stored | NotStored | StoredButReportedFailed

  /** The tables of one commit, written by one statement at a time. */
  class CommitStore {
    var row: CommitRow
    var results: map<int, CaseRow>
    var artifacts: map<int, ArtifactRow>
    var timings: map<string, TimingRow>
    var alerts: map<string, AlertRow>

    constructor (t: Tables)
      ensures State() == t
    {
      row, results, artifacts, timings, alerts := t.row, t.results, t.artifacts, t.timings, t.alerts;
    }

    ghost function State(): Tables
      reads this
    {
      Tables(row, results, artifacts, timings, alerts)
    }

    /** The nonTerminalGuard predicate of every guarded statement. */
    predicate NonTerminal()
      reads this
    {
      !IsTerminalStatus(row.status)
    }

    /** A failed call either changed nothing or took effect and reported a failure. */
    twostate predicate Wrote(ev: Event, w: WriteOutcome, ok: bool)
      reads this
    {
      if Skipped(ev) then ok && State() == old(State())
      else if Rejected(ev) then !ok && State() == old(State())
      else
        && ok == w.Stored?
        && State() == (if w.NotStored? then old(State()) else Effect(ev, old(State())))
    }

    method PersistEvent(ev: Event, w: WriteOutcome) returns (ok: bool)
      modifies this
      ensures Wrote(ev, w, ok)
    {
      match ev
      case StatusEvent(status) =>
        if status.Known? && IsTerminalStatus(status.value) {
          return true;
        }
        ok := PersistStatus(ev, w);
      case CompilationEvent(_, _, _) => ok := PersistCompilation(ev, w);
      case CaseResultEvent(_, _, _) => ok := PersistCaseResult(ev, w);
      case TimingsEvent(_) => ok := PersistTimings(ev, w);
      case AlertEvent(_, _, _, _) => ok := PersistAlert(ev, w);
      case FinishedEvent(_, _, _, _, _) => ok := PersistFinished(ev, w);
      case ArtifactEvent(_, _, _, _) => ok := PersistArtifact(ev, w);
      case ErrorEvent(_) => ok := true;
      case UnknownEvent(_) => ok := true;
    }

    method PersistStatus(ev: Event, w: WriteOutcome) returns (ok: bool)
      requires ev.StatusEvent? && !Skipped(ev)
      modifies this
      ensures Wrote(ev, w, ok)
      ensures ok && old(row.status) in {Pending, Queued, Compiling, Running} ==>
        ev.status.Known? && row == old(row).(status := ev.status.value)
      ensures old(row.status) !in {Pending, Queued, Compiling, Running} ==> row == old(row)
    {
      if !ev.status.Known? {
        return false;
      }
      if !w.NotStored? && NonTerminal() {
        row := row.(status := ev.status.value);
      }
      ok := w.Stored?;
    }

    method PersistCompilation(ev: Event, w: WriteOutcome) returns (ok: bool)
      requires ev.CompilationEvent?
      modifies this
      ensures Wrote(ev, w, ok)
      ensures ok && old(row.status) in {Pending, Queued, Compiling, Running} ==> ShowsCompilation(row, ev)
      ensures old(row.status) !in {Pending, Queued, Compiling, Running} ==> row == old(row)
    {
      var compiled := false;
      if ev.compiled.Some? {
        compiled := ev.compiled.value;
      }
      if !w.NotStored? && NonTerminal() {
        row := row.(compiled := Some(compiled), compilationMessage := Some(ev.message),
                    compilationError := Some(ev.error), compilationFinished := true);
      }
      ok := w.Stored?;
    }

    method PersistArtifact(ev: Event, w: WriteOutcome) returns (ok: bool)
      requires ev.ArtifactEvent?
      modifies this
      ensures Wrote(ev, w, ok)
      ensures ok && ev.testCase != 0 && ev.state.Known? ==>
        ev.testCase in artifacts && ShowsArtifact(artifacts[ev.testCase], ev)
    {
      if ev.testCase == 0 || !ev.state.Known? {
        return true;
      }
      if !w.NotStored? {
        artifacts := artifacts[ev.testCase := ArtifactRow(ev.state.value, NullIfEmpty(ev.reason), ev.limitBytes)];
      }
      ok := w.Stored?;
    }

    method PersistCaseResult(ev: Event, w: WriteOutcome) returns (ok: bool)
      requires ev.CaseResultEvent?
      modifies this
      ensures Wrote(ev, w, ok)
      ensures ok && old(row.status) in {Pending, Queued, Compiling, Running} ==>
        ev.caseStatus.Known? && ev.testCase in results && ShowsCase(results[ev.testCase], ev)
      ensures ok ==> ev.testCase != 0 && ev.caseStatus.Known?
      ensures old(row.status) !in {Pending, Queued, Compiling, Running} ==> results == old(results)
      ensures forall k :: k != ev.testCase ==> (k in results <==> k in old(results)) && (k in results ==> results[k] == old(results)[k])
    {
      if ev.testCase == 0 || !ev.caseStatus.Known? {
        return false;
      }
      if !w.NotStored? && NonTerminal() {
        results := results[ev.testCase := CaseRowOf(ev.caseStatus.value, ev.report)];
      }
      ok := w.Stored?;
    }

    /** The phases are validated first, then upserted one by one inside a transaction. */
    method PersistTimings(ev: Event, w: WriteOutcome) returns (ok: bool)
      requires ev.TimingsEvent?
      modifies this
      ensures Wrote(ev, w, ok)
      ensures ok ==> forall k :: 0 <= k < |ev.phases| && (forall j :: k < j < |ev.phases| ==> ev.phases[j].name != ev.phases[k].name) ==>
        ev.phases[k].name in timings && ShowsPhase(timings[ev.phases[k].name], ev.phases[k])
      ensures ok ==> forall k :: 0 <= k < |ev.phases| ==> ev.phases[k].name != "" && ev.phases[k].durationMs >= 0
    {
      hide TimingRowOf, ShowsPhase;
      if |ev.phases| == 0 {
        return true;
      }
      for i := 0 to |ev.phases|
        invariant forall j :: 0 <= j < i ==> ev.phases[j].name != "" && ev.phases[j].durationMs >= 0
      {
        if ev.phases[i].name == "" || ev.phases[i].durationMs < 0 {
          return false;
        }
      }
      var transaction := timings;
      for i := 0 to |ev.phases|
        invariant transaction == timings + TimingsOf(ev.phases[..i])
      {
        var phase := ev.phases[i];
        assert ev.phases[..i + 1][..i] == ev.phases[..i];
        transaction := transaction[phase.name := TimingRowOf(phase)];
      }
      assert ev.phases[..|ev.phases|] == ev.phases;
      forall k | 0 <= k < |ev.phases| && forall j :: k < j < |ev.phases| ==> ev.phases[j].name != ev.phases[k].name
        ensures ev.phases[k].name in transaction && ShowsPhase(transaction[ev.phases[k].name], ev.phases[k])
      {
        PhasesReadBack(ev.phases, k);
      }
      if !w.NotStored? {
        timings := transaction;
      }
      ok := w.Stored?;
    }

    /** One alert per (commit, code): a replayed event finds its row and changes nothing. */
    method PersistAlert(ev: Event, w: WriteOutcome) returns (ok: bool)
      requires ev.AlertEvent?
      modifies this
      ensures Wrote(ev, w, ok)
      ensures ok ==> Text.Trim(ev.code) in alerts && Text.Trim(ev.code) != "" && Text.Trim(ev.message) != ""
      ensures ok && Text.Trim(ev.code) !in old(alerts) ==> ShowsAlert(alerts[Text.Trim(ev.code)], ev)
      ensures forall code :: code in old(alerts) ==> code in alerts && alerts[code] == old(alerts)[code]
    {
      var code, message := Text.Trim(ev.code), Text.Trim(ev.message);
      if ev.code == "" || ev.message == "" || code == "" || message == "" {
        return false;
      }
      if !w.NotStored? && code !in alerts {
        alerts := alerts[code := AlertRow(OrElse(ev.severity, "warning"), message, NullIfEmpty(ev.details))];
      }
      ok := w.Stored?;
    }

    method PersistFinished(ev: Event, w: WriteOutcome) returns (ok: bool)
      requires ev.FinishedEvent?
      modifies this
      ensures Wrote(ev, w, ok)
      ensures ok && old(row.status) in {Pending, Queued, Compiling, Running} ==>
        ev.status.Known? && ShowsVerdict(row, ev, old(row))
      ensures old(row.status) !in {Pending, Queued, Compiling, Running} ==> row == old(row)
    {
      if !ev.status.Known? {
        return false;
      }
      var correct := ev.numCorrectCases.GetOr(0);
      var score := OrElse(ev.score, "0");
      if !w.NotStored? && NonTerminal() {
        row := row.(status := ev.status.value, numCorrectCases := correct, score := score,
                    compilationMessage := Coalesce(NullIfEmpty(ev.compilationMessage), row.compilationMessage),
                    compilationError := Coalesce(NullIfEmpty(ev.compilationError), row.compilationError),
                    compilationFinished := true);
      }
      ok := w.Stored?;
    }

    method MarkServerError(w: WriteOutcome) returns (ok: bool)
      modifies this
      ensures ok == w.Stored?
      ensures State() == if w.NotStored? then old(State()) else ServerErrorEffect(old(State()))
    {
      if !w.NotStored? && NonTerminal() {
        row := row.(status := ServerError, compilationFinished := true);
      }
      ok := w.Stored?;
    }
  }
}
