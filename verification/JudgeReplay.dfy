/**
  What a replayed judge log leaves in the database.

  A resumable stream delivers a log with repetitions: it may be cut anywhere, resume
  from any earlier entry, and deliver an entry whose write took effect although it
  reported a failure.  Every such delivery that reaches the end leaves the tables one
  pass over the log leaves.
*/
module JudgeReplay {
  import opened Wrappers
  import opened JudgeEvents
  import Overlay
  import Text

  /** One delivered entry; a supplemental event may be passed over without being stored. */
  datatype Visit = Visit(entry: nat, stored: bool)

  ghost function ApplyLog(log: seq<Event>, t: Tables): Tables {
    if log == [] then t else Effect(log[|log| - 1], ApplyLog(log[..|log| - 1], t))
  }

  ghost predicate InLog(log: seq<Event>, visits: seq<Visit>) {
    forall i :: 0 <= i < |visits| ==> visits[i].entry < |log|
  }

  ghost function VisitEffect(log: seq<Event>, v: Visit, t: Tables): Tables
    requires v.entry < |log|
  {
    if v.stored then Effect(log[v.entry], t) else t
  }

  ghost function Deliver(log: seq<Event>, visits: seq<Visit>, t: Tables): Tables
    requires InLog(log, visits)
    decreases |visits|
  {
    if visits == [] then t
    else VisitEffect(log, visits[|visits| - 1], Deliver(log, visits[..|visits| - 1], t))
  }

  ghost function Entries(visits: seq<Visit>): (entries: seq<nat>)
    ensures |entries| == |visits|
    ensures forall i :: 0 <= i < |visits| ==> entries[i] == visits[i].entry
  {
    seq(|visits|, i requires 0 <= i < |visits| => visits[i].entry)
  }

  /** Only timings and alerts are ever passed over. */
  ghost predicate OnlySupplementalSkipped(log: seq<Event>, visits: seq<Visit>)
    requires InLog(log, visits)
  {
    forall i :: 0 <= i < |visits| ==> visits[i].stored || Supplemental(log[visits[i].entry])
  }

  ghost predicate AllStored(visits: seq<Visit>) {
    forall i :: 0 <= i < |visits| ==> visits[i].stored
  }

  /** The judge ends a run with `finished`, and that event carries a terminal status. */
  ghost predicate EndsWithVerdict(log: seq<Event>) {
    && |log| > 0
    && (forall i :: 0 <= i < |log| ==> (log[i].FinishedEvent? <==> i == |log| - 1))
    && log[|log| - 1].status.Known?
    && IsTerminalStatus(log[|log| - 1].status.value)
  }

  // --- each table as cells overwritten by an event -------------------------------

  datatype Column = StatusColumn | CorrectColumn | ScoreColumn | CompiledColumn | MessageColumn | ErrorColumn | FinishedColumn

  datatype Cell =
    | StatusCell(CommitStatus) | NumberCell(int) | ScoreCell(string)
    | CompiledCell(Option<bool>) | TextCell(Option<string>) | FlagCell(bool)

  const COLUMNS: set<Column> :=
    {StatusColumn, CorrectColumn, ScoreColumn, CompiledColumn, MessageColumn, ErrorColumn, FinishedColumn}

  ghost function RowCell(r: CommitRow, c: Column): Cell {
    match c
    case StatusColumn => StatusCell(r.status)
    case CorrectColumn => NumberCell(r.numCorrectCases)
    case ScoreColumn => ScoreCell(r.score)
    case CompiledColumn => CompiledCell(r.compiled)
    case MessageColumn => TextCell(r.compilationMessage)
    case ErrorColumn => TextCell(r.compilationError)
    case FinishedColumn => FlagCell(r.compilationFinished)
  }

  ghost function RowCells(r: CommitRow): map<Column, Cell> {
    map c | c in COLUMNS :: RowCell(r, c)
  }

  /** What an event writes to a column of an unsettled commit, if anything. */
  ghost function Written(ev: Event, c: Column): Option<Cell> {
    if Skipped(ev) || Rejected(ev) then None
    else
      match ev
      case StatusEvent(status) =>
        if c == StatusColumn then Some(StatusCell(status.value)) else None
      case CompilationEvent(compiled, message, error) => (
        match c
        case CompiledColumn => Some(CompiledCell(Some(compiled.GetOr(false))))
        case MessageColumn => Some(TextCell(Some(message)))
        case ErrorColumn => Some(TextCell(Some(error)))
        case FinishedColumn => Some(FlagCell(true))
        case _ => None)
      case FinishedEvent(status, numCorrectCases, score, message, error) => (
        match c
        case StatusColumn => Some(StatusCell(status.value))
        case CorrectColumn => Some(NumberCell(numCorrectCases.GetOr(0)))
        case ScoreColumn => Some(ScoreCell(OrElse(score, "0")))
        case CompiledColumn => None
        case MessageColumn => if message == "" then None else Some(TextCell(Some(message)))
        case ErrorColumn => if error == "" then None else Some(TextCell(Some(error)))
        case FinishedColumn => Some(FlagCell(true)))
      case _ => None
  }

  ghost function RowWrites(ev: Event): map<Column, Cell> {
    map c | c in COLUMNS && Written(ev, c).Some? :: Written(ev, c).value
  }

  ghost function ResultWrites(ev: Event): map<int, CaseRow> {
    if ev.CaseResultEvent? && !Rejected(ev)
    then map[ev.testCase := CaseRowOf(ev.caseStatus.value, ev.report)] else map[]
  }

  ghost function ArtifactWrites(ev: Event): map<int, ArtifactRow> {
    if ev.ArtifactEvent? && !Skipped(ev)
    then map[ev.testCase := ArtifactRow(ev.state.value, NullIfEmpty(ev.reason), ev.limitBytes)] else map[]
  }

  ghost function TimingWrites(ev: Event): map<string, TimingRow> {
    if ev.TimingsEvent? && !Rejected(ev) then TimingsOf(ev.phases) else map[]
  }

  ghost function AlertWrites(ev: Event): map<string, AlertRow> {
    if ev.AlertEvent? && !Rejected(ev)
    then map[Text.Trim(ev.code) :=
             AlertRow(OrElse(ev.severity, "warning"), Text.Trim(ev.message), NullIfEmpty(ev.details))]
    else map[]
  }

  lemma RowCellsInjective(a: CommitRow, b: CommitRow)
    requires RowCells(a) == RowCells(b)
    ensures a == b
  {
    forall c | c in COLUMNS ensures RowCell(a, c) == RowCell(b, c) {
      assert RowCells(a)[c] == RowCells(b)[c];
    }
    assert RowCell(a, StatusColumn) == RowCell(b, StatusColumn);
    assert RowCell(a, CorrectColumn) == RowCell(b, CorrectColumn);
    assert RowCell(a, ScoreColumn) == RowCell(b, ScoreColumn);
    assert RowCell(a, CompiledColumn) == RowCell(b, CompiledColumn);
    assert RowCell(a, MessageColumn) == RowCell(b, MessageColumn);
    assert RowCell(a, ErrorColumn) == RowCell(b, ErrorColumn);
    assert RowCell(a, FinishedColumn) == RowCell(b, FinishedColumn);
  }

  lemma ColumnEffect(ev: Event, t: Tables, c: Column)
    requires !IsTerminalStatus(t.row.status)
    ensures RowCell(Effect(ev, t).row, c) == Written(ev, c).GetOr(RowCell(t.row, c))
  {
  }

  /** A guarded statement overwrites its cells while the commit is not settled. */
  lemma RowEffect(ev: Event, t: Tables)
    requires !IsTerminalStatus(t.row.status)
    ensures RowCells(Effect(ev, t).row) == RowCells(t.row) + RowWrites(ev)
  {
    forall c | c in COLUMNS
      ensures RowCell(Effect(ev, t).row, c) == Written(ev, c).GetOr(RowCell(t.row, c))
    {
      ColumnEffect(ev, t, c);
    }
  }

  lemma ResultEffect(ev: Event, t: Tables)
    requires !IsTerminalStatus(t.row.status)
    ensures Effect(ev, t).results == t.results + ResultWrites(ev)
    ensures !ev.FinishedEvent? ==> !IsTerminalStatus(Effect(ev, t).row.status)
  {
  }

  lemma ArtifactEffect(ev: Event, t: Tables)
    ensures Effect(ev, t).artifacts == t.artifacts + ArtifactWrites(ev)
  {
  }

  lemma TimingEffect(ev: Event, t: Tables)
    ensures Effect(ev, t).timings == t.timings + TimingWrites(ev)
  {
  }

  lemma AlertEffect(ev: Event, t: Tables)
    ensures Effect(ev, t).alerts == AlertWrites(ev) + t.alerts
  {
  }

  /** The unguarded tables are overwritten at any time; an alert keeps its first row. */
  lemma OpenTablesEffect(ev: Event, t: Tables)
    ensures Effect(ev, t).artifacts == t.artifacts + ArtifactWrites(ev)
    ensures Effect(ev, t).timings == t.timings + TimingWrites(ev)
    ensures Effect(ev, t).alerts == AlertWrites(ev) + t.alerts
  {
    hide Effect, ArtifactWrites, TimingWrites, AlertWrites;
    ArtifactEffect(ev, t);
    TimingEffect(ev, t);
    AlertEffect(ev, t);
  }

  ghost function Map<T>(log: seq<Event>, f: Event -> T): (r: seq<T>)
    ensures |r| == |log| && forall i :: 0 <= i < |log| ==> r[i] == f(log[i])
  {
    seq(|log|, i requires 0 <= i < |log| => f(log[i]))
  }

  // --- the unguarded tables ------------------------------------------------------

  lemma {:induction false} ArtifactsVisited(log: seq<Event>, visits: seq<Visit>, t: Tables)
    requires InLog(log, visits) && OnlySupplementalSkipped(log, visits)
    ensures Deliver(log, visits, t).artifacts == Overlay.Visited(t.artifacts, Map(log, ArtifactWrites), Entries(visits))
    decreases |visits|
  {
    if visits != [] {
      var front := visits[..|visits| - 1];
      ArtifactsVisited(log, front, t);
      assert Entries(visits)[..|visits| - 1] == Entries(front);
      OpenTablesEffect(log[visits[|visits| - 1].entry], Deliver(log, front, t));
    }
  }

  lemma {:induction false} TimingsVisited(log: seq<Event>, visits: seq<Visit>, t: Tables)
    requires InLog(log, visits) && AllStored(visits)
    ensures Deliver(log, visits, t).timings == Overlay.Visited(t.timings, Map(log, TimingWrites), Entries(visits))
    decreases |visits|
  {
    if visits != [] {
      var front := visits[..|visits| - 1];
      TimingsVisited(log, front, t);
      assert Entries(visits)[..|visits| - 1] == Entries(front);
      OpenTablesEffect(log[visits[|visits| - 1].entry], Deliver(log, front, t));
    }
  }

  lemma {:induction false} AlertsVisited(log: seq<Event>, visits: seq<Visit>, t: Tables)
    requires InLog(log, visits) && AllStored(visits)
    ensures Deliver(log, visits, t).alerts == Overlay.FirstVisited(t.alerts, Map(log, AlertWrites), Entries(visits))
    decreases |visits|
  {
    if visits != [] {
      var front := visits[..|visits| - 1];
      AlertsVisited(log, front, t);
      assert Entries(visits)[..|visits| - 1] == Entries(front);
      OpenTablesEffect(log[visits[|visits| - 1].entry], Deliver(log, front, t));
    }
  }

  // --- the guarded tables --------------------------------------------------------

  /** Settled commits: no event and no server-error update changes the row or the case results. */
  lemma SettledStays(ev: Event, t: Tables)
    requires IsTerminalStatus(t.row.status)
    ensures Effect(ev, t).row == t.row && Effect(ev, t).results == t.results
    ensures ServerErrorEffect(t) == t
  {
  }

  lemma {:induction false} SettledStaysDelivered(log: seq<Event>, visits: seq<Visit>, settled: nat, t: Tables)
    requires InLog(log, visits) && settled <= |visits|
    requires IsTerminalStatus(Deliver(log, visits[..settled], t).row.status)
    ensures Deliver(log, visits, t).row == Deliver(log, visits[..settled], t).row
    ensures Deliver(log, visits, t).results == Deliver(log, visits[..settled], t).results
    decreases |visits|
  {
    if settled == |visits| {
      assert visits[..settled] == visits;
    } else {
      var front := visits[..|visits| - 1];
      assert front[..settled] == visits[..settled];
      SettledStaysDelivered(log, front, settled, t);
      SettledStays(log[visits[|visits| - 1].entry], Deliver(log, front, t));
    }
  }

  lemma SupplementalWritesNothing(ev: Event)
    requires Supplemental(ev)
    ensures RowWrites(ev) == map[] && ResultWrites(ev) == map[] && !ev.FinishedEvent?
  {
    assert forall c :: Written(ev, c) == None;
  }

  /** One visit, stored or passed over, on an unsettled commit. */
  lemma GuardedVisit(log: seq<Event>, v: Visit, t: Tables)
    requires v.entry < |log| && (v.stored || Supplemental(log[v.entry])) && !IsTerminalStatus(t.row.status)
    ensures RowCells(VisitEffect(log, v, t).row) == RowCells(t.row) + RowWrites(log[v.entry])
    ensures VisitEffect(log, v, t).results == t.results + ResultWrites(log[v.entry])
    ensures !log[v.entry].FinishedEvent? ==> !IsTerminalStatus(VisitEffect(log, v, t).row.status)
  {
    hide Effect, RowCells, RowWrites, ResultWrites, IsTerminalStatus;
    if v.stored {
      RowEffect(log[v.entry], t);
      ResultEffect(log[v.entry], t);
    } else {
      SupplementalWritesNothing(log[v.entry]);
    }
  }

  lemma {:induction false} GuardedVisited(log: seq<Event>, visits: seq<Visit>, t: Tables)
    requires InLog(log, visits) && OnlySupplementalSkipped(log, visits)
    requires !IsTerminalStatus(t.row.status)
    requires forall i :: 0 <= i < |visits| - 1 ==> !log[visits[i].entry].FinishedEvent?
    ensures RowCells(Deliver(log, visits, t).row)
         == Overlay.Visited(RowCells(t.row), Map(log, RowWrites), Entries(visits))
    ensures Deliver(log, visits, t).results == Overlay.Visited(t.results, Map(log, ResultWrites), Entries(visits))
    ensures visits == [] || !log[visits[|visits| - 1].entry].FinishedEvent?
         ==> !IsTerminalStatus(Deliver(log, visits, t).row.status)
    decreases |visits|
  {
    if visits != [] {
      hide VisitEffect, RowCells, RowWrites, ResultWrites, IsTerminalStatus;
      var front, last := visits[..|visits| - 1], visits[|visits| - 1];
      GuardedVisited(log, front, t);
      assert Entries(visits)[..|visits| - 1] == Entries(front);
      GuardedVisit(log, last, Deliver(log, front, t));
    }
  }

  /** The first visit of the verdict ends a complete delivery of its own. */
  lemma {:induction false} FirstVerdict(visits: seq<Visit>, entries: nat) returns (k: nat)
    requires entries > 0 && Overlay.Complete(Entries(visits), entries)
    ensures k < |visits| && Overlay.Complete(Entries(visits[..k + 1]), entries)
    ensures forall i :: 0 <= i < k ==> visits[i].entry != entries - 1
  {
    k := 0;
    while visits[k].entry != entries - 1
      invariant k < |visits|
      invariant forall i :: 0 <= i < k ==> visits[i].entry != entries - 1
      decreases |visits| - k
    {
      assert Entries(visits)[|visits| - 1] == visits[|visits| - 1].entry;
      k := k + 1;
    }
    assert Entries(visits[..k + 1]) == Entries(visits)[..k + 1];
    Overlay.GapFreePrefix(Entries(visits), entries, k + 1);
    assert Entries(visits[..k + 1])[k] == visits[k].entry;
  }

  /** A complete delivery leaves each guarded table as one overlay of the log's writes. */
  lemma GuardedConverges(log: seq<Event>, visits: seq<Visit>, t: Tables)
    requires EndsWithVerdict(log)
    requires Overlay.Complete(Entries(visits), |log|)
    requires InLog(log, visits) && OnlySupplementalSkipped(log, visits)
    ensures IsTerminalStatus(Deliver(log, visits, t).row.status)
    ensures if IsTerminalStatus(t.row.status)
      then Deliver(log, visits, t).row == t.row && Deliver(log, visits, t).results == t.results
      else
        && RowCells(Deliver(log, visits, t).row) == Overlay.Once(RowCells(t.row), Map(log, RowWrites), |log|)
        && Deliver(log, visits, t).results == Overlay.Once(t.results, Map(log, ResultWrites), |log|)
  {
    if IsTerminalStatus(t.row.status) {
      assert visits[..0] == [];
      SettledStaysDelivered(log, visits, 0, t);
    } else {
      var k := FirstVerdict(visits, |log|);
      var upTo := visits[..k + 1];
      GuardedVisited(log, upTo, t);
      Overlay.CompleteDeliveryConverges(RowCells(t.row), Map(log, RowWrites), Entries(upTo));
      Overlay.CompleteDeliveryConverges(t.results, Map(log, ResultWrites), Entries(upTo));
      VerdictSettles(log, upTo, t);
      SettledStaysDelivered(log, visits, k + 1, t);
    }
  }

  lemma VerdictSettles(log: seq<Event>, visits: seq<Visit>, t: Tables)
    requires EndsWithVerdict(log)
    requires |visits| > 0 && visits[|visits| - 1].entry == |log| - 1
    requires InLog(log, visits) && OnlySupplementalSkipped(log, visits)
    ensures IsTerminalStatus(Deliver(log, visits, t).row.status)
  {
  }

  /** A `finished` event with a terminal status; persistFinished stores any status of the column. */
  ghost predicate TerminalVerdict(ev: Event) {
    ev.FinishedEvent? && ev.status.Known? && IsTerminalStatus(ev.status.value)
  }

  lemma SettlesIff(ev: Event, t: Tables)
    ensures IsTerminalStatus(Effect(ev, t).row.status) <==> IsTerminalStatus(t.row.status) || TerminalVerdict(ev)
  {
  }

  /**
    Of any log, a delivery leaves a commit settled exactly when it was settled before or a
    verdict with a terminal status was stored.  A hub is done once it stored a `finished`
    event, whatever the status: with another one the commit is still open then.
  */
  lemma {:induction false} DeliverySettlesIff(log: seq<Event>, visits: seq<Visit>, t: Tables)
    requires InLog(log, visits)
    ensures IsTerminalStatus(Deliver(log, visits, t).row.status)
        <==> IsTerminalStatus(t.row.status)
             || exists i :: 0 <= i < |visits| && visits[i].stored && TerminalVerdict(log[visits[i].entry])
    decreases |visits|
  {
    if visits != [] {
      hide Effect, TerminalVerdict, IsTerminalStatus;
      var front, last := visits[..|visits| - 1], visits[|visits| - 1];
      DeliverySettlesIff(log, front, t);
      SettlesIff(log[last.entry], Deliver(log, front, t));
      forall i | 0 <= i < |front| ensures front[i] == visits[i] {
      }
    }
  }

  // --- one pass is itself a delivery ---------------------------------------------

  ghost function StraightVisits(n: nat): (visits: seq<Visit>)
    ensures |visits| == n && forall i :: 0 <= i < n ==> visits[i] == Visit(i, true)
  {
    seq(n, i requires 0 <= i < n => Visit(i, true))
  }

  lemma {:induction false} StraightDelivery(log: seq<Event>, n: nat, t: Tables)
    requires n <= |log|
    ensures Deliver(log, StraightVisits(n), t) == ApplyLog(log[..n], t)
  {
    if n > 0 {
      assert StraightVisits(n)[..n - 1] == StraightVisits(n - 1);
      assert log[..n][..n - 1] == log[..n - 1];
      StraightDelivery(log, n - 1, t);
    }
  }

  /**
    Replay converges.  Whatever the cuts, restarts and repeated writes, a delivery that
    ends on the verdict leaves the commit row, the case results and the artifacts of one
    pass over the log; and the timings and alerts too when each of them was stored.
  */
  lemma ReplayConverges(log: seq<Event>, visits: seq<Visit>, t: Tables)
    requires EndsWithVerdict(log)
    requires Overlay.Complete(Entries(visits), |log|)
    requires InLog(log, visits) && OnlySupplementalSkipped(log, visits)
    ensures Deliver(log, visits, t).row == ApplyLog(log, t).row
    ensures Deliver(log, visits, t).results == ApplyLog(log, t).results
    ensures Deliver(log, visits, t).artifacts == ApplyLog(log, t).artifacts
    ensures AllStored(visits) ==> Deliver(log, visits, t) == ApplyLog(log, t)
  {
    hide Effect, RowCells, RowWrites, ResultWrites, ArtifactWrites, TimingWrites, AlertWrites, Deliver, IsTerminalStatus;
    var straight := StraightVisits(|log|);
    assert Overlay.Complete(Entries(straight), |log|);
    StraightDelivery(log, |log|, t);
    assert log[..|log|] == log;
    GuardedConverges(log, visits, t);
    GuardedConverges(log, straight, t);
    if !IsTerminalStatus(t.row.status) {
      RowCellsInjective(Deliver(log, visits, t).row, Deliver(log, straight, t).row);
    }
    ArtifactsConverge(log, visits, t);
    ArtifactsConverge(log, straight, t);
    if AllStored(visits) {
      SupplementalConverge(log, visits, t);
      SupplementalConverge(log, straight, t);
    }
  }

  lemma ArtifactsConverge(log: seq<Event>, visits: seq<Visit>, t: Tables)
    requires Overlay.Complete(Entries(visits), |log|)
    requires InLog(log, visits) && OnlySupplementalSkipped(log, visits)
    ensures Deliver(log, visits, t).artifacts == Overlay.Once(t.artifacts, Map(log, ArtifactWrites), |log|)
  {
    ArtifactsVisited(log, visits, t);
    Overlay.CompleteDeliveryConverges(t.artifacts, Map(log, ArtifactWrites), Entries(visits));
  }

  lemma SupplementalConverge(log: seq<Event>, visits: seq<Visit>, t: Tables)
    requires Overlay.Complete(Entries(visits), |log|)
    requires InLog(log, visits) && AllStored(visits)
    ensures Deliver(log, visits, t).timings == Overlay.Once(t.timings, Map(log, TimingWrites), |log|)
    ensures Deliver(log, visits, t).alerts == Overlay.FirstOnce(t.alerts, Map(log, AlertWrites), |log|)
  {
    TimingsVisited(log, visits, t);
    AlertsVisited(log, visits, t);
    Overlay.CompleteDeliveryConverges(t.timings, Map(log, TimingWrites), Entries(visits));
    Overlay.CompleteReachesAll(Entries(visits), |log|);
    Overlay.FirstWriteConverges(t.alerts, Map(log, AlertWrites), Entries(visits));
  }

  // --- a commit marked as failed in between ---------------------------------------

  /**
    What a delivery reaches when another process marked the commit as failed after the
    first `swept` visits: the sweeper, or a hub elsewhere that gave the commit up.
  */
  ghost function Reached(log: seq<Event>, visits: seq<Visit>, swept: Option<nat>, t: Tables): Tables
    requires InLog(log, visits) && (swept.Some? ==> swept.value <= |visits|)
  {
    match swept
    case None => Deliver(log, visits, t)
    case Some(k) => Deliver(log, visits[k..], ServerErrorEffect(Deliver(log, visits[..k], t)))
  }

  /** The mark took effect: the commit was open when it was made. */
  ghost predicate ValidSweep(log: seq<Event>, visits: seq<Visit>, swept: Option<nat>, t: Tables)
    requires InLog(log, visits)
  {
    swept.Some? ==> swept.value <= |visits| && !IsTerminalStatus(Deliver(log, visits[..swept.value], t).row.status)
  }

  lemma DeliverAppends(log: seq<Event>, visits: seq<Visit>, v: Visit, t: Tables)
    requires InLog(log, visits) && v.entry < |log|
    ensures InLog(log, visits + [v])
    ensures Deliver(log, visits + [v], t) == VisitEffect(log, v, Deliver(log, visits, t))
  {
    hide VisitEffect;
    assert (visits + [v])[..|visits|] == visits;
  }

  lemma ReachedAppends(log: seq<Event>, visits: seq<Visit>, swept: Option<nat>, v: Visit, t: Tables)
    requires InLog(log, visits) && v.entry < |log| && ValidSweep(log, visits, swept, t)
    ensures InLog(log, visits + [v]) && ValidSweep(log, visits + [v], swept, t)
    ensures Reached(log, visits + [v], swept, t) == VisitEffect(log, v, Reached(log, visits, swept, t))
  {
    hide VisitEffect, IsTerminalStatus, ServerErrorEffect, Deliver;
    DeliverAppends(log, visits, v, t);
    if swept.Some? {
      var k := swept.value;
      assert (visits + [v])[..k] == visits[..k] && (visits + [v])[k..] == visits[k..] + [v];
      DeliverAppends(log, visits[k..], v, ServerErrorEffect(Deliver(log, visits[..k], t)));
    }
  }

  /** Marking an open commit is a sweep now; a commit already swept, or settled, is not changed. */
  lemma SweptNow(log: seq<Event>, visits: seq<Visit>, swept: Option<nat>, t: Tables)
    requires InLog(log, visits) && ValidSweep(log, visits, swept, t)
    ensures var reached := Reached(log, visits, swept, t);
      if IsTerminalStatus(reached.row.status) then ServerErrorEffect(reached) == reached
      else
        && swept.None? && ValidSweep(log, visits, Some(|visits|), t)
        && Reached(log, visits, Some(|visits|), t) == ServerErrorEffect(reached)
  {
    assert visits[..|visits|] == visits && visits[|visits|..] == [];
    if swept.Some? {
      SweptRow(log, visits, swept.value, t);
    }
  }

  /** After an effective mark the row is server_error and the case results are those of the visits before it. */
  lemma SweptRow(log: seq<Event>, visits: seq<Visit>, k: nat, t: Tables)
    requires InLog(log, visits) && ValidSweep(log, visits, Some(k), t)
    ensures var before := Deliver(log, visits[..k], t);
      && Reached(log, visits, Some(k), t).row == before.row.(status := ServerError, compilationFinished := true)
      && Reached(log, visits, Some(k), t).results == before.results
  {
    hide Effect, Deliver;
    var marked := ServerErrorEffect(Deliver(log, visits[..k], t));
    var later := visits[k..];
    assert later[..0] == [];
    NothingDelivered(log, marked);
    SettledStaysDelivered(log, later, 0, marked);
  }

  lemma NothingDelivered(log: seq<Event>, t: Tables)
    ensures Deliver(log, [], t) == t
  {
  }

  /** Artifacts, timings and alerts do not notice the mark. */
  lemma {:induction false} SweepLeavesOpenTables(log: seq<Event>, visits: seq<Visit>, k: nat, t: Tables)
    requires InLog(log, visits) && k <= |visits|
    ensures Reached(log, visits, Some(k), t).artifacts == Deliver(log, visits, t).artifacts
    ensures Reached(log, visits, Some(k), t).timings == Deliver(log, visits, t).timings
    ensures Reached(log, visits, Some(k), t).alerts == Deliver(log, visits, t).alerts
    decreases |visits|
  {
    hide Effect, Deliver, ArtifactWrites, TimingWrites, AlertWrites;
    if k == |visits| {
      assert visits[..k] == visits && visits[k..] == [];
      NothingDelivered(log, ServerErrorEffect(Deliver(log, visits, t)));
    } else {
      var front, last := visits[..|visits| - 1], visits[|visits| - 1];
      assert visits == front + [last] && front[..k] == visits[..k] && visits[k..] == front[k..] + [last];
      SweepLeavesOpenTables(log, front, k, t);
      var marked := ServerErrorEffect(Deliver(log, visits[..k], t));
      DeliverAppends(log, front, last, t);
      DeliverAppends(log, front[k..], last, marked);
      OpenTablesEffect(log[last.entry], Deliver(log, front, t));
      OpenTablesEffect(log[last.entry], Deliver(log, front[k..], marked));
    }
  }

  /**
    A complete delivery with a mark in between: without one it is one pass over the log; with
    one the row is server_error, the case results are those of the visits before it, and the
    artifacts are still those of one pass.
  */
  lemma SweptReplayConverges(log: seq<Event>, visits: seq<Visit>, swept: Option<nat>, t: Tables)
    requires EndsWithVerdict(log) && Overlay.Complete(Entries(visits), |log|)
    requires InLog(log, visits) && OnlySupplementalSkipped(log, visits) && ValidSweep(log, visits, swept, t)
    ensures Reached(log, visits, swept, t).artifacts == ApplyLog(log, t).artifacts
    ensures AllStored(visits) ==>
      && Reached(log, visits, swept, t).timings == ApplyLog(log, t).timings
      && Reached(log, visits, swept, t).alerts == ApplyLog(log, t).alerts
    ensures swept.None? ==>
      && Reached(log, visits, swept, t).row == ApplyLog(log, t).row
      && Reached(log, visits, swept, t).results == ApplyLog(log, t).results
    ensures swept.Some? ==> var before := Deliver(log, visits[..swept.value], t);
      && Reached(log, visits, swept, t).row == before.row.(status := ServerError, compilationFinished := true)
      && Reached(log, visits, swept, t).results == before.results
  {
    hide Effect, Deliver, ApplyLog, EndsWithVerdict, IsTerminalStatus, ServerErrorEffect;
    ReplayConverges(log, visits, t);
    if swept.Some? {
      SweptRow(log, visits, swept.value, t);
      SweepLeavesOpenTables(log, visits, swept.value, t);
    }
  }

  lemma {:induction false} PassStaysOpen(log: seq<Event>, n: nat, t: Tables)
    requires EndsWithVerdict(log) && n < |log| && !IsTerminalStatus(t.row.status)
    ensures !IsTerminalStatus(ApplyLog(log[..n], t).row.status)
  {
    hide IsTerminalStatus, Effect;
    if n == 0 {
      assert log[..0] == [];
    } else {
      assert log[..n][..n - 1] == log[..n - 1];
      PassStaysOpen(log, n - 1, t);
      ResultEffect(log[n - 1], ApplyLog(log[..n - 1], t));
    }
  }

  lemma PassEndsWithVerdict(log: seq<Event>, t: Tables)
    requires EndsWithVerdict(log) && !IsTerminalStatus(t.row.status)
    ensures ApplyLog(log, t).row.status == log[|log| - 1].status.value
  {
    PassStaysOpen(log, |log| - 1, t);
  }

  // --- what one pass shows ----------------------------------------------------------

  /** One pass over a log on an open commit shows its verdict: status, score, count, and messages it gives. */
  lemma PassShowsVerdict(log: seq<Event>, t: Tables)
    requires EndsWithVerdict(log) && t.row.status in {Pending, Queued, Compiling, Running}
    ensures ShowsVerdict(ApplyLog(log, t).row, log[|log| - 1], ApplyLog(log[..|log| - 1], t).row)
  {
    hide ShowsVerdict, Effect;
    PassStaysOpen(log, |log| - 1, t);
    VerdictReadsBack(log[|log| - 1], ApplyLog(log[..|log| - 1], t));
  }

  /** The event stores the result of this case. */
  ghost predicate ReportsCase(ev: Event, testCase: int) {
    ev.CaseResultEvent? && ev.testCase == testCase && testCase != 0 && ev.caseStatus.Known?
  }

  lemma CaseStays(ev: Event, t: Tables, testCase: int)
    requires testCase in t.results && !ReportsCase(ev, testCase)
    ensures testCase in Effect(ev, t).results && Effect(ev, t).results[testCase] == t.results[testCase]
  {
  }

  /** And of every case the result its last report gave, each missing field at its default. */
  lemma {:induction false} PassShowsCase(log: seq<Event>, i: nat, n: nat, t: Tables)
    requires EndsWithVerdict(log) && t.row.status in {Pending, Queued, Compiling, Running}
    requires i < n <= |log| && log[i].CaseResultEvent? && ReportsCase(log[i], log[i].testCase)
    requires forall j :: i < j < n ==> !ReportsCase(log[j], log[i].testCase)
    ensures log[i].testCase in ApplyLog(log[..n], t).results
    ensures ShowsCase(ApplyLog(log[..n], t).results[log[i].testCase], log[i])
    decreases n
  {
    hide Effect, ShowsCase;
    assert log[..n][..n - 1] == log[..n - 1];
    if i < n - 1 {
      PassShowsCase(log, i, n - 1, t);
      CaseStays(log[n - 1], ApplyLog(log[..n - 1], t), log[i].testCase);
    } else {
      PassStaysOpen(log, i, t);
      CaseReadsBack(log[i], ApplyLog(log[..i], t));
    }
  }

  ghost predicate ReportsArtifact(ev: Event, testCase: int) {
    ev.ArtifactEvent? && ev.testCase == testCase && testCase != 0 && ev.state.Known?
  }

  lemma ArtifactStays(ev: Event, t: Tables, testCase: int)
    requires testCase in t.artifacts && !ReportsArtifact(ev, testCase)
    ensures testCase in Effect(ev, t).artifacts && Effect(ev, t).artifacts[testCase] == t.artifacts[testCase]
  {
  }

  /** Of every artifact, what its last event gave, whether or not the commit is open. */
  lemma {:induction false} PassShowsArtifact(log: seq<Event>, i: nat, n: nat, t: Tables)
    requires i < n <= |log| && log[i].ArtifactEvent? && ReportsArtifact(log[i], log[i].testCase)
    requires forall j :: i < j < n ==> !ReportsArtifact(log[j], log[i].testCase)
    ensures log[i].testCase in ApplyLog(log[..n], t).artifacts
    ensures ShowsArtifact(ApplyLog(log[..n], t).artifacts[log[i].testCase], log[i])
    decreases n
  {
    hide Effect, ShowsArtifact;
    assert log[..n][..n - 1] == log[..n - 1];
    if i < n - 1 {
      PassShowsArtifact(log, i, n - 1, t);
      ArtifactStays(log[n - 1], ApplyLog(log[..n - 1], t), log[i].testCase);
    } else {
      ArtifactReadsBack(log[i], ApplyLog(log[..i], t));
    }
  }

  /**
    When a mark in between still shows the verdict's status: exactly when the verdict is
    server_error itself.  Any other verdict is stored without effect, and reported stored.
  */
  lemma MarkShowsVerdictIff(log: seq<Event>, visits: seq<Visit>, k: nat, t: Tables)
    requires EndsWithVerdict(log) && !IsTerminalStatus(t.row.status)
    requires InLog(log, visits) && ValidSweep(log, visits, Some(k), t)
    ensures Reached(log, visits, Some(k), t).row.status == ApplyLog(log, t).row.status
        <==> log[|log| - 1].status.value == ServerError
  {
    hide Effect, Deliver, ApplyLog, IsTerminalStatus, EndsWithVerdict;
    SweptRow(log, visits, k, t);
    PassEndsWithVerdict(log, t);
  }

  // --- a late write of another hub -------------------------------------------------

  ghost predicate Holds<K, V>(m: map<K, V>, writes: map<K, V>) {
    forall k :: k in writes ==> k in m && m[k] == writes[k]
  }

  lemma OverwriteChangesNothingIff<K, V>(m: map<K, V>, writes: map<K, V>)
    ensures m + writes == m <==> Holds(m, writes)
  {
    if m + writes == m {
      forall k | k in writes ensures k in m && m[k] == writes[k] {
        assert k in m + writes && (m + writes)[k] == writes[k];
      }
    }
  }

  /**
    Two hubs of one commit may overlap, and the older one may write late.  Its write leaves
    row, case results and artifacts alone if and only if the artifact it writes is already
    there, and the commit is settled or the cells it writes already hold what it writes.
  */
  lemma LateWriteIsHarmlessIff(ev: Event, t: Tables)
    ensures (Effect(ev, t).row == t.row && Effect(ev, t).results == t.results && Effect(ev, t).artifacts == t.artifacts)
        <==> (Holds(t.artifacts, ArtifactWrites(ev))
              && (IsTerminalStatus(t.row.status)
                  || (Holds(RowCells(t.row), RowWrites(ev)) && Holds(t.results, ResultWrites(ev)))))
  {
    hide Effect, ArtifactWrites, RowWrites, ResultWrites, RowCells, IsTerminalStatus;
    ArtifactEffect(ev, t);
    OverwriteChangesNothingIff(t.artifacts, ArtifactWrites(ev));
    if IsTerminalStatus(t.row.status) {
      SettledStays(ev, t);
    } else {
      RowEffect(ev, t);
      ResultEffect(ev, t);
      OverwriteChangesNothingIff(RowCells(t.row), RowWrites(ev));
      OverwriteChangesNothingIff(t.results, ResultWrites(ev));
      if RowCells(Effect(ev, t).row) == RowCells(t.row) {
        RowCellsInjective(Effect(ev, t).row, t.row);
      }
    }
  }
}
