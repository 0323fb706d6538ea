/**
  The grade table of an offering (backend/services/grades-service.go), in exact arithmetic:
  scores are reals, and rounding to hundredths happens where the program rounds.
*/
module Gradebook {
  import opened Wrappers

  type Cells = map<int, map<int, GradeCell>>

  /** The aggregated submissions of a student on an exercise. */
  datatype GradeCell = GradeCell(score: real, submissionCount: nat, lastSubmissionAt: int)

  datatype ShownCell = ShownCell(exercise: int, score: Option<real>, submissionCount: nat, lastSubmissionAt: Option<int>)

  datatype StudentRow = StudentRow(
    student: int, scores: seq<ShownCell>, average: real, submissionCount: nat, lastSubmissionAt: Option<int>)

  datatype Summary = Summary(
    studentCount: nat, globalAverage: real, totalSubmissions: nat, studentsWithSubmission: nat, studentsAbove50: nat)

  datatype Statistics = Statistics(
    exercise: int, studentCount: nat, submittedStudents: nat, studentsAbove50: nat,
    best: Option<real>, lowest: Option<real>, average: real, approvalRate: real, averageSubmitted: Option<real>)

  datatype Table = Table(students: seq<StudentRow>, summary: Summary, statistics: seq<Statistics>)

  // --- rounding ------------------------------------------------------------------------

  /** math.Round: to the nearest integer, halves away from zero. */
  function Round(v: real): int {
    if v >= 0.0 then (v + 0.5).Floor else -((0.5 - v).Floor)
  }

  function RoundGrade(value: real): real {
    Round(value * 100.0) as real / 100.0
  }

  lemma RoundNear(v: real)
    ensures v - 0.5 <= Round(v) as real <= v + 0.5
  {
  }

  lemma FloorMonotone(v: real, w: real)
    requires v <= w
    ensures v.Floor <= w.Floor
  {
  }

  lemma RoundMonotone(v: real, w: real)
    requires v <= w
    ensures Round(v) <= Round(w)
  {
    if v >= 0.0 {
      FloorMonotone(v + 0.5, w + 0.5);
    } else if w < 0.0 {
      FloorMonotone(0.5 - w, 0.5 - v);
    } else {
      assert (0.5 - v).Floor >= 0 && (w + 0.5).Floor >= 0;
    }
  }

  lemma RoundWhole(k: int)
    ensures Round(k as real) == k
  {
  }

  predicate IsHundredth(v: real) {
    (v * 100.0).Floor as real == v * 100.0
  }

  /** Rounding gives the hundredth next to the value, at most half a hundredth away. */
  lemma RoundGradeNearest(a: real)
    ensures IsHundredth(RoundGrade(a))
    ensures -0.005 <= RoundGrade(a) - a <= 0.005
  {
    RoundNear(a * 100.0);
    assert RoundGrade(a) * 100.0 == Round(a * 100.0) as real;
  }

  lemma RoundGradeMonotone(a: real, b: real)
    requires a <= b
    ensures RoundGrade(a) <= RoundGrade(b)
  {
    RoundMonotone(a * 100.0, b * 100.0);
  }

  /** Rounding leaves exactly the hundredths alone. */
  lemma RoundGradeFixpoints(a: real)
    ensures RoundGrade(a) == a <==> IsHundredth(a)
  {
    RoundGradeNearest(a);
    if IsHundredth(a) {
      RoundWhole((a * 100.0).Floor);
    }
  }

  /** A half goes away from zero, on both sides. */
  lemma RoundHalves(k: nat)
    ensures Round(k as real + 0.5) == k + 1
    ensures Round(-(k as real) - 0.5) == -(k as int) - 1
    ensures RoundGrade((k as real + 0.5) / 100.0) == (k as real + 1.0) / 100.0
    ensures RoundGrade(-(k as real + 0.5) / 100.0) == -(k as real + 1.0) / 100.0
  {
    var a := (k as real + 0.5) / 100.0;
    assert a * 100.0 == k as real + 0.5;
    assert (-(k as real + 0.5) / 100.0) * 100.0 == -(k as real) - 0.5;
  }

  lemma QuotientTimes(a: real, n: real)
    requires n > 0.0
    ensures a / n * n == a
  {
  }

  // --- rows and columns of the table -----------------------------------------------------

  function CellOf(cells: Cells, student: int, exercise: int): Option<GradeCell> {
    if student in cells && exercise in cells[student] then Some(cells[student][exercise]) else None
  }

  /** The score a cell counts with: rounded, zero without a submission. */
  function Score(cell: Option<GradeCell>): real {
    if cell.Some? then RoundGrade(cell.value.score) else 0.0
  }

  function Count(cell: Option<GradeCell>): nat {
    if cell.Some? then cell.value.submissionCount else 0
  }

  ghost function RowScore(cells: Cells, student: int, exercises: seq<int>): real {
    if exercises == [] then 0.0
    else RowScore(cells, student, exercises[..|exercises| - 1]) + Score(CellOf(cells, student, exercises[|exercises| - 1]))
  }

  ghost function RowCount(cells: Cells, student: int, exercises: seq<int>): nat {
    if exercises == [] then 0
    else RowCount(cells, student, exercises[..|exercises| - 1]) + Count(CellOf(cells, student, exercises[|exercises| - 1]))
  }

  ghost function ColumnScore(cells: Cells, students: seq<int>, exercise: int): real {
    if students == [] then 0.0
    else ColumnScore(cells, students[..|students| - 1], exercise) + Score(CellOf(cells, students[|students| - 1], exercise))
  }

  ghost function ColumnCount(cells: Cells, students: seq<int>, exercise: int): nat {
    if students == [] then 0
    else ColumnCount(cells, students[..|students| - 1], exercise) + Count(CellOf(cells, students[|students| - 1], exercise))
  }

  ghost function RowTotal(cells: Cells, students: seq<int>, exercises: seq<int>): real {
    if students == [] then 0.0
    else RowTotal(cells, students[..|students| - 1], exercises) + RowScore(cells, students[|students| - 1], exercises)
  }

  ghost function ColumnTotal(cells: Cells, students: seq<int>, exercises: seq<int>): real {
    if exercises == [] then 0.0
    else ColumnTotal(cells, students, exercises[..|exercises| - 1]) + ColumnScore(cells, students, exercises[|exercises| - 1])
  }

  ghost function RowCountTotal(cells: Cells, students: seq<int>, exercises: seq<int>): nat {
    if students == [] then 0
    else RowCountTotal(cells, students[..|students| - 1], exercises) + RowCount(cells, students[|students| - 1], exercises)
  }

  ghost function ColumnCountTotal(cells: Cells, students: seq<int>, exercises: seq<int>): nat {
    if exercises == [] then 0
    else ColumnCountTotal(cells, students, exercises[..|exercises| - 1]) + ColumnCount(cells, students, exercises[|exercises| - 1])
  }

  lemma {:induction false} ColumnTotalGrows(cells: Cells, students: seq<int>, student: int, exercises: seq<int>)
    ensures ColumnTotal(cells, students + [student], exercises)
         == ColumnTotal(cells, students, exercises) + RowScore(cells, student, exercises)
    ensures ColumnCountTotal(cells, students + [student], exercises)
         == ColumnCountTotal(cells, students, exercises) + RowCount(cells, student, exercises)
  {
    if exercises != [] {
      ColumnTotalGrows(cells, students, student, exercises[..|exercises| - 1]);
      assert (students + [student])[..|students|] == students;
    }
  }

  /** Counting by rows and counting by columns give the same totals, for scores and for submissions. */
  lemma {:induction false} RowsAgreeWithColumns(cells: Cells, students: seq<int>, exercises: seq<int>)
    ensures RowTotal(cells, students, exercises) == ColumnTotal(cells, students, exercises)
    ensures RowCountTotal(cells, students, exercises) == ColumnCountTotal(cells, students, exercises)
  {
    if students == [] {
      NoStudents(cells, exercises);
    } else {
      var before, last := students[..|students| - 1], students[|students| - 1];
      RowsAgreeWithColumns(cells, before, exercises);
      ColumnTotalGrows(cells, before, last, exercises);
      assert before + [last] == students;
    }
  }

  lemma {:induction false} NoStudents(cells: Cells, exercises: seq<int>)
    ensures ColumnTotal(cells, [], exercises) == 0.0 && ColumnCountTotal(cells, [], exercises) == 0
  {
    if exercises != [] {
      NoStudents(cells, exercises[..|exercises| - 1]);
    }
  }

  // --- the per-exercise accumulators ---------------------------------------------------------

  datatype Accumulator = Accumulator(
    submitted: nat, above50: nat, scoreSum: real, submittedSum: real, best: Option<real>, lowest: Option<real>)

  ghost predicate Submitted(cells: Cells, student: int, exercise: int) {
    CellOf(cells, student, exercise).Some?
  }

  ghost function SubmittedStudents(cells: Cells, students: seq<int>, exercise: int): nat {
    if students == [] then 0
    else
      var before := SubmittedStudents(cells, students[..|students| - 1], exercise);
      if Submitted(cells, students[|students| - 1], exercise) then before + 1 else before
  }

  ghost function Above50(cells: Cells, students: seq<int>, exercise: int): nat {
    if students == [] then 0
    else
      var before := Above50(cells, students[..|students| - 1], exercise);
      if Score(CellOf(cells, students[|students| - 1], exercise)) > 50.0 then before + 1 else before
  }

  /** `extreme` is the score of one of the submissions, and no submission's score beats it. */
  ghost predicate IsBest(cells: Cells, students: seq<int>, exercise: int, extreme: Option<real>) {
    && (extreme.None? <==> forall s :: s in students ==> !Submitted(cells, s, exercise))
    && (extreme.Some? ==> exists s :: s in students && Submitted(cells, s, exercise) && Score(CellOf(cells, s, exercise)) == extreme.value)
    && (forall s :: s in students && Submitted(cells, s, exercise) ==> extreme.Some? && Score(CellOf(cells, s, exercise)) <= extreme.value)
  }

  ghost predicate IsLowest(cells: Cells, students: seq<int>, exercise: int, extreme: Option<real>) {
    && (extreme.None? <==> forall s :: s in students ==> !Submitted(cells, s, exercise))
    && (extreme.Some? ==> exists s :: s in students && Submitted(cells, s, exercise) && Score(CellOf(cells, s, exercise)) == extreme.value)
    && (forall s :: s in students && Submitted(cells, s, exercise) ==> extreme.Some? && Score(CellOf(cells, s, exercise)) >= extreme.value)
  }

  /** The accumulator of an exercise after some of the students. */
  ghost predicate Accumulates(cells: Cells, students: seq<int>, exercise: int, a: Accumulator) {
    && a.submitted == SubmittedStudents(cells, students, exercise)
    && a.above50 == Above50(cells, students, exercise)
    && a.scoreSum == a.submittedSum == ColumnScore(cells, students, exercise)
    && IsBest(cells, students, exercise, a.best)
    && IsLowest(cells, students, exercise, a.lowest)
  }

  /** The part of the inner loop that updates one exercise's accumulator. */
  method Accumulate(a: Accumulator, score: real) returns (b: Accumulator)
    ensures b.submitted == a.submitted + 1
    ensures b.above50 == a.above50 + if score > 50.0 then 1 else 0
    ensures b.scoreSum == a.scoreSum + score && b.submittedSum == a.submittedSum + score
    ensures b.best == if a.best.None? || score > a.best.value then Some(score) else a.best
    ensures b.lowest == if a.lowest.None? || score < a.lowest.value then Some(score) else a.lowest
  {
    b := a.(submitted := a.submitted + 1, scoreSum := a.scoreSum + score, submittedSum := a.submittedSum + score);
    if score > 50.0 {
      b := b.(above50 := b.above50 + 1);
    }
    if b.best.None? || score > b.best.value {
      b := b.(best := Some(score));
    }
    if b.lowest.None? || score < b.lowest.value {
      b := b.(lowest := Some(score));
    }
  }

  lemma SkippedStudent(cells: Cells, students: seq<int>, student: int, exercise: int, a: Accumulator)
    requires Accumulates(cells, students, exercise, a) && !Submitted(cells, student, exercise)
    ensures Accumulates(cells, students + [student], exercise, a)
  {
    assert (students + [student])[..|students|] == students;
  }

  lemma BestAfter(cells: Cells, students: seq<int>, student: int, exercise: int, best: Option<real>)
    requires IsBest(cells, students, exercise, best) && Submitted(cells, student, exercise)
    ensures var score := Score(CellOf(cells, student, exercise));
      IsBest(cells, students + [student], exercise, if best.None? || score > best.value then Some(score) else best)
  {
    assert student in students + [student];
  }

  lemma LowestAfter(cells: Cells, students: seq<int>, student: int, exercise: int, lowest: Option<real>)
    requires IsLowest(cells, students, exercise, lowest) && Submitted(cells, student, exercise)
    ensures var score := Score(CellOf(cells, student, exercise));
      IsLowest(cells, students + [student], exercise, if lowest.None? || score < lowest.value then Some(score) else lowest)
  {
    assert student in students + [student];
  }

  function Times(x: real, n: nat): real {
    x * n as real
  }

  lemma TimesNext(x: real, n: nat)
    ensures Times(x, n + 1) == Times(x, n) + x
  {
  }

  /** The sum over those who submitted lies between their number times the extremes. */
  lemma {:induction false} SumBetweenExtremes(cells: Cells, students: seq<int>, exercise: int, low: real, high: real)
    requires forall s :: s in students && Submitted(cells, s, exercise) ==> low <= Score(CellOf(cells, s, exercise)) <= high
    ensures Times(low, SubmittedStudents(cells, students, exercise)) <= ColumnScore(cells, students, exercise)
    ensures ColumnScore(cells, students, exercise) <= Times(high, SubmittedStudents(cells, students, exercise))
  {
    if students != [] {
      SumBetweenExtremes(cells, students[..|students| - 1], exercise, low, high);
      assert students[|students| - 1] in students;
      TimesNext(low, SubmittedStudents(cells, students[..|students| - 1], exercise));
      TimesNext(high, SubmittedStudents(cells, students[..|students| - 1], exercise));
    }
  }

  // --- building the table ----------------------------------------------------------------------

  /** The mean of `sum` over `n`, rounded; zero when there is nothing to divide by. */
  function Mean(sum: real, n: nat): real {
    if n > 0 then RoundGrade(sum / n as real) else 0.0
  }

  function Shown(cells: Cells, student: int, exercise: int): ShownCell {
    match CellOf(cells, student, exercise)
    case Some(c) => ShownCell(exercise, Some(RoundGrade(c.score)), c.submissionCount, Some(c.lastSubmissionAt))
    case None => ShownCell(exercise, None, 0, None)
  }

  function SubmittedAt(cells: Cells, student: int, exercise: int): Option<int> {
    match CellOf(cells, student, exercise)
    case Some(c) => Some(c.lastSubmissionAt)
    case None => None
  }

  ghost predicate IsLatest(cells: Cells, student: int, exercises: seq<int>, latest: Option<int>) {
    && (latest.Some? ==> exists e :: e in exercises && SubmittedAt(cells, student, e) == latest)
    && (forall e :: e in exercises && SubmittedAt(cells, student, e).Some? ==>
          latest.Some? && SubmittedAt(cells, student, e).value <= latest.value)
  }

  ghost predicate IsRowOf(cells: Cells, student: int, exercises: seq<int>, row: StudentRow) {
    && row.student == student
    && |row.scores| == |exercises|
    && (forall j :: 0 <= j < |exercises| ==> row.scores[j] == Shown(cells, student, exercises[j]))
    && row.average == Mean(RowScore(cells, student, exercises), |exercises|)
    && row.submissionCount == RowCount(cells, student, exercises)
    && IsLatest(cells, student, exercises, row.lastSubmissionAt)
  }

  function Later(latest: Option<int>, at: Option<int>): Option<int> {
    if at.Some? && (latest.None? || at.value > latest.value) then at else latest
  }

  lemma LatestAfter(cells: Cells, student: int, exercises: seq<int>, exercise: int, latest: Option<int>)
    requires IsLatest(cells, student, exercises, latest)
    ensures IsLatest(cells, student, exercises + [exercise], Later(latest, SubmittedAt(cells, student, exercise)))
  {
    assert exercise in exercises + [exercise];
  }

  lemma SubmittedAccumulates(cells: Cells, students: seq<int>, student: int, exercise: int, a: Accumulator, b: Accumulator)
    requires Accumulates(cells, students, exercise, a) && Submitted(cells, student, exercise)
    requires var score := Score(CellOf(cells, student, exercise));
      && b.submitted == a.submitted + 1
      && b.above50 == a.above50 + (if score > 50.0 then 1 else 0)
      && b.scoreSum == a.scoreSum + score && b.submittedSum == a.submittedSum + score
      && b.best == (if a.best.None? || score > a.best.value then Some(score) else a.best)
      && b.lowest == (if a.lowest.None? || score < a.lowest.value then Some(score) else a.lowest)
    ensures Accumulates(cells, students + [student], exercise, b)
  {
    assert (students + [student])[..|students|] == students;
    BestAfter(cells, students, student, exercise, a.best);
    LowestAfter(cells, students, student, exercise, a.lowest);
  }

  /** A student's row after some of the exercises. */
  ghost predicate RowSoFar(
      cells: Cells, student: int, exercises: seq<int>, shown: seq<ShownCell>, scoreSum: real, count: nat, latest: Option<int>) {
    && |shown| == |exercises|
    && (forall j :: 0 <= j < |exercises| ==> shown[j] == Shown(cells, student, exercises[j]))
    && scoreSum == RowScore(cells, student, exercises)
    && count == RowCount(cells, student, exercises)
    && IsLatest(cells, student, exercises, latest)
  }

  lemma RowGrows(
      cells: Cells, student: int, exercises: seq<int>, exercise: int,
      shown: seq<ShownCell>, scoreSum: real, count: nat, latest: Option<int>)
    requires RowSoFar(cells, student, exercises, shown, scoreSum, count, latest)
    ensures var cell := CellOf(cells, student, exercise);
      RowSoFar(cells, student, exercises + [exercise], shown + [Shown(cells, student, exercise)],
               scoreSum + Score(cell), count + Count(cell), Later(latest, SubmittedAt(cells, student, exercise)))
  {
    assert (exercises + [exercise])[..|exercises|] == exercises;
    LatestAfter(cells, student, exercises, exercise, latest);
  }

  /** The accumulators when `student` has been added to the first `n` exercises. */
  ghost predicate ColumnsSoFar(
      cells: Cells, students: seq<int>, student: int, exercises: seq<int>, accumulators: seq<Accumulator>, n: nat)
    requires |accumulators| == |exercises|
  {
    && (forall j :: 0 <= j < n && j < |exercises| ==> Accumulates(cells, students + [student], exercises[j], accumulators[j]))
    && (forall j :: n <= j < |exercises| ==> Accumulates(cells, students, exercises[j], accumulators[j]))
  }

  ghost predicate Columns(cells: Cells, students: seq<int>, exercises: seq<int>, accumulators: seq<Accumulator>) {
    && |accumulators| == |exercises|
    && forall j :: 0 <= j < |exercises| ==> Accumulates(cells, students, exercises[j], accumulators[j])
  }

  method AddToColumn(
      cells: Cells, ghost students: seq<int>, student: int, exercises: seq<int>, accumulators: array<Accumulator>, i: nat, score: real)
    requires i < |exercises| == accumulators.Length && Submitted(cells, student, exercises[i])
    requires score == Score(CellOf(cells, student, exercises[i]))
    requires ColumnsSoFar(cells, students, student, exercises, accumulators[..], i)
    modifies accumulators
    ensures ColumnsSoFar(cells, students, student, exercises, accumulators[..], i + 1)
  {
    var moved := Accumulate(accumulators[i], score);
    SubmittedAccumulates(cells, students, student, exercises[i], accumulators[i], moved);
    accumulators[i] := moved;
  }

  lemma PastColumn(
      cells: Cells, students: seq<int>, student: int, exercises: seq<int>, accumulators: seq<Accumulator>, i: nat)
    requires i < |exercises| == |accumulators| && !Submitted(cells, student, exercises[i])
    requires ColumnsSoFar(cells, students, student, exercises, accumulators, i)
    ensures ColumnsSoFar(cells, students, student, exercises, accumulators, i + 1)
  {
    SkippedStudent(cells, students, student, exercises[i], accumulators[i]);
  }

  /** One round of the outer loop: a student's row, and every exercise's accumulator moved on. */
  method AddStudent(cells: Cells, ghost students: seq<int>, student: int, exercises: seq<int>, accumulators: array<Accumulator>)
    returns (row: StudentRow)
    requires Columns(cells, students, exercises, accumulators[..])
    modifies accumulators
    ensures Columns(cells, students + [student], exercises, accumulators[..])
    ensures IsRowOf(cells, student, exercises, row)
    ensures ShowsRow(cells, student, exercises, row)
  {
    var shown: seq<ShownCell> := [];
    var scoreSum, submissionCount: nat, latest: Option<int> := 0.0, 0, None;
    for i := 0 to |exercises|
      invariant RowSoFar(cells, student, exercises[..i], shown, scoreSum, submissionCount, latest)
      invariant ColumnsSoFar(cells, students, student, exercises, accumulators[..], i)
    {
      var exercise := exercises[i];
      assert exercises[..i + 1] == exercises[..i] + [exercise];
      RowGrows(cells, student, exercises[..i], exercise, shown, scoreSum, submissionCount, latest);
      var cell := ShownCell(exercise, None, 0, None);
      if student in cells && exercise in cells[student] {
        var aggregated := cells[student][exercise];
        var score := RoundGrade(aggregated.score);
        cell := ShownCell(exercise, Some(score), aggregated.submissionCount, Some(aggregated.lastSubmissionAt));
        scoreSum := scoreSum + score;
        submissionCount := submissionCount + aggregated.submissionCount;
        if latest.None? || aggregated.lastSubmissionAt > latest.value {
          latest := Some(aggregated.lastSubmissionAt);
        }
        AddToColumn(cells, students, student, exercises, accumulators, i, score);
      } else {
        PastColumn(cells, students, student, exercises, accumulators[..], i);
      }
      shown := shown + [cell];
    }
    assert exercises[..|exercises|] == exercises;
    var average := 0.0;
    if |exercises| > 0 {
      average := RoundGrade(scoreSum / |exercises| as real);
    }
    row := StudentRow(student, shown, average, submissionCount, latest);
    RowIsShown(cells, student, exercises, row);
  }

  ghost function AverageSum(rows: seq<StudentRow>): real {
    if rows == [] then 0.0 else AverageSum(rows[..|rows| - 1]) + rows[|rows| - 1].average
  }

  ghost function SubmissionSum(rows: seq<StudentRow>): nat {
    if rows == [] then 0 else SubmissionSum(rows[..|rows| - 1]) + rows[|rows| - 1].submissionCount
  }

  ghost function RowsWith(rows: seq<StudentRow>, p: StudentRow -> bool): nat {
    if rows == [] then 0 else RowsWith(rows[..|rows| - 1], p) + if p(rows[|rows| - 1]) then 1 else 0
  }

  ghost predicate IsSummaryOf(rows: seq<StudentRow>, averages: real, s: Summary) {
    && s.studentCount == |rows|
    && averages == AverageSum(rows)
    && s.totalSubmissions == SubmissionSum(rows)
    && s.studentsWithSubmission == RowsWith(rows, (r: StudentRow) => r.submissionCount > 0)
    && s.studentsAbove50 == RowsWith(rows, (r: StudentRow) => r.average > 50.0)
  }

  ghost predicate IsStatisticsOf(cells: Cells, students: seq<int>, exercise: int, s: Statistics) {
    && s.exercise == exercise && s.studentCount == |students|
    && s.submittedStudents == SubmittedStudents(cells, students, exercise)
    && s.studentsAbove50 == Above50(cells, students, exercise)
    && IsBest(cells, students, exercise, s.best)
    && IsLowest(cells, students, exercise, s.lowest)
    && s.average == Mean(ColumnScore(cells, students, exercise), |students|)
    && s.approvalRate == Mean(100.0 * Above50(cells, students, exercise) as real, |students|)
    && s.averageSubmitted == (if s.submittedStudents > 0
                              then Some(Mean(ColumnScore(cells, students, exercise), s.submittedStudents)) else None)
  }

  ghost predicate IsTableOf(cells: Cells, students: seq<int>, exercises: seq<int>, t: Table) {
    && |t.students| == |students|
    && (forall i :: 0 <= i < |students| ==> IsRowOf(cells, students[i], exercises, t.students[i]))
    && IsSummaryOf(t.students, AverageSum(t.students), t.summary)
    && t.summary.globalAverage == Mean(AverageSum(t.students), |students|)
    && |t.statistics| == |exercises|
    && (forall j :: 0 <= j < |exercises| ==> IsStatisticsOf(cells, students, exercises[j], t.statistics[j]))
  }

  method ExerciseStatistics(cells: Cells, ghost students: seq<int>, studentCount: nat, exercise: int, a: Accumulator)
    returns (s: Statistics)
    requires studentCount == |students| && Accumulates(cells, students, exercise, a)
    ensures IsStatisticsOf(cells, students, exercise, s)
  {
    s := Statistics(exercise, studentCount, a.submitted, a.above50, a.best, a.lowest, 0.0, 0.0, None);
    if studentCount > 0 {
      s := s.(average := RoundGrade(a.scoreSum / studentCount as real),
              approvalRate := RoundGrade(100.0 * a.above50 as real / studentCount as real));
    }
    if a.submitted > 0 {
      s := s.(averageSubmitted := Some(RoundGrade(a.submittedSum / a.submitted as real)));
    }
  }

  lemma SummaryGrows(rows: seq<StudentRow>, averages: real, s: Summary, row: StudentRow)
    requires IsSummaryOf(rows, averages, s)
    ensures IsSummaryOf(rows + [row], averages + row.average, s.(
      studentCount := s.studentCount + 1,
      totalSubmissions := s.totalSubmissions + row.submissionCount,
      studentsWithSubmission := s.studentsWithSubmission + (if row.submissionCount > 0 then 1 else 0),
      studentsAbove50 := s.studentsAbove50 + (if row.average > 50.0 then 1 else 0)))
  {
    assert (rows + [row])[..|rows|] == rows;
  }

  method ExerciseTable(cells: Cells, students: seq<int>, exercises: seq<int>, accumulators: array<Accumulator>)
    returns (statistics: seq<Statistics>)
    requires Columns(cells, students, exercises, accumulators[..])
    ensures |statistics| == |exercises|
    ensures forall j :: 0 <= j < |exercises| ==> IsStatisticsOf(cells, students, exercises[j], statistics[j])
  {
    statistics := [];
    for i := 0 to |exercises|
      invariant |statistics| == i
      invariant forall j :: 0 <= j < i ==> IsStatisticsOf(cells, students, exercises[j], statistics[j])
    {
      assert Accumulates(cells, students, exercises[i], accumulators[..][i]);
      var s := ExerciseStatistics(cells, students, |students|, exercises[i], accumulators[i]);
      statistics := statistics + [s];
    }
  }

  ghost predicate AreRowsOf(cells: Cells, students: seq<int>, exercises: seq<int>, rows: seq<StudentRow>) {
    |rows| == |students| && forall i :: 0 <= i < |students| ==> IsRowOf(cells, students[i], exercises, rows[i])
  }

  method CountStudent(summary: Summary, row: StudentRow, ghost rows: seq<StudentRow>, ghost averages: real) returns (s: Summary)
    requires IsSummaryOf(rows, averages, summary)
    ensures IsSummaryOf(rows + [row], averages + row.average, s) && s.globalAverage == summary.globalAverage
  {
    SummaryGrows(rows, averages, summary, row);
    s := summary.(studentCount := summary.studentCount + 1,
                  totalSubmissions := summary.totalSubmissions + row.submissionCount);
    if row.submissionCount > 0 {
      s := s.(studentsWithSubmission := s.studentsWithSubmission + 1);
    }
    if row.average > 50.0 {
      s := s.(studentsAbove50 := s.studentsAbove50 + 1);
    }
  }

  /** The outer loop. */
  method AddStudents(cells: Cells, students: seq<int>, exercises: seq<int>, accumulators: array<Accumulator>)
    returns (rows: seq<StudentRow>, averages: real, summary: Summary)
    requires Columns(cells, [], exercises, accumulators[..])
    modifies accumulators
    ensures AreRowsOf(cells, students, exercises, rows) && IsSummaryOf(rows, averages, summary)
    ensures Columns(cells, students, exercises, accumulators[..])
  {
    rows, averages, summary := [], 0.0, Summary(0, 0.0, 0, 0, 0);
    for i := 0 to |students|
      invariant AreRowsOf(cells, students[..i], exercises, rows)
      invariant Columns(cells, students[..i], exercises, accumulators[..])
      invariant IsSummaryOf(rows, averages, summary)
    {
      assert students[..i + 1] == students[..i] + [students[i]];
      var row := AddStudent(cells, students[..i], students[i], exercises, accumulators);
      summary := CountStudent(summary, row, rows, averages);
      averages := averages + row.average;
      rows := rows + [row];
    }
    assert students[..|students|] == students;
  }

  // --- the table over the maps it is built from ------------------------------------------------

  /** The cell shown for an entry of the maps, graded zero or not, and for a missing one. */
  ghost predicate ShowsEntry(cells: Cells, student: int, exercise: int, shown: ShownCell) {
    && shown.exercise == exercise
    && (student in cells && exercise in cells[student] ==>
          var entry := cells[student][exercise];
          && shown.score == Some(RoundGrade(entry.score))
          && shown.submissionCount == entry.submissionCount
          && shown.lastSubmissionAt == Some(entry.lastSubmissionAt))
    && (!(student in cells && exercise in cells[student]) ==>
          shown.score == None && shown.submissionCount == 0 && shown.lastSubmissionAt == None)
  }

  /** The listed students who have an entry for the exercise, by position. */
  ghost function WithEntry(cells: Cells, students: seq<int>, exercise: int): set<nat> {
    set i: nat | i < |students| && students[i] in cells && exercise in cells[students[i]]
  }

  ghost function WithEntryAbove50(cells: Cells, students: seq<int>, exercise: int): set<nat> {
    set i: nat | i < |students| && students[i] in cells && exercise in cells[students[i]]
      && RoundGrade(cells[students[i]][exercise].score) > 50.0
  }

  ghost function EntryScores(cells: Cells, students: seq<int>, exercise: int): real {
    if students == [] then 0.0
    else
      var before, last := EntryScores(cells, students[..|students| - 1], exercise), students[|students| - 1];
      if last in cells && exercise in cells[last] then before + RoundGrade(cells[last][exercise].score) else before
  }

  ghost function RowScores(cells: Cells, student: int, exercises: seq<int>): real {
    if exercises == [] then 0.0
    else
      var before, last := RowScores(cells, student, exercises[..|exercises| - 1]), exercises[|exercises| - 1];
      if student in cells && last in cells[student] then before + RoundGrade(cells[student][last].score) else before
  }

  ghost function RowCounts(cells: Cells, student: int, exercises: seq<int>): nat {
    if exercises == [] then 0
    else
      var before, last := RowCounts(cells, student, exercises[..|exercises| - 1]), exercises[|exercises| - 1];
      if student in cells && last in cells[student] then before + cells[student][last].submissionCount else before
  }

  ghost function AllCounts(cells: Cells, students: seq<int>, exercises: seq<int>): nat {
    if students == [] then 0
    else AllCounts(cells, students[..|students| - 1], exercises) + RowCounts(cells, students[|students| - 1], exercises)
  }

  ghost predicate ShowsRow(cells: Cells, student: int, exercises: seq<int>, row: StudentRow) {
    && row.student == student && |row.scores| == |exercises|
    && (forall j :: 0 <= j < |exercises| ==> ShowsEntry(cells, student, exercises[j], row.scores[j]))
    && row.submissionCount == RowCounts(cells, student, exercises)
    && (exercises == [] ==> row.average == 0.0)
    && (exercises != [] ==> row.average == RoundGrade(RowScores(cells, student, exercises) / |exercises| as real))
    && (forall e :: e in exercises && student in cells && e in cells[student] ==>
          row.lastSubmissionAt.Some? && cells[student][e].lastSubmissionAt <= row.lastSubmissionAt.value)
    && (row.lastSubmissionAt.Some? ==>
          && student in cells
          && exists e :: e in exercises && e in cells[student] && cells[student][e].lastSubmissionAt == row.lastSubmissionAt.value)
  }

  ghost predicate ShowsExtremes(cells: Cells, students: seq<int>, exercise: int, best: Option<real>, lowest: Option<real>) {
    && (forall i :: i in WithEntry(cells, students, exercise) ==>
          && best.Some? && RoundGrade(cells[students[i]][exercise].score) <= best.value
          && lowest.Some? && RoundGrade(cells[students[i]][exercise].score) >= lowest.value)
    && (best.Some? ==> exists i :: i in WithEntry(cells, students, exercise) && RoundGrade(cells[students[i]][exercise].score) == best.value)
    && (lowest.Some? ==> exists i :: i in WithEntry(cells, students, exercise) && RoundGrade(cells[students[i]][exercise].score) == lowest.value)
  }

  ghost predicate ShowsStatistics(cells: Cells, students: seq<int>, exercise: int, s: Statistics) {
    && s.exercise == exercise && s.studentCount == |students|
    && s.submittedStudents == |WithEntry(cells, students, exercise)|
    && s.studentsAbove50 == |WithEntryAbove50(cells, students, exercise)|
    && ShowsExtremes(cells, students, exercise, s.best, s.lowest)
    && (students == [] ==> s.average == 0.0 && s.approvalRate == 0.0)
    && (students != [] ==>
          && s.average == RoundGrade(EntryScores(cells, students, exercise) / |students| as real)
          && s.approvalRate == RoundGrade(100.0 * |WithEntryAbove50(cells, students, exercise)| as real / |students| as real))
    && (s.submittedStudents == 0 ==> s.averageSubmitted == None)
    && (s.submittedStudents > 0 ==>
          s.averageSubmitted == Some(RoundGrade(EntryScores(cells, students, exercise) / s.submittedStudents as real)))
  }

  /** Every row, every statistic and the number of submissions, over the maps alone. */
  ghost predicate ShowsTable(cells: Cells, students: seq<int>, exercises: seq<int>, t: Table) {
    && |t.students| == |students| && |t.statistics| == |exercises|
    && (forall i :: 0 <= i < |students| ==> ShowsRow(cells, students[i], exercises, t.students[i]))
    && (forall j :: 0 <= j < |exercises| ==> ShowsStatistics(cells, students, exercises[j], t.statistics[j]))
    && t.summary.studentCount == |students|
    && t.summary.totalSubmissions == AllCounts(cells, students, exercises)
  }

  lemma {:induction false} RowSums(cells: Cells, student: int, exercises: seq<int>)
    ensures RowScore(cells, student, exercises) == RowScores(cells, student, exercises)
    ensures RowCount(cells, student, exercises) == RowCounts(cells, student, exercises)
  {
    hide RoundGrade;
    if exercises != [] {
      RowSums(cells, student, exercises[..|exercises| - 1]);
    }
  }

  lemma RowIsShown(cells: Cells, student: int, exercises: seq<int>, row: StudentRow)
    requires IsRowOf(cells, student, exercises, row)
    ensures ShowsRow(cells, student, exercises, row)
  {
    hide RoundGrade, RowScore, RowCount, RowScores, RowCounts;
    RowSums(cells, student, exercises);
    forall e | e in exercises && student in cells && e in cells[student]
      ensures row.lastSubmissionAt.Some? && cells[student][e].lastSubmissionAt <= row.lastSubmissionAt.value
    {
      assert SubmittedAt(cells, student, e) == Some(cells[student][e].lastSubmissionAt);
    }
  }

  lemma {:induction false} ColumnSum(cells: Cells, students: seq<int>, exercise: int)
    ensures ColumnScore(cells, students, exercise) == EntryScores(cells, students, exercise)
  {
    hide RoundGrade;
    if students != [] {
      ColumnSum(cells, students[..|students| - 1], exercise);
    }
  }

  lemma {:induction false} ColumnSubmitted(cells: Cells, students: seq<int>, exercise: int)
    ensures SubmittedStudents(cells, students, exercise) == |WithEntry(cells, students, exercise)|
  {
    if students != [] {
      var before, n: nat := students[..|students| - 1], |students| - 1;
      ColumnSubmitted(cells, before, exercise);
      var has := students[n] in cells && exercise in cells[students[n]];
      var fewer := WithEntry(cells, before, exercise);
      assert n !in fewer;
      assert WithEntry(cells, students, exercise) == if has then fewer + {n} else fewer;
    }
  }

  lemma {:induction false} ColumnAbove50(cells: Cells, students: seq<int>, exercise: int)
    ensures Above50(cells, students, exercise) == |WithEntryAbove50(cells, students, exercise)|
  {
    hide RoundGrade;
    if students != [] {
      var before, n: nat := students[..|students| - 1], |students| - 1;
      ColumnAbove50(cells, before, exercise);
      var has := students[n] in cells && exercise in cells[students[n]];
      var above := has && RoundGrade(cells[students[n]][exercise].score) > 50.0;
      var fewer := WithEntryAbove50(cells, before, exercise);
      assert n !in fewer;
      assert WithEntryAbove50(cells, students, exercise) == if above then fewer + {n} else fewer;
    }
  }

  lemma ExtremesAreShown(cells: Cells, students: seq<int>, exercise: int, best: Option<real>, lowest: Option<real>)
    requires IsBest(cells, students, exercise, best) && IsLowest(cells, students, exercise, lowest)
    ensures ShowsExtremes(cells, students, exercise, best, lowest)
  {
    hide RoundGrade;
    forall i | i in WithEntry(cells, students, exercise)
      ensures best.Some? && RoundGrade(cells[students[i]][exercise].score) <= best.value
      ensures lowest.Some? && RoundGrade(cells[students[i]][exercise].score) >= lowest.value
    {
      assert students[i] in students && Submitted(cells, students[i], exercise);
    }
    if best.Some? {
      var s :| s in students && Submitted(cells, s, exercise) && Score(CellOf(cells, s, exercise)) == best.value;
      var i: nat :| i < |students| && students[i] == s;
      assert i in WithEntry(cells, students, exercise);
    }
    if lowest.Some? {
      var s :| s in students && Submitted(cells, s, exercise) && Score(CellOf(cells, s, exercise)) == lowest.value;
      var i: nat :| i < |students| && students[i] == s;
      assert i in WithEntry(cells, students, exercise);
    }
  }

  lemma StatisticsAreShown(cells: Cells, students: seq<int>, exercise: int, s: Statistics)
    requires IsStatisticsOf(cells, students, exercise, s)
    ensures ShowsStatistics(cells, students, exercise, s)
  {
    hide RoundGrade, ColumnScore, SubmittedStudents, Above50, IsBest, IsLowest, ShowsExtremes, EntryScores, WithEntry, WithEntryAbove50;
    ColumnSum(cells, students, exercise);
    ColumnSubmitted(cells, students, exercise);
    ColumnAbove50(cells, students, exercise);
    ExtremesAreShown(cells, students, exercise, s.best, s.lowest);
  }

  lemma {:induction false} CountsAreTotal(cells: Cells, students: seq<int>, exercises: seq<int>)
    ensures RowCountTotal(cells, students, exercises) == AllCounts(cells, students, exercises)
  {
    if students != [] {
      CountsAreTotal(cells, students[..|students| - 1], exercises);
      RowSums(cells, students[|students| - 1], exercises);
    }
  }

  lemma TableIsShown(cells: Cells, students: seq<int>, exercises: seq<int>, t: Table)
    requires IsTableOf(cells, students, exercises, t)
    ensures ShowsTable(cells, students, exercises, t)
  {
    hide IsRowOf, IsStatisticsOf, ShowsRow, ShowsStatistics;
    forall i | 0 <= i < |students| ensures ShowsRow(cells, students[i], exercises, t.students[i]) {
      RowIsShown(cells, students[i], exercises, t.students[i]);
    }
    forall j | 0 <= j < |exercises| ensures ShowsStatistics(cells, students, exercises[j], t.statistics[j]) {
      StatisticsAreShown(cells, students, exercises[j], t.statistics[j]);
    }
    SubmissionSumIsRowTotal(cells, students, exercises, t.students);
    CountsAreTotal(cells, students, exercises);
  }

  /** buildOfferingGradebook, once its three queries have succeeded. */
  method BuildOfferingGradebook(cells: Cells, students: seq<int>, exercises: seq<int>) returns (t: Table)
    ensures IsTableOf(cells, students, exercises, t)
    ensures ShowsTable(cells, students, exercises, t)
  {
    var accumulators := new Accumulator[|exercises|](_ => Accumulator(0, 0, 0.0, 0.0, None, None));
    var rows, averages, summary := AddStudents(cells, students, exercises, accumulators);
    var global := averages;
    if |students| > 0 {
      global := RoundGrade(averages / |students| as real);
    }
    var statistics := ExerciseTable(cells, students, exercises, accumulators);
    t := Table(rows, summary.(globalAverage := global), statistics);
    TableIsShown(cells, students, exercises, t);
  }

  // --- what the table says --------------------------------------------------------------------

  lemma {:induction false} SubmissionSumIsRowTotal(cells: Cells, students: seq<int>, exercises: seq<int>, rows: seq<StudentRow>)
    requires |rows| == |students|
    requires forall i :: 0 <= i < |students| ==> IsRowOf(cells, students[i], exercises, rows[i])
    ensures SubmissionSum(rows) == RowCountTotal(cells, students, exercises)
  {
    if students != [] {
      SubmissionSumIsRowTotal(cells, students[..|students| - 1], exercises, rows[..|rows| - 1]);
    }
  }

  /** TotalSubmissions, counted by students, is the number of submissions counted by exercises. */
  lemma TotalSubmissionsCountsEveryCell(cells: Cells, students: seq<int>, exercises: seq<int>, t: Table)
    requires IsTableOf(cells, students, exercises, t)
    ensures t.summary.totalSubmissions == ColumnCountTotal(cells, students, exercises)
  {
    SubmissionSumIsRowTotal(cells, students, exercises, t.students);
    RowsAgreeWithColumns(cells, students, exercises);
  }

  lemma {:induction false} SomeoneSubmitted(cells: Cells, students: seq<int>, exercise: int)
    requires SubmittedStudents(cells, students, exercise) > 0
    ensures exists s :: s in students && Submitted(cells, s, exercise)
  {
    var last := students[|students| - 1];
    if !Submitted(cells, last, exercise) {
      SomeoneSubmitted(cells, students[..|students| - 1], exercise);
    } else {
      assert last in students;
    }
  }

  lemma HundredthStays(score: real)
    ensures RoundGrade(RoundGrade(score)) == RoundGrade(score)
  {
    RoundGradeNearest(score);
    RoundGradeFixpoints(RoundGrade(score));
  }

  lemma Cancel(x: real, n: real)
    requires n > 0.0 && x * n >= 0.0
    ensures x >= 0.0
  {
  }

  lemma MeanBetween(sum: real, n: nat, low: real, high: real)
    requires n > 0 && Times(low, n) <= sum <= Times(high, n)
    ensures low <= sum / n as real <= high
  {
    var q, d := sum / n as real, n as real;
    QuotientTimes(sum, d);
    assert (q - low) * d == q * d - low * d && (high - q) * d == high * d - q * d;
    Cancel(q - low, d);
    Cancel(high - q, d);
  }

  /** After rounding, the mean over those who submitted still lies between the extremes. */
  lemma AverageBetweenExtremes(cells: Cells, students: seq<int>, exercise: int, s: Statistics)
    requires IsStatisticsOf(cells, students, exercise, s)
    ensures s.averageSubmitted.Some? <==> s.best.Some?
    ensures s.best.Some? == s.lowest.Some?
    ensures s.averageSubmitted.Some? ==> s.lowest.value <= s.averageSubmitted.value <= s.best.value
  {
    if s.submittedStudents > 0 {
      SomeoneSubmitted(cells, students, exercise);
      var low, high := s.lowest.value, s.best.value;
      SumBetweenExtremes(cells, students, exercise, low, high);
      var q := ColumnScore(cells, students, exercise) / s.submittedStudents as real;
      MeanBetween(ColumnScore(cells, students, exercise), s.submittedStudents, low, high);
      RoundGradeMonotone(low, q);
      RoundGradeMonotone(q, high);
      var l :| l in students && Submitted(cells, l, exercise) && Score(CellOf(cells, l, exercise)) == low;
      var h :| h in students && Submitted(cells, h, exercise) && Score(CellOf(cells, h, exercise)) == high;
      HundredthStays(CellOf(cells, l, exercise).value.score);
      HundredthStays(CellOf(cells, h, exercise).value.score);
    } else {
      NobodySubmitted(cells, students, exercise);
    }
  }

  lemma {:induction false} NobodySubmitted(cells: Cells, students: seq<int>, exercise: int)
    requires SubmittedStudents(cells, students, exercise) == 0
    ensures forall s :: s in students ==> !Submitted(cells, s, exercise)
  {
    if students != [] {
      NobodySubmitted(cells, students[..|students| - 1], exercise);
      assert students == students[..|students| - 1] + [students[|students| - 1]];
    }
  }

  ghost function StatisticsSum(statistics: seq<Statistics>): real {
    if statistics == [] then 0.0 else StatisticsSum(statistics[..|statistics| - 1]) + statistics[|statistics| - 1].average
  }

  lemma DivideSum(a: real, b: real, n: real)
    requires n > 0.0
    ensures (a + b) / n == a / n + b / n
  {
  }

  /** The row averages add up to the total over the number of exercises, half a hundredth off for each. */
  lemma {:induction false} RowAveragesNearTotal(cells: Cells, students: seq<int>, exercises: seq<int>, rows: seq<StudentRow>)
    requires |rows| == |students| && exercises != []
    requires forall i :: 0 <= i < |students| ==> rows[i].average == Mean(RowScore(cells, students[i], exercises), |exercises|)
    ensures var d := AverageSum(rows) - RowTotal(cells, students, exercises) / |exercises| as real;
      -0.005 * |students| as real <= d <= 0.005 * |students| as real
  {
    if students != [] {
      var n, before, last := |exercises| as real, students[..|students| - 1], students[|students| - 1];
      RowAveragesNearTotal(cells, before, exercises, rows[..|rows| - 1]);
      RoundGradeNearest(RowScore(cells, last, exercises) / n);
      DivideSum(RowTotal(cells, before, exercises), RowScore(cells, last, exercises), n);
    }
  }

  lemma {:induction false} ColumnAveragesNearTotal(
      cells: Cells, students: seq<int>, exercises: seq<int>, statistics: seq<Statistics>)
    requires |statistics| == |exercises| && students != []
    requires forall j :: 0 <= j < |exercises| ==> statistics[j].average == Mean(ColumnScore(cells, students, exercises[j]), |students|)
    ensures var d := StatisticsSum(statistics) - ColumnTotal(cells, students, exercises) / |students| as real;
      -0.005 * |exercises| as real <= d <= 0.005 * |exercises| as real
  {
    if exercises != [] {
      var n, before, last := |students| as real, exercises[..|exercises| - 1], exercises[|exercises| - 1];
      ColumnAveragesNearTotal(cells, students, before, statistics[..|statistics| - 1]);
      RoundGradeNearest(ColumnScore(cells, students, last) / n);
      DivideSum(ColumnTotal(cells, students, before), ColumnScore(cells, students, last), n);
    }
  }

  lemma DivideNear(a: real, b: real, n: real)
    requires n > 0.0 && -0.005 * n <= a - b <= 0.005 * n
    ensures -0.005 <= a / n - b / n <= 0.005
  {
    QuotientTimes(a, n);
    QuotientTimes(b, n);
    var d := a / n - b / n;
    assert d * n == a - b;
    assert (d + 0.005) * n == d * n + 0.005 * n && (0.005 - d) * n == 0.005 * n - d * n;
    Cancel(d + 0.005, n);
    Cancel(0.005 - d, n);
  }

  lemma DivideTwice(t: real, m: real, n: real)
    requires m > 0.0 && n > 0.0
    ensures t / m / n == t / n / m
  {
    var q := t / m / n;
    QuotientTimes(t / m, n);
    QuotientTimes(t, m);
    assert q * m * n == t;
    assert t / n == q * m;
  }

  /**
    For a table with students and exercises, GlobalAverage is within 0.015 of the mean of the
    per-exercise averages: three roundings of half a hundredth each.
  */
  lemma GlobalAverageNearExercises(cells: Cells, students: seq<int>, exercises: seq<int>, t: Table)
    requires IsTableOf(cells, students, exercises, t) && students != [] && exercises != []
    ensures -0.015 <= t.summary.globalAverage - StatisticsSum(t.statistics) / |exercises| as real <= 0.015
  {
    var total, m, n := RowTotal(cells, students, exercises), |students| as real, |exercises| as real;
    RowsAgreeWithColumns(cells, students, exercises);
    RowAveragesNearTotal(cells, students, exercises, t.students);
    DivideNear(AverageSum(t.students), total / n, m);
    ColumnAveragesNearTotal(cells, students, exercises, t.statistics);
    DivideNear(StatisticsSum(t.statistics), total / m, n);
    DivideTwice(total, m, n);
    RoundGradeNearest(AverageSum(t.students) / m);
  }
}
