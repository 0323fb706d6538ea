/**
  Deadline reminders (backend/services/deadline-notifier.go).

  Several backend replicas run reminder passes against one notification table.  A replica
  claims a reminder by inserting its row, sends the email, and deletes the row again when
  the send fails.
*/
module DeadlineReminders {
  import opened Wrappers

  // --- the two windows -------------------------------------------------------------

  const DAY: int := 24 * 60 * 60
  const FINAL_DAYS: int := 3
  const WEEK_DAYS: int := 7

  /** deadlineReminderBucket: days before the deadline of the reminder that is due. */
  function Bucket(deadline: int, now: int): Option<int> {
    if deadline <= now then None
    else if deadline <= now + FINAL_DAYS * DAY then Some(FINAL_DAYS)
    else if deadline <= now + WEEK_DAYS * DAY then Some(WEEK_DAYS)
    else None
  }

  /** The final reminder is due in the last 259200 seconds before the deadline, the week's in the 345600 before those. */
  ghost predicate DueIn(left: int, daysBefore: int) {
    (daysBefore == 3 && 0 < left <= 259200) || (daysBefore == 7 && 259200 < left <= 604800)
  }

  lemma ReminderDueIff(deadline: int, now: int, daysBefore: int)
    ensures Bucket(deadline, now) == Some(daysBefore) <==> DueIn(deadline - now, daysBefore)
    ensures Bucket(deadline, now) == None <==> deadline - now <= 0 || deadline - now > 604800
  {
  }

  /** As time passes a deadline goes from no reminder to the week, the final and no reminder again. */
  lemma BucketsComeInOrder(deadline: int, earlier: int, later: int)
    requires earlier <= later
    ensures Bucket(deadline, later) == Some(WEEK_DAYS) && Bucket(deadline, earlier).Some?
      ==> Bucket(deadline, earlier) == Some(WEEK_DAYS)
    ensures Bucket(deadline, earlier) == Some(FINAL_DAYS) ==> Bucket(deadline, later) != Some(WEEK_DAYS)
    ensures Bucket(deadline, earlier).Some? && earlier <= later < deadline ==> Bucket(deadline, later).Some?
  {
  }

  // --- the replicas as one program ---------------------------------------------------

  /** The primary key of a notification row. */
  datatype Key = Key(exercise: int, student: int, daysBefore: int)

  type Replica = nat

  /** Where a replica is with one reminder. */
  datatype Pc = Idle | Loaded(key: Key) | Claimed(key: Key) | SendFailed(key: Key)

  /** What the database did with a statement, and what it told the replica. */
  datatype Outcome = Done | Refused | DoneButReportedFailed

  datatype Action =
    | Load(r: Replica, key: Key)
    | Claim(r: Replica, db: Outcome)
    | Send(r: Replica, delivered: bool)
    | Release(r: Replica, db: Outcome)
    | Crash(r: Replica)

  /** The rows with the replica that inserted each, the positions, and the emails sent. */
  datatype State = State(rows: map<Key, Replica>, pcs: map<Replica, Pc>, sent: seq<Key>)

  function PcOf(s: State, r: Replica): Pc {
    if r in s.pcs then s.pcs[r] else Idle
  }

  predicate Enabled(s: State, a: Action) {
    match a
    case Load(r, _) => PcOf(s, r).Idle?
    case Claim(r, _) => PcOf(s, r).Loaded?
    case Send(r, _) => PcOf(s, r).Claimed?
    case Release(r, _) => PcOf(s, r).SendFailed?
    case Crash(_) => true
  }

  function Goto(s: State, r: Replica, pc: Pc): State {
    s.(pcs := s.pcs[r := pc])
  }

  function Next(s: State, a: Action): State
    requires Enabled(s, a)
  {
    match a
    case Load(r, key) => Goto(s, r, Loaded(key))
    case Claim(r, db) =>
      var key := PcOf(s, r).key;
      // INSERT ... ON CONFLICT DO NOTHING
      var inserted := !db.Refused? && key !in s.rows;
      var s' := if inserted then s.(rows := s.rows[key := r]) else s;
      Goto(s', r, if db.Done? && inserted then Claimed(key) else Idle)
    case Send(r, delivered) =>
      var key := PcOf(s, r).key;
      if delivered then Goto(s.(sent := s.sent + [key]), r, Idle) else Goto(s, r, SendFailed(key))
    case Release(r, db) =>
      var key := PcOf(s, r).key;
      Goto(if db.Refused? then s else s.(rows := s.rows - {key}), r, Idle)
    case Crash(r) => Goto(s, r, Idle)
  }

  /** The replica holds the claim of a reminder it has not sent. */
  predicate Holds(pc: Pc, key: Key) {
    (pc.Claimed? || pc.SendFailed?) && pc.key == key
  }

  /** A held claim is the holder's own row and nothing was sent under it; a sent reminder keeps its row for good. */
  ghost predicate Invariant(s: State) {
    && (forall r, key :: r in s.pcs && Holds(s.pcs[r], key) ==> key in s.rows && s.rows[key] == r && key !in s.sent)
    && (forall key :: key in s.sent ==> key in s.rows)
    && (forall i, j :: 0 <= i < j < |s.sent| ==> s.sent[i] != s.sent[j])
  }

  lemma HeldClaim(s: State, r: Replica, key: Key)
    requires Invariant(s) && r in s.pcs && Holds(s.pcs[r], key)
    ensures key in s.rows && s.rows[key] == r && key !in s.sent
  {
  }

  lemma ClaimKeepsInvariant(s: State, a: Action)
    requires Invariant(s) && Enabled(s, a) && a.Claim?
    ensures Invariant(Next(s, a))
  {
    var after := Next(s, a);
    forall r, key | r in after.pcs && Holds(after.pcs[r], key)
      ensures key in after.rows && after.rows[key] == r && key !in after.sent
    {
      if r != a.r {
        HeldClaim(s, r, key);
      }
    }
  }

  lemma SendKeepsInvariant(s: State, a: Action)
    requires Invariant(s) && Enabled(s, a) && a.Send?
    ensures Invariant(Next(s, a))
  {
    var after, claimed := Next(s, a), s.pcs[a.r].key;
    HeldClaim(s, a.r, claimed);
    forall r, key | r in after.pcs && Holds(after.pcs[r], key)
      ensures key in after.rows && after.rows[key] == r && key !in after.sent
    {
      if r != a.r {
        HeldClaim(s, r, key);
      }
    }
    assert forall i :: 0 <= i < |s.sent| ==> s.sent[i] in s.sent;
    assert after.sent == s.sent || after.sent == s.sent + [claimed];
  }

  lemma ReleaseKeepsInvariant(s: State, a: Action)
    requires Invariant(s) && Enabled(s, a) && a.Release?
    ensures Invariant(Next(s, a))
  {
    var after, claimed := Next(s, a), s.pcs[a.r].key;
    HeldClaim(s, a.r, claimed);
    forall r, key | r in after.pcs && Holds(after.pcs[r], key)
      ensures key in after.rows && after.rows[key] == r && key !in after.sent
    {
      if r != a.r {
        HeldClaim(s, r, key);
      }
    }
  }

  lemma StepKeepsInvariant(s: State, a: Action)
    requires Invariant(s) && Enabled(s, a)
    ensures Invariant(Next(s, a))
  {
    match a
    case Claim(_, _) => ClaimKeepsInvariant(s, a);
    case Send(_, _) => SendKeepsInvariant(s, a);
    case Release(_, _) => ReleaseKeepsInvariant(s, a);
    case _ =>
  }

  ghost predicate IsRun(states: seq<State>, actions: seq<Action>) {
    && |states| == |actions| + 1
    && states[0] == State(map[], map[], [])
    && forall i :: 0 <= i < |actions| ==> Enabled(states[i], actions[i]) && states[i + 1] == Next(states[i], actions[i])
  }

  lemma {:induction false} RunKeepsInvariant(states: seq<State>, actions: seq<Action>, i: nat)
    requires IsRun(states, actions) && i < |states|
    ensures Invariant(states[i])
  {
    if i > 0 {
      RunKeepsInvariant(states, actions, i - 1);
      StepKeepsInvariant(states[i - 1], actions[i - 1]);
    }
  }

  /** A delivery: the action that sent a reminder. */
  ghost predicate Delivers(states: seq<State>, actions: seq<Action>, i: nat, key: Key)
    requires IsRun(states, actions) && i < |actions|
  {
    actions[i].Send? && actions[i].delivered && PcOf(states[i], actions[i].r) == Claimed(key)
  }

  lemma {:induction false} DeliveredStaysSent(states: seq<State>, actions: seq<Action>, i: nat, n: nat, key: Key)
    requires IsRun(states, actions) && i < n <= |actions| && Delivers(states, actions, i, key)
    ensures key in states[n].sent
    decreases n
  {
    if i < n - 1 {
      DeliveredStaysSent(states, actions, i, n - 1, key);
    }
  }

  /**
    At most once.  Whatever the replicas, their crashes and the failures of the database and
    the mail relay, no two actions of a run deliver the same reminder.
  */
  lemma SentAtMostOnce(states: seq<State>, actions: seq<Action>, i: nat, j: nat, key: Key)
    requires IsRun(states, actions) && i < |actions| && j < |actions|
    requires Delivers(states, actions, i, key) && Delivers(states, actions, j, key)
    ensures i == j
  {
    if i < j {
      DeliveredStaysSent(states, actions, i, j, key);
      RunKeepsInvariant(states, actions, j);
      assert Holds(states[j].pcs[actions[j].r], key);
    } else if j < i {
      DeliveredStaysSent(states, actions, j, i, key);
      RunKeepsInvariant(states, actions, i);
      assert Holds(states[i].pcs[actions[i].r], key);
    }
  }

  /** A release only ever removes a row the releasing replica inserted, for a reminder nobody sent. */
  lemma ReleaseRemovesOwnClaim(states: seq<State>, actions: seq<Action>, i: nat, key: Key)
    requires IsRun(states, actions) && i < |actions|
    requires key in states[i].rows && key !in states[i + 1].rows
    ensures actions[i].Release? && states[i].rows[key] == actions[i].r
    ensures key !in states[i].sent
  {
    RunKeepsInvariant(states, actions, i);
    var pc := PcOf(states[i], actions[i].r);
    assert Holds(pc, key);
  }

  // --- one pass ------------------------------------------------------------------------

  datatype Exercise = Exercise(id: int, deadline: int)

  /** Another replica's step leaves this one's position and rows alone, and what was sent stays sent. */
  lemma OthersLeaveMyRows(s: State, a: Action, me: Replica, key: Key)
    requires Invariant(s) && Enabled(s, a) && a.r != me
    ensures PcOf(Next(s, a), me) == PcOf(s, me)
    ensures key in s.rows && s.rows[key] == me ==> key in Next(s, a).rows && Next(s, a).rows[key] == me
    ensures key in s.sent ==> key in Next(s, a).sent
  {
    if a.Release? {
      HeldClaim(s, a.r, s.pcs[a.r].key);
    }
  }

  /** The notification table as replica `me` uses it; its statements are the steps of the protocol. */
  class NotificationTable {
    const me: Replica
    var world: State

    ghost predicate Valid()
      reads this
    {
      Invariant(world)
    }

    /** `key` was sent under this replica's own row. */
    ghost predicate SentByMe(key: Key)
      reads this
    {
      key in world.sent && key in world.rows && world.rows[key] == me
    }

    constructor (me: Replica, world: State)
      requires Invariant(world)
      ensures this.me == me && this.world == world && Valid()
    {
      this.me, this.world := me, world;
    }

    /** Any steps of other replicas. */
    method Interfere()
      requires Valid()
      modifies this`world
      ensures Valid() && PcOf(world, me) == PcOf(old(world), me)
      ensures forall k :: old(SentByMe(k)) ==> SentByMe(k)
      ensures forall k :: k in old(world).sent ==> k in world.sent
    {
      var steps: nat := *;
      while steps > 0
        invariant Valid() && PcOf(world, me) == PcOf(old(world), me)
        invariant forall k :: old(SentByMe(k)) ==> SentByMe(k)
        invariant forall k :: k in old(world).sent ==> k in world.sent
      {
        steps := steps - 1;
        var a: Action := *;
        if a.r != me && Enabled(world, a) {
          Step(a);
        }
      }
    }

    /** One step of the protocol. */
    method Step(a: Action)
      requires Valid() && Enabled(world, a)
      modifies this`world
      ensures Valid() && world == Next(old(world), a)
      ensures a.r != me ==> PcOf(world, me) == PcOf(old(world), me)
      ensures forall k :: old(SentByMe(k)) ==> SentByMe(k)
      ensures forall k :: k in old(world).sent ==> k in world.sent
    {
      StepKeepsInvariant(world, a);
      forall k | k in world.sent ensures k in Next(world, a).sent && (SentByMe(k) ==> k in Next(world, a).rows && Next(world, a).rows[k] == me) {
        SentStays(world, a, k);
      }
      world := Next(world, a);
    }

    /** INSERT ... ON CONFLICT DO NOTHING: claimed only when the row is new. */
    method ClaimDeadlineReminder(key: Key, db: Outcome) returns (claimed: bool, failed: bool)
      requires Valid() && PcOf(world, me) == Loaded(key)
      modifies this`world
      ensures Valid() && world == Next(old(world), Claim(me, db))
      ensures claimed <==> db.Done? && key !in old(world).rows
      ensures failed <==> !db.Done?
      ensures PcOf(world, me) == if claimed then Claimed(key) else Idle
      ensures claimed ==> key !in world.sent
      ensures forall k :: old(SentByMe(k)) ==> SentByMe(k)
      ensures forall k :: k in old(world).sent ==> k in world.sent
    {
      claimed := db.Done? && key !in world.rows;
      failed := !db.Done?;
      Step(Claim(me, db));
    }

    /** The email goes out under the claim, or fails. */
    method SendReminder(key: Key, delivered: bool)
      requires Valid() && PcOf(world, me) == Claimed(key)
      modifies this`world
      ensures Valid() && world == Next(old(world), Send(me, delivered))
      ensures PcOf(world, me) == if delivered then Idle else SendFailed(key)
      ensures delivered ==> SentByMe(key) && key !in old(world).sent
      ensures forall k :: old(SentByMe(k)) ==> SentByMe(k)
      ensures forall k :: k in old(world).sent ==> k in world.sent
    {
      HeldClaim(world, me, key);
      Step(Send(me, delivered));
    }

    method ReleaseDeadlineReminder(key: Key, db: Outcome)
      requires Valid() && PcOf(world, me) == SendFailed(key)
      modifies this`world
      ensures Valid() && world == Next(old(world), Release(me, db))
      ensures PcOf(world, me) == Idle
      ensures key !in old(world).sent
      ensures world.rows == if db.Refused? then old(world).rows else old(world).rows - {key}
      ensures forall k :: old(SentByMe(k)) ==> SentByMe(k)
      ensures forall k :: k in old(world).sent ==> k in world.sent
    {
      HeldClaim(world, me, key);
      Step(Release(me, db));
    }
  }

  /** A sent reminder keeps its row, with its owner, through any step. */
  lemma SentStays(s: State, a: Action, key: Key)
    requires Invariant(s) && Enabled(s, a) && key in s.sent
    ensures key in Next(s, a).sent && key in Next(s, a).rows && Next(s, a).rows[key] == s.rows[key]
  {
    if a.Release? {
      HeldClaim(s, a.r, s.pcs[a.r].key);
    }
  }

  ghost predicate Distinct<T>(s: seq<T>) {
    forall i, j :: 0 <= i < j < |s| ==> s[i] != s[j]
  }

  ghost predicate DistinctExercises(exercises: seq<Exercise>) {
    forall i, j :: 0 <= i < j < |exercises| ==> exercises[i].id != exercises[j].id
  }

  /** The reminders a pass sent so far: due ones, no student twice for an exercise. */
  ghost predicate ProperPass(sent: seq<Key>, exercises: seq<Exercise>, now: int) {
    && (forall k :: k in sent ==> exists e :: e in exercises && e.id == k.exercise && Bucket(e.deadline, now) == Some(k.daysBefore))
    && (forall i, j :: 0 <= i < j < |sent| ==> sent[i].exercise != sent[j].exercise || sent[i].student != sent[j].student)
  }

  /**
    runDeadlineReminders, other replicas at work between its statements.  `students` lists who
    has no submission, each once.  A pass sends only reminders whose window is open now, none
    that any replica sent before, and never two to a student about one exercise, so never both
    windows of it.  Every reminder it sent keeps its row under this replica's own claim.
  */
  method RunDeadlineReminders(
      table: NotificationTable, now: int, exercises: seq<Exercise>, students: map<int, seq<int>>)
    returns (sent: seq<Key>, failed: nat)
    requires table.Valid() && PcOf(table.world, table.me).Idle?
    requires DistinctExercises(exercises)
    requires forall e :: e in exercises && e.id in students ==> Distinct(students[e.id])
    modifies table`world
    ensures table.Valid() && PcOf(table.world, table.me).Idle?
    ensures ProperPass(sent, exercises, now)
    ensures forall k :: k in sent ==> exists e :: e in exercises && e.id == k.exercise && DueIn(e.deadline - now, k.daysBefore)
    ensures forall k :: k in sent ==> table.SentByMe(k) && k !in old(table.world).sent
  {
    sent, failed := [], 0;
    for i := 0 to |exercises|
      invariant table.Valid() && PcOf(table.world, table.me).Idle?
      invariant ProperPass(sent, exercises, now)
      invariant forall k :: k in sent ==> exists j :: 0 <= j < i && exercises[j].id == k.exercise
      invariant forall k :: k in sent ==> table.SentByMe(k) && k !in old(table.world).sent
      invariant forall k :: k in old(table.world).sent ==> k in table.world.sent
    {
      var exercise := exercises[i];
      var bucket := Bucket(exercise.deadline, now);
      var loadFails: bool := *;
      if bucket.Some? && exercise.id in students && !loadFails {
        var more, moreFailed := RemindStudents(table, exercise.id, bucket.value, students[exercise.id]);
        PassGrows(sent, more, exercises, i, now);
        sent, failed := sent + more, failed + moreFailed;
      } else if loadFails {
        failed := failed + 1;
      }
    }
    forall k | k in sent ensures exists e :: e in exercises && e.id == k.exercise && DueIn(e.deadline - now, k.daysBefore) {
      var e :| e in exercises && e.id == k.exercise && Bucket(e.deadline, now) == Some(k.daysBefore);
      ReminderDueIff(e.deadline, now, k.daysBefore);
    }
  }

  lemma PassGrows(sent: seq<Key>, more: seq<Key>, exercises: seq<Exercise>, i: nat, now: int)
    requires i < |exercises| && DistinctExercises(exercises) && ProperPass(sent, exercises, now)
    requires forall k :: k in sent ==> exists j :: 0 <= j < i && exercises[j].id == k.exercise
    requires Bucket(exercises[i].deadline, now).Some?
    requires forall k :: k in more ==> k.exercise == exercises[i].id && Some(k.daysBefore) == Bucket(exercises[i].deadline, now)
    requires forall a, b :: 0 <= a < b < |more| ==> more[a].student != more[b].student
    ensures ProperPass(sent + more, exercises, now)
    ensures forall k :: k in sent + more ==> exists j :: 0 <= j < i + 1 && exercises[j].id == k.exercise
  {
    var all := sent + more;
    forall k | k in more
      ensures exists e :: e in exercises && e.id == k.exercise && Bucket(e.deadline, now) == Some(k.daysBefore)
      ensures exists j :: 0 <= j < i + 1 && exercises[j].id == k.exercise
    {
      assert exercises[i] in exercises;
    }
    forall a, b | 0 <= a < b < |all|
      ensures all[a].exercise != all[b].exercise || all[a].student != all[b].student
    {
      if a < |sent| && b >= |sent| {
        assert all[a] in sent && all[b] in more;
      } else if a >= |sent| {
        assert all[a] == more[a - |sent|] && all[b] == more[b - |sent|];
      }
    }
  }

  /** One student's reminder: claimed, sent, and given back when the send fails. */
  method RemindStudent(table: NotificationTable, key: Key) returns (sent: bool, failed: bool)
    requires table.Valid() && PcOf(table.world, table.me).Idle?
    modifies table`world
    ensures table.Valid() && PcOf(table.world, table.me).Idle?
    ensures !(sent && failed)
    ensures sent ==> table.SentByMe(key) && key !in old(table.world).sent
    ensures forall k :: old(table.SentByMe(k)) ==> table.SentByMe(k)
    ensures forall k :: k in old(table.world).sent ==> k in table.world.sent
  {
    hide Next, Invariant, Enabled;
    sent, failed := false, false;
    LoadIsEnabled(table.world, table.me, key);
    table.Step(Load(table.me, key));
    table.Interfere();
    var claimOutcome: Outcome, releaseOutcome: Outcome, delivered: bool := *, *, *;
    var claimed, claimFailed := table.ClaimDeadlineReminder(key, claimOutcome);
    if claimFailed || !claimed {
      return false, claimFailed;
    }
    table.Interfere();
    table.SendReminder(key, delivered);
    if delivered {
      return true, false;
    }
    table.Interfere();
    table.ReleaseDeadlineReminder(key, releaseOutcome);
    failed := true;
  }

  lemma LoadIsEnabled(s: State, me: Replica, key: Key)
    requires PcOf(s, me).Idle?
    ensures Enabled(s, Load(me, key)) && PcOf(Next(s, Load(me, key)), me) == Loaded(key)
  {
  }

  /** The inner loop of a pass, for one exercise. */
  method RemindStudents(table: NotificationTable, exercise: int, daysBefore: int, students: seq<int>)
    returns (sent: seq<Key>, failed: nat)
    requires table.Valid() && PcOf(table.world, table.me).Idle? && Distinct(students)
    modifies table`world
    ensures table.Valid() && PcOf(table.world, table.me).Idle?
    ensures forall k :: k in sent ==> k.exercise == exercise && k.daysBefore == daysBefore && k.student in students
    ensures forall a, b :: 0 <= a < b < |sent| ==> sent[a].student != sent[b].student
    ensures forall k :: k in sent ==> table.SentByMe(k) && k !in old(table.world).sent
    ensures forall k :: old(table.SentByMe(k)) ==> table.SentByMe(k)
    ensures forall k :: k in old(table.world).sent ==> k in table.world.sent
  {
    sent, failed := [], 0;
    for i := 0 to |students|
      invariant table.Valid() && PcOf(table.world, table.me).Idle?
      invariant forall k :: k in sent ==> k.exercise == exercise && k.daysBefore == daysBefore && k.student in students[..i]
      invariant forall a, b :: 0 <= a < b < |sent| ==> sent[a].student != sent[b].student
      invariant forall k :: k in sent ==> table.SentByMe(k) && k !in old(table.world).sent
      invariant forall k :: old(table.SentByMe(k)) ==> table.SentByMe(k)
      invariant forall k :: k in old(table.world).sent ==> k in table.world.sent
    {
      table.Interfere();
      assert students[i] !in students[..i];
      var key := Key(exercise, students[i], daysBefore);
      var reminded, problem := RemindStudent(table, key);
      if reminded {
        sent := sent + [key];
      }
      if problem {
        failed := failed + 1;
      }
    }
  }
}
