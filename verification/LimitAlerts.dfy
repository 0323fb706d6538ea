/**
  Limit alerts across backend instances (backend/services/limit-alert-service.go) under a
  session-scoped advisory lock (backend/database/lock.go).

  Any number of instances start the job; database sessions are pooled, a pooled session
  keeps whatever advisory locks it holds, and a session may take the lock again while it
  holds it.  A session in use by a running job is assumed to stay alive.
*/
module LimitAlerts {
  import opened Wrappers

  type Session = nat
  type Worker = nat

  /** What the cooldown is about: the resolved exercise, the language (possibly none), the limit. */
  datatype AlertKey = AlertKey(exercise: int, language: Option<int>, limit: string)

  datatype Alert = Alert(key: AlertKey, at: int)

  /** A bucket of failures, counted on the exercise the submissions went to. */
  datatype Group = Group(exercise: int, language: Option<int>, limit: string)

  /** A ghost exercise resolves to its real one. */
  function Target(realId: map<int, int>, exercise: int): int {
    if exercise in realId then realId[exercise] else exercise
  }

  function KeyOf(realId: map<int, int>, g: Group): AlertKey {
    AlertKey(Target(realId, g.exercise), g.language, g.limit)
  }

  /** The same exercise, a ghost and its real one, or two ghosts of one real exercise. */
  ghost predicate SameExercise(realId: map<int, int>, x: int, y: int) {
    || (x !in realId && y !in realId && x == y)
    || (x in realId && y !in realId && realId[x] == y)
    || (x !in realId && y in realId && realId[y] == x)
    || (x in realId && y in realId && realId[x] == realId[y])
  }

  /** Failures of both groups are one matter to an administrator. */
  ghost predicate SameMatter(realId: map<int, int>, g: Group, h: Group) {
    g.language == h.language && g.limit == h.limit && SameExercise(realId, g.exercise, h.exercise)
  }

  lemma OneKeyIffSameMatter(realId: map<int, int>, g: Group, h: Group)
    ensures KeyOf(realId, g) == KeyOf(realId, h) <==> SameMatter(realId, g, h)
  {
  }

  /** Each alert with the group that caused it. */
  ghost predicate CausedBy(realId: map<int, int>, alerts: seq<Alert>, causes: seq<Group>) {
    |causes| == |alerts| && forall i :: 0 <= i < |alerts| ==> alerts[i].key == KeyOf(realId, causes[i])
  }

  /** Two alerts caused by one matter are more than a cooldown apart. */
  ghost predicate MattersSpaced(realId: map<int, int>, alerts: seq<Alert>, causes: seq<Group>, cooldown: int) {
    && |causes| == |alerts|
    && forall i, j :: 0 <= i < j < |alerts| && SameMatter(realId, causes[i], causes[j]) ==> alerts[j].at - alerts[i].at > cooldown
  }

  lemma SpacedByMatter(realId: map<int, int>, alerts: seq<Alert>, causes: seq<Group>, cooldown: int)
    requires CausedBy(realId, alerts, causes) && Spaced(alerts, cooldown)
    ensures MattersSpaced(realId, alerts, causes, cooldown)
  {
    hide KeyOf, SameMatter;
    forall i, j | 0 <= i < j < |alerts| && SameMatter(realId, causes[i], causes[j])
      ensures alerts[j].at - alerts[i].at > cooldown
    {
      OneKeyIffSameMatter(realId, causes[i], causes[j]);
      assert alerts[i].key == alerts[j].key;
    }
  }

  /** An alert of the same matter lies within the cooldown. */
  ghost predicate MatterAlerted(
      realId: map<int, int>, alerts: seq<Alert>, causes: seq<Group>, g: Group, now: int, cooldown: int)
    requires |causes| == |alerts|
  {
    exists i :: 0 <= i < |alerts| && SameMatter(realId, causes[i], g) && alerts[i].at >= now - cooldown
  }

  lemma RecentlyAlertedIff(
      realId: map<int, int>, alerts: seq<Alert>, causes: seq<Group>, g: Group, now: int, cooldown: int)
    requires CausedBy(realId, alerts, causes)
    ensures RecentlyAlerted(alerts, KeyOf(realId, g), now, cooldown) <==> MatterAlerted(realId, alerts, causes, g, now, cooldown)
  {
    hide KeyOf, SameMatter;
    forall i | 0 <= i < |alerts|
      ensures alerts[i].key == KeyOf(realId, g) <==> SameMatter(realId, causes[i], g)
    {
      OneKeyIffSameMatter(realId, causes[i], g);
    }
  }

  /** The COUNT(*) of the cooldown check, as a condition: an alert with created_at >= now - cooldown. */
  predicate RecentlyAlerted(alerts: seq<Alert>, key: AlertKey, now: int, cooldown: int) {
    exists i :: 0 <= i < |alerts| && alerts[i].key == key && alerts[i].at >= now - cooldown
  }

  /** Two alerts about one thing are more than a cooldown apart. */
  ghost predicate Spaced(alerts: seq<Alert>, cooldown: int) {
    forall i, j :: 0 <= i < j < |alerts| && alerts[i].key == alerts[j].key ==> alerts[j].at - alerts[i].at > cooldown
  }

  lemma AlertKeepsSpacing(alerts: seq<Alert>, key: AlertKey, checked: int, now: int, cooldown: int)
    requires Spaced(alerts, cooldown) && checked <= now
    requires !RecentlyAlerted(alerts, key, checked, cooldown)
    ensures Spaced(alerts + [Alert(key, now)], cooldown)
  {
  }

  // --- one pass ----------------------------------------------------------------------

  datatype Outcome = Done | Refused | DoneButReportedFailed

  /** The alert table, its clock, and the exercises. */
  class AlertStore {
    var alerts: seq<Alert>
    var clock: int
    const cooldown: int
    const realId: map<int, int>
    // The groups that caused the alerts.
    ghost var causes: seq<Group>

    ghost predicate Valid()
      reads this
    {
      CausedBy(realId, alerts, causes)
    }

    constructor (cooldown: int, realId: map<int, int>, now: int)
      ensures this.cooldown == cooldown && this.realId == realId && alerts == [] && clock == now
      ensures Valid() && causes == []
    {
      this.cooldown, this.realId := cooldown, realId;
      alerts, clock, causes := [], now, [];
    }

    method TimePasses()
      modifies this`clock
      ensures clock >= old(clock)
    {
      var elapsed: int := *;
      if elapsed > 0 {
        clock := clock + elapsed;
      }
    }

    /**
      raiseLimitAlert: checks the cooldown, then inserts.  The two statements see their own
      times; `checkFails` is any failure before the insert.
    */
    method RaiseLimitAlert(group: Group, checkFails: bool, db: Outcome) returns (ghost checkedAt: int)
      requires Valid()
      modifies this
      ensures Valid()
      ensures if checkFails || MatterAlerted(realId, old(alerts), old(causes), group, checkedAt, cooldown) || db.Refused?
        then alerts == old(alerts) && causes == old(causes)
        else old(alerts) <= alerts && causes == old(causes) + [group] && checkedAt <= alerts[|old(alerts)|].at <= clock
      ensures old(MattersSpaced(realId, alerts, causes, cooldown)) && old(Spaced(alerts, cooldown)) ==>
        MattersSpaced(realId, alerts, causes, cooldown)
      ensures old(clock) <= checkedAt <= clock
      ensures var key := KeyOf(realId, group);
        if checkFails || RecentlyAlerted(old(alerts), key, checkedAt, cooldown) || db.Refused?
        then alerts == old(alerts)
        else exists at :: checkedAt <= at <= clock && alerts == old(alerts) + [Alert(key, at)]
      ensures old(Spaced(alerts, cooldown)) ==> Spaced(alerts, cooldown)
    {
      hide KeyOf, SameMatter, MattersSpaced;
      var key := KeyOf(realId, group);
      TimePasses();
      checkedAt := clock;
      RecentlyAlertedIff(realId, alerts, causes, group, clock, cooldown);
      if checkFails {
        return;
      }
      if RecentlyAlerted(alerts, key, clock, cooldown) {
        return;
      }
      TimePasses();
      if !db.Refused? {
        if Spaced(alerts, cooldown) {
          AlertKeepsSpacing(alerts, key, checkedAt, clock, cooldown);
          SpacedByMatter(realId, alerts + [Alert(key, clock)], causes + [group], cooldown);
        }
        alerts, causes := alerts + [Alert(key, clock)], causes + [group];
      }
    }

    /** raiseLimitAlerts: one pass over the groups, ghost and real exercises alike. */
    method RaiseLimitAlerts(groups: seq<Group>)
      requires Valid() && Spaced(alerts, cooldown)
      modifies this
      ensures Valid() && MattersSpaced(realId, alerts, causes, cooldown)
      ensures Spaced(alerts, cooldown) && old(alerts) <= alerts && old(clock) <= clock
    {
      SpacedByMatter(realId, alerts, causes, cooldown);
      for i := 0 to |groups|
        invariant Valid() && MattersSpaced(realId, alerts, causes, cooldown)
        invariant Spaced(alerts, cooldown) && old(alerts) <= alerts && old(clock) <= clock
      {
        var checkFails: bool, db: Outcome := *, *;
        var _ := RaiseLimitAlert(groups[i], checkFails, db);
      }
    }
  }

  // --- the lock ------------------------------------------------------------------------

  /** How often each session holds the lock. */
  type Holds = map<Session, nat>

  function HoldCount(h: Holds, s: Session): nat {
    if s in h then h[s] else 0
  }

  /** pg_try_advisory_lock succeeds unless another session holds the lock. */
  ghost predicate FreeFor(h: Holds, s: Session) {
    forall other :: other in h && other != s ==> h[other] == 0
  }

  /** How acquiring ended for the caller. */
  datatype Acquire = Acquired | Occupied | FailedUntouched | FailedButTaken

  class AdvisoryLock {
    var holds: Holds

    /** At most one session holds the lock. */
    ghost predicate Valid()
      reads this
    {
      forall a, b :: a in holds && b in holds && holds[a] > 0 && holds[b] > 0 ==> a == b
    }

    method TryLock(s: Session, fails: bool) returns (a: Acquire)
      requires Valid()
      modifies this
      ensures Valid()
      ensures a.Acquired? || a.FailedButTaken? ==> FreeFor(old(holds), s) && holds == old(holds)[s := HoldCount(old(holds), s) + 1]
      ensures a.Occupied? ==> !FreeFor(old(holds), s)
      ensures a.Occupied? || a.FailedUntouched? ==> holds == old(holds)
    {
      var taken: bool := *;
      var others := set o | o in holds && o != s && holds[o] > 0;
      assert others == {} <==> FreeFor(holds, s) by {
        if !FreeFor(holds, s) {
          var o :| o in holds && o != s && holds[o] != 0;
          assert o in others;
        }
      }
      if others != {} {
        return if fails then FailedUntouched else Occupied;
      }
      if fails && !taken {
        return FailedUntouched;
      }
      holds := holds[s := HoldCount(holds, s) + 1];
      a := if fails then FailedButTaken else Acquired;
    }

    method Unlock(s: Session, fails: bool) returns (ok: bool)
      requires Valid() && HoldCount(holds, s) > 0
      modifies this
      ensures Valid() && ok == !fails
      ensures ok ==> holds == old(holds)[s := HoldCount(old(holds), s) - 1]
      ensures !ok ==> holds == old(holds) || holds == old(holds)[s := HoldCount(old(holds), s) - 1]
    {
      var effective: bool := *;
      if !fails || effective {
        holds := holds[s := holds[s] - 1];
      }
      ok := !fails;
    }

    /** The connection is discarded: its session ends and gives up every lock. */
    method Discard(s: Session)
      requires Valid()
      modifies this
      ensures Valid() && holds == old(holds)[s := 0]
    {
      holds := holds[s := 0];
    }
  }

  /**
    RunWithBackgroundLock: the job runs only while the session holds the lock.  A call that
    ran it leaves the session's locks as it found them, or discards the session; the one
    call that leaves a lock behind is an acquisition that took effect but reported failure.
  */
  method RunWithBackgroundLock(l: AdvisoryLock, s: Session, store: AlertStore, groups: seq<Group>)
    returns (acquire: Acquire, discarded: bool)
    requires l.Valid() && store.Valid() && Spaced(store.alerts, store.cooldown)
    modifies l, store
    ensures l.Valid() && store.Valid() && Spaced(store.alerts, store.cooldown)
    ensures acquire.Acquired? ==> MattersSpaced(store.realId, store.alerts, store.causes, store.cooldown)
    ensures !acquire.Acquired? ==> store.alerts == old(store.alerts) && store.clock == old(store.clock)
    ensures forall other :: other != s ==> HoldCount(l.holds, other) == HoldCount(old(l.holds), other)
    ensures HoldCount(l.holds, s) ==
      (if discarded then 0 else HoldCount(old(l.holds), s) + if acquire.FailedButTaken? then 1 else 0)
    ensures discarded ==> acquire.Acquired?
  {
    discarded := false;
    var acquireFails, unlockFails: bool := *, *;
    acquire := l.TryLock(s, acquireFails);
    if !acquire.Acquired? {
      return;
    }
    store.RaiseLimitAlerts(groups);
    var ok := l.Unlock(s, unlockFails);
    if !ok {
      l.Discard(s);
      discarded := true;
    }
  }

  // --- every interleaving ------------------------------------------------------------------

  /** Where a worker is; a worker owns its session from Connected on. */
  datatype Pc =
    | Away
    | Connected(session: Session)
    | Running(session: Session)
    | Checked(session: Session, key: AlertKey, at: int, cause: Group)

  datatype State = State(
    holds: Holds,
    pcs: map<Worker, Pc>,
    alerts: seq<Alert>,
    causes: seq<Group>,
    now: int)

  datatype Action =
    | Tick(elapsed: nat)
    | Connect(w: Worker, s: Session)
    | TryAcquire(w: Worker, result: Acquire, keepsConnection: bool)
    | Check(w: Worker, g: Group)
    | Insert(w: Worker, db: Outcome)
    | Leave(w: Worker, unlocked: bool)

  function PcOf(s: State, w: Worker): Pc {
    if w in s.pcs then s.pcs[w] else Away
  }

  predicate Uses(pc: Pc, session: Session) {
    !pc.Away? && pc.session == session
  }

  predicate InJob(pc: Pc) {
    pc.Running? || pc.Checked?
  }

  ghost predicate Enabled(s: State, a: Action) {
    match a
    case Tick(_) => true
    // A pooled or new connection: one no other worker has checked out.
    case Connect(w, session) => PcOf(s, w).Away? && forall u :: u in s.pcs ==> !Uses(s.pcs[u], session)
    case TryAcquire(w, result, _) =>
      PcOf(s, w).Connected? && (
        match result
        case Acquired => FreeFor(s.holds, PcOf(s, w).session)
        case FailedButTaken => FreeFor(s.holds, PcOf(s, w).session)
        case Occupied => !FreeFor(s.holds, PcOf(s, w).session)
        case FailedUntouched => true)
    case Check(w, _) => PcOf(s, w).Running?
    case Insert(w, _) => PcOf(s, w).Checked?
    case Leave(w, _) => InJob(PcOf(s, w))
  }

  ghost function Next(realId: map<int, int>, cooldown: int, s: State, a: Action): State
    requires Enabled(s, a)
  {
    match a
    case Tick(elapsed) => s.(now := s.now + elapsed)
    case Connect(w, session) => s.(pcs := s.pcs[w := Connected(session)])
    case TryAcquire(w, result, keepsConnection) =>
      var session := PcOf(s, w).session;
      var taken := s.holds[session := HoldCount(s.holds, session) + 1];
      (match result
       case Acquired => s.(holds := taken, pcs := s.pcs[w := Running(session)])
       case Occupied => s.(pcs := s.pcs[w := Away])
       case FailedUntouched => s.(pcs := s.pcs[w := Away])
       // The connection goes back to the pool with the lock, or the driver drops it.
       case FailedButTaken => s.(holds := if keepsConnection then taken else s.holds[session := 0],
                                 pcs := s.pcs[w := Away]))
    case Check(w, g) =>
      var key := KeyOf(realId, g);
      if RecentlyAlerted(s.alerts, key, s.now, cooldown) then s
      else s.(pcs := s.pcs[w := Checked(PcOf(s, w).session, key, s.now, g)])
    case Insert(w, db) =>
      s.(alerts := if db.Refused? then s.alerts else s.alerts + [Alert(PcOf(s, w).key, s.now)],
         causes := if db.Refused? then s.causes else s.causes + [PcOf(s, w).cause],
         pcs := s.pcs[w := Running(PcOf(s, w).session)])
    // The deferred unlock; when it fails the connection is discarded.
    case Leave(w, unlocked) =>
      var session := PcOf(s, w).session;
      s.(holds := s.holds[session := if unlocked && HoldCount(s.holds, session) > 0
                                     then HoldCount(s.holds, session) - 1 else 0],
         pcs := s.pcs[w := Away])
  }

  ghost predicate Invariant(cooldown: int, s: State) {
    && (forall a, b :: a in s.holds && b in s.holds && s.holds[a] > 0 && s.holds[b] > 0 ==> a == b)
    && (forall u, v :: u in s.pcs && v in s.pcs && u != v && !s.pcs[u].Away? ==> !Uses(s.pcs[v], s.pcs[u].session))
    && (forall w :: w in s.pcs && InJob(s.pcs[w]) ==> HoldCount(s.holds, s.pcs[w].session) > 0)
    && Spaced(s.alerts, cooldown)
    && (forall w :: w in s.pcs && s.pcs[w].Checked? ==>
          s.pcs[w].at <= s.now && !RecentlyAlerted(s.alerts, s.pcs[w].key, s.pcs[w].at, cooldown))
  }

  lemma OneInJob(cooldown: int, s: State, u: Worker, v: Worker)
    requires Invariant(cooldown, s)
    requires InJob(PcOf(s, u)) && InJob(PcOf(s, v))
    ensures u == v
  {
  }

  lemma AcquireKeepsInvariant(realId: map<int, int>, cooldown: int, s: State, a: Action)
    requires Invariant(cooldown, s) && Enabled(s, a) && a.TryAcquire?
    ensures Invariant(cooldown, Next(realId, cooldown, s, a))
  {
  }

  lemma LeaveKeepsInvariant(realId: map<int, int>, cooldown: int, s: State, a: Action)
    requires Invariant(cooldown, s) && Enabled(s, a) && a.Leave?
    ensures Invariant(cooldown, Next(realId, cooldown, s, a))
  {
    forall w | w in s.pcs && w != a.w && InJob(s.pcs[w]) ensures false {
      OneInJob(cooldown, s, w, a.w);
    }
  }

  lemma InsertKeepsInvariant(realId: map<int, int>, cooldown: int, s: State, a: Action)
    requires Invariant(cooldown, s) && Enabled(s, a) && a.Insert?
    ensures Invariant(cooldown, Next(realId, cooldown, s, a))
  {
    forall w | w in s.pcs && w != a.w && InJob(s.pcs[w]) ensures false {
      OneInJob(cooldown, s, w, a.w);
    }
    AlertKeepsSpacing(s.alerts, s.pcs[a.w].key, s.pcs[a.w].at, s.now, cooldown);
  }

  lemma StepKeepsInvariant(realId: map<int, int>, cooldown: int, s: State, a: Action)
    requires Invariant(cooldown, s) && Enabled(s, a)
    ensures Invariant(cooldown, Next(realId, cooldown, s, a))
  {
    match a
    case TryAcquire(_, _, _) => AcquireKeepsInvariant(realId, cooldown, s, a);
    case Leave(_, _) => LeaveKeepsInvariant(realId, cooldown, s, a);
    case Insert(_, _) => InsertKeepsInvariant(realId, cooldown, s, a);
    case _ =>
  }

  ghost predicate IsRun(realId: map<int, int>, cooldown: int, states: seq<State>, actions: seq<Action>) {
    && |states| == |actions| + 1
    && states[0].holds == map[] && states[0].pcs == map[] && states[0].alerts == [] && states[0].causes == []
    && forall i :: 0 <= i < |actions| ==>
         Enabled(states[i], actions[i]) && states[i + 1] == Next(realId, cooldown, states[i], actions[i])
  }

  lemma {:induction false} RunKeepsInvariant(
      realId: map<int, int>, cooldown: int, states: seq<State>, actions: seq<Action>, i: nat)
    requires IsRun(realId, cooldown, states, actions) && i < |states|
    ensures Invariant(cooldown, states[i])
  {
    if i > 0 {
      RunKeepsInvariant(realId, cooldown, states, actions, i - 1);
      StepKeepsInvariant(realId, cooldown, states[i - 1], actions[i - 1]);
    }
  }

  /** In every interleaving at most one worker is inside the guarded job. */
  lemma JobIsExclusive(
      realId: map<int, int>, cooldown: int, states: seq<State>, actions: seq<Action>, i: nat, u: Worker, v: Worker)
    requires IsRun(realId, cooldown, states, actions) && i < |states|
    requires InJob(PcOf(states[i], u)) && InJob(PcOf(states[i], v))
    ensures u == v
  {
    RunKeepsInvariant(realId, cooldown, states, actions, i);
    OneInJob(cooldown, states[i], u, v);
  }

  /** Every alert, and every one about to be inserted, has the key of its cause. */
  ghost predicate CausesKnown(realId: map<int, int>, s: State) {
    && CausedBy(realId, s.alerts, s.causes)
    && forall w :: w in s.pcs && s.pcs[w].Checked? ==> s.pcs[w].key == KeyOf(realId, s.pcs[w].cause)
  }

  lemma StepKeepsCauses(realId: map<int, int>, cooldown: int, s: State, a: Action)
    requires CausesKnown(realId, s) && Enabled(s, a)
    ensures CausesKnown(realId, Next(realId, cooldown, s, a))
  {
    hide KeyOf;
  }

  lemma {:induction false} RunKeepsCauses(
      realId: map<int, int>, cooldown: int, states: seq<State>, actions: seq<Action>, i: nat)
    requires IsRun(realId, cooldown, states, actions) && i < |states|
    ensures CausesKnown(realId, states[i])
  {
    if i > 0 {
      RunKeepsCauses(realId, cooldown, states, actions, i - 1);
      StepKeepsCauses(realId, cooldown, states[i - 1], actions[i - 1]);
    }
  }

  /**
    In every interleaving any two recorded alerts whose groups are one matter - the same
    language and limit, and exercises that are equal, a ghost and its real one, or two ghosts of
    one - are more than a cooldown apart.
  */
  lemma AlertsAreSpaced(realId: map<int, int>, cooldown: int, states: seq<State>, actions: seq<Action>, i: nat)
    requires IsRun(realId, cooldown, states, actions) && i < |states|
    ensures Spaced(states[i].alerts, cooldown)
    ensures MattersSpaced(realId, states[i].alerts, states[i].causes, cooldown)
  {
    RunKeepsInvariant(realId, cooldown, states, actions, i);
    RunKeepsCauses(realId, cooldown, states, actions, i);
    SpacedByMatter(realId, states[i].alerts, states[i].causes, cooldown);
  }
}
