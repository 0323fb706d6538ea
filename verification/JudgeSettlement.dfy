/**
  Settled commits stay settled.

  Any number of hubs store events, give commits up, and race with the reconciliation
  sweeper (backend/judge/reconcile.go).  A run is any sequence of these statements on any
  commits, each of which the database may refuse.
*/
module JudgeSettlement {
  import opened Wrappers
  import opened JudgeEvents
  import opened JudgeHub
  import MapOrder

  type Database = map<int, Tables>

  datatype Action =
    | Store(commit: int, ev: Event, w: WriteOutcome)
    | GiveUp(commit: int, w: WriteOutcome)
    | Sweep(stale: set<int>, w: WriteOutcome)

  predicate Settled(t: Tables) {
    IsTerminalStatus(t.row.status)
  }

  /** The sweeper's WHERE clause; `stale` are the commits whose compilation started too long ago. */
  predicate Sweepable(t: Tables) {
    t.row.status == Compiling || t.row.status == Running
  }

  function Sweeps(db: Database, stale: set<int>): Database {
    map c | c in db :: if c in stale && Sweepable(db[c]) then ServerErrorEffect(db[c]) else db[c]
  }

  function Step(db: Database, a: Action): Database {
    if a.w.NotStored? then db
    else
      match a
      case Store(commit, ev, _) => if commit in db then db[commit := Effect(ev, db[commit])] else db
      case GiveUp(commit, _) => if commit in db then db[commit := ServerErrorEffect(db[commit])] else db
      case Sweep(stale, _) => Sweeps(db, stale)
  }

  ghost function Run(db: Database, actions: seq<Action>): Database {
    if actions == [] then db
    else Step(Run(db, actions[..|actions| - 1]), actions[|actions| - 1])
  }

  lemma {:induction false} RunKeepsCommits(db: Database, actions: seq<Action>)
    ensures Run(db, actions).Keys == db.Keys
  {
    if actions != [] {
      RunKeepsCommits(db, actions[..|actions| - 1]);
    }
  }

  lemma StepKeepsSettled(db: Database, a: Action, c: int)
    requires c in db && Settled(db[c])
    ensures c in Step(db, a)
    ensures Step(db, a)[c].row == db[c].row && Step(db, a)[c].results == db[c].results
  {
  }

  /** Once settled, a commit's row and case results never change again, in any run. */
  lemma {:induction false} SettledForever(db: Database, actions: seq<Action>, since: nat, c: int)
    requires since <= |actions|
    requires c in Run(db, actions[..since]) && Settled(Run(db, actions[..since])[c])
    ensures c in Run(db, actions)
    ensures Run(db, actions)[c].row == Run(db, actions[..since])[c].row
    ensures Run(db, actions)[c].results == Run(db, actions[..since])[c].results
    decreases |actions|
  {
    if since == |actions| {
      assert actions[..since] == actions;
    } else {
      var front := actions[..|actions| - 1];
      assert front[..since] == actions[..since];
      SettledForever(db, front, since, c);
      StepKeepsSettled(Run(db, front), actions[|actions| - 1], c);
    }
  }

  /** The action stores the state of one case's artifact; nothing guards that statement. */
  ghost predicate WritesArtifact(a: Action, c: int, testCase: int) {
    && a.Store? && a.commit == c && !a.w.NotStored?
    && a.ev.ArtifactEvent? && !Skipped(a.ev) && a.ev.testCase == testCase
  }

  ghost function ArtifactOf(t: Tables, testCase: int): Option<ArtifactRow> {
    if testCase in t.artifacts then Some(t.artifacts[testCase]) else None
  }

  lemma ArtifactStep(db: Database, a: Action, c: int, testCase: int)
    requires c in db
    ensures c in Step(db, a)
    ensures ArtifactOf(Step(db, a)[c], testCase)
         == if WritesArtifact(a, c, testCase)
            then Some(ArtifactRow(a.ev.state.value, NullIfEmpty(a.ev.reason), a.ev.limitBytes))
            else ArtifactOf(db[c], testCase)
  {
  }

  lemma {:induction false} ArtifactStays(db: Database, actions: seq<Action>, since: nat, c: int, testCase: int)
    requires c in db && since <= |actions|
    requires forall j :: since <= j < |actions| ==> !WritesArtifact(actions[j], c, testCase)
    ensures c in Run(db, actions[..since]) && c in Run(db, actions)
    ensures ArtifactOf(Run(db, actions)[c], testCase) == ArtifactOf(Run(db, actions[..since])[c], testCase)
    decreases |actions|
  {
    hide WritesArtifact, Step, ArtifactOf;
    RunKeepsCommits(db, actions);
    RunKeepsCommits(db, actions[..since]);
    if since == |actions| {
      assert actions[..since] == actions;
    } else {
      var front := actions[..|actions| - 1];
      assert front[..since] == actions[..since];
      ArtifactStays(db, front, since, c, testCase);
      ArtifactStep(Run(db, front), actions[|actions| - 1], c, testCase);
    }
  }

  /**
    Artifacts are not settled with the commit.  At the end of any run an artifact row is what
    the last action storing it wrote, whether before or after a verdict, a give-up or a sweep.
  */
  lemma LastUploadWins(db: Database, actions: seq<Action>, k: nat, c: int, testCase: int)
    requires c in db && k < |actions| && WritesArtifact(actions[k], c, testCase)
    requires forall j :: k < j < |actions| ==> !WritesArtifact(actions[j], c, testCase)
    ensures c in Run(db, actions)
    ensures ArtifactOf(Run(db, actions)[c], testCase)
         == Some(ArtifactRow(actions[k].ev.state.value, NullIfEmpty(actions[k].ev.reason), actions[k].ev.limitBytes))
  {
    hide Step, ArtifactOf;
    ArtifactStays(db, actions, k + 1, c, testCase);
    assert actions[..k + 1][..k] == actions[..k];
    RunKeepsCommits(db, actions[..k]);
    ArtifactStep(Run(db, actions[..k]), actions[k], c, testCase);
  }

  /** The action is a verdict for the commit: a `finished` event with a terminal status. */
  ghost predicate IsVerdict(a: Action, c: int) {
    && a.Store? && a.commit == c && a.ev.FinishedEvent?
    && a.ev.status.Known? && IsTerminalStatus(a.ev.status.value)
  }

  ghost predicate IsAbandonment(a: Action, c: int) {
    (a.GiveUp? && a.commit == c) || (a.Sweep? && c in a.stale)
  }

  lemma SettlingStep(db: Database, a: Action, c: int)
    requires c in db && !Settled(db[c])
    requires c in Step(db, a) && Settled(Step(db, a)[c])
    ensures !a.w.NotStored?
    ensures IsVerdict(a, c) || IsAbandonment(a, c)
    ensures IsVerdict(a, c) ==>
      && Step(db, a)[c].row.status == a.ev.status.value
      && Step(db, a)[c].row.numCorrectCases == a.ev.numCorrectCases.GetOr(0)
      && Step(db, a)[c].row.score == OrElse(a.ev.score, "0")
    ensures IsAbandonment(a, c) ==>
      && Step(db, a)[c].row == db[c].row.(status := ServerError, compilationFinished := true)
    ensures Step(db, a)[c].results == db[c].results
  {
  }

  /**
    Where a settlement comes from.  If a run settles a commit, exactly one action did it,
    and that action's outcome is what the commit still shows at the end: the status, score
    and correct count of a verdict, or server_error with the grade of the moment.
  */
  lemma {:induction false} SettledByOneAction(db: Database, actions: seq<Action>, c: int) returns (k: nat)
    requires c in db && !Settled(db[c])
    requires c in Run(db, actions) && Settled(Run(db, actions)[c])
    ensures k < |actions|
    ensures c in Run(db, actions[..k]) && !Settled(Run(db, actions[..k])[c])
    ensures Run(db, actions)[c].results == Run(db, actions[..k])[c].results
    ensures IsVerdict(actions[k], c) || IsAbandonment(actions[k], c)
    ensures IsVerdict(actions[k], c) ==>
      && Run(db, actions)[c].row.status == actions[k].ev.status.value
      && Run(db, actions)[c].row.numCorrectCases == actions[k].ev.numCorrectCases.GetOr(0)
      && Run(db, actions)[c].row.score == OrElse(actions[k].ev.score, "0")
    ensures IsAbandonment(actions[k], c) ==>
      && Run(db, actions)[c].row.status == ServerError
      && Run(db, actions)[c].row.score == Run(db, actions[..k])[c].row.score
      && Run(db, actions)[c].row.numCorrectCases == Run(db, actions[..k])[c].row.numCorrectCases
    ensures forall j: nat :: j <= |actions| && c in Run(db, actions[..j]) ==> (Settled(Run(db, actions[..j])[c]) <==> k < j)
    decreases |actions|
  {
    var front, last := actions[..|actions| - 1], actions[|actions| - 1];
    RunKeepsCommits(db, front);
    if Settled(Run(db, front)[c]) {
      k := SettledByOneAction(db, front, c);
      StepKeepsSettled(Run(db, front), last, c);
      assert front[..k] == actions[..k];
      forall j: nat | j <= |actions| && c in Run(db, actions[..j])
        ensures Settled(Run(db, actions[..j])[c]) <==> k < j
      {
        if j < |actions| { assert actions[..j] == front[..j]; } else { assert actions[..j] == actions; }
      }
    } else {
      k := |front|;
      SettlingStep(Run(db, front), last, c);
      forall j: nat | j <= |actions| && c in Run(db, actions[..j])
        ensures Settled(Run(db, actions[..j])[c]) <==> k < j
      {
        if j < |actions| {
          assert actions[..j] == front[..j];
          UnsettledBefore(db, front, j, c);
        } else {
          assert actions[..j] == actions;
        }
      }
    }
  }

  lemma UnsettledBefore(db: Database, actions: seq<Action>, j: nat, c: int)
    requires j <= |actions| && c in Run(db, actions) && !Settled(Run(db, actions)[c])
    requires c in Run(db, actions[..j])
    ensures !Settled(Run(db, actions[..j])[c])
  {
    if Settled(Run(db, actions[..j])[c]) {
      SettledForever(db, actions, j, c);
    }
  }

  lemma SameCommits(a: Database, b: Database)
    requires a.Keys == b.Keys && forall c :: c in a ==> a[c] == b[c]
    ensures a == b
  {
    forall c | c in a ensures a[c] == b[c] {
    }
  }

  lemma SweptTables(t: Tables)
    ensures Sweepable(t) <==> t.row.status in {Compiling, Running}
    ensures Sweepable(t) ==> ServerErrorEffect(t) == t.(row := t.row.(status := ServerError, compilationFinished := true))
  {
  }

  /** What one sweep does to the rows it does not match, and to those it does. */
  lemma SweepSettlesExactly(db: Database, stale: set<int>, c: int)
    requires c in db
    ensures var after := Sweeps(db, stale);
      && c in after
      && (after[c] != db[c] <==> c in stale && db[c].row.status in {Compiling, Running})
      && (after[c] != db[c] ==> !Settled(db[c]) && after[c].row.status == ServerError && after[c].results == db[c].results)
  {
  }

  /** The backend: every commit's tables, and the registered hubs (the map `hubs`). */
  class Backend {
    var db: Database
    var hubs: map<int, Hub>

    constructor (db: Database)
      ensures Valid() && this.db == db && hubs == map[]
    {
      this.db := db;
      hubs := map[];
    }

    /** Each commit has a hub of its own, and a closed one has no subscribers. */
    ghost predicate Valid()
      reads this, hubs.Values
    {
      && (forall c, d :: c in hubs && d in hubs && c != d ==> hubs[c] != hubs[d])
      && (forall c :: c in hubs ==> hubs[c].ValidSubs())
    }

    /** The UPDATE, row by row; the result is the list of RETURNING id. */
    method UpdateStale(stale: set<int>) returns (ids: seq<int>)
      modifies this`db
      ensures db == Sweeps(old(db), stale) && db.Keys == old(db).Keys
      ensures forall c :: c in ids <==> c in old(db) && db[c] != old(db)[c]
      ensures forall c :: c in ids <==> c in stale && c in old(db) && old(db)[c].row.status in {Compiling, Running}
      ensures forall c :: c in ids ==>
        db[c] == old(db)[c].(row := old(db)[c].row.(status := ServerError, compilationFinished := true))
    {
      hide ServerErrorEffect, Sweepable, Settled, Effect, Step;
      ids := [];
      var todo := db.Keys;
      while todo != {}
        invariant todo <= db.Keys && db.Keys == old(db).Keys
        invariant forall c :: c in db ==> db[c] == if c in todo then old(db)[c] else Sweeps(old(db), stale)[c]
        invariant forall c :: c in ids <==> c in old(db) && c !in todo && c in stale && Sweepable(old(db)[c])
        decreases |todo|
      {
        var c := MapOrder.Next(todo);
        todo := todo - {c};
        if c in stale && Sweepable(db[c]) {
          db := db[c := ServerErrorEffect(db[c])];
          ids := ids + [c];
        }
      }
      ghost var swept := Sweeps(old(db), stale);
      assert db.Keys == swept.Keys && forall c :: c in db ==> db[c] == swept[c];
      SameCommits(db, swept);
      forall c | c in old(db)
        ensures db[c] != old(db)[c] <==> c in stale && Sweepable(old(db)[c])
        ensures Sweepable(old(db)[c]) <==> old(db)[c].row.status in {Compiling, Running}
        ensures db[c] != old(db)[c] ==>
          db[c] == old(db)[c].(row := old(db)[c].row.(status := ServerError, compilationFinished := true))
      {
        SweptTables(old(db)[c]);
        SweepSettlesExactly(old(db), stale, c);
      }
    }

    /**
      CloseHub: the registered hub of the commit, if any, is closed and unregistered; one that
      was closed before is left for its own goroutine to unregister.
    */
    method CloseHub(c: int)
      requires Valid()
      modifies this`hubs, if c in hubs then {hubs[c]} else {}
      ensures Valid()
      ensures c !in old(hubs) ==> hubs == old(hubs)
      ensures c in old(hubs) ==>
        && old(hubs)[c].closed && old(hubs)[c].subs == map[]
        && hubs == if old(hubs[c].closed) then old(hubs) else old(hubs) - {c}
    {
      if c !in hubs {
        return;
      }
      var hub := hubs[c];
      if hub.closed {
        return;
      }
      hub.Finish();
      hubs := hubs - {c};
    }

    /**
      The sweeper.  A failed call closes no hub, although its update may have taken effect.  A
      successful one closes exactly the hubs of the commits it settled: whoever still has an
      open hub was not touched.
    */
    method ReconcileStaleCommits(stale: set<int>, w: WriteOutcome)
      requires Valid()
      modifies this, hubs.Values
      ensures Valid()
      ensures db == Step(old(db), Sweep(stale, w))
      ensures forall c :: c in old(db) ==> c in db
      ensures forall c :: c in old(db) ==> (db[c] != old(db)[c] <==>
        !w.NotStored? && c in stale && old(db)[c].row.status in {Compiling, Running})
      ensures forall c :: c in old(db) && db[c] != old(db)[c] ==> db[c].row.status == ServerError
      ensures !w.Stored? ==> hubs == old(hubs) && forall c :: c in hubs ==> unchanged(hubs[c])
      ensures w.Stored? ==> forall c :: c in old(hubs) ==>
        (old(hubs)[c].closed <==> old(hubs[c].closed) || (c in db && db[c] != old(db)[c]))
      ensures w.Stored? ==> forall c :: c in old(hubs) && (c !in db || db[c] == old(db)[c]) ==>
        c in hubs && hubs[c] == old(hubs)[c] && unchanged(hubs[c])
      ensures w.Stored? ==> forall c :: c in hubs && c in db && db[c] != old(db)[c] ==> old(c in hubs && hubs[c].closed)
    {
      hide ServerErrorEffect, Sweepable, Settled, Effect, Sweeps, Hub.ValidSubs;
      if w.NotStored? {
        return;
      }
      var ids := UpdateStale(stale);
      if !w.Stored? {
        return;
      }
      for i := 0 to |ids|
        invariant Valid() && hubs.Keys <= old(hubs).Keys && db == Sweeps(old(db), stale) && db.Keys == old(db).Keys
        invariant forall c :: c in hubs ==> hubs[c] == old(hubs)[c]
        invariant forall c :: c in old(hubs) && c !in ids[..i] ==> c in hubs && unchanged(hubs[c])
        invariant forall c :: c in old(hubs) && c in ids[..i] ==> old(hubs)[c].closed
        invariant forall c :: c in hubs && c in ids[..i] ==> old(hubs[c].closed)
      {
        CloseHub(ids[i]);
        assert ids[..i + 1] == ids[..i] + [ids[i]];
      }
      assert ids[..|ids|] == ids;
    }
  }
}
