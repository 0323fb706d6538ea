/**
  The registry of hubs as a concurrent program (backend/judge/hub.go).

  Goroutines run Consume, Subscribe, Subscription.Close, CloseHub, broadcast and finish in
  any interleaving.  A step is one lock operation or what a goroutine does between two of
  them; hubsMu and each hub's mu are ordinary mutexes.  Closing a closed channel, or
  sending on one, panics.
*/
module HubRegistry {
  import opened Wrappers

  type Thread = nat
  type HubId = nat
  type Channel = nat

  datatype Hub = Hub(commit: int, closed: bool, subs: set<Channel>)

  /** Where a goroutine is. `joins` tells Subscribe from Consume. */
  datatype Pc =
    | Idle
    // getOrCreateHub
    | WantRegistry(commit: int, joins: bool)
    | InRegistry(commit: int, joins: bool)
    | WantPeek(commit: int, joins: bool, h: HubId)
    | Peeking(commit: int, joins: bool, h: HubId)
    | Peeked(commit: int, joins: bool, h: HubId, sawClosed: bool)
    | Creating(commit: int, joins: bool)
    | Found(joins: bool, h: HubId)
    // Subscribe
    | WantJoin(h: HubId)
    | Joining(h: HubId)
    | Adding(h: HubId)
    // Subscription.Close, and the other methods that only take mu
    | WantDrop(h: HubId, ch: Channel)
    | Dropping(h: HubId, ch: Channel)
    // broadcast
    | WantSend(h: HubId)
    | Sending(h: HubId)
    // CloseHub
    | WantLookup(commit: int)
    | LookingUp(commit: int)
    // finish
    | WantFinish(h: HubId)
    | Finishing(h: HubId)
    | WantUnregister(h: HubId)
    | Unregistering(h: HubId)
    // about to release mu, or hubsMu
    | Unlocking(h: HubId)
    | UnlockingRegistry(next: Option<HubId>)

  /** The hub whose mu a goroutine holds. */
  function HeldHub(pc: Pc): Option<HubId> {
    match pc
    case Peeking(_, _, h) => Some(h)
    case Joining(h) => Some(h)
    case Adding(h) => Some(h)
    case Dropping(h, _) => Some(h)
    case Sending(h) => Some(h)
    case Finishing(h) => Some(h)
    case Unlocking(h) => Some(h)
    case _ => None
  }

  predicate HoldsRegistry(pc: Pc) {
    || pc.InRegistry? || pc.WantPeek? || pc.Peeking? || pc.Peeked? || pc.Creating? || pc.Found?
    || pc.LookingUp? || pc.Unregistering? || pc.UnlockingRegistry?
  }

  /** The hub a goroutine refers to. */
  function Mentioned(pc: Pc): Option<HubId> {
    match pc
    case WantPeek(_, _, h) => Some(h)
    case Peeking(_, _, h) => Some(h)
    case Peeked(_, _, h, _) => Some(h)
    case Found(_, h) => Some(h)
    case WantJoin(h) => Some(h)
    case Joining(h) => Some(h)
    case Adding(h) => Some(h)
    case WantDrop(h, _) => Some(h)
    case Dropping(h, _) => Some(h)
    case WantSend(h) => Some(h)
    case Sending(h) => Some(h)
    case WantFinish(h) => Some(h)
    case Finishing(h) => Some(h)
    case WantUnregister(h) => Some(h)
    case Unregistering(h) => Some(h)
    case Unlocking(h) => Some(h)
    case UnlockingRegistry(next) => next
    case _ => None
  }

  // --- what a step does to the shared data -----------------------------------------

  /** The data the locks protect. */
  datatype Data = Data(
    registry: map<int, HubId>,
    hubs: map<HubId, Hub>,
    openChannels: set<Channel>,
    closedChannels: set<Channel>,
    panicked: bool)

  /** A new open hub, in the registry from the start. */
  function Register(d: Data, c: int, h: HubId): Data {
    d.(registry := d.registry[c := h], hubs := d.hubs[h := Hub(c, false, {})])
  }

  /** finish forgets the hub only when it is still the registered one. */
  function Unregister(d: Data, h: HubId): Data
    requires h in d.hubs
  {
    var c := d.hubs[h].commit;
    if c in d.registry && d.registry[c] == h then d.(registry := d.registry - {c}) else d
  }

  function AddChannel(d: Data, h: HubId, ch: Channel): Data
    requires h in d.hubs
  {
    d.(openChannels := d.openChannels + {ch}, hubs := d.hubs[h := d.hubs[h].(subs := d.hubs[h].subs + {ch})])
  }

  function DropChannel(d: Data, h: HubId, ch: Channel): Data
    requires h in d.hubs
  {
    d.(hubs := d.hubs[h := d.hubs[h].(subs := d.hubs[h].subs - {ch})])
  }

  /** A send on every subscribed channel; whether a full one drops the frame does not matter here. */
  function SendAll(d: Data, h: HubId): Data
    requires h in d.hubs
  {
    if d.hubs[h].subs * d.closedChannels != {} then d.(panicked := true) else d
  }

  /** finish marks the hub closed, closes every subscribed channel and forgets them. */
  function CloseAll(d: Data, h: HubId): Data
    requires h in d.hubs
  {
    var chs := d.hubs[h].subs;
    if chs * d.closedChannels != {} then d.(panicked := true)
    else d.(hubs := d.hubs[h := d.hubs[h].(closed := true, subs := {})],
            openChannels := d.openChannels - chs, closedChannels := d.closedChannels + chs)
  }

  // --- steps -----------------------------------------------------------------------

  datatype LockOp = NoLock | TakeRegistry | ReleaseRegistry | Take(h: HubId) | Release(h: HubId)

  /** One step: a change of the data, one lock operation, and where the goroutine is next. */
  datatype Move = Stuck | Move(data: Data, lock: LockOp, next: Pc)

  datatype State = State(
    data: Data,
    hubsMu: Option<Thread>,
    mu: map<HubId, Thread>,
    threads: map<Thread, Pc>)

  /**
    The next step of a goroutine at `pc`.  `pick` is the identity of the hub or channel
    the step makes, if it makes one.
  */
  function NextMove(d: Data, pc: Pc, pick: nat): Move
    requires Mentioned(pc).Some? ==> Mentioned(pc).value in d.hubs
  {
    match pc
    case Idle => Stuck
    case WantRegistry(c, joins) => Move(d, TakeRegistry, InRegistry(c, joins))
    case InRegistry(c, joins) =>
      Move(d, NoLock, if c in d.registry then WantPeek(c, joins, d.registry[c]) else Creating(c, joins))
    case WantPeek(c, joins, h) => Move(d, Take(h), Peeking(c, joins, h))
    case Peeking(c, joins, h) => Move(d, Release(h), Peeked(c, joins, h, d.hubs[h].closed))
    case Peeked(c, joins, h, sawClosed) => Move(d, NoLock, if sawClosed then Creating(c, joins) else Found(joins, h))
    case Creating(c, joins) => if pick in d.hubs then Stuck else Move(Register(d, c, pick), NoLock, Found(joins, pick))
    case Found(joins, h) => Move(d, ReleaseRegistry, if joins then WantJoin(h) else Idle)
    case WantJoin(h) => Move(d, Take(h), Joining(h))
    case Joining(h) => Move(d, NoLock, if d.hubs[h].closed then Unlocking(h) else Adding(h))
    case Adding(h) =>
      if pick in d.openChannels || pick in d.closedChannels then Stuck
      else Move(AddChannel(d, h, pick), NoLock, Unlocking(h))
    case WantDrop(h, ch) => Move(d, Take(h), Dropping(h, ch))
    case Dropping(h, ch) => Move(DropChannel(d, h, ch), NoLock, Unlocking(h))
    case WantSend(h) => Move(d, Take(h), Sending(h))
    case Sending(h) => Move(SendAll(d, h), NoLock, Unlocking(h))
    case WantLookup(c) => Move(d, TakeRegistry, LookingUp(c))
    case LookingUp(c) => Move(d, NoLock, UnlockingRegistry(if c in d.registry then Some(d.registry[c]) else None))
    case WantFinish(h) => Move(d, Take(h), Finishing(h))
    case Finishing(h) =>
      if d.hubs[h].closed then Move(d, NoLock, Unlocking(h)) else Move(CloseAll(d, h), Release(h), WantUnregister(h))
    case WantUnregister(h) => Move(d, TakeRegistry, Unregistering(h))
    case Unregistering(h) => Move(Unregister(d, h), NoLock, UnlockingRegistry(None))
    case Unlocking(h) => Move(d, Release(h), Idle)
    case UnlockingRegistry(next) => Move(d, ReleaseRegistry, if next.Some? then WantFinish(next.value) else Idle)
  }

  /** A mutex can be taken only while nobody holds it. */
  predicate Available(s: State, lock: LockOp) {
    (lock.TakeRegistry? ==> s.hubsMu.None?) && (lock.Take? ==> lock.h !in s.mu)
  }

  function Perform(s: State, t: Thread, m: Move): State
    requires m.Move?
  {
    State(m.data,
          if m.lock.TakeRegistry? then Some(t) else if m.lock.ReleaseRegistry? then None else s.hubsMu,
          if m.lock.Take? then s.mu[m.lock.h := t] else if m.lock.Release? then s.mu - {m.lock.h} else s.mu,
          s.threads[t := m.next])
  }

  /** What an idle goroutine may set out to do. */
  predicate CanBegin(d: Data, pc: Pc) {
    match pc
    case WantRegistry(_, _) => true
    case WantLookup(_) => true
    case WantDrop(h, _) => h in d.hubs
    case WantSend(h) => h in d.hubs
    case WantFinish(h) => h in d.hubs
    case _ => false
  }

  datatype Action = Spawn(t: Thread) | Begin(t: Thread, pc: Pc) | Go(t: Thread, pick: nat)

  ghost predicate Enabled(s: State, a: Action) {
    match a
    case Spawn(t) => t !in s.threads
    case Begin(t, pc) => t in s.threads && s.threads[t].Idle? && CanBegin(s.data, pc)
    case Go(t, pick) => Moves(s, t, pick)
  }

  /** One step of the program: a goroutine appears, starts an operation, or moves on in one. */
  ghost function After(s: State, a: Action): State
    requires Enabled(s, a)
  {
    match a
    case Spawn(t) => s.(threads := s.threads[t := Idle])
    case Begin(t, pc) => s.(threads := s.threads[t := pc])
    case Go(t, pick) => Perform(s, t, NextMove(s.data, s.threads[t], pick))
  }

  ghost predicate Moves(s: State, t: Thread, pick: nat) {
    && t in s.threads
    && (Mentioned(s.threads[t]).Some? ==> Mentioned(s.threads[t]).value in s.data.hubs)
    && NextMove(s.data, s.threads[t], pick).Move?
    && Available(s, NextMove(s.data, s.threads[t], pick).lock)
  }

  ghost predicate Initial(s: State) {
    s.data == Data(map[], map[], {}, {}, false) && s.hubsMu == None && s.mu == map[] && s.threads == map[]
  }

  // --- invariant -----------------------------------------------------------------

  /** Each lock is held by exactly the goroutine whose position says so. */
  ghost predicate LocksMatch(s: State) {
    && (forall t :: t in s.threads ==> (HoldsRegistry(s.threads[t]) <==> s.hubsMu == Some(t)))
    && (s.hubsMu.Some? ==> s.hubsMu.value in s.threads)
    && (forall t :: t in s.threads && HeldHub(s.threads[t]).Some? ==>
          HeldHub(s.threads[t]).value in s.mu && s.mu[HeldHub(s.threads[t]).value] == t)
    && (forall h :: h in s.mu ==> s.mu[h] in s.threads && HeldHub(s.threads[s.mu[h]]) == Some(h))
  }

  /** Every open hub is the registered one of its commit. */
  ghost predicate OpenHubsRegistered(d: Data) {
    && (forall c :: c in d.registry ==> d.registry[c] in d.hubs && d.hubs[d.registry[c]].commit == c)
    && (forall h :: h in d.hubs && !d.hubs[h].closed ==> d.hubs[h].commit in d.registry && d.registry[d.hubs[h].commit] == h)
  }

  /** Subscribed channels are open, and belong to one open hub. */
  ghost predicate ChannelsOpen(d: Data) {
    && d.openChannels !! d.closedChannels
    && (forall h :: h in d.hubs ==> d.hubs[h].subs <= d.openChannels)
    && (forall h :: h in d.hubs && d.hubs[h].closed ==> d.hubs[h].subs == {})
    && (forall g, h :: g in d.hubs && h in d.hubs && g != h ==> d.hubs[g].subs !! d.hubs[h].subs)
    && !d.panicked
  }

  /** What a goroutine has learned about the data still holds. */
  ghost predicate Informed(d: Data, pc: Pc) {
    && (Mentioned(pc).Some? ==> Mentioned(pc).value in d.hubs)
    && match pc
       case WantPeek(c, _, h) => c in d.registry && d.registry[c] == h
       case Peeking(c, _, h) => c in d.registry && d.registry[c] == h
       case Peeked(c, _, h, sawClosed) => c in d.registry && d.registry[c] == h && (sawClosed ==> d.hubs[h].closed)
       case Creating(c, _) => c in d.registry ==> d.registry[c] in d.hubs && d.hubs[d.registry[c]].closed
       case Adding(h) => !d.hubs[h].closed
       case WantUnregister(h) => d.hubs[h].closed
       case Unregistering(h) => d.hubs[h].closed
       case _ => true
  }

  ghost predicate AllInformed(s: State) {
    forall t :: t in s.threads ==> Informed(s.data, s.threads[t])
  }

  ghost predicate Invariant(s: State) {
    LocksMatch(s) && OpenHubsRegistered(s.data) && ChannelsOpen(s.data) && AllInformed(s)
  }

  // --- the locks -------------------------------------------------------------------

  /** The position a move leads to holds what its lock operation leaves it. */
  ghost predicate LockDiscipline(pc: Pc, m: Move)
    requires m.Move?
  {
    match m.lock
    case NoLock => HoldsRegistry(m.next) == HoldsRegistry(pc) && HeldHub(m.next) == HeldHub(pc)
    case TakeRegistry => !HoldsRegistry(pc) && HoldsRegistry(m.next) && HeldHub(pc) == HeldHub(m.next) == None
    case ReleaseRegistry => HoldsRegistry(pc) && !HoldsRegistry(m.next) && HeldHub(pc) == HeldHub(m.next) == None
    case Take(h) => HoldsRegistry(m.next) == HoldsRegistry(pc) && HeldHub(pc) == None && HeldHub(m.next) == Some(h)
    case Release(h) => HoldsRegistry(m.next) == HoldsRegistry(pc) && HeldHub(pc) == Some(h) && HeldHub(m.next) == None
  }

  /** hubsMu is never wanted by a goroutine that holds a mu, so the locks are always taken in one order. */
  lemma MovesKeepDiscipline(d: Data, pc: Pc, pick: nat)
    requires Mentioned(pc).Some? ==> Mentioned(pc).value in d.hubs
    requires NextMove(d, pc, pick).Move?
    ensures LockDiscipline(pc, NextMove(d, pc, pick))
  {
  }

  lemma DisciplineKeepsLocks(s: State, t: Thread, m: Move)
    requires LocksMatch(s) && t in s.threads && m.Move?
    requires LockDiscipline(s.threads[t], m) && Available(s, m.lock)
    ensures LocksMatch(Perform(s, t, m))
  {
  }

  // --- the data --------------------------------------------------------------------

  lemma MoveKeepsRegistered(d: Data, pc: Pc, pick: nat)
    requires OpenHubsRegistered(d) && Informed(d, pc) && NextMove(d, pc, pick).Move?
    ensures OpenHubsRegistered(NextMove(d, pc, pick).data)
  {
  }

  lemma MoveKeepsChannels(d: Data, pc: Pc, pick: nat)
    requires ChannelsOpen(d) && Informed(d, pc) && NextMove(d, pc, pick).Move?
    ensures ChannelsOpen(NextMove(d, pc, pick).data)
  {
  }

  lemma MoverIsInformed(d: Data, pc: Pc, pick: nat)
    requires OpenHubsRegistered(d) && ChannelsOpen(d) && Informed(d, pc) && NextMove(d, pc, pick).Move?
    ensures Informed(NextMove(d, pc, pick).data, NextMove(d, pc, pick).next)
  {
  }

  /** What another goroutine knows is protected by a lock it holds, or never changes back. */
  lemma OthersStayInformed(d: Data, pc: Pc, pick: nat, other: Pc)
    requires OpenHubsRegistered(d) && Informed(d, pc) && NextMove(d, pc, pick).Move? && Informed(d, other)
    requires !(HoldsRegistry(pc) && HoldsRegistry(other))
    requires HeldHub(pc).None? || HeldHub(pc) != HeldHub(other)
    ensures Informed(NextMove(d, pc, pick).data, other)
  {
  }

  // --- every reachable state ---------------------------------------------------------

  lemma LocksExclude(s: State, t: Thread, u: Thread)
    requires LocksMatch(s) && t in s.threads && u in s.threads && t != u
    ensures !(HoldsRegistry(s.threads[t]) && HoldsRegistry(s.threads[u]))
    ensures HeldHub(s.threads[t]).None? || HeldHub(s.threads[t]) != HeldHub(s.threads[u])
  {
  }

  lemma GoKeepsInformed(s: State, t: Thread, pick: nat)
    requires Invariant(s) && Moves(s, t, pick)
    ensures AllInformed(Perform(s, t, NextMove(s.data, s.threads[t], pick)))
  {
    var m := NextMove(s.data, s.threads[t], pick);
    MoverIsInformed(s.data, s.threads[t], pick);
    forall u | u in s.threads && u != t ensures Informed(m.data, s.threads[u]) {
      LocksExclude(s, t, u);
      OthersStayInformed(s.data, s.threads[t], pick, s.threads[u]);
    }
  }

  lemma BeginKeepsInvariant(s: State, t: Thread, pc: Pc)
    requires Invariant(s)
    requires if t in s.threads then s.threads[t].Idle? && (CanBegin(s.data, pc) || pc.Idle?) else pc.Idle?
    ensures Invariant(s.(threads := s.threads[t := pc]))
  {
    var r := s.(threads := s.threads[t := pc]);
    assert !HoldsRegistry(pc) && HeldHub(pc) == None;
    assert LocksMatch(r);
    assert AllInformed(r);
  }

  lemma StepKeepsInvariant(s: State, a: Action)
    requires Invariant(s) && Enabled(s, a)
    ensures Invariant(After(s, a))
  {
    match a
    case Spawn(t) => BeginKeepsInvariant(s, t, Idle);
    case Begin(t, pc) => BeginKeepsInvariant(s, t, pc);
    case Go(t, pick) =>
      var pc := s.threads[t];
      assert Informed(s.data, pc);
      MovesKeepDiscipline(s.data, pc, pick);
      DisciplineKeepsLocks(s, t, NextMove(s.data, pc, pick));
      MoveKeepsRegistered(s.data, pc, pick);
      MoveKeepsChannels(s.data, pc, pick);
      GoKeepsInformed(s, t, pick);
  }

  /** A run from the empty registry, any goroutines, any interleaving. */
  ghost predicate IsRun(states: seq<State>, actions: seq<Action>) {
    && |states| == |actions| + 1
    && Initial(states[0])
    && forall i :: 0 <= i < |actions| ==> Enabled(states[i], actions[i]) && states[i + 1] == After(states[i], actions[i])
  }

  lemma {:induction false} RunKeepsInvariant(states: seq<State>, actions: seq<Action>, i: nat)
    requires IsRun(states, actions) && i < |states|
    ensures Invariant(states[i])
  {
    if i > 0 {
      RunKeepsInvariant(states, actions, i - 1);
      StepKeepsInvariant(states[i - 1], actions[i - 1]);
    }
  }

  /**
    Registry safety.  In every state of every run: no channel was closed twice or sent to
    after closing; every open hub is the registered one of its commit, so a commit has at
    most one; and a closed hub has no subscriber.
  */
  lemma RegistryIsSafe(states: seq<State>, actions: seq<Action>, i: nat)
    requires IsRun(states, actions) && i < |states|
    ensures var d := states[i].data;
      && !d.panicked
      && (forall h :: h in d.hubs && !d.hubs[h].closed ==>
            d.hubs[h].commit in d.registry && d.registry[d.hubs[h].commit] == h)
      && (forall g, h :: g in d.hubs && h in d.hubs && d.hubs[g].commit == d.hubs[h].commit ==>
            d.hubs[g].closed || d.hubs[h].closed || g == h)
      && (forall h :: h in d.hubs && d.hubs[h].closed ==> d.hubs[h].subs == {})
      && (forall h, ch :: h in d.hubs && ch in d.hubs[h].subs ==> ch !in d.closedChannels)
  {
    RunKeepsInvariant(states, actions, i);
  }

  lemma MoveKeepsClosed(d: Data, pc: Pc, pick: nat, h: HubId)
    requires ChannelsOpen(d) && Informed(d, pc) && NextMove(d, pc, pick).Move?
    requires h in d.hubs && d.hubs[h].closed
    ensures h in NextMove(d, pc, pick).data.hubs && NextMove(d, pc, pick).data.hubs[h].closed
    ensures d.closedChannels <= NextMove(d, pc, pick).data.closedChannels
  {
  }

  /** A closed hub is never opened again, and a closed channel stays closed. */
  lemma ClosedStaysClosed(s: State, a: Action, h: HubId)
    requires Invariant(s) && Enabled(s, a) && h in s.data.hubs && s.data.hubs[h].closed
    ensures h in After(s, a).data.hubs && After(s, a).data.hubs[h].closed
    ensures s.data.closedChannels <= After(s, a).data.closedChannels
  {
    if a.Go? {
      assert Informed(s.data, s.threads[a.t]);
      MoveKeepsClosed(s.data, s.threads[a.t], a.pick, h);
    }
  }

  // --- what an operation that has returned has done -----------------------------------

  ghost predicate HubOf(d: Data, h: HubId, c: int) {
    h in d.hubs && d.hubs[h].commit == c
  }

  lemma MoveKeepsHub(d: Data, pc: Pc, pick: nat, h: HubId, c: int)
    requires ChannelsOpen(d) && Informed(d, pc) && NextMove(d, pc, pick).Move? && HubOf(d, h, c)
    ensures HubOf(NextMove(d, pc, pick).data, h, c)
    ensures d.hubs[h].closed ==> NextMove(d, pc, pick).data.hubs[h].closed
  {
  }

  lemma StepKeepsHub(s: State, a: Action, h: HubId, c: int)
    requires Invariant(s) && Enabled(s, a) && HubOf(s.data, h, c)
    ensures HubOf(After(s, a).data, h, c)
    ensures s.data.hubs[h].closed ==> After(s, a).data.hubs[h].closed
  {
    if a.Go? {
      assert Informed(s.data, s.threads[a.t]);
      MoveKeepsHub(s.data, s.threads[a.t], a.pick, h, c);
    }
  }

  /** A goroutine in CloseHub that will still come to this hub, if it is the registered one, or one in finish. */
  ghost predicate IsClosing(pc: Pc, c: int, h: HubId) {
    pc == WantLookup(c) || pc == LookingUp(c) || pc == UnlockingRegistry(Some(h)) || pc == WantFinish(h) || pc == Finishing(h)
  }

  ghost predicate WillClose(s: State, t: Thread, c: int, h: HubId) {
    && HubOf(s.data, h, c)
    && (s.data.hubs[h].closed || (t in s.threads && IsClosing(s.threads[t], c, h)))
  }

  lemma StepKeepsWillClose(s: State, a: Action, t: Thread, c: int, h: HubId)
    requires Invariant(s) && Enabled(s, a) && WillClose(s, t, c, h)
    ensures WillClose(After(s, a), t, c, h)
  {
    StepKeepsHub(s, a, h, c);
    if a.Go? && a.t == t && !s.data.hubs[h].closed {
      assert Informed(s.data, s.threads[t]);
    }
  }

  lemma {:induction false} RunKeepsWillClose(states: seq<State>, actions: seq<Action>, i: nat, j: nat, t: Thread, c: int, h: HubId)
    requires IsRun(states, actions) && i <= j < |states| && WillClose(states[i], t, c, h)
    ensures WillClose(states[j], t, c, h)
    decreases j
  {
    hide WillClose, Enabled, After, Invariant;
    if i < j {
      RunKeepsWillClose(states, actions, i, j - 1, t, c, h);
      RunKeepsInvariant(states, actions, j - 1);
      StepKeepsWillClose(states[j - 1], actions[j - 1], t, c, h);
    }
  }

  /** CloseHub: when it has returned, every hub the commit had when it began is closed. */
  lemma CloseHubCloses(states: seq<State>, actions: seq<Action>, i: nat, j: nat, t: Thread, c: int, h: HubId)
    requires IsRun(states, actions) && i <= j < |states|
    requires t in states[i].threads && states[i].threads[t] == WantLookup(c)
    requires t in states[j].threads && states[j].threads[t].Idle?
    requires HubOf(states[i].data, h, c)
    ensures HubOf(states[j].data, h, c) && states[j].data.hubs[h].closed && states[j].data.hubs[h].subs == {}
  {
    hide IsRun;
    RunKeepsWillClose(states, actions, i, j, t, c, h);
    RunKeepsInvariant(states, actions, j);
  }

  /** finish: when it has returned, its hub is closed. */
  lemma FinishCloses(states: seq<State>, actions: seq<Action>, i: nat, j: nat, t: Thread, h: HubId)
    requires IsRun(states, actions) && i <= j < |states|
    requires t in states[i].threads && states[i].threads[t] == WantFinish(h)
    requires t in states[j].threads && states[j].threads[t].Idle?
    ensures h in states[j].data.hubs && states[j].data.hubs[h].closed && states[j].data.hubs[h].subs == {}
  {
    RunKeepsInvariant(states, actions, i);
    assert Informed(states[i].data, states[i].threads[t]);
    RunKeepsWillClose(states, actions, i, j, t, states[i].data.hubs[h].commit, h);
    RunKeepsInvariant(states, actions, j);
  }

  /** A closed hub still registered is about to be unregistered by the goroutine that closed it. */
  ghost predicate IsLeaving(s: State, h: HubId) {
    exists t :: t in s.threads && (s.threads[t] == WantUnregister(h) || s.threads[t] == Unregistering(h))
  }

  ghost predicate ClosedAreLeaving(s: State) {
    forall c :: c in s.data.registry && s.data.registry[c] in s.data.hubs && s.data.hubs[s.data.registry[c]].closed ==>
      IsLeaving(s, s.data.registry[c])
  }

  lemma StepKeepsLeaving(s: State, a: Action)
    requires Invariant(s) && Enabled(s, a) && ClosedAreLeaving(s)
    ensures ClosedAreLeaving(After(s, a))
  {
    var next := After(s, a);
    if a.Go? {
      assert Informed(s.data, s.threads[a.t]);
    }
    forall c | c in next.data.registry && next.data.registry[c] in next.data.hubs && next.data.hubs[next.data.registry[c]].closed
      ensures IsLeaving(next, next.data.registry[c])
    {
      var h := next.data.registry[c];
      LeavingStays(s, a, c, h);
    }
  }

  lemma LeavingStays(s: State, a: Action, c: int, h: HubId)
    requires Invariant(s) && Enabled(s, a) && ClosedAreLeaving(s)
    requires c in After(s, a).data.registry && After(s, a).data.registry[c] == h
    requires h in After(s, a).data.hubs && After(s, a).data.hubs[h].closed
    ensures IsLeaving(After(s, a), h)
  {
    var next := After(s, a);
    if a.Go? {
      assert Informed(s.data, s.threads[a.t]);
      CloserLeaves(s.data, s.threads[a.t], a.pick, c, h);
    }
    if c in s.data.registry && s.data.registry[c] == h && s.data.hubs[h].closed {
      var t :| t in s.threads && (s.threads[t] == WantUnregister(h) || s.threads[t] == Unregistering(h));
      assert t in next.threads && (next.threads[t] == WantUnregister(h) || next.threads[t] == Unregistering(h));
    } else {
      assert a.Go? && next.threads[a.t] == WantUnregister(h);
    }
  }

  /** A registered hub that is closed now was before, or the mover has just closed it and will unregister it. */
  lemma CloserLeaves(d: Data, pc: Pc, pick: nat, c: int, h: HubId)
    requires OpenHubsRegistered(d) && ChannelsOpen(d) && Informed(d, pc) && NextMove(d, pc, pick).Move?
    requires var after := NextMove(d, pc, pick).data;
      c in after.registry && after.registry[c] == h && h in after.hubs && after.hubs[h].closed
    ensures (c in d.registry && d.registry[c] == h && d.hubs[h].closed && pc != Unregistering(h))
         || NextMove(d, pc, pick).next == WantUnregister(h)
  {
  }

  lemma {:induction false} RunKeepsLeaving(states: seq<State>, actions: seq<Action>, i: nat)
    requires IsRun(states, actions) && i < |states|
    ensures ClosedAreLeaving(states[i])
  {
    if i > 0 {
      RunKeepsLeaving(states, actions, i - 1);
      RunKeepsInvariant(states, actions, i - 1);
      StepKeepsLeaving(states[i - 1], actions[i - 1]);
    }
  }

  /** Whenever no goroutine is between closing and unregistering a hub, the registry holds exactly the open hubs. */
  lemma QuietRegistryHoldsOpenHubs(states: seq<State>, actions: seq<Action>, i: nat, c: int, h: HubId)
    requires IsRun(states, actions) && i < |states|
    requires forall t :: t in states[i].threads ==> !states[i].threads[t].WantUnregister? && !states[i].threads[t].Unregistering?
    ensures (c in states[i].data.registry && states[i].data.registry[c] == h)
        <==> HubOf(states[i].data, h, c) && !states[i].data.hubs[h].closed
  {
    RunKeepsInvariant(states, actions, i);
    RunKeepsLeaving(states, actions, i);
  }

  /** A channel some Subscribe made. */
  ghost predicate Made(d: Data, ch: Channel) {
    ch in d.openChannels || ch in d.closedChannels
  }

  ghost predicate WillDrop(s: State, t: Thread, h: HubId, ch: Channel) {
    && h in s.data.hubs && Made(s.data, ch)
    && (ch !in s.data.hubs[h].subs || (t in s.threads && (s.threads[t] == WantDrop(h, ch) || s.threads[t] == Dropping(h, ch))))
  }

  lemma StepKeepsWillDrop(s: State, a: Action, t: Thread, h: HubId, ch: Channel)
    requires Invariant(s) && Enabled(s, a) && WillDrop(s, t, h, ch)
    ensures WillDrop(After(s, a), t, h, ch)
  {
    if a.Go? {
      assert Informed(s.data, s.threads[a.t]);
    }
  }

  lemma {:induction false} RunKeepsWillDrop(states: seq<State>, actions: seq<Action>, i: nat, j: nat, t: Thread, h: HubId, ch: Channel)
    requires IsRun(states, actions) && i <= j < |states| && WillDrop(states[i], t, h, ch)
    ensures WillDrop(states[j], t, h, ch)
    decreases j
  {
    hide WillDrop, Enabled, After, Invariant;
    if i < j {
      RunKeepsWillDrop(states, actions, i, j - 1, t, h, ch);
      RunKeepsInvariant(states, actions, j - 1);
      StepKeepsWillDrop(states[j - 1], actions[j - 1], t, h, ch);
    }
  }

  /** Subscription.Close: when it has returned, the hub has the channel no more, and never gets it back. */
  lemma CloseDrops(states: seq<State>, actions: seq<Action>, i: nat, j: nat, t: Thread, h: HubId, ch: Channel)
    requires IsRun(states, actions) && i <= j < |states|
    requires t in states[i].threads && states[i].threads[t] == WantDrop(h, ch) && Made(states[i].data, ch)
    requires t in states[j].threads && states[j].threads[t].Idle?
    ensures h in states[j].data.hubs && ch !in states[j].data.hubs[h].subs
  {
    RunKeepsInvariant(states, actions, i);
    assert Informed(states[i].data, states[i].threads[t]);
    RunKeepsWillDrop(states, actions, i, j, t, h, ch);
  }

  /** In getOrCreateHub, without a hub to return yet. */
  ghost predicate Seeks(pc: Pc, c: int, joins: bool) {
    || pc == WantRegistry(c, joins) || pc == InRegistry(c, joins) || pc == Creating(c, joins)
    || (pc.WantPeek? && pc.commit == c && pc.joins == joins)
    || (pc.Peeking? && pc.commit == c && pc.joins == joins)
    || (pc.Peeked? && pc.commit == c && pc.joins == joins && pc.sawClosed)
  }

  /** With one, on the way into its subscribers when the caller joins. */
  ghost predicate Joins(pc: Pc, h: HubId) {
    || (pc.Peeked? && pc.joins && pc.h == h && !pc.sawClosed)
    || pc == Found(true, h) || pc == WantJoin(h) || pc == Joining(h) || pc == Adding(h)
  }

  ghost predicate OpenHub(d: Data, h: HubId, c: int) {
    HubOf(d, h, c) && !d.hubs[h].closed
  }

  /** A step out of seeking has found an open hub of the commit, or made one. */
  lemma SeekingEnds(s: State, a: Action, t: Thread, c: int, joins: bool) returns (h: HubId)
    requires Invariant(s) && Enabled(s, a) && t in s.threads && Seeks(s.threads[t], c, joins)
    requires !Seeks(After(s, a).threads[t], c, joins)
    ensures OpenHub(s.data, h, c) || OpenHub(After(s, a).data, h, c)
    ensures HubOf(After(s, a).data, h, c) && (joins ==> Joins(After(s, a).threads[t], h))
  {
    var pc := s.threads[t];
    assert a.Go? && a.t == t && Informed(s.data, pc);
    if pc.Creating? {
      h := a.pick;
    } else {
      assert pc.Peeking?;
      h := pc.h;
    }
  }

  /** The first step that ends a search. */
  lemma SearchEnds(states: seq<State>, actions: seq<Action>, i: nat, j: nat, t: Thread, c: int, joins: bool)
    returns (k: nat, h: HubId)
    requires IsRun(states, actions) && i < j < |states|
    requires t in states[i].threads && Seeks(states[i].threads[t], c, joins)
    requires t in states[j].threads && states[j].threads[t].Idle?
    ensures i <= k < j && (OpenHub(states[k].data, h, c) || OpenHub(states[k + 1].data, h, c))
    ensures HubOf(states[k + 1].data, h, c) && t in states[k + 1].threads && (joins ==> Joins(states[k + 1].threads[t], h))
  {
    hide Enabled, After, Invariant;
    k := i;
    while t in states[k + 1].threads && Seeks(states[k + 1].threads[t], c, joins)
      invariant i <= k < j && t in states[k].threads && Seeks(states[k].threads[t], c, joins)
      decreases j - k
    {
      k := k + 1;
    }
    RunKeepsInvariant(states, actions, k);
    ThreadStays(states[k], actions[k], t);
    h := SeekingEnds(states[k], actions[k], t, c, joins);
  }

  lemma ThreadStays(s: State, a: Action, t: Thread)
    requires Enabled(s, a) && t in s.threads
    ensures t in After(s, a).threads
  {
  }

  /** Consume, and the first half of Subscribe: some time before it returns the commit has an open hub. */
  lemma ConsumeFindsHub(states: seq<State>, actions: seq<Action>, i: nat, j: nat, t: Thread, c: int, joins: bool)
    returns (k: nat, h: HubId)
    requires IsRun(states, actions) && i < j < |states|
    requires t in states[i].threads && states[i].threads[t] == WantRegistry(c, joins)
    requires t in states[j].threads && states[j].threads[t].Idle?
    ensures i <= k <= j && OpenHub(states[k].data, h, c)
  {
    k, h := SearchEnds(states, actions, i, j, t, c, joins);
    if !OpenHub(states[k].data, h, c) {
      k := k + 1;
    }
  }

  /** A step out of joining has added a new channel, or found the hub closed. */
  lemma JoiningEnds(s: State, a: Action, t: Thread, h: HubId)
    requires Invariant(s) && Enabled(s, a) && t in s.threads && Joins(s.threads[t], h)
    requires !Joins(After(s, a).threads[t], h)
    ensures h in s.data.hubs && h in After(s, a).data.hubs
    ensures a.Go? && a.t == t
    ensures s.data.hubs[h].closed
      || (!Made(s.data, a.pick) && After(s, a).data.hubs[h].subs == s.data.hubs[h].subs + {a.pick}
          && a.pick in After(s, a).data.openChannels)
  {
    assert a.Go? && a.t == t && Informed(s.data, s.threads[t]);
  }

  /**
    Subscribe: before it returns it has added a new open channel to a hub of the commit, or it
    has found such a hub closed meanwhile and is refused.
  */
  lemma SubscribeJoinsHub(states: seq<State>, actions: seq<Action>, i: nat, j: nat, t: Thread, c: int)
    returns (k: nat, h: HubId)
    requires IsRun(states, actions) && i < j < |states|
    requires t in states[i].threads && states[i].threads[t] == WantRegistry(c, true)
    requires t in states[j].threads && states[j].threads[t].Idle?
    ensures i <= k < j && HubOf(states[k].data, h, c) && h in states[k + 1].data.hubs && actions[k].Go? && actions[k].t == t
    ensures states[k].data.hubs[h].closed
      || (!Made(states[k].data, actions[k].pick) && actions[k].pick in states[k + 1].data.openChannels
          && states[k + 1].data.hubs[h].subs == states[k].data.hubs[h].subs + {actions[k].pick})
  {
    hide Enabled, After, Invariant;
    k, h := SearchEnds(states, actions, i, j, t, c, true);
    k := k + 1;
    while t in states[k + 1].threads && Joins(states[k + 1].threads[t], h)
      invariant i <= k < j && t in states[k].threads && Joins(states[k].threads[t], h) && HubOf(states[k].data, h, c)
      decreases j - k
    {
      RunKeepsInvariant(states, actions, k);
      StepKeepsHub(states[k], actions[k], h, c);
      k := k + 1;
    }
    RunKeepsInvariant(states, actions, k);
    ThreadStays(states[k], actions[k], t);
    JoiningEnds(states[k], actions[k], t, h);
  }

  // --- no deadlock -------------------------------------------------------------------

  /** There is always a name not in use. */
  lemma {:induction false} UnusedName(used: set<nat>) returns (name: nat)
    ensures forall x :: x in used ==> x < name
    decreases |used|
  {
    if used == {} {
      name := 0;
    } else {
      var z :| z in used;
      var above := UnusedName(used - {z});
      name := if z < above then above else z + 1;
      assert forall x :: x in used ==> x == z || x in used - {z};
    }
  }

  predicate WaitsForRegistry(pc: Pc) {
    pc.WantRegistry? || pc.WantLookup? || pc.WantUnregister?
  }

  predicate WaitsForHub(pc: Pc) {
    pc.WantPeek? || pc.WantJoin? || pc.WantDrop? || pc.WantSend? || pc.WantFinish?
  }

  /** A goroutine in an operation can always go on once its lock is free. */
  lemma UnblockedMoves(s: State, t: Thread) returns (pick: nat)
    requires Invariant(s) && t in s.threads && !s.threads[t].Idle?
    requires WaitsForRegistry(s.threads[t]) ==> s.hubsMu.None?
    requires WaitsForHub(s.threads[t]) ==> s.threads[t].h !in s.mu
    ensures Moves(s, t, pick)
  {
    pick := UnusedName(s.data.hubs.Keys + s.data.openChannels + s.data.closedChannels);
    assert Informed(s.data, s.threads[t]);
  }

  /**
    No deadlock: while some goroutine is inside an operation, some goroutine can move.
    The holder of a mu never waits; with every mu free, the holder of hubsMu can take the
    one it wants; and with hubsMu free too, everybody can move.
  */
  lemma NeverDeadlocked(states: seq<State>, actions: seq<Action>, i: nat, t: Thread) returns (u: Thread, pick: nat)
    requires IsRun(states, actions) && i < |states|
    requires t in states[i].threads && !states[i].threads[t].Idle?
    ensures u in states[i].threads && !states[i].threads[u].Idle? && Moves(states[i], u, pick)
  {
    RunKeepsInvariant(states, actions, i);
    var s := states[i];
    if s.mu != map[] {
      var h :| h in s.mu;
      u := s.mu[h];
      assert HeldHub(s.threads[u]) == Some(h);
    } else if s.hubsMu.Some? {
      u := s.hubsMu.value;
      assert HoldsRegistry(s.threads[u]);
    } else {
      u := t;
    }
    pick := UnblockedMoves(s, u);
  }
}
