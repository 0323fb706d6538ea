/**
  Bounded cooldown tables (backend/services/mail-throttle.go, backend/alerts/alerts.go,
  backend/services/bulletin-service.go).

  Each table is proved to answer exactly as an unbounded one would: a ledger that keeps
  every reservation until it is released, and never evicts.  Time is an integer that does
  not go back.
*/
module Cooldown {
  import opened Wrappers
  import opened Text
  import MapOrder

  // --- the unbounded ledger ------------------------------------------------------

  type Ledger = map<string, int>

  predicate Live(ledger: Ledger, key: string, now: int, window: int) {
    key in ledger && now - ledger[key] < window
  }

  function LiveKeys(ledger: Ledger, now: int, window: int): (keys: set<string>)
    ensures forall k :: k in keys <==> Live(ledger, k, now, window)
  {
    set k | k in ledger && now - ledger[k] < window
  }

  /** A nonempty key is granted iff it has no live reservation and fewer than `max` keys are live. */
  predicate Grants(ledger: Ledger, key: string, now: int, window: int, max: nat) {
    key != "" && !Live(ledger, key, now, window) && |LiveKeys(ledger, now, window)| < max
  }

  // --- runs of the ledger ----------------------------------------------------------

  datatype Op = Reserve(key: string, now: int) | Release(key: string)

  /** The ledger after a prefix of a run. */
  ghost function LedgerAfter(ops: seq<Op>, window: int, max: nat): Ledger {
    if ops == [] then map[]
    else
      var before := LedgerAfter(ops[..|ops| - 1], window, max);
      match ops[|ops| - 1]
      case Reserve(key, now) => if Grants(before, key, now, window, max) then before[key := now] else before
      case Release(key) => before - {key}
  }

  ghost predicate Granted(ops: seq<Op>, i: nat, window: int, max: nat)
    requires i < |ops|
  {
    ops[i].Reserve? && Grants(LedgerAfter(ops[..i], window, max), ops[i].key, ops[i].now, window, max)
  }

  ghost predicate TimeMovesOn(ops: seq<Op>) {
    forall i, j :: 0 <= i < j < |ops| && ops[i].Reserve? && ops[j].Reserve? ==> ops[i].now <= ops[j].now
  }

  /** A granted reservation not released stays in the ledger, or a later one takes its place. */
  lemma {:induction false} KeptReservationStays(ops: seq<Op>, i: nat, n: nat, window: int, max: nat)
    requires TimeMovesOn(ops) && i < n <= |ops| && Granted(ops, i, window, max)
    requires forall k :: i < k < n ==> ops[k] != Release(ops[i].key)
    ensures ops[i].key in LedgerAfter(ops[..n], window, max)
    ensures LedgerAfter(ops[..n], window, max)[ops[i].key] >= ops[i].now
    decreases n
  {
    assert ops[..n][..n - 1] == ops[..n - 1];
    if i < n - 1 {
      KeptReservationStays(ops, i, n - 1, window, max);
    }
  }

  /** Over any run, two kept reservations of a key are at least one cooldown apart. */
  lemma KeptReservationsAreSpaced(ops: seq<Op>, i: nat, j: nat, window: int, max: nat)
    requires TimeMovesOn(ops) && i < j < |ops|
    requires Granted(ops, i, window, max) && Granted(ops, j, window, max) && ops[i].key == ops[j].key
    requires forall k :: i < k < j ==> ops[k] != Release(ops[i].key)
    ensures ops[j].now - ops[i].now >= window
  {
    KeptReservationStays(ops, i, j, window, max);
  }

  // --- releases that come late -------------------------------------------------------

  /** Which call's reservation the ledger holds for a key. */
  ghost function Holder(ops: seq<Op>, key: string, window: int, max: nat): (h: Option<nat>)
    ensures h.Some? ==> h.value < |ops|
  {
    if ops == [] then None
    else
      var last := |ops| - 1;
      if ops[last] == Release(key) then None
      else if ops[last].key == key && Granted(ops, last, window, max) then Some(last)
      else Holder(ops[..last], key, window, max)
  }

  /** The ledger holds the time of that call, and nothing without one. */
  lemma {:induction false} HolderIsLedger(ops: seq<Op>, key: string, window: int, max: nat)
    ensures var h := Holder(ops, key, window, max);
      if h.None? then key !in LedgerAfter(ops, window, max)
      else
        && ops[h.value].Reserve? && ops[h.value].key == key
        && key in LedgerAfter(ops, window, max) && LedgerAfter(ops, window, max)[key] == ops[h.value].now
  {
    if ops != [] {
      HolderIsLedger(ops[..|ops| - 1], key, window, max);
    }
  }

  /** Between call `i` and call `n` nothing released the key or was granted it. */
  ghost predicate Undisturbed(ops: seq<Op>, i: nat, n: nat, window: int, max: nat)
    requires i < n <= |ops|
  {
    forall k :: i < k < n ==> ops[k] != Release(ops[i].key) && !(ops[k].key == ops[i].key && Granted(ops, k, window, max))
  }

  /**
    A delivery that failed releases its key later, when other calls may have come between.
    It frees its own reservation if and only if the key was neither released nor granted
    again in between; otherwise it frees a newer reservation, or nothing.
  */
  lemma {:induction false} LateReleaseIsOwnIff(ops: seq<Op>, i: nat, n: nat, window: int, max: nat)
    requires i < n <= |ops| && Granted(ops, i, window, max)
    ensures Holder(ops[..n], ops[i].key, window, max) == Some(i) <==> Undisturbed(ops, i, n, window, max)
    decreases n
  {
    var key, last := ops[i].key, n - 1;
    assert ops[..n][..last] == ops[..last];
    if i < last {
      LateReleaseIsOwnIff(ops, i, last, window, max);
      assert Granted(ops[..n], last, window, max) <==> Granted(ops, last, window, max);
      assert Undisturbed(ops, i, n, window, max) <==>
        Undisturbed(ops, i, last, window, max)
        && ops[last] != Release(key) && !(ops[last].key == key && Granted(ops, last, window, max));
    }
  }

  /** A release within the cooldown, the first of its key since the reservation, always frees its own. */
  lemma {:induction false} EarlyReleaseIsOwn(ops: seq<Op>, i: nat, n: nat, window: int, max: nat)
    requires TimeMovesOn(ops) && i < n <= |ops| && Granted(ops, i, window, max)
    requires forall k :: i < k < n ==> ops[k] != Release(ops[i].key)
    requires forall k :: i < k < n && ops[k].Reserve? ==> ops[k].now - ops[i].now < window
    ensures Holder(ops[..n], ops[i].key, window, max) == Some(i)
  {
    forall k | i < k < n && ops[k].key == ops[i].key ensures !Granted(ops, k, window, max) {
      if Granted(ops, k, window, max) {
        KeptReservationsAreSpaced(ops, i, k, window, max);
      }
    }
    LateReleaseIsOwnIff(ops, i, n, window, max);
  }

  /**
    What a release beyond the cooldown can do: the newer reservation of a delivered message is
    freed, and the next message goes out at once although the cooldown has hardly begun.
  */
  lemma LateReleaseBreaksSpacing(key: string, window: int, max: nat)
    requires key != "" && window > 1 && max > 0
    ensures var ops := [Reserve(key, 0), Reserve(key, window), Release(key), Reserve(key, window + 1)];
      Granted(ops, 0, window, max) && Granted(ops, 1, window, max) && Granted(ops, 3, window, max)
  {
    var a, b := Reserve(key, 0), Reserve(key, window);
    var ops := [a, b, Release(key), Reserve(key, window + 1)];
    assert ops[..0] == [] && ops[..1] == [a] && ops[..2] == [a, b] && ops[..3] == [a, b, Release(key)];
    assert [a][..0] == [] && [a, b][..1] == [a] && [a, b, Release(key)][..2] == [a, b];
    assert LiveKeys(map[], 0, window) == {};
    assert LedgerAfter([a], window, max) == map[key := 0];
    assert LiveKeys(map[key := 0], window, window) == {};
    assert LedgerAfter([a, b], window, max) == map[key := window];
    assert LedgerAfter(ops[..3], window, max) == map[];
    assert LiveKeys(map[], window + 1, window) == {};
  }

  /** Every call so far, in order of time. */
  ghost predicate Records(ops: seq<Op>, ledger: Ledger, clock: int, window: int, max: nat) {
    && TimeMovesOn(ops)
    && (forall i :: 0 <= i < |ops| && ops[i].Reserve? ==> ops[i].now <= clock)
    && ledger == LedgerAfter(ops, window, max)
  }

  lemma OneMoreCall(ops: seq<Op>, op: Op, ledger: Ledger, clock: int, now: int, window: int, max: nat)
    requires Records(ops, ledger, clock, window, max) && clock <= now && (op.Reserve? ==> op.now == now)
    ensures op.Reserve? ==>
      && Granted(ops + [op], |ops|, window, max) == Grants(ledger, op.key, now, window, max)
      && Records(ops + [op], if Grants(ledger, op.key, now, window, max) then ledger[op.key := now] else ledger, now, window, max)
    ensures op.Release? ==> Records(ops + [op], ledger - {op.key}, now, window, max)
  {
    hide Grants;
    assert (ops + [op])[..|ops|] == ops;
  }

  /** Whether a call was granted does not depend on what comes after it. */
  lemma GrantedInPrefix(ops: seq<Op>, i: nat, window: int, max: nat)
    requires i < |ops|
    ensures forall longer: seq<Op> :: ops <= longer ==> (Granted(longer, i, window, max) <==> Granted(ops, i, window, max))
  {
    forall longer: seq<Op> | ops <= longer
      ensures Granted(longer, i, window, max) <==> Granted(ops, i, window, max)
    {
      assert longer[..i] == ops[..i];
    }
  }

  // --- the bounded tables ------------------------------------------------------------

  lemma SubsetSize<T>(a: set<T>, b: set<T>)
    requires a <= b
    ensures |a| <= |b|
  {
    if a != b {
      assert b == a + (b - a);
    }
  }

  /** A table stands for a ledger: it holds every reservation that may still be live. */
  ghost predicate StandsFor(table: map<string, int>, ledger: Ledger, clock: int, window: int) {
    && (forall k :: k in table ==> k in ledger && ledger[k] == table[k])
    && (forall k :: k in ledger && k !in table ==> clock - ledger[k] >= window)
  }

  /** The loop over a full table: expired entries go, in whatever order the map yields them. */
  method Evict(table: map<string, int>, now: int, window: int) returns (trimmed: map<string, int>)
    ensures trimmed == map k | k in table && now - table[k] < window :: table[k]
  {
    trimmed := table;
    var todo := table.Keys;
    while todo != {}
      invariant todo <= table.Keys
      invariant trimmed == map k | k in table && (k in todo || now - table[k] < window) :: table[k]
      decreases |todo|
    {
      var existing := MapOrder.Next(todo);
      todo := todo - {existing};
      if now - table[existing] >= window {
        trimmed := trimmed - {existing};
      }
    }
  }

  /** What trimming a table leaves is exactly what is live in the ledger. */
  lemma TrimmedIsLive(table: map<string, int>, ledger: Ledger, clock: int, now: int, window: int)
    requires StandsFor(table, ledger, clock, window) && clock <= now
    ensures LiveKeys(ledger, now, window) == set k | k in table && now - table[k] < window
    ensures StandsFor(table, ledger, now, window)
  {
  }

  /** Room in a table means fewer live keys than it may hold. */
  lemma RoomMeansFewLive(table: map<string, int>, ledger: Ledger, now: int, window: int)
    requires StandsFor(table, ledger, now, window)
    ensures |LiveKeys(ledger, now, window)| <= |table|
  {
    TrimmedIsLive(table, ledger, now, now, window);
    SubsetSize(LiveKeys(ledger, now, window), table.Keys);
    assert |table.Keys| == |table|;
  }

  /** The check shared by the three tables, before the reservation is recorded. */
  method MakeRoom(table: map<string, int>, ghost ledger: Ledger, now: int, window: int, max: nat)
    returns (room: bool, kept: map<string, int>)
    requires StandsFor(table, ledger, now, window) && |table| <= max
    ensures StandsFor(kept, ledger, now, window) && |kept| <= max
    ensures room <==> |LiveKeys(ledger, now, window)| < max
    ensures room ==> |kept| < max
  {
    RoomMeansFewLive(table, ledger, now, window);
    kept := table;
    if |table| >= max {
      kept := Evict(table, now, window);
      TrimmedIsLive(table, ledger, now, now, window);
      assert kept.Keys == LiveKeys(ledger, now, window);
      assert |kept.Keys| == |kept|;
      if |kept| >= max {
        return false, kept;
      }
    }
    room := true;
  }

  /** Why a transactional email is refused. */
  datatype Refusal = NotRefused | EmptyAddress | CoolingDown | TableFull

  /** recipientThrottle. */
  class RecipientThrottle {
    var lastSent: map<string, int>
    const cooldown: int
    const max: nat
    // The unbounded ledger the table stands for, and the latest time it was asked.
    ghost var ledger: Ledger
    ghost var clock: int
    // Every call so far.
    ghost var history: seq<Op>

    ghost predicate Valid()
      reads this
    {
      StandsFor(lastSent, ledger, clock, cooldown) && |lastSent| <= max && Records(history, ledger, clock, cooldown, max)
    }

    constructor (cooldown: int, max: nat)
      ensures Valid() && this.cooldown == cooldown && this.max == max && history == []
    {
      this.cooldown, this.max := cooldown, max;
      lastSent, ledger, history := map[], map[], [];
    }

    /** The bounded table answers as the ledger does, and never exceeds `max` entries. */
    method Reserve(key: string, now: int) returns (ok: bool, reason: Refusal)
      requires Valid() && clock <= now
      modifies this
      ensures Valid() && clock == now && |lastSent| <= max
      ensures ok <==> Grants(old(ledger), key, now, cooldown, max)
      ensures history == old(history) + [Op.Reserve(key, now)] && ok == Granted(history, |old(history)|, cooldown, max)
      ensures ledger == if ok then old(ledger)[key := now] else old(ledger)
      ensures reason == if ok then NotRefused else if key == "" then EmptyAddress
        else if Live(old(ledger), key, now, cooldown) then CoolingDown else TableFull
    {
      TrimmedIsLive(lastSent, ledger, clock, now, cooldown);
      OneMoreCall(history, Op.Reserve(key, now), ledger, clock, now, cooldown, max);
      clock, history := now, history + [Op.Reserve(key, now)];
      if key == "" {
        return false, EmptyAddress;
      }
      if key in lastSent && now - lastSent[key] < cooldown {
        return false, CoolingDown;
      }
      var room, kept := MakeRoom(lastSent, ledger, now, cooldown, max);
      lastSent := kept;
      if !room {
        return false, TableFull;
      }
      lastSent, ledger := lastSent[key := now], ledger[key := now];
      return true, NotRefused;
    }

    /** Releasing frees the key, and is harmless when it holds no reservation. */
    method Release(key: string)
      requires Valid()
      modifies this
      ensures Valid() && clock == old(clock)
      ensures ledger == old(ledger) - {key} && lastSent == old(lastSent) - {key}
      ensures history == old(history) + [Op.Release(key)]
    {
      OneMoreCall(history, Op.Release(key), ledger, clock, clock, cooldown, max);
      history := history + [Op.Release(key)];
      lastSent, ledger := lastSent - {key}, ledger - {key};
      assert |lastSent.Keys| == |lastSent| && |old(lastSent).Keys| == |old(lastSent)|;
      SubsetSize(lastSent.Keys, old(lastSent).Keys);
    }

    /** What other requests do from `start` on, while a message is on its way. */
    method OtherRequests(start: int)
      requires Valid() && clock <= start
      modifies this
      ensures Valid() && old(history) <= history
    {
      var now, steps: nat := start, *;
      while steps > 0
        invariant Valid() && old(history) <= history && clock <= now
      {
        steps := steps - 1;
        var key: string, sends: bool, later: int := *, *, *;
        now := if later > now then later else now;
        if sends {
          var _, _ := Reserve(key, now);
        } else {
          Release(key);
        }
      }
    }

    /**
      sendWithinCooldown: a suppressed send reports no error, and a failed one gives its key
      back and reports its error.  Between the two, other requests may use the same key; whose
      reservation the release frees is settled by LateReleaseIsOwnIff on the history.
    */
    method SendWithinCooldown(email: string, now: int) returns (attempted: bool, failed: bool)
      requires Valid() && clock <= now
      modifies this
      ensures Valid()
      ensures var key, mine := ToLower(Trim(email)), |old(history)|;
        && mine < |history| && history[..mine] == old(history) && history[mine] == Op.Reserve(key, now)
        && (attempted <==> Granted(history, mine, cooldown, max))
        && (!attempted ==> |history| == mine + 1 && ledger == old(ledger))
        && (failed ==> |history| > mine + 1 && history[|history| - 1] == Op.Release(key) && key !in ledger)
      ensures failed ==> attempted
    {
      var key := ToLower(Trim(email));
      var reason;
      failed := false;
      attempted, reason := Reserve(key, now);
      if !attempted {
        return;
      }
      ghost var reserved := history;
      GrantedInPrefix(reserved, |old(history)|, cooldown, max);
      OtherRequests(now);
      var sendSucceeds: bool := *;
      if !sendSucceeds {
        Release(key);
        failed := true;
      }
      assert reserved <= history;
    }
  }

  /** The cooldown of alert emails. */
  class AlertCooldown {
    var last: map<string, int>
    const window: int
    const max: nat
    ghost var ledger: Ledger
    ghost var clock: int
    // Every call so far.
    ghost var history: seq<Op>

    ghost predicate Valid()
      reads this
    {
      StandsFor(last, ledger, clock, window) && |last| <= max && Records(history, ledger, clock, window, max)
    }

    constructor (window: int, max: nat)
      ensures Valid() && this.window == window && this.max == max && history == []
    {
      this.window, this.max := window, max;
      last, ledger, history := map[], map[], [];
    }

    method Reserve(key: string, now: int) returns (ok: bool)
      requires Valid() && clock <= now
      modifies this
      ensures Valid() && clock == now && |last| <= max
      ensures ok <==> Grants(old(ledger), key, now, window, max)
      ensures history == old(history) + [Op.Reserve(key, now)] && ok == Granted(history, |old(history)|, window, max)
      ensures ledger == if ok then old(ledger)[key := now] else old(ledger)
    {
      TrimmedIsLive(last, ledger, clock, now, window);
      OneMoreCall(history, Op.Reserve(key, now), ledger, clock, now, window, max);
      clock, history := now, history + [Op.Reserve(key, now)];
      if key == "" || (key in last && now - last[key] < window) {
        return false;
      }
      var room, kept := MakeRoom(last, ledger, now, window, max);
      last := kept;
      if !room {
        return false;
      }
      last, ledger := last[key := now], ledger[key := now];
      ok := true;
    }

    method Release(key: string)
      requires Valid()
      modifies this
      ensures Valid() && clock == old(clock)
      ensures ledger == old(ledger) - {key} && last == old(last) - {key}
      ensures history == old(history) + [Op.Release(key)]
    {
      OneMoreCall(history, Op.Release(key), ledger, clock, clock, window, max);
      history := history + [Op.Release(key)];
      last, ledger := last - {key}, ledger - {key};
      assert |last.Keys| == |last| && |old(last).Keys| == |old(last)|;
      SubsetSize(last.Keys, old(last).Keys);
    }

    /** notifyAdmins up to its goroutine: the code is reserved, or the email is suppressed. */
    method NotifyAdmins(code: string, now: int) returns (starts: bool)
      requires Valid() && clock <= now
      modifies this
      ensures Valid() && clock == now
      ensures starts <==> Grants(old(ledger), code, now, window, max)
      ensures ledger == if starts then old(ledger)[code := now] else old(ledger)
      ensures history == old(history) + [Op.Reserve(code, now)] && starts == Granted(history, |old(history)|, window, max)
    {
      starts := Reserve(code, now);
    }

    /**
      The goroutine, at any later time: it frees the code exactly when no administrator was
      reached.  `delivered` tells, for each one, whether the relay took the message.  Whose
      reservation it frees is settled by LateReleaseIsOwnIff on the history.
    */
    method SendToAdmins(code: string, delivered: seq<bool>) returns (sent: nat, failed: nat)
      requires Valid()
      modifies this
      ensures Valid() && clock == old(clock)
      ensures sent + failed == |delivered| && (sent > 0 <==> true in delivered)
      ensures if true in delivered then ledger == old(ledger) && history == old(history)
        else code !in ledger && history == old(history) + [Op.Release(code)]
    {
      sent, failed := 0, 0;
      for i := 0 to |delivered|
        invariant sent + failed == i && (sent > 0 <==> true in delivered[..i])
        invariant Valid() && clock == old(clock) && ledger == old(ledger) && history == old(history)
      {
        assert delivered[..i + 1] == delivered[..i] + [delivered[i]];
        if delivered[i] {
          sent := sent + 1;
        } else {
          failed := failed + 1;
        }
      }
      assert delivered[..|delivered|] == delivered;
      if sent == 0 {
        Release(code);
      }
    }
  }

  const BULLETIN_NOTIFY_SLOTS: nat := 8
  const BULLETIN_COMMENT_COOLDOWN: int := 30
  const BULLETIN_COOLDOWN_ENTRIES: nat := 512

  /** bulletinNotifyGate: a cooldown table and a fixed number of deliveries in flight. */
  class BulletinNotifyGate {
    var slots: nat
    var last: map<string, int>
    ghost var ledger: Ledger
    ghost var clock: int

    ghost predicate Valid()
      reads this
    {
      && StandsFor(last, ledger, clock, BULLETIN_COMMENT_COOLDOWN) && |last| <= BULLETIN_COOLDOWN_ENTRIES
      && slots <= BULLETIN_NOTIFY_SLOTS
    }

    constructor ()
      ensures Valid() && slots == 0 && ledger == map[]
    {
      slots, last, ledger := 0, map[], map[];
    }

    /**
      An empty key needs only a slot, another key a grant of the ledger as well.  A refusal,
      for either reason, leaves no trace in the ledger or the slots.
    */
    method Begin(key: string, now: int) returns (ok: bool)
      requires Valid() && clock <= now
      modifies this
      ensures Valid() && clock == now && slots <= BULLETIN_NOTIFY_SLOTS
      ensures ok <==>
        && (key == "" || Grants(old(ledger), key, now, BULLETIN_COMMENT_COOLDOWN, BULLETIN_COOLDOWN_ENTRIES))
        && old(slots) < BULLETIN_NOTIFY_SLOTS
      ensures slots == old(slots) + if ok then 1 else 0
      ensures ledger == if ok && key != "" then old(ledger)[key := now] else old(ledger)
    {
      TrimmedIsLive(last, ledger, clock, now, BULLETIN_COMMENT_COOLDOWN);
      clock := now;
      if key != "" {
        if key in last && now - last[key] < BULLETIN_COMMENT_COOLDOWN {
          return false;
        }
        var room, kept := MakeRoom(last, ledger, now, BULLETIN_COMMENT_COOLDOWN, BULLETIN_COOLDOWN_ENTRIES);
        last := kept;
        if !room {
          return false;
        }
      }
      if slots >= BULLETIN_NOTIFY_SLOTS {
        return false;
      }
      slots := slots + 1;
      if key != "" {
        last, ledger := last[key := now], ledger[key := now];
      }
      ok := true;
    }

    /** done, called once by each delivery that began. */
    method Done()
      requires Valid() && slots > 0
      modifies this`slots
      ensures Valid() && slots == old(slots) - 1
    {
      slots := slots - 1;
    }
  }
}
