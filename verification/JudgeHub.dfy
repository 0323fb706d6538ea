/**
  One hub (backend/judge/hub.go): it reads a commit's judge stream, stores every event
  before broadcasting it, and resumes after the last event it handled.

  The judge's side is the log: entries with strictly increasing positive sequence
  numbers, of which a connection opened with ?from=n sends those after n, in order.
  Connections, writes and timers may fail at any point; `*` stands for each such choice.
*/
module JudgeHub {
  import opened Wrappers
  import opened JudgeEvents
  import opened JudgeReplay
  import MapOrder
  import Overlay

  const SUBSCRIBER_BUFFER: nat := 64
  const MAX_STREAM_ATTEMPTS: nat := 3
  const TERMINAL_PERSIST_ATTEMPTS: nat := 3

  /** A frame's data: none, not an event, or an event. */
  datatype Payload = NoData | Malformed | Decoded(ev: Event)

  datatype Entry = Entry(seqNo: int, payload: Payload)

  /** What a payload asks the database to do; nothing when it carries no event. */
  function EventOf(e: Entry): Event {
    if e.payload.Decoded? then e.payload.ev else UnknownEvent("")
  }

  ghost function Events(log: seq<Entry>): (events: seq<Event>)
    ensures |events| == |log| && forall i :: 0 <= i < |log| ==> events[i] == EventOf(log[i])
  {
    seq(|log|, i requires 0 <= i < |log| => EventOf(log[i]))
  }

  ghost predicate WellFormedLog(log: seq<Entry>) {
    && (forall i :: 0 <= i < |log| ==> log[i].seqNo > 0)
    && IncreasingFrames(log)
    && EndsWithVerdict(Events(log))
  }

  /** How many entries a sequence number covers: a resume sends the others. */
  function Cursor(log: seq<Entry>, lastSeq: int): (c: nat)
    ensures c <= |log|
    ensures forall i :: 0 <= i < c ==> log[i].seqNo <= lastSeq
    ensures c < |log| ==> log[c].seqNo > lastSeq
  {
    if log == [] || log[0].seqNo > lastSeq then 0
    else 1 + Cursor(log[1..], lastSeq)
  }

  ghost predicate IncreasingFrames(frames: seq<Entry>) {
    forall i, j :: 0 <= i < j < |frames| ==> frames[i].seqNo < frames[j].seqNo
  }

  /** The entry was stored, or it is one whose loss the hub accepts. */
  ghost predicate Handled(log: seq<Entry>, trace: seq<Visit>, entry: nat)
    requires entry < |log|
  {
    exists v :: v in trace && v.entry == entry && (v.stored || Supplemental(EventOf(log[entry])))
  }

  ghost predicate ValidTrace(log: seq<Entry>, trace: seq<Visit>) {
    && InLog(Events(log), trace)
    && Overlay.GapFree(Entries(trace), |log|)
    && OnlySupplementalSkipped(Events(log), trace)
  }

  ghost predicate IsSuffix<T>(tail: seq<T>, whole: seq<T>) {
    |tail| <= |whole| && whole[|whole| - |tail|..] == tail
  }

  /** A subscriber's channel: every frame ever sent on it, of which the client has not yet taken `queue`. */
  datatype Channel = Channel(queue: seq<Entry>, sent: seq<Entry>)

  /** One select of the broadcast loop: a channel SUBSCRIBER_BUFFER frames behind loses the frame. */
  function Offer(c: Channel, frame: Entry): Channel {
    if |c.queue| < SUBSCRIBER_BUFFER then Channel(c.queue + [frame], c.sent + [frame]) else c
  }

  /** The client was sent an increasing part of the broadcast frames, whatever was dropped. */
  ghost predicate ValidChannel(c: Channel, frames: seq<Entry>) {
    && |c.queue| <= SUBSCRIBER_BUFFER
    && IsSuffix(c.queue, c.sent)
    && IncreasingFrames(c.sent)
    && (forall f :: f in c.sent ==> f in frames)
  }

  lemma OfferKeepsValid(c: Channel, frames: seq<Entry>, frame: Entry)
    requires ValidChannel(c, frames)
    requires forall f :: f in frames ==> f.seqNo < frame.seqNo
    ensures ValidChannel(Offer(c, frame), frames + [frame])
  {
  }

  /** Why run returned. */
  datatype RunEnd = VerdictStored | ContextEnded | GaveUp(marked: bool)

  lemma CursorAt(log: seq<Entry>, i: nat)
    requires IncreasingFrames(log) && i < |log|
    ensures Cursor(log, log[i].seqNo) == i + 1
  {
    var c := Cursor(log, log[i].seqNo);
    assert i < c by {
      assert c < |log| ==> log[c].seqNo > log[i].seqNo;
    }
    assert log[c - 1].seqNo <= log[i].seqNo;
  }

  lemma EntriesBeyondCursor(log: seq<Entry>, lastSeq: int, i: nat)
    requires IncreasingFrames(log) && Cursor(log, lastSeq) <= i < |log|
    ensures lastSeq < log[i].seqNo
  {
  }

  lemma VerdictIsLast(log: seq<Entry>, i: nat)
    requires WellFormedLog(log) && i < |log|
    ensures EventOf(log[i]).FinishedEvent? <==> i == |log| - 1
  {
    assert Events(log)[i] == EventOf(log[i]);
  }

  lemma VerdictCompletes(log: seq<Entry>, trace: seq<Visit>)
    requires ValidTrace(log, trace) && |log| > 0
    requires Overlay.Next(Entries(trace)) == |log|
    ensures Overlay.Complete(Entries(trace), |log|)
  {
  }

  lemma PassedOverHasNoEffect(ev: Event, t: Tables)
    ensures Skipped(ev) ==> Effect(ev, t) == t
  {
  }

  lemma TraceGrows(log: seq<Entry>, trace: seq<Visit>, v: Visit)
    requires ValidTrace(log, trace)
    requires v.entry < |log| && v.entry <= Overlay.Next(Entries(trace))
    requires v.stored || Supplemental(EventOf(log[v.entry]))
    ensures ValidTrace(log, trace + [v])
    ensures Overlay.Next(Entries(trace + [v])) == v.entry + 1
  {
    hide EventOf, Supplemental;
    assert Entries(trace + [v]) == Entries(trace) + [v.entry];
  }

  lemma HandledGrows(log: seq<Entry>, trace: seq<Visit>, v: Visit)
    requires v.entry < |log| && (v.stored || Supplemental(EventOf(log[v.entry])))
    ensures Handled(log, trace + [v], v.entry)
    ensures forall e: nat :: e < |log| && Handled(log, trace, e) ==> Handled(log, trace + [v], e)
  {
    hide EventOf, Supplemental;
    var longer := trace + [v];
    assert longer[|trace|] == v;
    forall e: nat | e < |log| && Handled(log, trace, e)
      ensures Handled(log, longer, e)
    {
      var w :| w in trace && w.entry == e && (w.stored || Supplemental(EventOf(log[e])));
      assert w in longer;
    }
  }

  /**
    What a stored verdict comes to: the tables of one pass over the log, or those of a commit
    that was marked as failed after the first visits of the trace.
  */
  ghost predicate Settlement(log: seq<Entry>, trace: seq<Visit>, swept: Option<nat>, start: Tables, t: Tables) {
    && ValidTrace(log, trace) && ValidSweep(Events(log), trace, swept, start)
    && t.artifacts == ApplyLog(Events(log), start).artifacts
    && match swept
       case None =>
         t.row == ApplyLog(Events(log), start).row && t.results == ApplyLog(Events(log), start).results
       case Some(k) =>
         var before := Deliver(Events(log), trace[..k], start);
         t.row == before.row.(status := ServerError, compilationFinished := true) && t.results == before.results
  }

  lemma StoredVerdictConverges(log: seq<Entry>, trace: seq<Visit>, swept: Option<nat>, start: Tables)
    requires WellFormedLog(log) && ValidTrace(log, trace) && Overlay.Complete(Entries(trace), |log|)
    requires ValidSweep(Events(log), trace, swept, start)
    ensures Settlement(log, trace, swept, start, Reached(Events(log), trace, swept, start))
  {
    hide Deliver, ApplyLog, EndsWithVerdict, IsTerminalStatus, Effect;
    SweptReplayConverges(Events(log), trace, swept, start);
  }

  /** Unless the commit was marked as failed, a stored verdict is the one the judge sent. */
  lemma SettlementShowsVerdict(log: seq<Entry>, trace: seq<Visit>, start: Tables, t: Tables)
    requires WellFormedLog(log) && Settlement(log, trace, None, start, t)
    requires start.row.status in {Pending, Queued, Compiling, Running}
    ensures var verdict := EventOf(log[|log| - 1]);
      && verdict.FinishedEvent? && verdict.status.Known? && t.row.status == verdict.status.value
      && TextOr(t.row.score, verdict.score, "0") && NumberOr(t.row.numCorrectCases, verdict.numCorrectCases, 0)
  {
    PassShowsVerdict(Events(log), start);
  }

  class Hub {
    const store: CommitStore
    // The subscribed channels, by a name of their own.
    var subs: map<int, Channel>
    var closed: bool
    var terminal: bool
    var warned: bool
    var cancelled: bool
    var lastSeq: int

    // What was handed to the store, after how many of these visits the commit was marked as
    // failed while it was open, and what was broadcast.
    ghost var trace: seq<Visit>
    ghost var swept: Option<nat>
    ghost var frames: seq<Entry>

    /** A new hub reads from the start of the log, whatever earlier hubs of the commit stored. */
    constructor (store: CommitStore, ghost earlier: seq<Visit>, ghost earlierSwept: Option<nat>)
      ensures this.store == store && !closed && !terminal && lastSeq == 0
      ensures trace == earlier && swept == earlierSwept && frames == []
      ensures ValidSubs()
    {
      this.store := store;
      subs, closed, terminal, warned, cancelled, lastSeq := map[], false, false, false, false, 0;
      trace, swept, frames := earlier, earlierSwept, [];
    }

    /** Every subscriber was sent an increasing part of the broadcast frames; a closed hub has none. */
    ghost predicate ValidSubs()
      reads this`subs, this`closed, this`frames
    {
      && IncreasingFrames(frames)
      && (forall ch :: ch in subs ==> ValidChannel(subs[ch], frames))
      && (closed ==> subs == map[])
    }

    /** The tables are what the recorded visits, and the mark among them, make of `start`. */
    ghost predicate Faithful(log: seq<Entry>, start: Tables)
      reads this`trace, this`swept, this`terminal, store
    {
      && ValidTrace(log, trace)
      && ValidSweep(Events(log), trace, swept, start)
      && store.State() == Reached(Events(log), trace, swept, start)
      && (terminal ==> Overlay.Complete(Entries(trace), |log|))
    }

    /** The first `pos` entries were handled; those the cursor does not cover carry no event. */
    ghost predicate Covered(log: seq<Entry>, pos: nat)
      reads this`trace, this`lastSeq
    {
      && Cursor(log, lastSeq) <= pos <= |log|
      && (forall e :: Cursor(log, lastSeq) <= e < pos ==> !log[e].payload.Decoded?)
      && pos <= Overlay.Next(Entries(trace))
      && (forall e :: 0 <= e < pos ==> Handled(log, trace, e))
    }

    /** Only events of the log were broadcast, none beyond sequence `bound`. */
    ghost predicate BroadcastUpTo(log: seq<Entry>, bound: int)
      reads this`frames
    {
      forall f :: f in frames ==> f.seqNo <= bound && f in log && f.payload.Decoded?
    }

    ghost predicate ValidAt(log: seq<Entry>, start: Tables, pos: nat, bound: int)
      reads this, store
    {
      ValidSubs() && Faithful(log, start) && Covered(log, pos) && BroadcastUpTo(log, bound)
    }

    /**
      The hub's invariant: every entry its cursor covers was handled, and only events the
      cursor covers were broadcast, in order.
    */
    ghost predicate Valid(log: seq<Entry>, start: Tables)
      reads this, store
    {
      ValidAt(log, start, Cursor(log, lastSeq), lastSeq)
    }

    /**
      What a subscriber can rely on: it was sent frames in strictly increasing order, each
      one an event of the log whose write had succeeded unless the event is supplemental.
    */
    lemma SubscriberSeesStoredEvents(log: seq<Entry>, start: Tables, ch: int, k: nat) returns (i: nat)
      requires WellFormedLog(log) && Valid(log, start)
      requires ch in subs && k < |subs[ch].sent|
      ensures i < |log| && log[i] == subs[ch].sent[k]
      ensures Supplemental(EventOf(log[i])) || Visit(i, true) in trace
      ensures forall later :: k < later < |subs[ch].sent| ==> subs[ch].sent[k].seqNo < subs[ch].sent[later].seqNo
    {
      var frame := subs[ch].sent[k];
      assert frame in frames;
      i :| 0 <= i < |log| && log[i] == frame;
      if Cursor(log, lastSeq) <= i {
        EntriesBeyondCursor(log, lastSeq, i);
      }
      assert Handled(log, trace, i);
      var v :| v in trace && v.entry == i && (v.stored || Supplemental(EventOf(log[i])));
      assert v == Visit(i, v.stored);
    }

    /** finish: closes every channel and stops the stream; safe to call again. */
    method Finish()
      requires ValidSubs()
      modifies this`closed, this`subs, this`cancelled
      ensures ValidSubs() && closed && subs == map[]
    {
      if closed {
        return;
      }
      closed := true;
      subs := map[];
      cancelled := true;
    }

    /**
      broadcast: every channel with room gets the frame, a full one loses it.  Only a frame
      whose event was handled may be broadcast.
    */
    method Broadcast(ghost log: seq<Entry>, ghost i: nat, frame: Entry)
      requires ValidSubs()
      requires i < |log| && log[i] == frame && Handled(log, trace, i)
      requires forall f :: f in frames ==> f.seqNo < frame.seqNo
      modifies this`subs, this`warned, this`frames
      ensures ValidSubs()
      ensures frames == old(frames) + [frame]
      ensures subs.Keys == old(subs).Keys
      ensures forall ch :: ch in subs ==> subs[ch] == Offer(old(subs)[ch], frame)
      ensures forall ch :: ch in subs && |old(subs)[ch].queue| < SUBSCRIBER_BUFFER ==>
        subs[ch] == Channel(old(subs)[ch].queue + [frame], old(subs)[ch].sent + [frame])
      ensures forall ch :: ch in subs && |old(subs)[ch].queue| >= SUBSCRIBER_BUFFER ==> subs[ch] == old(subs)[ch]
    {
      var todo := subs.Keys;
      while todo != {}
        invariant todo <= subs.Keys && subs.Keys == old(subs).Keys && frames == old(frames)
        invariant forall ch :: ch in subs ==>
          subs[ch] == if ch in todo then old(subs)[ch] else Offer(old(subs)[ch], frame)
        decreases |todo|
      {
        var ch := MapOrder.Next(todo);
        warned := warned || |subs[ch].queue| >= SUBSCRIBER_BUFFER;
        subs := subs[ch := Offer(subs[ch], frame)];
        todo := todo - {ch};
      }
      frames := frames + [frame];
      forall ch | ch in subs ensures ValidChannel(subs[ch], frames) {
        OfferKeepsValid(old(subs)[ch], old(frames), frame);
      }
    }

    /** Subscribe, after the hub was found: refused once the hub is closed. */
    method Subscribe(ch: int) returns (ok: bool)
      requires ValidSubs() && ch !in subs
      modifies this`subs
      ensures ValidSubs() && ok == !closed
      ensures subs == if ok then old(subs)[ch := Channel([], [])] else old(subs)
    {
      if closed {
        return false;
      }
      subs := subs[ch := Channel([], [])];
      ok := true;
    }

    /**
      Another process marks the commit as failed: the sweeper, or a hub elsewhere that gave it
      up.  This may come between any two statements of the hub; a settled commit is not marked.
    */
    method Mark(ghost log: seq<Entry>, ghost start: Tables) returns (ok: bool)
      requires Faithful(log, start)
      modifies this`swept, store
      ensures Faithful(log, start)
      ensures ok ==> IsTerminalStatus(store.row.status)
      ensures store.State() == old(store.State()) || store.State() == ServerErrorEffect(old(store.State()))
    {
      hide Deliver, Reached, ValidSweep, Entries, OnlySupplementalSkipped;
      SweptNow(Events(log), trace, swept, start);
      var w: WriteOutcome := *;
      ghost var open := !IsTerminalStatus(store.row.status);
      ok := store.MarkServerError(w);
      if open && !w.NotStored? {
        swept := Some(|trace|);
      }
    }

    /** What other goroutines and processes do between two steps of the hub. */
    method Interfere(ghost log: seq<Entry>, ghost start: Tables)
      requires ValidSubs() && Faithful(log, start)
      modifies this`subs, this`closed, this`cancelled, this`swept, store
      ensures ValidSubs() && Faithful(log, start)
      ensures old(closed) ==> closed
    {
      hide ValidChannel, ValidTrace, ValidSweep, Reached, IncreasingFrames, Deliver, Entries;
      var steps: nat := *;
      while steps > 0
        invariant ValidSubs() && Faithful(log, start)
        invariant old(closed) ==> closed
      {
        steps := steps - 1;
        var kind: nat, ch: int := *, *;
        if kind == 0 {
          var _ := Mark(log, start);
        } else if kind == 1 {
          // CloseHub, by the sweeper that settled the commit.
          Finish();
        } else {
          SubscriberMoves(ch);
        }
      }
    }

    /** A client subscribes, takes its oldest frame, or disconnects. */
    method SubscriberMoves(ch: int)
      requires ValidSubs()
      modifies this`subs
      ensures ValidSubs()
    {
      var leaves: bool := *;
      if ch !in subs {
        var _ := Subscribe(ch);
      } else if leaves {
        subs := subs - {ch};
      } else if |subs[ch].queue| > 0 {
        subs := subs[ch := subs[ch].(queue := subs[ch].queue[1..])];
      }
    }

    /** Records what happened to one handed-over event. */
    ghost method Record(log: seq<Entry>, start: Tables, v: Visit)
      requires ValidTrace(log, trace) && ValidSweep(Events(log), trace, swept, start) && !terminal
      requires v.entry < |log| && v.entry <= Overlay.Next(Entries(trace))
      requires v.stored || Supplemental(EventOf(log[v.entry]))
      modifies this`trace
      ensures ValidTrace(log, trace) && ValidSweep(Events(log), trace, swept, start)
      ensures Overlay.Next(Entries(trace)) == v.entry + 1
      ensures Reached(Events(log), trace, swept, start)
           == VisitEffect(Events(log), v, Reached(Events(log), old(trace), swept, start))
      ensures Handled(log, trace, v.entry)
      ensures forall e: nat :: e < |log| && Handled(log, old(trace), e) ==> Handled(log, trace, e)
    {
      hide VisitEffect, Reached, Handled, Deliver, EventOf;
      TraceGrows(log, trace, v);
      HandledGrows(log, trace, v);
      ReachedAppends(Events(log), trace, swept, v, start);
      trace := trace + [v];
    }

    /** PersistEvent on the i-th entry, with its visit recorded when it had an effect. */
    method Persist(ghost log: seq<Entry>, ghost start: Tables, ghost i: nat, ev: Event)
      returns (ok: bool, ghost recorded: bool)
      requires Faithful(log, start) && !terminal
      requires i < |log| && i <= Overlay.Next(Entries(trace)) && ev == EventOf(log[i])
      modifies this`trace, this`swept, store
      ensures Faithful(log, start)
      ensures i <= Overlay.Next(Entries(trace))
      ensures ok ==> recorded
      ensures recorded ==> Handled(log, trace, i) && Overlay.Next(Entries(trace)) == i + 1
      ensures forall e: nat :: e < |log| && Handled(log, old(trace), e) ==> Handled(log, trace, e)
    {
      hide Deliver, Effect, Reached, Handled, ValidSweep;
      var _ := Mark(log, start);
      var w: WriteOutcome := *;
      ghost var before := store.State();
      PassedOverHasNoEffect(ev, before);
      ok := store.PersistEvent(ev, w);
      recorded := ok || store.State() != before;
      if recorded {
        Record(log, start, Visit(i, true));
      }
    }

    /** A terminal event is retried in line, so a short outage does not lose the verdict. */
    method PersistTerminalEvent(ghost log: seq<Entry>, ghost start: Tables, ghost i: nat, ev: Event) returns (ok: bool)
      requires Faithful(log, start) && !terminal
      requires i < |log| && i <= Overlay.Next(Entries(trace)) && ev == EventOf(log[i])
      modifies this`trace, this`swept, store
      ensures Faithful(log, start)
      ensures i <= Overlay.Next(Entries(trace))
      ensures ok ==> Handled(log, trace, i) && Overlay.Next(Entries(trace)) == i + 1
      ensures forall e: nat :: e < |log| && Handled(log, old(trace), e) ==> Handled(log, trace, e)
    {
      ok := false;
      for attempt := 1 to TERMINAL_PERSIST_ATTEMPTS + 1
        invariant Faithful(log, start) && !ok
        invariant i <= Overlay.Next(Entries(trace))
        invariant forall e: nat :: e < |log| && Handled(log, old(trace), e) ==> Handled(log, trace, e)
      {
        ghost var recorded;
        ok, recorded := Persist(log, start, i, ev);
        if ok {
          return;
        }
        var contextEnded: bool := *;
        if contextEnded {
          return;
        }
      }
    }

    /** Stores an event other than the verdict, or accepts the loss of a supplemental one. */
    method PersistOrdinary(ghost log: seq<Entry>, ghost start: Tables, ghost i: nat, ev: Event) returns (ok: bool)
      requires Faithful(log, start) && !terminal
      requires i < |log| && i <= Overlay.Next(Entries(trace)) && ev == EventOf(log[i])
      modifies this`trace, this`swept, store
      ensures Faithful(log, start) && i <= Overlay.Next(Entries(trace))
      ensures ok ==> Handled(log, trace, i) && Overlay.Next(Entries(trace)) == i + 1
      ensures ev.TimingsEvent? || ev.AlertEvent? ==> ok
      ensures forall e: nat :: e < |log| && Handled(log, old(trace), e) ==> Handled(log, trace, e)
    {
      hide Effect, Cursor, Handled, EndsWithVerdict;
      ghost var recorded;
      ok, recorded := Persist(log, start, i, ev);
      if !ok && Supplemental(ev) {
        if !recorded {
          Record(log, start, Visit(i, false));
        }
        ok := true;
      }
    }

    /** A status, compilation, case_result, artifact or error event, or a supplemental one. */
    method HandleOrdinary(ghost log: seq<Entry>, ghost start: Tables, ghost i: nat, entry: Entry) returns (ok: bool)
      requires ValidAt(log, start, i, lastSeq) && !terminal && lastSeq < entry.seqNo
      requires i < |log| && log[i] == entry && entry.payload.Decoded? && !entry.payload.ev.FinishedEvent?
      modifies this`subs, this`warned, this`frames, this`trace, this`swept, store
      ensures ValidAt(log, start, i, if ok then entry.seqNo else lastSeq)
      ensures ok ==> Handled(log, trace, i) && Overlay.Next(Entries(trace)) == i + 1
      ensures frames == old(frames) + if ok then [entry] else []
      ensures entry.payload.ev.TimingsEvent? || entry.payload.ev.AlertEvent? ==> ok
    {
      hide Deliver, Effect, ValidTrace, Handled, ValidChannel, Entries, EndsWithVerdict;
      ok := PersistOrdinary(log, start, i, entry.payload.ev);
      if ok {
        Broadcast(log, i, entry);
      }
    }

    method Announce(ghost log: seq<Entry>, ghost i: nat, entry: Entry)
      requires i < |log| && log[i] == entry && Handled(log, trace, i)
      requires ValidSubs() && (forall f :: f in frames ==> f.seqNo < entry.seqNo)
      modifies this`subs, this`warned, this`frames, this`terminal, this`closed, this`cancelled
      ensures ValidSubs() && terminal && closed
      ensures frames == old(frames) + [entry]
    {
      terminal := true;
      Broadcast(log, i, entry);
      Finish();
    }

    /** The verdict closes the hub, but only once it was stored. */
    method HandleVerdict(ghost log: seq<Entry>, ghost start: Tables, ghost i: nat, entry: Entry) returns (ok: bool)
      requires ValidAt(log, start, i, lastSeq) && !terminal && lastSeq < entry.seqNo
      requires i == |log| - 1 && log[i] == entry && entry.payload.Decoded?
      modifies this`subs, this`warned, this`frames, this`trace, this`swept, this`terminal, this`closed, this`cancelled, store
      ensures ValidAt(log, start, i, if ok then entry.seqNo else lastSeq)
      ensures ok ==> Handled(log, trace, i) && Overlay.Next(Entries(trace)) == i + 1
      ensures frames == old(frames) + if ok then [entry] else []
      ensures terminal == ok && (ok ==> closed)
    {
      ok := PersistTerminalEvent(log, start, i, entry.payload.ev);
      if ok {
        VerdictCompletes(log, trace);
        Announce(log, i, entry);
      }
    }

    /**
      handleEvent.  A frame reaches the subscribers only once its event was handled; a
      failure leaves the cursor where it was, so the judge sends the event again.
    */
    method HandleEvent(ghost log: seq<Entry>, ghost start: Tables, ghost i: nat, entry: Entry) returns (ok: bool)
      requires WellFormedLog(log) && ValidAt(log, start, i, lastSeq) && !terminal && lastSeq < entry.seqNo
      requires i < |log| && log[i] == entry && entry.payload.Decoded?
      modifies this`subs, this`warned, this`frames, this`trace, this`swept, this`terminal, this`closed, this`cancelled, store
      ensures ValidAt(log, start, i, if ok then entry.seqNo else lastSeq)
      ensures ok ==> Handled(log, trace, i) && Overlay.Next(Entries(trace)) == i + 1
      ensures frames == old(frames) + if ok then [entry] else []
      ensures terminal <==> ok && entry.payload.ev.FinishedEvent?
    {
      VerdictIsLast(log, i);
      if !entry.payload.ev.FinishedEvent? {
        ok := HandleOrdinary(log, start, i, entry);
      } else {
        ok := HandleVerdict(log, start, i, entry);
      }
    }

    /** A frame without an event is passed over; the cursor stays. */
    ghost method PassOver(log: seq<Entry>, start: Tables, i: nat)
      requires ValidAt(log, start, i, lastSeq) && !terminal
      requires i < |log| && !log[i].payload.Decoded?
      modifies this`trace
      ensures ValidAt(log, start, i + 1, lastSeq)
    {
      Record(log, start, Visit(i, true));
    }

    lemma AdvanceKeepsValid(log: seq<Entry>, i: nat, before: int)
      requires WellFormedLog(log) && i < |log|
      requires lastSeq == log[i].seqNo
      requires Overlay.Next(Entries(trace)) == i + 1
      requires forall e: nat :: e < i + 1 ==> Handled(log, trace, e)
      ensures Covered(log, i + 1)
    {
      CursorAt(log, i);
    }

    /** The callback of stream: the cursor moves only past an event that was handled. */
    method Receive(ghost log: seq<Entry>, ghost start: Tables, ghost i: nat, entry: Entry) returns (ok: bool)
      requires WellFormedLog(log) && ValidAt(log, start, i, lastSeq) && !terminal
      requires i < |log| && log[i] == entry
      modifies this, store
      ensures ValidAt(log, start, if ok then i + 1 else i, lastSeq)
      ensures terminal ==> ok
    {
      hide Events, Deliver, ValidTrace, EndsWithVerdict, Effect, ValidChannel, Handled, Entries;
      if !entry.payload.Decoded? {
        PassOver(log, start, i);
        return true;
      }
      EntriesBeyondCursor(log, lastSeq, i);
      ok := HandleEvent(log, start, i, entry);
      if ok {
        lastSeq := if entry.seqNo > lastSeq then entry.seqNo else lastSeq;
        AdvanceKeepsValid(log, i, lastSeq);
      }
    }

    /** stream: one connection, read until it ends, breaks, or delivers the verdict. */
    method Stream(log: seq<Entry>, ghost start: Tables) returns (failed: bool)
      requires WellFormedLog(log) && Valid(log, start) && !terminal
      modifies this, store
      ensures Valid(log, start)
    {
      hide Deliver, Effect, EndsWithVerdict, ValidChannel, IncreasingFrames, Handled, ValidTrace, Entries, ValidSweep, Reached;
      var connected: bool := *;
      if !connected {
        return true;
      }
      for i := Cursor(log, lastSeq) to |log|
        invariant ValidAt(log, start, i, lastSeq) && !terminal
      {
        Interfere(log, start);
        var broken, cleanEnd: bool := *, *;
        if broken {
          return !cleanEnd;
        }
        var ok := Receive(log, start, i, log[i]);
        if !ok {
          return true;
        }
        if terminal {
          break;
        }
      }
      failed := *;
    }

    /**
      run: reconnects after a failed connection, and gives the commit up after a clean end
      without a verdict or after the last attempt.  When it returns, the hub is closed and
      the verdict was stored, or the context ended, or the commit was given up; a commit
      given up is settled unless that write failed too.  A stored verdict leaves the tables
      of one pass over the log, unless the commit had been marked as failed before.
    */
    method Run(log: seq<Entry>, ghost start: Tables) returns (end: RunEnd)
      requires WellFormedLog(log) && Valid(log, start) && !terminal
      modifies this, store
      ensures closed && ValidSubs() && Faithful(log, start)
      ensures forall e: nat :: e < Cursor(log, lastSeq) ==> Handled(log, trace, e)
      ensures BroadcastUpTo(log, lastSeq)
      ensures end.VerdictStored? <==> terminal
      ensures end.VerdictStored? ==> Settlement(log, trace, swept, start, store.State())
      ensures end.GaveUp? && end.marked ==> IsTerminalStatus(store.row.status)
    {
      hide Deliver, Effect, EndsWithVerdict, ValidChannel, IncreasingFrames, WellFormedLog, Handled, Cursor, ApplyLog, Entries, VisitEffect, ValidTrace, ValidSweep, Reached, Settlement;
      var attempt := 1;
      while attempt <= MAX_STREAM_ATTEMPTS
        invariant Valid(log, start) && !terminal
        decreases MAX_STREAM_ATTEMPTS + 1 - attempt
      {
        var failed := Stream(log, start);
        Interfere(log, start);
        var timedOut: bool := *;
        if terminal {
          StoredVerdictConverges(log, trace, swept, start);
          Finish();
          return VerdictStored;
        }
        if cancelled || timedOut {
          Finish();
          return ContextEnded;
        }
        if !failed {
          break;
        }
        Interfere(log, start);
        timedOut := *;
        if cancelled || timedOut {
          Finish();
          return ContextEnded;
        }
        attempt := attempt + 1;
      }
      // failServerError
      var marked := Mark(log, start);
      Finish();
      end := GaveUp(marked);
    }
  }

  /**
    Consume, across any number of backend restarts: each restart drops the hub and opens
    a new one at the start of the log.  Once some hub stores the verdict, the commit row,
    case results and artifacts are those of one pass over the log; or the commit was marked
    as failed after the first visits, and the row and case results are those of that moment.
  */
  method Consume(log: seq<Entry>, store: CommitStore)
    returns (end: RunEnd, ghost trace: seq<Visit>, ghost swept: Option<nat>)
    requires WellFormedLog(log)
    modifies store
    ensures ValidTrace(log, trace) && ValidSweep(Events(log), trace, swept, old(store.State()))
    ensures store.State() == Reached(Events(log), trace, swept, old(store.State()))
    ensures end.VerdictStored? ==> Settlement(log, trace, swept, old(store.State()), store.State())
    ensures end.GaveUp? && end.marked ==> IsTerminalStatus(store.row.status)
  {
    hide Deliver, ApplyLog, EndsWithVerdict, ValidTrace, Settlement, Entries;
    ghost var start := store.State();
    BeginsAtZero(log, start);
    var hub := new Hub(store, [], None);
    end := hub.Run(log, start);
    var restarts: nat := *;
    while end.ContextEnded? && restarts > 0
      invariant hub.store == store && fresh(hub)
      invariant hub.Faithful(log, start)
      invariant end.VerdictStored? ==> Settlement(log, hub.trace, hub.swept, start, store.State())
      invariant end.GaveUp? && end.marked ==> IsTerminalStatus(store.row.status)
      decreases restarts
    {
      restarts := restarts - 1;
      hub := new Hub(store, hub.trace, hub.swept);
      end := hub.Run(log, start);
    }
    trace, swept := hub.trace, hub.swept;
  }

  lemma BeginsAtZero(log: seq<Entry>, start: Tables)
    requires WellFormedLog(log)
    ensures Cursor(log, 0) == 0
    ensures ValidTrace(log, []) && Reached(Events(log), [], None, start) == start
  {
  }
}
