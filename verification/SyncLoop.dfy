/** The loop that decides when to pull and from which instant, behind the rate limiter. */
module SyncLoop {
  import opened TokenBucket

  /** One call of the loader: its `since`, the instant just before it, and whether it succeeded. */
  datatype Load = Load(since: real, start: real, ok: bool)

  /** What the loop has done: a ticker or trigger event that loaded or was rate-limited, or a call of TriggerSync. */
  datatype Move =
    | Loaded(byTick: bool, start: real, ok: bool)
    | Limited(byTick: bool)
    | Triggered

  datatype Loop = Loop(lastAt: real, pending: bool, log: seq<Load>)

  predicate Enabled(s: Loop, m: Move) {
    m.Triggered? || m.byTick || s.pending
  }

  function Next(s: Loop, m: Move): Loop {
    match m
    case Triggered => s.(pending := true)
    case Limited(byTick) => s.(pending := byTick && s.pending)
    case Loaded(byTick, start, ok) =>
      Loop(if ok then start else s.lastAt, byTick && s.pending, s.log + [Load(s.lastAt, start, ok)])
  }

  ghost predicate Possible(s: Loop, ms: seq<Move>) {
    ms == [] || (Possible(s, ms[..|ms| - 1]) && Enabled(RunLoop(s, ms[..|ms| - 1]), ms[|ms| - 1]))
  }

  function RunLoop(s: Loop, ms: seq<Move>): Loop {
    if ms == [] then s else Next(RunLoop(s, ms[..|ms| - 1]), ms[|ms| - 1])
  }

  // ---- sync windows tile time ----

  /** Where the window of the next load must begin: the start of the last successful load. */
  function Frontier(since: real, log: seq<Load>): real {
    if log == [] then since
    else if log[|log| - 1].ok then log[|log| - 1].start
    else Frontier(since, log[..|log| - 1])
  }

  ghost predicate Tiles(since: real, log: seq<Load>) {
    forall i :: 0 <= i < |log| ==> log[i].since == Frontier(since, log[..i])
  }

  lemma TilesSnoc(since: real, log: seq<Load>, l: Load)
    requires Tiles(since, log) && l.since == Frontier(since, log)
    ensures Tiles(since, log + [l]) && Frontier(since, log + [l]) == if l.ok then l.start else Frontier(since, log)
  {
    var more := log + [l];
    assert more[..|log|] == log;
    forall i | 0 <= i < |more| ensures more[i].since == Frontier(since, more[..i]) {
      if i < |log| { assert more[..i] == log[..i]; }
    }
  }

  /**
   In every run each load begins exactly where the last successful one began its query; failures and refusals move
   nothing.
   */
  lemma {:induction false} WindowsTile(since: real, ms: seq<Move>)
    ensures var s := RunLoop(Loop(since, false, []), ms);
      s.lastAt == Frontier(since, s.log) && Tiles(since, s.log)
    decreases |ms|
  {
    if ms != [] {
      var front, m := ms[..|ms| - 1], ms[|ms| - 1];
      WindowsTile(since, front);
      var s := RunLoop(Loop(since, false, []), front);
      if m.Loaded? { TilesSnoc(since, s.log, Load(s.lastAt, m.start, m.ok)); }
    }
  }

  lemma {:induction false} FrontierAfter(since: real, log: seq<Load>, i: nat)
    requires i < |log| && log[i].ok && forall k :: i < k < |log| ==> !log[k].ok
    ensures Frontier(since, log) == log[i].start
    decreases |log|
  {
    if i < |log| - 1 {
      FrontierAfter(since, log[..|log| - 1], i);
    }
  }

  /** So consecutive successful loads leave no gap and no overlap. */
  lemma ConsecutiveWindows(since: real, log: seq<Load>, i: nat, j: nat)
    requires Tiles(since, log) && i < j < |log| && log[i].ok && forall k :: i < k < j ==> !log[k].ok
    ensures log[j].since == log[i].start
  {
    FrontierAfter(since, log[..j], i);
  }

  /** The starts of the loads, in order, never run backwards from `since`. */
  ghost predicate Forward(since: real, ms: seq<Move>) {
    && (forall i :: 0 <= i < |ms| && ms[i].Loaded? ==> since <= ms[i].start)
    && (forall i, j :: 0 <= i < j < |ms| && ms[i].Loaded? && ms[j].Loaded? ==> ms[i].start <= ms[j].start)
  }

  /** `lastAt` is `since` or a start already taken. */
  lemma {:induction false} LastAtBelow(since: real, ms: seq<Move>, x: real)
    requires since <= x && forall i :: 0 <= i < |ms| && ms[i].Loaded? ==> ms[i].start <= x
    ensures RunLoop(Loop(since, false, []), ms).lastAt <= x
  {
    if ms != [] {
      LastAtBelow(since, ms[..|ms| - 1], x);
    }
  }

  /** With a clock that does not run backwards, `lastAt` never decreases along a run. */
  lemma {:induction false} LastAtMonotone(since: real, ms: seq<Move>, k: nat)
    requires Forward(since, ms) && k <= |ms|
    ensures since <= RunLoop(Loop(since, false, []), ms[..k]).lastAt <= RunLoop(Loop(since, false, []), ms).lastAt
    decreases |ms|
  {
    if k == |ms| {
      assert ms[..k] == ms;
    }
    if ms != [] {
      var front, m := ms[..|ms| - 1], ms[|ms| - 1];
      LastAtMonotone(since, front, if k < |ms| then k else |ms| - 1);
      if k < |ms| {
        assert front[..k] == ms[..k];
      }
      if m.Loaded? {
        LastAtBelow(since, front, m.start);
      }
    }
  }

  // ---- triggers ----

  function Ticks(ms: seq<Move>): nat {
    if ms == [] then 0
    else Ticks(ms[..|ms| - 1]) + (if !ms[|ms| - 1].Triggered? && ms[|ms| - 1].byTick then 1 else 0)
  }

  function Receives(ms: seq<Move>): nat {
    if ms == [] then 0
    else Receives(ms[..|ms| - 1]) + (if !ms[|ms| - 1].Triggered? && !ms[|ms| - 1].byTick then 1 else 0)
  }

  /** Trigger calls that found the slot empty. */
  function Accepted(s: Loop, ms: seq<Move>): nat {
    if ms == [] then 0
    else
      var front := ms[..|ms| - 1];
      Accepted(s, front) + (if ms[|ms| - 1].Triggered? && !RunLoop(s, front).pending then 1 else 0)
  }

  /**
   In every run: accepted triggers are the received ones plus the one that may be pending, so no accepted call is lost
   and at most one waits; and loads never exceed ticks plus accepted triggers.
   */
  lemma {:induction false} TriggerAccounting(since: real, ms: seq<Move>)
    requires Possible(Loop(since, false, []), ms)
    ensures var s0 := Loop(since, false, []); var s := RunLoop(s0, ms);
      && Accepted(s0, ms) == Receives(ms) + (if s.pending then 1 else 0)
      && |s.log| <= Ticks(ms) + Receives(ms) <= Ticks(ms) + Accepted(s0, ms)
  {
    if ms != [] {
      TriggerAccounting(since, ms[..|ms| - 1]);
    }
  }

  /**
   A trigger is pending exactly when some call came after the last receive: no call is forgotten before a later
   receive.
   */
  lemma {:induction false} PendingExactly(since: real, ms: seq<Move>)
    ensures RunLoop(Loop(since, false, []), ms).pending <==>
            exists i :: 0 <= i < |ms| && ms[i].Triggered?
                        && forall j :: i < j < |ms| ==> ms[j].Triggered? || ms[j].byTick
  {
    if ms != [] {
      var n := |ms| - 1;
      var front := ms[..n];
      PendingExactly(since, front);
      if ms[n].Triggered? {
      } else if ms[n].byTick {
        if i :| 0 <= i < n && front[i].Triggered? && forall j :: i < j < n ==> front[j].Triggered? || front[j].byTick {
          assert ms[i].Triggered? && forall j :: i < j < |ms| ==> ms[j].Triggered? || ms[j].byTick;
        }
        if i :| 0 <= i < |ms| && ms[i].Triggered? && forall j :: i < j < |ms| ==> ms[j].Triggered? || ms[j].byTick {
          assert front[i].Triggered? && forall j :: i < j < n ==> front[j].Triggered? || front[j].byTick;
        }
      }
    }
  }

  // ---- the object ----

  /** What the select statement may wake up on, with the clock readings and the loader's outcome it then meets. */
  datatype Event =
    | Tick(at: real, start: real, ok: bool)
    | Receive(at: real, start: real, ok: bool)
    | Call

  class PGSyncer {
    var lastAt: real
    var trigger: bool
    const bucket: Bucket
    ghost var log: seq<Load>

    ghost function State(): Loop
      reads this
    {
      Loop(lastAt, trigger, log)
    }

    ghost predicate Valid()
      reads this, bucket
    {
      bucket.Valid() && |log| == Grants(bucket.capacity, bucket.times, 0, |bucket.times|)
    }

    /** A rate limit that is not positive counts as 1. */
    constructor (since: real, rateLimit: int, now: real)
      ensures Valid() && State() == Loop(since, false, []) && fresh(bucket)
      ensures bucket.capacity == (if rateLimit <= 0 then 1 else rateLimit) && bucket.times == [now]
    {
      var capacity: nat := if rateLimit <= 0 then 1 else rateLimit;
      bucket := new Bucket(capacity, now);
      lastAt := since;
      trigger := false;
      log := [];
    }

    /** Non-blocking: the slot holds one pending trigger. */
    method TriggerSync()
      requires Valid()
      modifies this`trigger
      ensures Valid() && State() == Next(old(State()), Triggered)
    {
      if !trigger {
        trigger := true;
      }
    }

    /** One attempt: refused by the bucket, or one load from `lastAt`, which moves to `start` only on success. */
    method DoSync(at: real, start: real, loadOk: bool) returns (loaded: bool)
      requires Valid() && bucket.last <= at
      modifies this`lastAt, this`log, bucket
      ensures Valid() && bucket.last == at && bucket.times == old(bucket.times) + [at]
      ensures loaded <==> Granted(bucket.capacity, bucket.times, |bucket.times| - 1)
      ensures log == old(log) + (if loaded then [Load(old(lastAt), start, loadOk)] else [])
      ensures lastAt == if loaded && loadOk then start else old(lastAt)
    {
      GrantsPrefix(bucket.capacity, bucket.times, bucket.times + [at]);
      loaded := bucket.Allow(at);
      if !loaded {
        return;
      }
      var since := lastAt;
      log := log + [Load(since, start, loadOk)];
      if loadOk {
        lastAt := start;
      }
    }

    /** One event of the loop, as a move. */
    method Handle(e: Event) returns (ghost m: Move)
      requires Valid() && (!e.Call? ==> bucket.last <= e.at) && (e.Receive? ==> trigger)
      modifies this, bucket
      ensures Valid() && bucket.last == if e.Call? then old(bucket.last) else e.at
      ensures Enabled(old(State()), m) && State() == Next(old(State()), m)
      ensures MoveOf(m, e)
      ensures !e.Call? ==> bucket.times == old(bucket.times) + [e.at]
                           && (m.Loaded? <==> Granted(bucket.capacity, bucket.times, |bucket.times| - 1))
    {
      match e
      case Call =>
        TriggerSync();
        m := Triggered;
      case Tick(at, start, ok) =>
        var loaded := DoSync(at, start, ok);
        m := if loaded then Loaded(true, start, ok) else Limited(true);
      case Receive(at, start, ok) =>
        trigger := false;
        var loaded := DoSync(at, start, ok);
        m := if loaded then Loaded(false, start, ok) else Limited(false);
    }

    /**
     The loop over whatever events the scheduler delivers; a receive is delivered only when a trigger is pending. The
     moves made are those events, one for one, so from a new object the loads are bounded by the ticks and calls
     delivered.
     */
    method Start(events: seq<Event>) returns (ghost ms: seq<Move>, handled: nat)
      requires Valid() && Ordered(bucket.last, events)
      modifies this, bucket
      ensures Valid() && Possible(old(State()), ms) && State() == RunLoop(old(State()), ms)
      ensures handled <= |events| && Follows(ms, events[..handled])
      ensures handled < |events| ==> events[handled].Receive? && !trigger
      ensures old(State()) == Loop(old(lastAt), false, []) ==>
                |log| <= TickEvents(events[..handled]) + ReceiveEvents(events[..handled])
                && ReceiveEvents(events[..handled]) + (if trigger then 1 else 0) <= CallEvents(events[..handled])
    {
      ghost var s := State();
      ms := [];
      handled := 0;
      while handled < |events|
        invariant 0 <= handled <= |events| && Follows(ms, events[..handled])
        invariant Valid() && Ordered(bucket.last, events[handled..])
        invariant Possible(s, ms) && State() == RunLoop(s, ms)
      {
        if events[handled].Receive? && !trigger {
          break;
        }
        OrderedTail(bucket.last, events, handled);
        ghost var m := Handle(events[handled]);
        FollowsSnoc(ms, events[..handled], m, events[handled]);
        assert events[..handled + 1] == events[..handled] + [events[handled]];
        ms := ms + [m];
        assert ms[..|ms| - 1] == ms[..handled];
        handled := handled + 1;
      }
      if s == Loop(s.lastAt, false, []) { EventAccounting(s.lastAt, ms, events[..handled]); }
    }
  }

  // ---- the accounting over the events delivered ----

  /** The move is what the loop does on the event. */
  ghost predicate MoveOf(m: Move, e: Event) {
    && (m.Triggered? <==> e.Call?)
    && (!e.Call? ==> m.byTick == e.Tick? && (m.Loaded? ==> m.start == e.start && m.ok == e.ok))
  }

  ghost predicate Follows(ms: seq<Move>, events: seq<Event>) {
    |ms| == |events| && forall k :: 0 <= k < |ms| ==> MoveOf(ms[k], events[k])
  }

  lemma FollowsSnoc(ms: seq<Move>, events: seq<Event>, m: Move, e: Event)
    requires Follows(ms, events) && MoveOf(m, e)
    ensures Follows(ms + [m], events + [e])
  {
  }

  function TickEvents(events: seq<Event>): nat {
    if events == [] then 0 else TickEvents(events[..|events| - 1]) + if events[|events| - 1].Tick? then 1 else 0
  }

  function ReceiveEvents(events: seq<Event>): nat {
    if events == [] then 0 else ReceiveEvents(events[..|events| - 1]) + if events[|events| - 1].Receive? then 1 else 0
  }

  /** Calls of TriggerSync. */
  function CallEvents(events: seq<Event>): nat {
    if events == [] then 0 else CallEvents(events[..|events| - 1]) + if events[|events| - 1].Call? then 1 else 0
  }

  lemma {:induction false} EventCounts(s: Loop, ms: seq<Move>, events: seq<Event>)
    requires Follows(ms, events)
    ensures Ticks(ms) == TickEvents(events) && Receives(ms) == ReceiveEvents(events)
            && Accepted(s, ms) <= CallEvents(events)
    decreases |ms|
  {
    if ms != [] {
      EventCounts(s, ms[..|ms| - 1], events[..|events| - 1]);
      assert MoveOf(ms[|ms| - 1], events[|events| - 1]);
    }
  }

  /**
   Loads never exceed the ticks and receives delivered; receives are the accepted calls less the one that may wait, so
   they never exceed the calls made.
   */
  lemma EventAccounting(since: real, ms: seq<Move>, events: seq<Event>)
    requires Possible(Loop(since, false, []), ms) && Follows(ms, events)
    ensures var s0 := Loop(since, false, []); var s := RunLoop(s0, ms);
      && |s.log| <= TickEvents(events) + ReceiveEvents(events)
      && ReceiveEvents(events) + (if s.pending then 1 else 0) == Accepted(s0, ms) <= CallEvents(events)
  {
    TriggerAccounting(since, ms);
    EventCounts(Loop(since, false, []), ms, events);
  }

  /** The clock readings of the events do not run backwards. */
  ghost predicate Ordered(last: real, events: seq<Event>)
    decreases |events|
  {
    events == [] || (
      if events[0].Call? then Ordered(last, events[1..])
      else last <= events[0].at && Ordered(events[0].at, events[1..]))
  }

  lemma OrderedTail(last: real, events: seq<Event>, n: nat)
    requires n < |events| && Ordered(last, events[n..])
    ensures events[n].Call? ==> Ordered(last, events[n + 1..])
    ensures !events[n].Call? ==> last <= events[n].at && Ordered(events[n].at, events[n + 1..])
  {
  }

  lemma GrantsPrefix(capacity: nat, early: seq<real>, late: seq<real>)
    requires early <= late
    ensures Grants(capacity, early, 0, |early|) == Grants(capacity, late, 0, |early|)
  {
    GrantsUpTo(capacity, early, late, |early|);
  }

  lemma {:induction false} GrantsUpTo(capacity: nat, early: seq<real>, late: seq<real>, n: nat)
    requires early <= late && n <= |early|
    ensures Grants(capacity, early, 0, n) == Grants(capacity, late, 0, n)
  {
    if n > 0 {
      GrantsUpTo(capacity, early, late, n - 1);
      HistoryPrefix(capacity, early, late, n - 1);
    }
  }

  /** The loads an instance has ever made are bounded by the rate limit over its lifetime. */
  lemma LoadsBounded(p: PGSyncer)
    requires p.Valid()
    ensures |p.log| as real <= p.bucket.capacity as real * (1.0 + (p.bucket.last - p.bucket.times[0]) / SECOND)
  {
    WindowBound(p.bucket.capacity, p.bucket.times, 0, |p.bucket.times| - 1);
  }
}
