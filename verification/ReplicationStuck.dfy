/**
 What it means for an instance to be outside the invariant. In every serving phase each id agrees or is still going to
 be repaired; an id that neither agrees nor is going to be repaired stays wrong, whatever else happens, until its row
 or its zone is written again.
 */
module ReplicationStuck {
  import opened Records
  import opened ZoneSpec
  import opened Changes
  import opened Database
  import opened Replication
  import opened ReplicationProof

  // ---- what is still going to be repaired ----

  /**
   A disagreement about the id is going to be repaired: by the next pull, and by the pull in progress if there is one.
   */
  predicate Repairable(db: Db, n: Instance, id: int) {
    && Dirty(db, id, n.lastAt)
    && match n.phase
       case PullingZones(q, pending) => Dirty(db, id, q) || ZoneAwaited(db, pending, id) || RowAwaited(db, n.lastAt, id)
       case PullingRecords(q, pending) => Dirty(db, id, q) || RowFetched(db, pending, id)
       case _ => true
  }

  /** The part of the invariant that does not depend on what memory holds. */
  ghost predicate Framed(db: Db, now: nat, n: Instance) {
    match n.phase
    case Begun(q) => n.lastAt <= q <= now
    case PullingZones(q, pending) =>
      n.lastAt <= q <= now && forall c :: c in pending ==> c.ZoneGone? && Harmless(db, c, q)
    case PullingRecords(q, pending) =>
      n.lastAt <= q <= now && forall c :: c in pending ==> !c.ZoneGone? && Harmless(db, c, q)
    case _ => n.lastAt <= now
  }

  /** In every serving phase: each id agrees or is still going to be repaired. */
  lemma InstOkExactly(db: Db, now: nat, n: Instance)
    requires Up(n.phase)
    ensures InstOk(db, now, n) <==>
            && Framed(db, now, n) && Good(n.mem) && Traceable(db, n.mem)
            && forall id: int :: Agree(db, n.mem, id) || Repairable(db, n, id)
  {
  }

  // ---- small steps ----

  /** A change that does not cover an id leaves what memory says about it. */
  lemma SparedAgree(db: Db, mem: Zones, c: Change, q: nat, id: int)
    requires Good(mem) && Traceable(db, mem) && Harmless(db, c, q) && !Covers(db, c, id)
    ensures var mem' := ApplyOne(mem, c);
      && Good(mem') && Traceable(db, mem')
      && forall a, r: Record :: r.id == id ==> (Has(mem', a, r) <==> Has(mem, a, r))
  {
    HarmlessKeysAgree(db, mem, c, q);
    ApplyOneHas(mem, c);
    forall a, r: Record | r.id == id ensures Has(ApplyOne(mem, c), a, r) <==> Has(mem, a, r) {
      if Has(mem, a, r) { assert db.rows[id].apex == a; }
    }
  }

  lemma SameAgree(db: Db, mem: Zones, mem': Zones, id: int)
    requires forall a, r: Record :: r.id == id ==> (Has(mem', a, r) <==> Has(mem, a, r))
    ensures Agree(db, mem', id) <==> Agree(db, mem, id)
  {
  }

  // ---- ids that stay wrong ----

  function PendingOf(p: Phase): set<Change> {
    match p
    case PullingZones(_, pending) => pending
    case PullingRecords(_, pending) => pending
    case _ => {}
  }

  /**
   The id disagrees, nothing fetched speaks about it, and it is not going to be repaired, unless the pull in progress
   fails.
   */
  ghost predicate Doomed(db: Db, now: nat, n: Instance, id: int) {
    && Up(n.phase) && Framed(db, now, n) && Good(n.mem) && Traceable(db, n.mem)
    && !Agree(db, n.mem, id) && !Repairable(db, n, id)
    && forall c :: c in PendingOf(n.phase) ==> !Covers(db, c, id)
  }

  /** Not even then. */
  ghost predicate Stuck(db: Db, now: nat, n: Instance, id: int) {
    Doomed(db, now, n, id) && !Dirty(db, id, n.lastAt)
  }

  /** What a pull has fetched was stamped after `lastAt`, and what it is about still is. */
  ghost predicate FetchedLater(db: Db, n: Instance) {
    forall c :: c in PendingOf(n.phase) ==>
      if c.ZoneGone? then c.apex in db.zones && db.zones[c.apex].deleted && db.zones[c.apex].stamp > n.lastAt
      else forall id :: Covers(db, c, id) ==> Dirty(db, id, n.lastAt)
  }

  lemma FetchedDirty(db: Db, n: Instance, c: Change, id: int)
    requires FetchedLater(db, n) && c in PendingOf(n.phase) && Covers(db, c, id)
    ensures Dirty(db, id, n.lastAt)
  {
  }

  /** Nothing fetched speaks about an id that is not going to be repaired. */
  lemma NotRepairableIsUncovered(db: Db, now: nat, n: Instance, id: int)
    requires Up(n.phase) && Framed(db, now, n) && FetchedLater(db, n) && !Repairable(db, n, id)
    ensures forall c :: c in PendingOf(n.phase) ==> !Covers(db, c, id)
  {
    forall c | c in PendingOf(n.phase) ensures !Covers(db, c, id) {
      if Covers(db, c, id) { FetchedDirty(db, n, c, id); }
    }
  }

  /** An instance outside the invariant, in any serving phase, has a doomed id, unless its frame is what is broken. */
  lemma BrokenIsDoomed(db: Db, now: nat, n: Instance)
    requires Up(n.phase) && Framed(db, now, n) && Good(n.mem) && Traceable(db, n.mem) && FetchedLater(db, n)
    requires !InstOk(db, now, n)
    ensures exists id: int :: Doomed(db, now, n, id)
  {
    InstOkExactly(db, now, n);
    var id: int :| !Agree(db, n.mem, id) && !Repairable(db, n, id);
    NotRepairableIsUncovered(db, now, n, id);
    assert Doomed(db, now, n, id);
  }

  /** When no pull is in progress a doomed id is stuck. */
  lemma DoomedIdleIsStuck(db: Db, now: nat, n: Instance, id: int)
    requires Doomed(db, now, n, id) && (n.phase.Idle? || n.phase.Begun?)
    ensures Stuck(db, now, n, id)
  {
  }

  // ---- fetched rows stay stamped after `lastAt` in every run ----

  lemma FetchedCommit(db: Db, db': Db, now: nat, t: nat, n: Instance)
    requires Wellformed(db, now) && Wellformed(db', t) && Commits(db, db', t) && now < t
    requires Up(n.phase) && Framed(db, now, n) && FetchedLater(db, n)
    ensures FetchedLater(db', n)
  {
    forall c | c in PendingOf(n.phase)
      ensures if c.ZoneGone? then c.apex in db'.zones && db'.zones[c.apex].deleted && db'.zones[c.apex].stamp > n.lastAt
              else forall id :: Covers(db', c, id) ==> Dirty(db', id, n.lastAt)
    {
      if c.ZoneGone? {
        assert ZoneMoves(db, db', t, c.apex);
      } else {
        forall id | Covers(db', c, id) ensures Dirty(db', id, n.lastAt) {
          assert RowMoves(db, db', t, id);
          assert Covers(db, c, id);
          CommitDirty(db, db', now, t, id, n.lastAt);
        }
      }
    }
  }

  lemma FetchedQuery(db: Db, lastAt: nat, c: Change)
    requires Identified(db) && c in ZoneRowsSince(db, lastAt) + RecordRowsSince(db, lastAt)
    ensures Harmless(db, c, lastAt) && forall id :: Covers(db, c, id) ==> Dirty(db, id, lastAt)
  {
    if c in RecordRowsSince(db, lastAt) {
      var j :| j in db.rows && db.rows[j].stamp > lastAt && ActiveZone(db, db.rows[j].apex) && c == ChangeOf(db, j);
    }
  }

  lemma FetchedStep(s: State, step: Step, i: nat)
    requires Inv(s) && Enabled(s, step) && i in s.insts && FetchedLater(s.db, s.insts[i])
    ensures FetchedLater(After(s, step).db, After(s, step).insts[i])
  {
    var n, s' := s.insts[i], After(s, step);
    WellformedIdentified(s.db, s.now);
    if step.Api? || step.Elsewhere? {
      CommitStep(s, step);
      if Up(n.phase) {
        InstOkExactly(s.db, s.now, n);
        FetchedCommit(s.db, s'.db, s.now, s'.now, n);
      }
    } else if step.i == i && (step.QueryZones? || step.QueryRecords?) {
      forall c | c in PendingOf(s'.insts[i].phase)
        ensures if c.ZoneGone?
                then c.apex in s.db.zones && s.db.zones[c.apex].deleted && s.db.zones[c.apex].stamp > n.lastAt
                else forall id :: Covers(s.db, c, id) ==> Dirty(s.db, id, n.lastAt)
      {
        FetchedQuery(s.db, n.lastAt, c);
      }
    }
  }

  /** So the condition under which a broken instance has a doomed id holds in every run. */
  lemma {:induction false} FetchedAlways(s: State, steps: seq<Step>, i: nat)
    requires Inv(s) && Valid(s, steps) && i in s.insts && FetchedLater(s.db, s.insts[i])
    ensures i in Run(s, steps).insts && FetchedLater(Run(s, steps).db, Run(s, steps).insts[i])
    decreases |steps|
  {
    if steps != [] {
      FetchedStep(s, steps[0], i);
      InvStep(s, steps[0]);
      FetchedAlways(After(s, steps[0]), steps[1..], i);
    }
  }

  // ---- nothing helps a stuck id ----

  /** The step writes neither the row nor its zone, here or in the tables, and does not take the instance down. */
  ghost predicate Avoids(s: State, step: Step, i: nat, id: int)
    requires Enabled(s, step)
  {
    var db' := After(s, step).db;
    && step != Crash(i)
    && (id in s.db.rows ==>
          && id in db'.rows && db'.rows[id] == s.db.rows[id]
          && (db'.rows[id].apex in s.db.zones ==>
                db'.rows[id].apex in db'.zones && db'.zones[db'.rows[id].apex] == s.db.zones[db'.rows[id].apex]))
    && (step.Api? && step.i == i ==>
          var e := Serve(s.db, step.at, step.request).effect; e.Do? ==> !Covers(db', e.change, id))
  }

  /** A commit that leaves the row and its zone alone. */
  ghost predicate Untouched(db: Db, db': Db, id: int) {
    && id in db.rows && db.rows[id].apex in db.zones && id in db'.rows && db'.rows[id] == db.rows[id]
    && db.rows[id].apex in db'.zones && db'.zones[db.rows[id].apex] == db.zones[db.rows[id].apex]
  }

  lemma UntouchedSame(db: Db, db': Db, n: Instance, id: int)
    requires Untouched(db, db', id)
    ensures Agree(db', n.mem, id) <==> Agree(db, n.mem, id)
    ensures Repairable(db', n, id) <==> Repairable(db, n, id)
    ensures forall c :: Covers(db', c, id) <==> Covers(db, c, id)
    ensures Dirty(db', id, n.lastAt) <==> Dirty(db, id, n.lastAt)
  {
  }

  lemma DoomedRow(db: Db, now: nat, n: Instance, id: int)
    requires Identified(db) && Doomed(db, now, n, id)
    ensures id in db.rows && db.rows[id].apex in db.zones
  {
  }

  lemma FramedCommit(db: Db, db': Db, now: nat, t: nat, n: Instance)
    requires Wellformed(db, now) && Wellformed(db', t) && Commits(db, db', t) && now < t && Up(n.phase)
    requires Framed(db, now, n)
    ensures Framed(db', t, n)
  {
    if Syncing(n.phase) {
      forall c | c in PendingOf(n.phase) ensures Harmless(db', c, n.phase.start) {
        CommitHarmless(db, db', now, t, c, n.phase.start);
      }
    }
  }

  lemma DoomedCommit(db: Db, db': Db, now: nat, t: nat, n: Instance, id: int)
    requires Wellformed(db, now) && Wellformed(db', t) && Commits(db, db', t) && now < t
    requires Doomed(db, now, n, id) && Untouched(db, db', id)
    ensures Doomed(db', t, n, id)
  {
    FramedCommit(db, db', now, t, n);
    CommitTraceable(db, db', t, n.mem);
    UntouchedSame(db, db', n, id);
  }

  /** A harmless change that does not cover the id, applied to memory. */
  lemma DoomedApply(db: Db, now: nat, n: Instance, c: Change, q: nat, id: int)
    requires Doomed(db, now, n, id) && Harmless(db, c, q) && !Covers(db, c, id)
    ensures Doomed(db, now, n.(mem := ApplyOne(n.mem, c)), id)
  {
    SparedAgree(db, n.mem, c, q, id);
    SameAgree(db, n.mem, ApplyOne(n.mem, c), id);
  }

  lemma DoomedShrink(db: Db, now: nat, n: Instance, c: Change, id: int)
    requires Doomed(db, now, n, id)
    ensures n.phase.PullingZones? ==>
              Doomed(db, now, n.(phase := PullingZones(n.phase.start, n.phase.pending - {c})), id)
    ensures n.phase.PullingRecords? ==>
              Doomed(db, now, n.(phase := PullingRecords(n.phase.start, n.phase.pending - {c})), id)
  {
  }

  lemma DoomedQueryZones(db: Db, now: nat, n: Instance, id: int)
    requires Identified(db) && Doomed(db, now, n, id) && n.phase.Begun?
    ensures Doomed(db, now, n.(phase := PullingZones(n.phase.start, ZoneRowsSince(db, n.lastAt))), id)
  {
    forall c | c in ZoneRowsSince(db, n.lastAt)
      ensures c.ZoneGone? && Harmless(db, c, n.phase.start) && !Covers(db, c, id)
    {
      FetchedQuery(db, n.lastAt, c);
    }
  }

  lemma RecordRowHarmless(db: Db, lastAt: nat, c: Change, q: nat)
    requires Identified(db) && c in RecordRowsSince(db, lastAt)
    ensures !c.ZoneGone? && Harmless(db, c, q)
    ensures forall id :: Covers(db, c, id) ==> RowAwaited(db, lastAt, id) && Dirty(db, id, lastAt)
  {
    var j :| j in db.rows && db.rows[j].stamp > lastAt && ActiveZone(db, db.rows[j].apex) && c == ChangeOf(db, j);
  }

  lemma DoomedQueryRecords(db: Db, now: nat, n: Instance, id: int)
    requires Identified(db) && Doomed(db, now, n, id) && n.phase.PullingZones? && n.phase.pending == {}
    ensures Doomed(db, now, n.(phase := PullingRecords(n.phase.start, RecordRowsSince(db, n.lastAt))), id)
  {
    forall c | c in RecordRowsSince(db, n.lastAt)
      ensures !c.ZoneGone? && Harmless(db, c, n.phase.start) && !Covers(db, c, id)
    {
      RecordRowHarmless(db, n.lastAt, c, n.phase.start);
    }
    if RowFetched(db, RecordRowsSince(db, n.lastAt), id) {
      RecordRowHarmless(db, n.lastAt, ChangeOf(db, id), n.phase.start);
    }
  }

  /** The instance's own pull steps, as long as the pull does not fail. */
  lemma DoomedOwn(s: State, step: Step, i: nat, id: int)
    requires Identified(s.db) && i in s.insts && Doomed(s.db, s.now, s.insts[i], id) && Enabled(s, step)
    requires !step.Api? && !step.Elsewhere? && step.i == i && step != Crash(i) && step != FailSync(i)
    ensures var t := After(s, step); t.db == s.db && i in t.insts && Doomed(t.db, t.now, t.insts[i], id)
  {
    var n := s.insts[i];
    match step
    case QueryZones(_) => DoomedQueryZones(s.db, s.now, n, id);
    case QueryRecords(_) => DoomedQueryRecords(s.db, s.now, n, id);
    case ApplyZone(_, c) =>
      DoomedApply(s.db, s.now, n, c, n.phase.start, id);
      DoomedShrink(s.db, s.now, n.(mem := ApplyOne(n.mem, c)), c, id);
    case ApplyRecord(_, c) =>
      DoomedApply(s.db, s.now, n, c, n.phase.start, id);
      DoomedShrink(s.db, s.now, n.(mem := ApplyOne(n.mem, c)), c, id);
    case _ =>
  }

  /** A request served here that is about something else. */
  lemma DoomedApi(s: State, step: Step, id: int)
    requires Wellformed(s.db, s.now) && Enabled(s, step) && step.Api? && Avoids(s, step, step.i, id)
    requires Doomed(s.db, s.now, s.insts[step.i], id)
    ensures Doomed(After(s, step).db, step.at, After(s, step).insts[step.i], id)
  {
    var n, out := s.insts[step.i], Serve(s.db, step.at, step.request);
    WellformedIdentified(s.db, s.now);
    DoomedRow(s.db, s.now, n, id);
    ServeKeeps(s.db, s.now, step.at, step.request);
    DoomedCommit(s.db, out.db, s.now, step.at, n, id);
    EffectHarmless(s.db, s.now, step.at, step.request);
    match out.effect
    case Quiet =>
    case Reset(apex) => DoomedReset(s.db, out.db, step.at, n, apex, id);
    case Do(c) => DoomedApply(out.db, step.at, n, c, s.now, id);
  }

  /** An empty zone put into memory under a name that no row knows. */
  lemma DoomedReset(db: Db, db': Db, t: nat, n: Instance, apex: string, id: int)
    requires Identified(db) && apex !in db.zones && Traceable(db, n.mem) && Doomed(db', t, n, id)
    ensures Doomed(db', t, n.(mem := n.mem[apex := ZoneVal(map[], None)]), id)
  {
    var mem' := n.mem[apex := ZoneVal(map[], None)];
    assert GoodZone(map[]);
    forall a, r: Record ensures Has(mem', a, r) <==> Has(n.mem, a, r) {
      if Has(n.mem, a, r) { assert a in db.zones; }
    }
    SameAgree(db', n.mem, mem', id);
  }

  lemma WellformedStep(s: State, step: Step)
    requires Wellformed(s.db, s.now) && Enabled(s, step)
    ensures Wellformed(After(s, step).db, After(s, step).now)
  {
    if step.Api? {
      ServeKeeps(s.db, s.now, step.at, step.request);
    } else if step.Elsewhere? {
      ExecuteWellformed(s.db, s.now, step.at, step.request);
    }
  }

  /** Whatever anybody does, short of writing the row or its zone, as long as the pull in progress does not fail. */
  lemma DoomedStep(s: State, step: Step, i: nat, id: int)
    requires Wellformed(s.db, s.now) && i in s.insts && Doomed(s.db, s.now, s.insts[i], id)
    requires Enabled(s, step) && Avoids(s, step, i, id) && step != FailSync(i)
    ensures var t := After(s, step); Wellformed(t.db, t.now) && i in t.insts && Doomed(t.db, t.now, t.insts[i], id)
  {
    WellformedStep(s, step);
    WellformedIdentified(s.db, s.now);
    if step.Api? && step.i == i {
      DoomedApi(s, step, id);
    } else if step.Api? || step.Elsewhere? {
      DoomedRow(s.db, s.now, s.insts[i], id);
      if step.Api? {
        ServeKeeps(s.db, s.now, step.at, step.request);
      } else {
        ExecuteCommits(s.db, step.at, step.request);
      }
      DoomedCommit(s.db, After(s, step).db, s.now, step.at, s.insts[i], id);
    } else if step.i == i {
      DoomedOwn(s, step, i, id);
    }
  }

  lemma StuckStep(s: State, step: Step, i: nat, id: int)
    requires Wellformed(s.db, s.now) && i in s.insts && Stuck(s.db, s.now, s.insts[i], id)
    requires Enabled(s, step) && Avoids(s, step, i, id)
    ensures var t := After(s, step); Wellformed(t.db, t.now) && i in t.insts && Stuck(t.db, t.now, t.insts[i], id)
  {
    if step != FailSync(i) {
      DoomedStep(s, step, i, id);
      WellformedIdentified(s.db, s.now);
      DoomedRow(s.db, s.now, s.insts[i], id);
    } else {
      WellformedStep(s, step);
    }
  }

  /** A run none of whose steps writes the row or its zone or takes the instance down. */
  ghost predicate AvoidingRun(s: State, steps: seq<Step>, i: nat, id: int)
    requires Valid(s, steps)
    decreases |steps|
  {
    steps == [] || (Avoids(s, steps[0], i, id) && AvoidingRun(After(s, steps[0]), steps[1..], i, id))
  }

  /**
   A stuck id stays wrong in every such run: however often anybody pulls, failing or not, and whatever else is
   requested.
   */
  lemma {:induction false} StuckForever(s: State, steps: seq<Step>, i: nat, id: int)
    requires Wellformed(s.db, s.now) && i in s.insts && Stuck(s.db, s.now, s.insts[i], id)
    requires Valid(s, steps) && AvoidingRun(s, steps, i, id)
    ensures var t := Run(s, steps);
      i in t.insts && Stuck(t.db, t.now, t.insts[i], id) && !Agree(t.db, t.insts[i].mem, id)
    decreases |steps|
  {
    if steps != [] {
      StuckStep(s, steps[0], i, id);
      StuckForever(After(s, steps[0]), steps[1..], i, id);
    }
  }

  /**
   A doomed id is stuck once the pull in progress has completed, and wrong until then, in every such run in which it
   does not fail.
   */
  lemma {:induction false} DoomedUntilDone(s: State, steps: seq<Step>, i: nat, id: int)
    requires Wellformed(s.db, s.now) && i in s.insts && Doomed(s.db, s.now, s.insts[i], id)
    requires Valid(s, steps) && AvoidingRun(s, steps, i, id) && forall k :: 0 <= k < |steps| ==> steps[k] != FailSync(i)
    ensures var t := Run(s, steps);
      && i in t.insts && !Agree(t.db, t.insts[i].mem, id)
      && (t.insts[i].phase.Idle? || t.insts[i].phase.Begun? ==> Stuck(t.db, t.now, t.insts[i], id))
    decreases |steps|
  {
    if steps != [] {
      DoomedStep(s, steps[0], i, id);
      var rest := steps[1..];
      forall k | 0 <= k < |rest| ensures rest[k] != FailSync(i) { assert rest[k] == steps[k + 1]; }
      DoomedUntilDone(After(s, steps[0]), rest, i, id);
    } else if s.insts[i].phase.Idle? || s.insts[i].phase.Begun? {
      DoomedIdleIsStuck(s.db, s.now, s.insts[i], id);
    }
  }
}
