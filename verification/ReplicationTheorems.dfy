/** What the replication protocol guarantees in every run, and that a pull can always complete. */
module ReplicationTheorems {
  import opened Records
  import opened ZoneSpec
  import opened Changes
  import opened Database
  import opened Replication
  import opened ReplicationProof

  /**
   In every state of every run, for every serving instance and every record id: memory agrees with the tables, or the
   row or its zone's deletion is stamped after `lastAt`; and during a pull, memory agrees, or the change is stamped
   after the pull's start, or the pull still has it to query or to apply.
   */
  lemma AgreeDirtyOrPending(s0: State, steps: seq<Step>, i: nat, id: int)
    requires Initial(s0) && Valid(s0, steps) && i in Run(s0, steps).insts && Up(Run(s0, steps).insts[i].phase)
    ensures var s := Run(s0, steps); var n := s.insts[i];
      && (Agree(s.db, n.mem, id) || Dirty(s.db, id, n.lastAt))
      && (n.phase.PullingZones? ==>
            Agree(s.db, n.mem, id) || Dirty(s.db, id, n.phase.start)
            || ZoneAwaited(s.db, n.phase.pending, id) || RowAwaited(s.db, n.lastAt, id))
      && (n.phase.PullingRecords? ==>
            Agree(s.db, n.mem, id) || Dirty(s.db, id, n.phase.start) || RowFetched(s.db, n.phase.pending, id))
  {
    InvAlways(s0, steps);
  }

  /** The instance holds exactly the live rows of live zones, each once and under its own key. */
  ghost predicate Converged(db: Db, mem: Zones) {
    && Good(mem)
    && forall a, r: Record :: Has(mem, a, r) <==>
      ActiveRow(db, r.id) && a == db.rows[r.id].apex && r == db.rows[r.id].rec
  }

  /** Idle, and nothing in the tables is stamped after `lastAt`. */
  ghost predicate Quiescent(db: Db, n: Instance) {
    && n.phase.Idle?
    && (forall id :: id in db.rows ==> db.rows[id].stamp <= n.lastAt)
    && (forall a :: a in db.zones ==> db.zones[a].stamp <= n.lastAt)
  }

  lemma AgreeEverywhere(db: Db, mem: Zones)
    requires Good(mem) && forall id: int :: Agree(db, mem, id)
    ensures Converged(db, mem)
  {
    forall a, r: Record
      ensures Has(mem, a, r) <==> ActiveRow(db, r.id) && a == db.rows[r.id].apex && r == db.rows[r.id].rec
    {
      assert Agree(db, mem, r.id);
    }
  }

  /** In any state that satisfies the invariant. */
  lemma QuietConverges(s: State, i: nat)
    requires Inv(s) && i in s.insts && Quiescent(s.db, s.insts[i])
    ensures Converged(s.db, s.insts[i].mem)
  {
    forall id: int ensures Agree(s.db, s.insts[i].mem, id) {
      assert !Dirty(s.db, id, s.insts[i].lastAt);
    }
    AgreeEverywhere(s.db, s.insts[i].mem);
  }

  /**
   Quiescent convergence: in every run, whatever pulls failed before, once an instance is idle and nothing in the
   tables is stamped after its `lastAt` (the start of its last successful pull, or the instant before its bulk load),
   its memory is exactly the live rows of live zones.
   */
  lemma QuiescentConvergence(s0: State, steps: seq<Step>, i: nat)
    requires Initial(s0) && Valid(s0, steps)
    requires i in Run(s0, steps).insts && Quiescent(Run(s0, steps).db, Run(s0, steps).insts[i])
    ensures Converged(Run(s0, steps).db, Run(s0, steps).insts[i].mem)
  {
    InvAlways(s0, steps);
    QuietConverges(Run(s0, steps), i);
  }

  /** The same per id: after a successful pull, everything committed up to its start is visible, whatever else moves. */
  lemma SuccessfulPull(s0: State, steps: seq<Step>, i: nat, id: int)
    requires Initial(s0) && Valid(s0, steps)
    requires Enabled(Run(s0, steps), FinishSync(i))
    requires !Dirty(Run(s0, steps).db, id, Run(s0, steps).insts[i].phase.start)
    ensures var s := After(Run(s0, steps), FinishSync(i));
      s.insts[i].lastAt == Run(s0, steps).insts[i].phase.start && Agree(s.db, s.insts[i].mem, id)
  {
    InvAlways(s0, steps);
    InvStep(Run(s0, steps), FinishSync(i));
  }

  /** A request is visible at once on the instance that served it, even in the middle of a pull. */
  lemma ReadYourWrites(s0: State, steps: seq<Step>, i: nat, at: nat, q: Request)
    requires Initial(s0) && Valid(s0, steps) && Enabled(Run(s0, steps), Api(i, at, q))
    ensures var s := Run(s0, steps); var t := After(s, Api(i, at, q)); var e := Serve(s.db, at, q).effect;
      e.Do? ==> forall id: int :: Covers(t.db, e.change, id) ==> Agree(t.db, t.insts[i].mem, id)
  {
    var s := Run(s0, steps);
    InvAlways(s0, steps);
    var out, n := Serve(s.db, at, q), s.insts[i];
    if out.effect.Do? {
      forall id: int | Covers(out.db, out.effect.change, id)
        ensures Agree(out.db, ApplyOne(n.mem, out.effect.change), id)
      {
        ServedAgrees(s.db, s.now, at, q, n.mem, id);
      }
    }
  }

  lemma ServedAgrees(db: Db, now: nat, at: nat, q: Request, mem: Zones, id: int)
    requires Wellformed(db, now) && now < at && FreshIdOk(db, q) && Tame(db, q) && Good(mem) && Traceable(db, mem)
    requires Serve(db, at, q).effect.Do? && Covers(Serve(db, at, q).db, Serve(db, at, q).effect.change, id)
    ensures Agree(Serve(db, at, q).db, ApplyOne(mem, Serve(db, at, q).effect.change), id)
  {
    var out := Serve(db, at, q);
    var c := out.effect.change;
    ServeKeeps(db, now, at, q);
    CommitTraceable(db, out.db, at, mem);
    EffectHarmless(db, now, at, q);
    HarmlessKeysAgree(out.db, mem, c, now);
    ApplyOneHas(mem, c);
    ServedCurrent(db, now, at, q, id);
    forall a, r: Record | r.id == id
      ensures Has(ApplyOne(mem, c), a, r) <==>
              ActiveRow(out.db, id) && a == out.db.rows[id].apex && r == out.db.rows[id].rec
    {
      if Has(mem, a, r) { assert out.db.rows[id].apex == a; }
    }
  }

  /** The change a request writes to memory is the present version of what it covers. */
  lemma ServedCurrent(db: Db, now: nat, at: nat, q: Request, id: int)
    requires Wellformed(db, now) && now < at && FreshIdOk(db, q) && Tame(db, q)
    requires Serve(db, at, q).effect.Do? && Covers(Serve(db, at, q).db, Serve(db, at, q).effect.change, id)
    ensures var out := Serve(db, at, q); var c := out.effect.change;
      if c.ZoneGone? then !ActiveRow(out.db, id)
      else c == ChangeOf(out.db, id) && ActiveZone(out.db, out.db.rows[id].apex) && out.db.rows[id].rec.id == id
  {
  }

  // ---- what a request comes to, everywhere ----

  /** The instance has completed a pull begun at or after `at`, and the zone was not deleted after that pull began. */
  ghost predicate CaughtUp(t: State, j: nat, at: nat, apex: string) {
    && j in t.insts && t.insts[j].phase.Idle? && at <= t.insts[j].lastAt
    && (apex in t.db.zones && t.db.zones[apex].deleted ==> t.db.zones[apex].stamp <= t.insts[j].lastAt)
  }

  /** The step commits the request, with a memory write or without. */
  predicate Asks(step: Step, q: Request) {
    (step.Api? || step.Elsewhere?) && step.request == q
  }

  lemma CaughtUpAgrees(s: State, after: seq<Step>, j: nat, at: nat, id: int)
    requires Inv(s) && Valid(s, after) && id in s.db.rows && id in Run(s, after).db.rows
    requires Run(s, after).db.rows[id] == s.db.rows[id] && s.db.rows[id].stamp <= at
    requires CaughtUp(Run(s, after), j, at, s.db.rows[id].apex)
    ensures Agree(Run(s, after).db, Run(s, after).insts[j].mem, id)
  {
    InvAlways(s, after);
    var t := Run(s, after);
    assert !Dirty(t.db, id, t.insts[j].lastAt);
  }

  /**
   DELETE reaches everybody: after it is committed, on whatever instance or by another tool, and until its row is
   written again, no instance that has since completed a pull holds any version of the record.
   */
  lemma DeleteReaches(s0: State, before: seq<Step>, step: Step, after: seq<Step>, j: nat, apex: string, id: int)
    requires Initial(s0) && Valid(s0, before) && Enabled(Run(s0, before), step) && Asks(step, DeleteRecord(apex, id))
    requires var db := Run(s0, before).db; ActiveRow(db, id) && db.rows[id].apex == apex
    requires Valid(After(Run(s0, before), step), after)
    requires var s1 := After(Run(s0, before), step); var t := Run(s1, after);
      id in s1.db.rows && id in t.db.rows && t.db.rows[id] == s1.db.rows[id] && CaughtUp(t, j, step.at, apex)
    ensures forall a, r :: Has(Run(After(Run(s0, before), step), after).insts[j].mem, a, r) ==> r.id != id
  {
    var s := Run(s0, before);
    InvAlways(s0, before);
    InvStep(s, step);
    DeleteOutcome(s.db, step.at, apex, id);
    ServeOutcome(s.db, step.at, step.request);
    CaughtUpAgrees(After(s, step), after, j, step.at, id);
  }

  /**
   PUT reaches everybody: in the same circumstances, and while its zone is live, every such instance holds the record
   with the request's fields and no other version of it.
   */
  lemma PutReaches(s0: State, before: seq<Step>, step: Step, after: seq<Step>, j: nat, apex: string, rec: Record,
                   id: int)
    requires Initial(s0) && Valid(s0, before) && Enabled(Run(s0, before), step) && Asks(step, PutRecord(apex, rec, id))
    requires var db := Run(s0, before).db; ActiveZone(db, apex) && id in db.rows && db.rows[id].apex == apex
    requires !exists k :: k != id && LiveTwin(Run(s0, before).db, k, apex, rec)
    requires Valid(After(Run(s0, before), step), after)
    requires var s1 := After(Run(s0, before), step); var t := Run(s1, after);
      && id in s1.db.rows && id in t.db.rows && t.db.rows[id] == s1.db.rows[id] && CaughtUp(t, j, step.at, apex)
      && ActiveZone(t.db, apex)
    ensures forall a, r: Record :: r.id == id ==>
              (Has(Run(After(Run(s0, before), step), after).insts[j].mem, a, r) <==>
                  a == apex && r == Numbered(rec, id))
  {
    var s := Run(s0, before);
    InvAlways(s0, before);
    InvStep(s, step);
    PutOutcome(s.db, step.at, apex, rec, id);
    ServeOutcome(s.db, step.at, step.request);
    CaughtUpAgrees(After(s, step), after, j, step.at, id);
  }

  /** POST of a record without a live twin reaches everybody, under the fresh id. */
  lemma PostReaches(s0: State, before: seq<Step>, step: Step, after: seq<Step>, j: nat, apex: string, rec: Record,
                    id: int)
    requires Initial(s0) && Valid(s0, before) && Enabled(Run(s0, before), step) && Asks(step, PostRecord(apex, rec, id))
    requires ActiveZone(Run(s0, before).db, apex) && !exists k :: LiveTwin(Run(s0, before).db, k, apex, rec)
    requires Valid(After(Run(s0, before), step), after)
    requires var s1 := After(Run(s0, before), step); var t := Run(s1, after);
      && id in s1.db.rows && id in t.db.rows && t.db.rows[id] == s1.db.rows[id] && CaughtUp(t, j, step.at, apex)
      && ActiveZone(t.db, apex)
    ensures forall a, r: Record :: r.id == id ==>
              (Has(Run(After(Run(s0, before), step), after).insts[j].mem, a, r) <==>
                  a == apex && r == Numbered(rec, id))
  {
    var s := Run(s0, before);
    InvAlways(s0, before);
    InvStep(s, step);
    WellformedIdentified(s.db, s.now);
    PostOutcome(s.db, step.at, apex, rec, id);
    ServeOutcome(s.db, step.at, step.request);
    CaughtUpAgrees(After(s, step), after, j, step.at, id);
  }

  /** A converged instance has pairwise distinct values in every rrset: the unique index reaches the replicas. */
  lemma DistinctValues(s: State, mem: Zones, a: string, k: RecordKey, i: nat, j: nat)
    requires Inv(s) && Converged(s.db, mem) && a in mem && k in mem[a].rrsets && i < j < |mem[a].rrsets[k]|
    ensures mem[a].rrsets[k][i].value != mem[a].rrsets[k][j].value
  {
    var m := mem[a].rrsets;
    assert GoodZone(m) && At(m, k, i) && At(m, k, j);
    var r, t := m[k][i], m[k][j];
    assert Has(mem, a, r) && Has(mem, a, t);
    assert r.id != t.id && r.Key() == t.Key();
    assert !SameRdata(s.db.rows[r.id], s.db.rows[t.id].apex, s.db.rows[t.id].rec);
  }

  // ---- what the protocol leaves possible ----

  /** The two requests that the protocol excludes. */
  predicate Excluded(db: Db, q: Request) {
    || (q.PostDomain? && q.apex in db.zones && !db.zones[q.apex].deleted)
    || (q.PutRecord? && q.id in db.rows
        && (q.rec.name != db.rows[q.id].rec.name || q.rec.rtype != db.rows[q.id].rec.rtype))
  }

  /** Any other request can be served by any serving instance, or be committed elsewhere, at any later time. */
  lemma RequestsPossible(s: State, i: nat, at: nat, q: Request)
    requires s.now < at && !Excluded(s.db, q) && (q.PostRecord? ==> q.freshId > 0 && q.freshId !in s.db.rows)
    ensures Enabled(s, Elsewhere(at, q))
    ensures i in s.insts && Up(s.insts[i].phase) ==> Enabled(s, Api(i, at, q))
  {
  }

  /** An instance can go down in any phase, come up, begin a pull when it has none, and fail it at any point. */
  lemma InstanceFree(s: State, i: nat, at: nat)
    requires i in s.insts && s.now <= at
    ensures Enabled(s, Crash(i)) && (s.insts[i].phase.Down? ==> Enabled(s, BeginLoad(i, at)))
    ensures s.insts[i].phase.Idle? ==> Enabled(s, BeginSync(i, at))
    ensures s.insts[i].phase.Begun? || s.insts[i].phase.PullingZones? || s.insts[i].phase.PullingRecords? ==>
              Enabled(s, FailSync(i))
  {
  }

  // ---- a pull can always complete ----

  lemma {:induction false} Extend(s: State, xs: seq<Step>, ys: seq<Step>)
    requires Valid(s, xs) && Valid(Run(s, xs), ys)
    ensures Valid(s, xs + ys) && Run(s, xs + ys) == Run(Run(s, xs), ys)
    decreases |xs|
  {
    if xs == [] {
      assert xs + ys == ys;
    } else {
      assert (xs + ys)[0] == xs[0] && (xs + ys)[1..] == xs[1..] + ys;
      Extend(After(s, xs[0]), xs[1..], ys);
    }
  }

  lemma {:induction false} OneStep(s: State, step: Step)
    requires Enabled(s, step)
    ensures Valid(s, [step]) && Run(s, [step]) == After(s, step)
  {
  }

  /** Only instance `i` moves, and only by pulling. */
  predicate PullStep(step: Step, i: nat) {
    (step.BeginSync? || step.QueryZones? || step.ApplyZone? || step.QueryRecords? || step.ApplyRecord?
     || step.FinishSync? || step.FailSync?) && step.i == i
  }

  ghost predicate PullRun(s: State, steps: seq<Step>, i: nat) {
    Valid(s, steps) && forall k :: 0 <= k < |steps| ==> PullStep(steps[k], i)
  }

  lemma PullThen(s: State, xs: seq<Step>, step: Step, i: nat) returns (ys: seq<Step>)
    requires PullRun(s, xs, i) && Enabled(Run(s, xs), step) && PullStep(step, i)
    ensures PullRun(s, ys, i) && Run(s, ys) == After(Run(s, xs), step)
  {
    OneStep(Run(s, xs), step);
    Extend(s, xs, [step]);
    ys := xs + [step];
  }

  /** Whatever rows are pending, they can be applied one by one. */
  lemma Drain(s: State, xs: seq<Step>, i: nat) returns (ys: seq<Step>)
    requires PullRun(s, xs, i) && i in Run(s, xs).insts
    requires Run(s, xs).insts[i].phase.PullingZones? || Run(s, xs).insts[i].phase.PullingRecords?
    ensures PullRun(s, ys, i) && i in Run(s, ys).insts
    ensures var p, q := Run(s, xs).insts[i].phase, Run(s, ys).insts[i].phase;
      if p.PullingZones? then q == PullingZones(p.start, {}) else q == PullingRecords(p.start, {})
    ensures Run(s, ys).db == Run(s, xs).db && Run(s, ys).now == Run(s, xs).now
    decreases |Run(s, xs).insts[i].phase.pending|
  {
    var p := Run(s, xs).insts[i].phase;
    if p.pending == {} {
      ys := xs;
    } else {
      var c :| c in p.pending;
      assert |p.pending - {c}| < |p.pending|;
      var zs := PullThen(s, xs, if p.PullingZones? then ApplyZone(i, c) else ApplyRecord(i, c), i);
      ys := Drain(s, zs, i);
    }
  }

  /**
   Eventual consistency: from every reachable state, a serving instance has a sequence of pull steps of its own after
   which, the tables being unchanged, its memory is exactly the live rows.
   */
  lemma EventualConsistency(s0: State, before: seq<Step>, i: nat) returns (steps: seq<Step>)
    requires Initial(s0) && Valid(s0, before) && i in Run(s0, before).insts && Up(Run(s0, before).insts[i].phase)
    ensures var s := Run(s0, before);
      && PullRun(s, steps, i) && Run(s, steps).db == s.db && i in Run(s, steps).insts
      && Run(s, steps).insts[i].phase.Idle? && Converged(s.db, Run(s, steps).insts[i].mem)
  {
    var s := Run(s0, before);
    InvAlways(s0, before);
    steps := [];
    if !s.insts[i].phase.Idle? {
      steps := PullThen(s, steps, FailSync(i), i);
    }
    steps := PullThen(s, steps, BeginSync(i, s.now), i);
    steps := PullThen(s, steps, QueryZones(i), i);
    steps := Drain(s, steps, i);
    steps := PullThen(s, steps, QueryRecords(i), i);
    steps := Drain(s, steps, i);
    steps := PullThen(s, steps, FinishSync(i), i);
    var t := Run(s, steps);
    InvAlways(s, steps);
    forall id: int ensures Agree(t.db, t.insts[i].mem, id) {
      assert id in s.db.rows ==> RowOk(s.db, id, s.now);
      assert !Dirty(t.db, id, t.insts[i].lastAt);
    }
    AgreeEverywhere(t.db, t.insts[i].mem);
  }

  // ---- the rows of a pull, as the loader applies them ----

  /** Along every run the tables only grow; in particular a deleted zone stays deleted. */
  lemma {:induction false} RunGrows(s: State, steps: seq<Step>)
    requires Inv(s) && Valid(s, steps)
    ensures Grows(s.db, Run(s, steps).db)
    decreases |steps|
  {
    if steps != [] {
      var step := steps[0];
      if step.Api? || step.Elsewhere? {
        CommitStep(s, step);
        CommitsGrow(s.db, After(s, step).db, step.at);
      }
      InvStep(s, step);
      RunGrows(After(s, step), steps[1..]);
    }
  }

  /**
   What one pull fetches is orderly with respect to any memory the protocol allows. The zone query sees `db`; the
   record query runs later and sees `db'`.
   */
  lemma PullIsOrderly(db: Db, db': Db, mem: Zones, lastAt: nat)
    requires Identified(db') && Grows(db, db') && Good(mem) && Traceable(db', mem)
    ensures Orderly(mem, ZoneRowsSince(db, lastAt) + RecordRowsSince(db', lastAt))
  {
    var s := ZoneRowsSince(db, lastAt) + RecordRowsSince(db', lastAt);
    forall c | c in s && !c.ZoneGone?
      ensures exists id :: id in db'.rows && c == ChangeOf(db', id) && ActiveZone(db', c.apex)
                           && About(c, db'.rows[id].apex, id) && id > 0
    {
      var id :| id in db'.rows && db'.rows[id].stamp > lastAt && ActiveZone(db', db'.rows[id].apex)
        && c == ChangeOf(db', id);
    }
    forall c, d, a, id | c in s && d in s && About(c, a, id) && About(d, a, id) ensures c == d {
      var i :| i in db'.rows && c == ChangeOf(db', i) && ActiveZone(db', c.apex) && About(c, db'.rows[i].apex, i);
      var j :| j in db'.rows && d == ChangeOf(db', j) && ActiveZone(db', d.apex) && About(d, db'.rows[j].apex, j);
    }
  }

  /**
   In every run, whatever an instance pulls, with any steps between its two queries, is orderly for the memory it began
   with.
   */
  lemma PullAlwaysOrderly(s0: State, before: seq<Step>, between: seq<Step>, i: nat)
    requires Initial(s0) && Valid(s0, before) && Valid(Run(s0, before), between)
    requires i in Run(s0, before).insts && Up(Run(s0, before).insts[i].phase)
    ensures var s := Run(s0, before); var t := Run(s, between); var n := s.insts[i];
      Orderly(n.mem, ZoneRowsSince(s.db, n.lastAt) + RecordRowsSince(t.db, n.lastAt))
  {
    var s := Run(s0, before);
    var t := Run(s, between);
    InvAlways(s0, before);
    InvAlways(s, between);
    RunGrows(s, between);
    WellformedIdentified(t.db, t.now);
    GrowsTraceable(s.db, t.db, s.insts[i].mem);
    PullIsOrderly(s.db, t.db, s.insts[i].mem, s.insts[i].lastAt);
  }

  lemma GrowsTraceable(db: Db, db': Db, mem: Zones)
    requires Grows(db, db') && Traceable(db, mem)
    ensures Traceable(db', mem)
  {
  }

  function Applying(p: Phase, pending: set<Change>): Phase
    requires p.PullingZones? || p.PullingRecords?
  {
    if p.PullingZones? then PullingZones(p.start, pending) else PullingRecords(p.start, pending)
  }

  lemma ElementsTail(cs: seq<Change>)
    requires cs != [] && forall j, k :: 0 <= j < k < |cs| ==> cs[j] != cs[k]
    ensures cs[0] in Elements(cs) && Elements(cs[1..]) == Elements(cs) - {cs[0]}
  {
    forall d ensures d in Elements(cs[1..]) <==> d in Elements(cs) && d != cs[0] {
      if d in cs && d != cs[0] { var k :| 0 <= k < |cs| && cs[k] == d; assert cs[1..][k - 1] == d; }
      if d in cs[1..] { var k :| 0 <= k < |cs[1..]| && cs[1..][k] == d; assert cs[k + 1] == d; }
    }
  }

  lemma ApplyCons(z: Zones, cs: seq<Change>)
    requires cs != []
    ensures ApplyAll(z, cs) == ApplyAll(ApplyOne(z, cs[0]), cs[1..])
  {
    assert cs == [cs[0]] + cs[1..] && [cs[0]][..0] == [];
    ApplyAppend(z, [cs[0]], cs[1..]);
  }

  lemma WithTwice(s: State, i: nat, m: Instance, n: Instance)
    ensures With(With(s, i, m), i, n) == With(s, i, n)
  {
    assert s.insts[i := m][i := n] == s.insts[i := n];
  }

  /**
   Applying the fetched rows of either query one at a time, in any order, takes memory where the loader takes the
   store.
   */
  lemma {:induction false} PullAppliesRows(s: State, i: nat, cs: seq<Change>) returns (steps: seq<Step>)
    requires i in s.insts && (s.insts[i].phase.PullingZones? || s.insts[i].phase.PullingRecords?)
    requires Elements(cs) == s.insts[i].phase.pending && forall j, k :: 0 <= j < k < |cs| ==> cs[j] != cs[k]
    ensures PullRun(s, steps, i)
    ensures Run(s, steps) ==
            With(s, i, s.insts[i].(mem := ApplyAll(s.insts[i].mem, cs), phase := Applying(s.insts[i].phase, {})))
    decreases |cs|
  {
    if cs == [] {
      steps := [];
      assert s.insts[i].phase == Applying(s.insts[i].phase, {});
      assert s.insts[i := s.insts[i]] == s.insts;
    } else {
      ElementsTail(cs);
      ApplyCons(s.insts[i].mem, cs);
      var step := if s.insts[i].phase.PullingZones? then ApplyZone(i, cs[0]) else ApplyRecord(i, cs[0]);
      var s1 := After(s, step);
      var n1 := s1.insts[i];
      assert s1 == With(s, i, n1);
      var more := PullAppliesRows(s1, i, cs[1..]);
      steps := [step] + more;
      assert steps[0] == step && steps[1..] == more;
      WithTwice(s, i, n1, n1.(mem := ApplyAll(n1.mem, cs[1..]), phase := Applying(n1.phase, {})));
      assert Run(s, steps) == Run(s1, more);
    }
  }

  /** After the zone half of a pull: its rows are applied, and the record query is to come. */
  function ZonesDone(s: State, i: nat, zs: seq<Change>): State
    requires i in s.insts && s.insts[i].phase.Begun?
  {
    With(s, i, s.insts[i].(mem := ApplyAll(s.insts[i].mem, zs), phase := PullingZones(s.insts[i].phase.start, {})))
  }

  lemma ZoneHalfSteps(s: State, i: nat, zs: seq<Change>) returns (steps: seq<Step>)
    requires i in s.insts && s.insts[i].phase.Begun? && Elements(zs) == ZoneRowsSince(s.db, s.insts[i].lastAt)
    requires forall j, k :: 0 <= j < k < |zs| ==> zs[j] != zs[k]
    ensures Valid(s, steps) && Run(s, steps) == ZonesDone(s, i, zs)
  {
    steps := PullThen(s, [], QueryZones(i), i);
    var s1 := Run(s, steps);
    var more := PullAppliesRows(s1, i, zs);
    Extend(s, steps, more);
    steps := steps + more;
    WithTwice(s, i, s1.insts[i], ZonesDone(s, i, zs).insts[i]);
  }

  lemma RecordHalfSteps(s: State, i: nat, rs: seq<Change>) returns (steps: seq<Step>)
    requires i in s.insts && s.insts[i].phase.PullingZones? && s.insts[i].phase.pending == {}
    requires Elements(rs) == RecordRowsSince(s.db, s.insts[i].lastAt)
    requires forall j, k :: 0 <= j < k < |rs| ==> rs[j] != rs[k]
    ensures Valid(s, steps)
    ensures Run(s, steps) == With(s, i, Instance(ApplyAll(s.insts[i].mem, rs), s.insts[i].phase.start, Idle))
  {
    steps := PullThen(s, [], QueryRecords(i), i);
    var s1 := Run(s, steps);
    var more := PullAppliesRows(s1, i, rs);
    Extend(s, steps, more);
    steps := steps + more;
    var s2 := Run(s, steps);
    OneStep(s2, FinishSync(i));
    Extend(s, steps, [FinishSync(i)]);
    steps := steps + [FinishSync(i)];
    var done := Instance(ApplyAll(s.insts[i].mem, rs), s.insts[i].phase.start, Idle);
    WithTwice(s1, i, s2.insts[i], done);
    WithTwice(s, i, s1.insts[i], done);
  }

  /**
   The whole pull as steps of the protocol: both queries, their rows in any order, and the new `lastAt`; between its
   halves come any steps of others, after which the record query sees other tables.
   */
  lemma PullAppliesAll(s: State, i: nat, zs: seq<Change>, between: seq<Step>, rs: seq<Change>)
    returns (steps: seq<Step>)
    requires i in s.insts && s.insts[i].phase.Begun? && Elements(zs) == ZoneRowsSince(s.db, s.insts[i].lastAt)
    requires Valid(ZonesDone(s, i, zs), between)
    requires var t := Run(ZonesDone(s, i, zs), between);
      && i in t.insts && t.insts[i] == ZonesDone(s, i, zs).insts[i]
      && Elements(rs) == RecordRowsSince(t.db, s.insts[i].lastAt)
    requires forall j, k :: 0 <= j < k < |zs| ==> zs[j] != zs[k]
    requires forall j, k :: 0 <= j < k < |rs| ==> rs[j] != rs[k]
    ensures Valid(s, steps)
    ensures var t := Run(ZonesDone(s, i, zs), between);
      Run(s, steps) == With(t, i, Instance(ApplyAll(s.insts[i].mem, zs + rs), s.insts[i].phase.start, Idle))
  {
    var first := ZoneHalfSteps(s, i, zs);
    Extend(s, first, between);
    var last := RecordHalfSteps(Run(s, first + between), i, rs);
    Extend(s, first + between, last);
    steps := first + between + last;
    ApplyAppend(s.insts[i].mem, zs, rs);
  }
}
