/** The invariant of the replication protocol is inductive, and what follows from it in every run. */
module ReplicationProof {
  import opened Records
  import opened ZoneSpec
  import opened Changes
  import opened Database
  import opened Replication

  // ---- a commit, seen from a replica that does not move ----

  /**
   The row's zone is deleted and was so before: whatever its row says, memory must not have it, and no pull returns it.
   */
  ghost predicate DeadZone(db: Db, db': Db, id: int) {
    && id in db'.rows && db'.rows[id].apex in db.zones && db.zones[db'.rows[id].apex].deleted
    && db'.rows[id].apex in db'.zones && db'.zones[db'.rows[id].apex] == db.zones[db'.rows[id].apex]
    && (id in db.rows ==> db.rows[id].apex == db'.rows[id].apex)
  }

  /**
   A commit leaves an id as it was, makes it dirty since every earlier instant, or speaks about it under a zone long
   deleted.
   */
  lemma CommitDichotomy(db: Db, db': Db, now: nat, t: nat, id: int)
    requires Wellformed(db, now) && Wellformed(db', t) && Commits(db, db', t) && now < t && id in db'.rows
    ensures Dirty(db', id, now) || DeadZone(db, db', id)
            || (id in db.rows && db'.rows[id] == db.rows[id]
                && db'.zones[db.rows[id].apex] == db.zones[db.rows[id].apex])
  {
    assert RowMoves(db, db', t, id) && RowOk(db', id, t);
    if id in db.rows { assert RowOk(db, id, now) && ZoneMoves(db, db', t, db.rows[id].apex); }
    if db'.rows[id].apex in db.zones { assert ZoneMoves(db, db', t, db'.rows[id].apex); }
  }

  lemma CommitAgree(db: Db, db': Db, now: nat, t: nat, mem: Zones, id: int)
    requires Wellformed(db, now) && Wellformed(db', t) && Commits(db, db', t) && now < t && Traceable(db, mem)
    requires Agree(db, mem, id)
    ensures Agree(db', mem, id) || Dirty(db', id, now)
  {
    if id in db'.rows { CommitDichotomy(db, db', now, t, id); }
  }

  lemma CommitDirty(db: Db, db': Db, now: nat, t: nat, id: int, q: nat)
    requires Wellformed(db, now) && Wellformed(db', t) && Commits(db, db', t) && q <= now < t
    requires Dirty(db, id, q)
    ensures Dirty(db', id, q)
  {
    CommitDichotomy(db, db', now, t, id);
  }

  lemma CommitTraceable(db: Db, db': Db, t: nat, mem: Zones)
    requires Commits(db, db', t) && Traceable(db, mem)
    ensures Traceable(db', mem)
  {
  }

  lemma CommitMemOk(db: Db, db': Db, now: nat, t: nat, mem: Zones, q: nat)
    requires Wellformed(db, now) && Wellformed(db', t) && Commits(db, db', t) && q <= now < t
    requires MemOk(db, mem, q)
    ensures MemOk(db', mem, q)
  {
    CommitTraceable(db, db', t, mem);
    forall id: int ensures Agree(db', mem, id) || Dirty(db', id, q) {
      if Agree(db, mem, id) {
        CommitAgree(db, db', now, t, mem, id);
      } else {
        CommitDirty(db, db', now, t, id, q);
      }
    }
  }

  lemma CommitHarmless(db: Db, db': Db, now: nat, t: nat, c: Change, q: nat)
    requires Wellformed(db, now) && Wellformed(db', t) && Commits(db, db', t) && q <= now < t
    requires Harmless(db, c, q)
    ensures Harmless(db', c, q)
  {
    if c.ZoneGone? {
      assert ZoneMoves(db, db', t, c.apex);
    } else {
      var id := if c.Tombstone? then c.id else c.rec.id;
      CommitDichotomy(db, db', now, t, id);
      if Dirty(db, id, q) { CommitDirty(db, db', now, t, id, q); }
    }
  }

  /** No commit anywhere disturbs an instance's part of the invariant. */
  lemma CommitInst(db: Db, db': Db, now: nat, t: nat, n: Instance)
    requires Wellformed(db, now) && Wellformed(db', t) && Commits(db, db', t) && now < t
    requires InstOk(db, now, n)
    ensures InstOk(db', t, n)
  {
    var mem, p := n.mem, n.phase;
    if p.Loaded? {
      CommitMemOk(db, db', now, t, ApplyAll(map[], p.batch), p.since);
    } else if Up(p) {
      CommitMemOk(db, db', now, t, mem, n.lastAt);
      if p.PullingZones? {
        forall c | c in p.pending ensures Harmless(db', c, p.start) { CommitHarmless(db, db', now, t, c, p.start); }
        forall id: int
          ensures Agree(db', mem, id) || Dirty(db', id, p.start)
                  || ZoneAwaited(db', p.pending, id) || RowAwaited(db', n.lastAt, id)
        {
          CommitAwaited(db, db', now, t, n, id);
        }
      } else if p.PullingRecords? {
        forall c | c in p.pending ensures Harmless(db', c, p.start) { CommitHarmless(db, db', now, t, c, p.start); }
        forall id: int ensures Agree(db', mem, id) || Dirty(db', id, p.start) || RowFetched(db', p.pending, id) {
          CommitFetched(db, db', now, t, n, id);
        }
      }
    }
  }

  lemma CommitAwaited(db: Db, db': Db, now: nat, t: nat, n: Instance, id: int)
    requires Wellformed(db, now) && Wellformed(db', t) && Commits(db, db', t) && now < t
    requires InstOk(db, now, n) && n.phase.PullingZones?
    ensures Agree(db', n.mem, id) || Dirty(db', id, n.phase.start)
            || ZoneAwaited(db', n.phase.pending, id) || RowAwaited(db', n.lastAt, id)
  {
    if Agree(db, n.mem, id) {
      CommitAgree(db, db', now, t, n.mem, id);
    } else if Dirty(db, id, n.phase.start) {
      CommitDirty(db, db', now, t, id, n.phase.start);
    } else {
      CommitDichotomy(db, db', now, t, id);
    }
  }

  lemma CommitFetched(db: Db, db': Db, now: nat, t: nat, n: Instance, id: int)
    requires Wellformed(db, now) && Wellformed(db', t) && Commits(db, db', t) && now < t
    requires InstOk(db, now, n) && n.phase.PullingRecords?
    ensures Agree(db', n.mem, id) || Dirty(db', id, n.phase.start) || RowFetched(db', n.phase.pending, id)
  {
    if Agree(db, n.mem, id) {
      CommitAgree(db, db', now, t, n.mem, id);
    } else if Dirty(db, id, n.phase.start) {
      CommitDirty(db, db', now, t, id, n.phase.start);
    } else {
      CommitDichotomy(db, db', now, t, id);
    }
  }

  // ---- a change applied to one memory ----

  lemma HarmlessKeysAgree(db: Db, mem: Zones, c: Change, q: nat)
    requires Traceable(db, mem) && Harmless(db, c, q)
    ensures KeysAgree(mem, {c})
  {
  }

  /** The id is one the change speaks about, directly or through its zone. */
  predicate Covers(db: Db, c: Change, id: int) {
    id in db.rows && (c == ZoneGone(db.rows[id].apex) || About(c, db.rows[id].apex, id))
  }

  /** A harmless change settles what it covers and leaves every other id as it was. */
  lemma ApplyHarmless(db: Db, now: nat, mem: Zones, c: Change, q: nat)
    requires Wellformed(db, now) && Good(mem) && Traceable(db, mem) && Harmless(db, c, q)
    ensures Good(ApplyOne(mem, c)) && Traceable(db, ApplyOne(mem, c))
    ensures forall id: int :: Covers(db, c, id) ==> Agree(db, ApplyOne(mem, c), id) || Dirty(db, id, q)
    ensures forall id: int :: !Covers(db, c, id) && Agree(db, mem, id) ==> Agree(db, ApplyOne(mem, c), id)
  {
    HarmlessKeysAgree(db, mem, c, q);
    ApplyOneHas(mem, c);
    var mem' := ApplyOne(mem, c);
    forall id: int | Covers(db, c, id) ensures Agree(db, mem', id) || Dirty(db, id, q) {
      ApplyCovered(db, now, mem, mem', c, q, id);
    }
    forall id: int | !Covers(db, c, id) && Agree(db, mem, id) ensures Agree(db, mem', id) {
      forall a, r: Record | r.id == id
        ensures Has(mem', a, r) <==> ActiveRow(db, id) && a == db.rows[id].apex && r == db.rows[id].rec
      {
        if Has(mem, a, r) { assert id in db.rows && db.rows[id].apex == a; }
      }
    }
  }

  lemma ApplyCovered(db: Db, now: nat, mem: Zones, mem': Zones, c: Change, q: nat, id: int)
    requires Wellformed(db, now) && Traceable(db, mem) && Harmless(db, c, q) && Covers(db, c, id)
    requires forall a, r :: Has(mem', a, r) <==>
               c == Upsert(a, r) || (Has(mem, a, r) && c != ZoneGone(a) && !About(c, a, r.id))
    ensures Agree(db, mem', id) || Dirty(db, id, q)
  {
  }

  lemma MemOkAfter(db: Db, now: nat, mem: Zones, c: Change, lastAt: nat, q: nat)
    requires Wellformed(db, now) && MemOk(db, mem, lastAt) && Harmless(db, c, q) && lastAt <= q
    ensures MemOk(db, ApplyOne(mem, c), lastAt)
  {
    ApplyHarmless(db, now, mem, c, q);
    forall id: int ensures Agree(db, ApplyOne(mem, c), id) || Dirty(db, id, lastAt) {
      if Covers(db, c, id) { assert Agree(db, ApplyOne(mem, c), id) || Dirty(db, id, q); }
    }
  }

  /** Applying a change that is harmless since `now` keeps the invariant of an instance in any phase. */
  lemma HarmlessInst(db: Db, now: nat, at: nat, n: Instance, c: Change)
    requires Wellformed(db, now) && InstOk(db, now, n) && Up(n.phase)
    requires n.lastAt <= at && (Syncing(n.phase) ==> n.phase.start <= at) && Harmless(db, c, at)
    ensures InstOk(db, now, n.(mem := ApplyOne(n.mem, c)))
  {
    var mem' := ApplyOne(n.mem, c);
    MemOkAfter(db, now, n.mem, c, n.lastAt, at);
    ApplyHarmless(db, now, n.mem, c, at);
    if Syncing(n.phase) {
      var q := n.phase.start;
      forall id: int | Agree(db, n.mem, id) ensures Agree(db, mem', id) || Dirty(db, id, q) {
        if Covers(db, c, id) { assert Agree(db, mem', id) || Dirty(db, id, at); }
      }
    }
  }

  // ---- the pull ----

  lemma ZonesQueried(db: Db, now: nat, n: Instance)
    requires Wellformed(db, now) && InstOk(db, now, n) && n.phase.Begun?
    ensures InstOk(db, now, n.(phase := PullingZones(n.phase.start, ZoneRowsSince(db, n.lastAt))))
  {
  }

  lemma ZoneApplied(db: Db, now: nat, n: Instance, c: Change)
    requires Wellformed(db, now) && InstOk(db, now, n) && n.phase.PullingZones? && c in n.phase.pending
    ensures InstOk(db, now, n.(mem := ApplyOne(n.mem, c), phase := PullingZones(n.phase.start, n.phase.pending - {c})))
  {
    var mem', q := ApplyOne(n.mem, c), n.phase.start;
    MemOkAfter(db, now, n.mem, c, n.lastAt, q);
    ApplyHarmless(db, now, n.mem, c, q);
    forall id: int
      ensures Agree(db, mem', id) || Dirty(db, id, q)
              || ZoneAwaited(db, n.phase.pending - {c}, id) || RowAwaited(db, n.lastAt, id)
    {
      if Covers(db, c, id) { assert Agree(db, mem', id) || Dirty(db, id, q); }
    }
  }

  lemma RecordsQueried(db: Db, now: nat, n: Instance)
    requires Wellformed(db, now) && InstOk(db, now, n) && n.phase.PullingZones? && n.phase.pending == {}
    ensures InstOk(db, now, n.(phase := PullingRecords(n.phase.start, RecordRowsSince(db, n.lastAt))))
  {
  }

  lemma RecordApplied(db: Db, now: nat, n: Instance, c: Change)
    requires Wellformed(db, now) && InstOk(db, now, n) && n.phase.PullingRecords? && c in n.phase.pending
    ensures InstOk(db, now,
              n.(mem := ApplyOne(n.mem, c), phase := PullingRecords(n.phase.start, n.phase.pending - {c})))
  {
    var mem', q := ApplyOne(n.mem, c), n.phase.start;
    MemOkAfter(db, now, n.mem, c, n.lastAt, q);
    ApplyHarmless(db, now, n.mem, c, q);
    forall id: int ensures Agree(db, mem', id) || Dirty(db, id, q) || RowFetched(db, n.phase.pending - {c}, id) {
      if Covers(db, c, id) {
        assert Agree(db, mem', id) || Dirty(db, id, q);
      } else if RowFetched(db, n.phase.pending, id) {
        assert RowOk(db, id, now);
        assert ChangeOf(db, id) != c;
      }
    }
  }

  // ---- the bulk load ----

  lemma ActiveRowsOrderly(db: Db, now: nat)
    requires Wellformed(db, now)
    ensures Orderly(map[], ActiveRows(db))
  {
  }

  /** A bulk load of a table snapshot agrees with the tables on every id. */
  lemma LoadAgrees(db: Db, now: nat, batch: seq<Change>)
    requires Wellformed(db, now) && Elements(batch) == ActiveRows(db)
    ensures var mem := ApplyAll(map[], batch);
      Good(mem) && Traceable(db, mem) && forall id: int :: Agree(db, mem, id)
  {
    var mem := ApplyAll(map[], batch);
    ActiveRowsOrderly(db, now);
    ApplySettles(map[], batch);
    forall a, r: Record
      ensures Has(mem, a, r) <==> ActiveRow(db, r.id) && a == db.rows[r.id].apex && r == db.rows[r.id].rec
    {
      assert Has(mem, a, r) <==> Settled(map[], ActiveRows(db), a, r);
      if Upsert(a, r) in ActiveRows(db) {
        var i :| i in db.rows && ActiveRow(db, i) && Upsert(a, r) == Upsert(db.rows[i].apex, db.rows[i].rec);
        assert RowOk(db, i, now);
      }
    }
  }

  // ---- requests ----

  /** What a request writes to memory is harmless: a version of a row it has just stamped, or the present version. */
  lemma EffectHarmless(db: Db, now: nat, at: nat, q: Request)
    requires Wellformed(db, now) && now < at && FreshIdOk(db, q) && Tame(db, q)
    ensures var out := Serve(db, at, q);
      match out.effect
      case Quiet => true
      case Reset(apex) => apex !in db.zones && q.PostDomain?
      case Do(c) => Harmless(out.db, c, now)
  {
  }

  lemma ResetInst(db: Db, db': Db, now: nat, n: Instance, apex: string)
    requires InstOk(db', now, n) && Up(n.phase) && Traceable(db, n.mem) && apex !in db.zones
    requires forall id :: id in db.rows ==> db.rows[id].apex in db.zones
    ensures InstOk(db', now, n.(mem := n.mem[apex := ZoneVal(map[], None)]))
  {
    var mem' := n.mem[apex := ZoneVal(map[], None)];
    forall a, r: Record ensures Has(mem', a, r) <==> Has(n.mem, a, r) {
      if Has(n.mem, a, r) { assert a in db.zones; }
    }
    assert GoodZone(map[]);
    forall id: int ensures Agree(db', mem', id) <==> Agree(db', n.mem, id) {}
  }

  lemma ApiInst(s: State, i: nat, at: nat, q: Request)
    requires Inv(s) && Enabled(s, Api(i, at, q))
    ensures InstOk(After(s, Api(i, at, q)).db, at, After(s, Api(i, at, q)).insts[i])
  {
    var n, out := s.insts[i], Serve(s.db, at, q);
    ServeKeeps(s.db, s.now, at, q);
    CommitInst(s.db, out.db, s.now, at, n);
    EffectHarmless(s.db, s.now, at, q);
    match out.effect
    case Quiet =>
    case Reset(apex) =>
      forall id | id in s.db.rows ensures s.db.rows[id].apex in s.db.zones { assert RowOk(s.db, id, s.now); }
      ResetInst(s.db, out.db, at, n, apex);
    case Do(c) =>
      HarmlessInst(out.db, at, s.now, n, c);
  }

  // ---- the invariant is inductive ----

  lemma InstStep(s: State, step: Step, j: nat)
    requires Inv(s) && Enabled(s, step) && j in s.insts && !step.Api? && !step.Elsewhere? && step.i == j
    ensures InstOk(After(s, step).db, After(s, step).now, After(s, step).insts[j])
  {
    var n := s.insts[j];
    match step
    case QueryLoad(_, batch) => LoadAgrees(s.db, s.now, batch);
    case QueryZones(_) => ZonesQueried(s.db, s.now, n);
    case ApplyZone(_, c) => ZoneApplied(s.db, s.now, n, c);
    case QueryRecords(_) => RecordsQueried(s.db, s.now, n);
    case ApplyRecord(_, c) => RecordApplied(s.db, s.now, n, c);
    case _ =>
  }

  lemma LaterOk(db: Db, now: nat, later: nat, n: Instance)
    requires InstOk(db, now, n) && now <= later
    ensures InstOk(db, later, n)
  {
  }

  lemma CommitStep(s: State, step: Step)
    requires Inv(s) && Enabled(s, step) && (step.Api? || step.Elsewhere?)
    ensures var s' := After(s, step);
      s'.now == step.at && Wellformed(s'.db, s'.now) && Commits(s.db, s'.db, s'.now) && NoDuplicates(s'.db)
  {
    if step.Api? {
      ServeKeeps(s.db, s.now, step.at, step.request);
    } else {
      WellformedIdentified(s.db, s.now);
      ExecuteWellformed(s.db, s.now, step.at, step.request);
      ExecuteCommits(s.db, step.at, step.request);
      ExecuteNoDuplicates(s.db, step.at, step.request);
    }
  }

  lemma InvStep(s: State, step: Step)
    requires Inv(s) && Enabled(s, step)
    ensures Inv(After(s, step))
  {
    var s' := After(s, step);
    if step.Api? || step.Elsewhere? {
      CommitStep(s, step);
      forall j | j in s'.insts ensures InstOk(s'.db, s'.now, s'.insts[j]) {
        if step.Api? && j == step.i {
          ApiInst(s, j, step.at, step.request);
        } else {
          CommitInst(s.db, s'.db, s.now, step.at, s.insts[j]);
        }
      }
    } else {
      forall id | id in s.db.rows ensures RowOk(s.db, id, s'.now) { assert RowOk(s.db, id, s.now); }
      forall j | j in s'.insts ensures InstOk(s'.db, s'.now, s'.insts[j]) {
        if j == step.i {
          InstStep(s, step, j);
        } else {
          LaterOk(s.db, s.now, s'.now, s.insts[j]);
        }
      }
    }
  }

  /** Safety over whole runs. */
  lemma {:induction false} InvAlways(s: State, steps: seq<Step>)
    requires Inv(s) && Valid(s, steps)
    ensures Inv(Run(s, steps))
    decreases |steps|
  {
    if steps != [] {
      InvStep(s, steps[0]);
      InvAlways(After(s, steps[0]), steps[1..]);
    }
  }
}
