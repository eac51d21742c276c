/**
 Where replication stops being correct. For each request or timing that the protocol excludes: the exact condition
 under which it does no harm, over an instance in any serving phase or through a whole pull, and a concrete case in
 which the replica stays wrong.
 */
module ReplicationLimits {
  import opened Records
  import opened ZoneSpec
  import opened Changes
  import opened Database
  import opened Replication
  import opened ReplicationProof
  import opened ReplicationTheorems
  import opened ReplicationStuck

  // ---- moving a record to another key ----

  /** Writing a version of an id leaves it as the only version of that id in the zone exactly when the key is stable. */
  lemma OneVersionExactly(m: Rrsets, rec: Record)
    requires GoodZone(m) && rec.id > 0
    ensures (forall r :: InZone(PutZone(m, rec), r) && r.id == rec.id ==> r == rec) <==> KeyStable(m, rec)
  {
    if KeyStable(m, rec) {
      forall r | InZone(PutZone(m, rec), r) && r.id == rec.id ensures r == rec { PutInZone(m, rec, r); }
    } else {
      var k, i :| At(m, k, i) && m[k][i].id == rec.id && k != rec.Key();
      var m' := PutZone(m, rec);
      assert At(m', k, i) && m'[k][i] == m[k][i];
      assert InZone(m', m[k][i]);
    }
  }

  /** A replica that held a version of the row under another key keeps both versions after the pull. */
  lemma MovedRecordStays(mem: Zones, apex: string, was: Record, rec: Record)
    requires Good(mem) && Has(mem, apex, was) && was.id == rec.id > 0 && was.Key() != rec.Key()
    ensures Has(ApplyOne(mem, Upsert(apex, rec)), apex, was) && Has(ApplyOne(mem, Upsert(apex, rec)), apex, rec)
  {
    var m := mem[apex].rrsets;
    var m' := PutZone(m, rec);
    assert GoodZone(m);
    var k, i :| At(m, k, i) && m[k][i] == was;
    assert At(m', k, i) && m'[k][i] == was;
    var rs := RrsetOf(m, rec.Key());
    var p := IndexOfId(rs, rec.id);
    assert At(m', rec.Key(), p) && m'[rec.Key()][p] == rec;
  }

  /** Row `id` of a live zone, rewritten at t under another name or type. */
  ghost predicate Moved(db: Db, db': Db, t: nat, id: int) {
    && id in db.rows && id in db'.rows && db' == db.(rows := db.rows[id := db'.rows[id]])
    && db'.rows[id].apex == db.rows[id].apex && ActiveZone(db, db.rows[id].apex)
    && db'.rows[id].stamp == t && db'.rows[id].rec.id == id && db'.rows[id].rec.Key() != db.rows[id].rec.Key()
  }

  /** A PUT that is not refused and changes the key moves the row. */
  lemma PutMoves(db: Db, t: nat, apex: string, rec: Record, id: int)
    requires id in db.rows && rec.Key() != db.rows[id].rec.Key() && Serve(db, t, PutRecord(apex, rec, id)).effect.Do?
    ensures Moved(db, Serve(db, t, PutRecord(apex, rec, id)).db, t, id)
  {
  }

  lemma MovedOthers(db: Db, db': Db, t: nat, n: Instance, id: int, j: int)
    requires Moved(db, db', t, id) && j != id
    ensures Agree(db', n.mem, j) <==> Agree(db, n.mem, j)
    ensures Repairable(db', n, j) <==> Repairable(db, n, j)
  {
  }

  lemma MovedPending(db: Db, db': Db, t: nat, id: int, c: Change, q: nat)
    requires Moved(db, db', t, id) && q < t && Harmless(db, c, q)
    ensures Harmless(db', c, q) <==> !(c.Upsert? && c.rec.id == id)
  {
  }

  /** No version of the row is in memory, and none is fetched. */
  ghost predicate Unmet(n: Instance, id: int) {
    && (forall a, r :: Has(n.mem, a, r) ==> r.id != id)
    && (n.phase.PullingRecords? ==> forall c :: c in n.phase.pending && c.Upsert? ==> c.rec.id != id)
  }

  /**
   A move committed elsewhere, in time, keeps the invariant of an instance in any serving phase exactly when the
   instance has not met the row.
   */
  lemma MoveExactly(db: Db, db': Db, now: nat, t: nat, n: Instance, id: int)
    requires InstOk(db, now, n) && Up(n.phase) && Moved(db, db', t, id) && now < t
    ensures InstOk(db', t, n) <==> Unmet(n, id)
  {
    InstOkExactly(db, now, n);
    InstOkExactly(db', t, n);
    forall j: int | j != id ensures Agree(db', n.mem, j) || Repairable(db', n, j) { MovedOthers(db, db', t, n, id, j); }
    if n.phase.PullingZones? || n.phase.PullingRecords? {
      forall c | c in n.phase.pending ensures Harmless(db', c, n.phase.start) <==> !(c.Upsert? && c.rec.id == id) {
        MovedPending(db, db', t, id, c, n.phase.start);
      }
    }
    assert Repairable(db', n, id);
  }

  // ---- a move served here, and what becomes of the old copy ----

  /** The same condition holds for the instance that serves the move and writes the new version to its memory. */
  lemma MoveServedExactly(db: Db, db': Db, now: nat, t: nat, n: Instance, id: int)
    requires Identified(db) && InstOk(db, now, n) && Up(n.phase) && now < t
    requires Moved(db, db', t, id) && !db'.rows[id].deleted
    ensures InstOk(db', t, n.(mem := ApplyOne(n.mem, Upsert(db'.rows[id].apex, db'.rows[id].rec)))) <==> Unmet(n, id)
  {
    var apex, rec := db'.rows[id].apex, db'.rows[id].rec;
    var n' := n.(mem := ApplyOne(n.mem, Upsert(apex, rec)));
    MoveExactly(db, db', now, t, n, id);
    if Unmet(n, id) {
      LateUpsertExactly(db', t, n, apex, rec);
    } else if a, r: Record :| Has(n.mem, a, r) && r.id == id {
      InstOkExactly(db, now, n);
      MovedRecordStays(n.mem, apex, r, rec);
      assert !Traceable(db', n'.mem);
      InstOkExactly(db', t, n');
    } else {
      MovedFrame(db, db', now, t, n, id);
      InstOkExactly(db', t, n');
    }
  }

  lemma MovedFrame(db: Db, db': Db, now: nat, t: nat, n: Instance, id: int)
    requires InstOk(db, now, n) && Up(n.phase) && now < t && Moved(db, db', t, id)
    requires n.phase.PullingRecords? && exists c :: c in n.phase.pending && c.Upsert? && c.rec.id == id
    ensures !Framed(db', t, n)
  {
    InstOkExactly(db, now, n);
    var c :| c in n.phase.pending && c.Upsert? && c.rec.id == id;
    MovedPending(db, db', t, id, c, n.phase.start);
  }

  /** The record is in memory under its own key. */
  ghost predicate HasFiled(mem: Zones, apex: string, r: Record) {
    apex in mem && r.Key() in mem[apex].rrsets && r in mem[apex].rrsets[r.Key()]
  }

  /** A version of a live row under a key the row no longer has; nothing fetched removes it. */
  ghost predicate LeftBehind(db: Db, n: Instance, apex: string, was: Record) {
    && HasFiled(n.mem, apex, was) && ActiveRow(db, was.id) && db.rows[was.id].apex == apex
    && db.rows[was.id].rec.Key() != was.Key()
    && forall c :: c in PendingOf(n.phase) ==> Leaves(c, apex, was)
  }

  /** The change does not take the record out of its rrset. */
  predicate Leaves(c: Change, apex: string, was: Record) {
    match c
    case ZoneGone(a) => a != apex
    case Tombstone(a, id) => a != apex || id != was.id
    case Upsert(a, rec) => a != apex || rec.id != was.id || rec.Key() != was.Key()
  }

  lemma LeavesFiled(mem: Zones, c: Change, apex: string, was: Record)
    requires HasFiled(mem, apex, was) && Leaves(c, apex, was)
    ensures HasFiled(ApplyOne(mem, c), apex, was)
  {
    if c.Upsert? && c.apex == apex && c.rec.Key() == was.Key() {
      var rs := mem[apex].rrsets[was.Key()];
      var i :| 0 <= i < |rs| && rs[i] == was;
      assert PutRrset(rs, c.rec)[i] == was;
    }
  }

  lemma FetchedLeaves(db: Db, lastAt: nat, c: Change, apex: string, was: Record)
    requires Identified(db) && c in ZoneRowsSince(db, lastAt) + RecordRowsSince(db, lastAt)
    requires ActiveRow(db, was.id) && db.rows[was.id].apex == apex && db.rows[was.id].rec.Key() != was.Key()
    ensures Leaves(c, apex, was)
  {
    if c in RecordRowsSince(db, lastAt) {
      var j :| j in db.rows && ActiveZone(db, db.rows[j].apex) && c == ChangeOf(db, j);
    }
  }

  /** The old copy survives any number of pulls, failing or not. */
  lemma {:induction false} LeftBehindForever(s: State, steps: seq<Step>, i: nat, apex: string, was: Record)
    requires Identified(s.db) && i in s.insts && LeftBehind(s.db, s.insts[i], apex, was) && PullRun(s, steps, i)
    ensures Run(s, steps).db == s.db && i in Run(s, steps).insts && LeftBehind(s.db, Run(s, steps).insts[i], apex, was)
    decreases |steps|
  {
    if steps != [] {
      var step, n, s1, rest := steps[0], s.insts[i], After(s, steps[0]), steps[1..];
      assert PullStep(step, i);
      if step.ApplyZone? || step.ApplyRecord? { LeavesFiled(n.mem, step.change, apex, was); }
      forall c | c in PendingOf(s1.insts[i].phase) ensures Leaves(c, apex, was) {
        if step.QueryZones? || step.QueryRecords? { FetchedLeaves(s.db, n.lastAt, c, apex, was); }
      }
      forall k | 0 <= k < |rest| ensures PullStep(rest[k], i) { assert rest[k] == steps[k + 1]; }
      LeftBehindForever(s1, rest, i, apex, was);
    }
  }

  // ---- a memory write that arrives late ----

  /** A memory write that only changes what is known about one id is judged by that id. */
  lemma OneIdWritten(db: Db, now: nat, n: Instance, mem': Zones, id: int)
    requires InstOk(db, now, n) && Up(n.phase) && Good(mem') && Traceable(db, mem')
    requires forall a, r: Record :: r.id != id ==> (Has(mem', a, r) <==> Has(n.mem, a, r))
    ensures InstOk(db, now, n.(mem := mem')) <==> Agree(db, mem', id) || Repairable(db, n, id)
  {
    var n' := n.(mem := mem');
    InstOkExactly(db, now, n);
    InstOkExactly(db, now, n');
    forall j: int | j != id ensures Agree(db, mem', j) <==> Agree(db, n.mem, j) { SameAgree(db, n.mem, mem', j); }
    forall j: int ensures Repairable(db, n', j) <==> Repairable(db, n, j) {}
  }

  lemma UpsertApplied(db: Db, mem: Zones, apex: string, rec: Record)
    requires Identified(db) && Good(mem) && Traceable(db, mem)
    requires rec.id in db.rows && db.rows[rec.id].apex == apex && rec.Key() == db.rows[rec.id].rec.Key()
    ensures var mem' := ApplyOne(mem, Upsert(apex, rec));
      && Good(mem') && Traceable(db, mem')
        && (forall a, r: Record :: r.id != rec.id ==> (Has(mem', a, r) <==> Has(mem, a, r)))
      && forall a, r: Record :: r.id == rec.id ==> (Has(mem', a, r) <==> a == apex && r == rec)
  {
    var c := Upsert(apex, rec);
    assert KeysAgree(mem, {c});
    ApplyOneHas(mem, c);
    forall a, r: Record | r.id == rec.id ensures Has(ApplyOne(mem, c), a, r) <==> a == apex && r == rec {
      if Has(mem, a, r) { assert a == apex; }
    }
  }

  /**
   A handler that committed some version of a row and writes it to memory later, in whatever phase the instance then
   is: the invariant survives exactly when that version is still the live one, or the row is still going to be
   repaired.
   */
  lemma LateUpsertExactly(db: Db, now: nat, n: Instance, apex: string, rec: Record)
    requires Identified(db) && InstOk(db, now, n) && Up(n.phase)
    requires rec.id in db.rows && db.rows[rec.id].apex == apex && rec.Key() == db.rows[rec.id].rec.Key()
    ensures InstOk(db, now, n.(mem := ApplyOne(n.mem, Upsert(apex, rec)))) <==>
            (ActiveRow(db, rec.id) && rec == db.rows[rec.id].rec) || Repairable(db, n, rec.id)
  {
    var mem' := ApplyOne(n.mem, Upsert(apex, rec));
    UpsertApplied(db, n.mem, apex, rec);
    OneIdWritten(db, now, n, mem', rec.id);
    OnlyVersionAgrees(db, mem', apex, rec);
  }

  lemma LateUpsertDoomsAt(db: Db, now: nat, n: Instance, apex: string, rec: Record)
    requires Identified(db) && InstOk(db, now, n) && Up(n.phase) && FetchedLater(db, n)
    requires rec.id in db.rows && db.rows[rec.id].apex == apex && rec.Key() == db.rows[rec.id].rec.Key()
    ensures var late := n.(mem := ApplyOne(n.mem, Upsert(apex, rec)));
      InstOk(db, now, late) || Doomed(db, now, late, rec.id)
  {
    var late := n.(mem := ApplyOne(n.mem, Upsert(apex, rec)));
    InstOkExactly(db, now, n);
    UpsertApplied(db, n.mem, apex, rec);
    OnlyVersionAgrees(db, late.mem, apex, rec);
    LateUpsertExactly(db, now, n, apex, rec);
    if !InstOk(db, now, late) { NotRepairableIsUncovered(db, now, late, rec.id); }
  }

  /** In every run, a late write that breaks the invariant dooms its id. */
  lemma LateUpsertDooms(s0: State, steps: seq<Step>, i: nat, apex: string, rec: Record)
    requires Initial(s0) && Valid(s0, steps) && i in s0.insts && i in Run(s0, steps).insts
    requires var s := Run(s0, steps);
      && Up(s.insts[i].phase) && rec.id in s.db.rows
      && s.db.rows[rec.id].apex == apex && rec.Key() == s.db.rows[rec.id].rec.Key()
    ensures var s := Run(s0, steps); var late := s.insts[i].(mem := ApplyOne(s.insts[i].mem, Upsert(apex, rec)));
      InstOk(s.db, s.now, late) || Doomed(s.db, s.now, late, rec.id)
  {
    var s := Run(s0, steps);
    InvAlways(s0, steps);
    FetchedAlways(s0, steps, i);
    WellformedIdentified(s.db, s.now);
    LateUpsertDoomsAt(s.db, s.now, s.insts[i], apex, rec);
  }

  lemma OnlyVersionAgrees(db: Db, mem: Zones, apex: string, rec: Record)
    requires rec.id in db.rows && db.rows[rec.id].apex == apex
    requires forall a, r: Record :: r.id == rec.id ==> (Has(mem, a, r) <==> a == apex && r == rec)
    ensures Agree(db, mem, rec.id) <==> ActiveRow(db, rec.id) && rec == db.rows[rec.id].rec
  {
    assert Has(mem, apex, rec);
  }

  lemma TombstoneApplied(db: Db, mem: Zones, apex: string, id: int)
    requires Identified(db) && Good(mem) && Traceable(db, mem) && id in db.rows && db.rows[id].apex == apex
    ensures var mem' := ApplyOne(mem, Tombstone(apex, id));
      && Good(mem') && Traceable(db, mem')
        && (forall a, r: Record :: r.id != id ==> (Has(mem', a, r) <==> Has(mem, a, r)))
      && forall a, r: Record :: r.id == id ==> !Has(mem', a, r)
  {
    ApplyOneHas(mem, Tombstone(apex, id));
  }

  lemma NoVersionAgrees(db: Db, mem: Zones, id: int)
    requires Identified(db) && forall a, r: Record :: r.id == id ==> !Has(mem, a, r)
    ensures Agree(db, mem, id) <==> !ActiveRow(db, id)
  {
    if ActiveRow(db, id) { assert !Has(mem, db.rows[id].apex, db.rows[id].rec); }
  }

  /**
   A handler that committed a record's deletion and drops it from memory later: exactly when the row is not live again.
   */
  lemma LateTombstoneExactly(db: Db, now: nat, n: Instance, apex: string, id: int)
    requires Identified(db) && InstOk(db, now, n) && Up(n.phase) && id in db.rows && db.rows[id].apex == apex
    ensures InstOk(db, now, n.(mem := ApplyOne(n.mem, Tombstone(apex, id)))) <==>
            !ActiveRow(db, id) || Repairable(db, n, id)
  {
    var mem' := ApplyOne(n.mem, Tombstone(apex, id));
    TombstoneApplied(db, n.mem, apex, id);
    OneIdWritten(db, now, n, mem', id);
    NoVersionAgrees(db, mem', id);
  }

  /**
   A handler that committed a zone's deletion may drop the zone from memory at any later time: deletions are final.
   */
  lemma LateZoneGoneHarmless(s0: State, before: seq<Step>, later: seq<Step>, i: nat, apex: string)
    requires Initial(s0) && Valid(s0, before) && Valid(Run(s0, before), later)
    requires apex in Run(s0, before).db.zones && Run(s0, before).db.zones[apex].deleted
    requires i in Run(Run(s0, before), later).insts && Up(Run(Run(s0, before), later).insts[i].phase)
    ensures var t := Run(Run(s0, before), later);
      InstOk(t.db, t.now, t.insts[i].(mem := ApplyOne(t.insts[i].mem, ZoneGone(apex))))
  {
    var s := Run(s0, before);
    var t := Run(s, later);
    InvAlways(s0, before);
    InvAlways(s, later);
    RunGrows(s, later);
    HarmlessInst(t.db, t.now, t.now, t.insts[i], ZoneGone(apex));
  }

  // ---- an empty zone put into memory: POST of a live domain, or of a new one by a handler that stalls ----

  function Emptied(mem: Zones, apex: string): Zones {
    mem[apex := ZoneVal(map[], None)]
  }

  lemma EmptiedHas(mem: Zones, apex: string)
    ensures forall a, r :: Has(Emptied(mem, apex), a, r) <==> Has(mem, a, r) && a != apex
    ensures Good(mem) ==> Good(Emptied(mem, apex))
  {
    assert GoodZone(map[]);
  }

  lemma EmptiedAgree(db: Db, mem: Zones, apex: string, id: int)
    requires Identified(db) && Traceable(db, mem)
    ensures Agree(db, Emptied(mem, apex), id) <==>
            if id in db.rows && db.rows[id].apex == apex then !ActiveRow(db, id) else Agree(db, mem, id)
  {
    EmptiedHas(mem, apex);
    if id in db.rows && db.rows[id].apex == apex {
      NoVersionAgrees(db, Emptied(mem, apex), id);
    } else {
      SameAgree(db, mem, Emptied(mem, apex), id);
    }
  }

  /** In whatever phase: exactly when every live row of the domain is still going to be repaired. */
  lemma ResetExactly(db: Db, now: nat, n: Instance, apex: string)
    requires Identified(db) && InstOk(db, now, n) && Up(n.phase)
    ensures InstOk(db, now, n.(mem := Emptied(n.mem, apex))) <==>
            forall id :: id in db.rows && db.rows[id].apex == apex && ActiveRow(db, id) ==> Repairable(db, n, id)
  {
    var n' := n.(mem := Emptied(n.mem, apex));
    EmptiedHas(n.mem, apex);
    InstOkExactly(db, now, n);
    InstOkExactly(db, now, n');
    forall id: int
      ensures Repairable(db, n', id) <==> Repairable(db, n, id)
      ensures Agree(db, n'.mem, id) <==>
              if id in db.rows && db.rows[id].apex == apex then !ActiveRow(db, id) else Agree(db, n.mem, id)
    {
      EmptiedAgree(db, n.mem, apex, id);
    }
  }

  /**
   POST of a live domain leaves the tables alone and keeps the invariant exactly when all its live rows are still to be
   repaired.
   */
  lemma PostLiveDomainExactly(db: Db, now: nat, t: nat, n: Instance, apex: string)
    requires Identified(db) && InstOk(db, now, n) && Up(n.phase) && ActiveZone(db, apex)
    ensures var out := Serve(db, t, PostDomain(apex));
      && out.db == db
      && (InstOk(db, now, n.(mem := ApplyEffect(n.mem, out.effect))) <==>
          forall id :: id in db.rows && db.rows[id].apex == apex && !db.rows[id].deleted ==> Repairable(db, n, id))
  {
    ResetExactly(db, now, n, apex);
  }

  // ---- concrete cases ----

  const EXAMPLE: string := "example.com."

  function Version(value: string): Record {
    Record(1, "www.example.com.", TYPE_A, 300, value, 0, None)
  }

  function TableAt(value: string, stamp: nat): Db {
    Db(map[EXAMPLE := ZoneRow(0, false)], map[1 := Row(EXAMPLE, Version(value), stamp, false)])
  }

  /** Memory holding the one row in its given version. */
  function MemoryOf(value: string): Zones {
    map[EXAMPLE := ZoneVal(map[Version(value).Key() := [Version(value)]], None)]
  }

  lemma MemoryOfHas(value: string)
    ensures Good(MemoryOf(value))
    ensures forall a, r :: Has(MemoryOf(value), a, r) <==> a == EXAMPLE && r == Version(value)
  {
    var m := map[Version(value).Key() := [Version(value)]];
    assert GoodZone(m);
    assert At(m, Version(value).Key(), 0);
    forall r | InZone(m, r) ensures r == Version(value) {}
  }

  lemma MemoryTraceable(db: Db, value: string)
    requires 1 in db.rows && db.rows[1].apex == EXAMPLE && db.rows[1].rec.Key() == Version(value).Key()
    ensures Good(MemoryOf(value)) && Traceable(db, MemoryOf(value))
    ensures forall a, r: Record :: r.id == 1 ==> (Has(MemoryOf(value), a, r) <==> a == EXAMPLE && r == Version(value))
  {
    MemoryOfHas(value);
  }

  /** Up to date, whatever the phase: the one row is stamped 2 and memory holds it. */
  lemma UpToDate(n: Instance)
    requires n.mem == MemoryOf("new")
             && (n == Instance(n.mem, 3, Idle) || n == Instance(n.mem, 0, PullingRecords(3, {})))
    ensures Wellformed(TableAt("new", 2), 3) && InstOk(TableAt("new", 2), 3, n)
  {
    MemoryOfHas("new");
    assert RowOk(TableAt("new", 2), 1, 3);
    InstOkExactly(TableAt("new", 2), 3, n);
    forall id: int ensures Agree(TableAt("new", 2), n.mem, id) {}
  }

  /**
   A handler committed "old" at 1, another request "new" at 2, a pull begun at 3 brought memory up to date; then "old"
   is written.
   */
  lemma StalledPutDiverges()
    ensures var db, n := TableAt("new", 2), Instance(MemoryOf("new"), 3, Idle);
      InstOk(db, 3, n) && Wellformed(db, 3)
        && Stuck(db, 3, n.(mem := ApplyOne(n.mem, Upsert(EXAMPLE, Version("old")))), 1)
  {
    var db, n := TableAt("new", 2), Instance(MemoryOf("new"), 3, Idle);
    UpToDate(n);
    UpsertApplied(db, n.mem, EXAMPLE, Version("old"));
    OnlyVersionAgrees(db, ApplyOne(n.mem, Upsert(EXAMPLE, Version("old"))), EXAMPLE, Version("old"));
  }

  /**
   The same write in the middle of a pull that has applied all it fetched: still dirty since `lastAt`, but the pull's
   success forgets that.
   */
  lemma MidPullDiverges()
    ensures var db, n := TableAt("new", 2), Instance(MemoryOf("new"), 0, PullingRecords(3, {}));
      var late := n.(mem := ApplyOne(n.mem, Upsert(EXAMPLE, Version("old"))));
      && InstOk(db, 3, n) && Dirty(db, 1, n.lastAt) && !InstOk(db, 3, late)
      && Enabled(State(3, db, map[0 := late]), FinishSync(0))
      && Stuck(db, 3, After(State(3, db, map[0 := late]), FinishSync(0)).insts[0], 1)
  {
    var db, n := TableAt("new", 2), Instance(MemoryOf("new"), 0, PullingRecords(3, {}));
    UpToDate(n);
    LateUpsertExactly(db, 3, n, EXAMPLE, Version("old"));
    StalledPutDiverges();
  }

  function MovedVersion(): Record {
    Version("new").(name := "mail.example.com.")
  }

  /** A PUT served at 4 moves the row to another name: both versions are in memory, and the old one stays for good. */
  lemma MovedDiverges()
    ensures var out := Serve(TableAt("new", 2), 4, PutRecord(EXAMPLE, MovedVersion(), 1));
      && Wellformed(out.db, 4) && ActiveRow(out.db, 1) && out.db.rows[1].rec == MovedVersion()
      && LeftBehind(out.db, Instance(ApplyEffect(MemoryOf("new"), out.effect), 3, Idle), EXAMPLE, Version("new"))
  {
    var db := TableAt("new", 2);
    assert !Collides(db, EXAMPLE, MovedVersion(), 1);
    UpToDate(Instance(MemoryOf("new"), 3, Idle));
    ExecuteWellformed(db, 3, 4, PutRecord(EXAMPLE, MovedVersion(), 1));
    assert MovedVersion().name != Version("new").name;
    LeavesFiled(MemoryOf("new"), Upsert(EXAMPLE, MovedVersion()), EXAMPLE, Version("new"));
  }

  /**
   A DELETE commits at 1 and stalls, a PUT revives the row at 2, a pull brings it in; then the record is dropped from
   memory.
   */
  lemma StalledDeleteDiverges()
    ensures var db, n := TableAt("new", 2), Instance(MemoryOf("new"), 3, Idle);
      InstOk(db, 3, n) && Wellformed(db, 3) && Stuck(db, 3, n.(mem := ApplyOne(n.mem, Tombstone(EXAMPLE, 1))), 1)
  {
    var db, n := TableAt("new", 2), Instance(MemoryOf("new"), 3, Idle);
    UpToDate(n);
    TombstoneApplied(db, n.mem, EXAMPLE, 1);
    NoVersionAgrees(db, ApplyOne(n.mem, Tombstone(EXAMPLE, 1)), 1);
  }

  /** A POST of the domain, repeated or stalled since before the record came, empties the zone for good. */
  lemma PostDomainDiverges()
    ensures var db, n := TableAt("new", 2), Instance(MemoryOf("new"), 3, Idle);
      && InstOk(db, 3, n) && Wellformed(db, 3)
      && Stuck(db, 3, n.(mem := ApplyEffect(n.mem, Serve(db, 4, PostDomain(EXAMPLE)).effect)), 1)
  {
    var db, n := TableAt("new", 2), Instance(MemoryOf("new"), 3, Idle);
    UpToDate(n);
    EmptiedHas(n.mem, EXAMPLE);
    EmptiedAgree(db, n.mem, EXAMPLE, 1);
  }

  // ---- a record committed under a zone deleted meanwhile ----

  /**
   A handler checks that the zone is live, commits a version of a row, and writes it to memory; the zone was deleted
   before the commit. In whatever phase: harmless exactly when the deletion is still going to be pulled.
   */
  lemma OrphanExactly(db: Db, now: nat, n: Instance, apex: string, rec: Record)
    requires Identified(db) && InstOk(db, now, n) && Up(n.phase) && apex in db.zones && db.zones[apex].deleted
    requires rec.id in db.rows && db.rows[rec.id].apex == apex && rec.Key() == db.rows[rec.id].rec.Key()
    ensures var gone := db.zones[apex].stamp;
      InstOk(db, now, n.(mem := ApplyOne(n.mem, Upsert(apex, rec)))) <==>
      match n.phase
      case PullingZones(q, pending) => gone > q || (gone > n.lastAt && ZoneGone(apex) in pending)
      case PullingRecords(q, _) => gone > q
      case _ => gone > n.lastAt
  {
    LateUpsertExactly(db, now, n, apex, rec);
    InstOkExactly(db, now, n);
  }

  /**
   Through a whole pull, whose record query may see other tables than its zone query: a record that memory holds under
   a deleted zone goes exactly when the deletion is stamped after `lastAt`. Its own row never comes back, as the record
   query joins with live zones.
   */
  lemma OrphanStaysExactly(db: Db, db': Db, mem: Zones, lastAt: nat, a: string, r: Record, cs: seq<Change>)
    requires Identified(db') && Grows(db, db') && Good(mem) && Traceable(db', mem) && Has(mem, a, r)
    requires a in db.zones && db.zones[a].deleted
    requires Elements(cs) == ZoneRowsSince(db, lastAt) + RecordRowsSince(db', lastAt)
    ensures Has(ApplyAll(mem, cs), a, r) <==> db.zones[a].stamp <= lastAt
  {
    PullIsOrderly(db, db', mem, lastAt);
    ApplySettles(mem, cs);
    forall c, id | c in Elements(cs) ensures !About(c, a, id) {
      if c in RecordRowsSince(db', lastAt) {
        var j :| j in db'.rows && ActiveZone(db', db'.rows[j].apex) && c == ChangeOf(db', j);
      }
    }
    assert About(Upsert(a, r), a, r.id);
  }

  /** The zone is deleted at 2, a pull begun at 3 has seen that, and the insert commits at 4: the record is stuck. */
  lemma OrphanDiverges()
    ensures var db := Orphaned(); Wellformed(db, 4) && Stuck(db, 4, Instance(MemoryOf("new"), 3, Idle), 1)
  {
    assert RowOk(Orphaned(), 1, 4);
    MemoryTraceable(Orphaned(), "new");
    OnlyVersionAgrees(Orphaned(), MemoryOf("new"), EXAMPLE, Version("new"));
  }

  function Orphaned(): Db {
    Db(map[EXAMPLE := ZoneRow(2, true)], map[1 := Row(EXAMPLE, Version("new"), 4, false)])
  }

  // ---- a row the loader skips ----

  /**
   The changes of a pull without those of the live rows in `skipped`, whose type or rdata the loader does not accept.
   */
  function Loadable(fetched: set<Change>, skipped: set<int>): set<Change> {
    set c | c in fetched && !(c.Upsert? && c.rec.id in skipped)
  }

  /**
   A skipped row of a live zone leaves memory as it was about its id, through a whole pull whose record query may see
   other tables than its zone query; so the pull repairs it exactly when there was nothing to repair.
   */
  lemma SkippedStaysExactly(db: Db, db': Db, mem: Zones, lastAt: nat, skipped: set<int>, id: int, cs: seq<Change>)
    requires Identified(db') && Grows(db, db') && Good(mem) && Traceable(db', mem)
    requires Elements(cs) == Loadable(ZoneRowsSince(db, lastAt) + RecordRowsSince(db', lastAt), skipped)
    requires id in skipped && ActiveRow(db', id)
    ensures Agree(db', ApplyAll(mem, cs), id) <==> Agree(db', mem, id)
    ensures forall a, r: Record :: r.id == id ==> (Has(ApplyAll(mem, cs), a, r) <==> Has(mem, a, r))
  {
    PullIsOrderly(db, db', mem, lastAt);
    OrderlySubset(mem, ZoneRowsSince(db, lastAt) + RecordRowsSince(db', lastAt), Elements(cs));
    ApplySettles(mem, cs);
    forall c | c in Elements(cs) ensures c != ZoneGone(db'.rows[id].apex) && forall a :: !About(c, a, id) {
      if c in RecordRowsSince(db', lastAt) {
        var j :| j in db'.rows && ActiveZone(db', db'.rows[j].apex) && c == ChangeOf(db', j);
      }
    }
    forall a, r: Record | r.id == id ensures Has(ApplyAll(mem, cs), a, r) <==> Has(mem, a, r) {
      assert About(Upsert(a, r), a, id);
      if Has(mem, a, r) { assert a == db'.rows[id].apex; }
    }
  }
}
