/**
 The clock. The protocol assumes that a commit is stamped later than every earlier clock reading. Here a commit carries
 any stamp at all: exactly when does an instance, in whatever phase, still get to see it?
 */
module ReplicationClock {
  import opened Records
  import opened ZoneSpec
  import opened Changes
  import opened Database
  import opened Replication
  import opened ReplicationProof
  import opened ReplicationTheorems
  import opened ReplicationStuck
  import opened ReplicationLimits

  // ---- what a request changes in the tables ----

  datatype Target = NoTarget | RowTarget(id: int) | ZoneTarget(apex: string)

  ghost function TargetOf(db: Db, q: Request): Target {
    match q
    case PostDomain(_) => NoTarget
    case DeleteDomain(apex) => if ActiveZone(db, apex) then ZoneTarget(apex) else NoTarget
    case PostRecord(apex, rec, id) =>
      if apex in db.zones && !Collides(db, apex, rec, 0) then RowTarget(id) else NoTarget
    case PutRecord(apex, rec, id) =>
      if id in db.rows && db.rows[id].apex == apex && !Collides(db, apex, rec, id) then RowTarget(id) else NoTarget
    case DeleteRecord(apex, id) =>
      if id in db.rows && db.rows[id].apex == apex && !db.rows[id].deleted then RowTarget(id) else NoTarget
  }

  /** Rows as they were; zones as they were or new and live. */
  ghost predicate Unwritten(db: Db, db': Db) {
    && db'.rows == db.rows && db.zones.Keys <= db'.zones.Keys
    && (forall a :: a in db.zones ==> db'.zones[a] == db.zones[a])
    && (forall a :: a in db'.zones && a !in db.zones ==> !db'.zones[a].deleted)
  }

  /** One row written with stamp t, keeping its zone and key if it was there; its zone may be deleted. */
  ghost predicate RowWritten(db: Db, db': Db, t: nat, id: int) {
    && id > 0 && id in db'.rows && db' == db.(rows := db.rows[id := db'.rows[id]])
    && db'.rows[id].stamp == t && db'.rows[id].rec.id == id && db'.rows[id].apex in db.zones
    && (id in db.rows ==> db'.rows[id].apex == db.rows[id].apex && db'.rows[id].rec.Key() == db.rows[id].rec.Key())
  }

  /** One live zone deleted with stamp t. */
  ghost predicate ZoneDeleted(db: Db, db': Db, t: nat, a: string) {
    ActiveZone(db, a) && db' == db.(zones := db.zones[a := ZoneRow(t, true)])
  }

  lemma ExecuteTarget(db: Db, t: nat, q: Request)
    requires Identified(db) && FreshIdOk(db, q) && Tame(db, q)
    ensures var db' := Execute(db, t, q).db;
      match TargetOf(db, q)
      case NoTarget => Unwritten(db, db')
      case RowTarget(id) => RowWritten(db, db', t, id)
      case ZoneTarget(a) => ZoneDeleted(db, db', t, a)
  {
  }

  // ---- in time ----

  /** Whatever the pull has fetched about the row is its present version. */
  ghost predicate Current(db: Db, pending: set<Change>, id: int)
    requires id in db.rows
  {
    forall c :: c in pending && About(c, db.rows[id].apex, id) ==> c == ChangeOf(db, id)
  }

  /**
   A row of a live zone stamped t is in time for an instance: after `lastAt` while the record query is still to come,
   after the pull's start once it has run; or memory agrees anyway, or the pull happens to hold that very version, and
   nothing older of it. A row of a deleted zone is always in time: no replica is to have it.
   */
  ghost predicate RowInTime(db: Db, n: Instance, t: nat, id: int)
    requires id in db.rows
  {
    !ActiveZone(db, db.rows[id].apex) ||
    match n.phase
    case PullingRecords(q, pending) =>
      t > q || (Current(db, pending, id) && (Agree(db, n.mem, id) || (t > n.lastAt && RowFetched(db, pending, id))))
    case _ => t > n.lastAt || Agree(db, n.mem, id)
  }

  /**
   A zone deletion stamped t is in time: the same with the zone query, or neither memory nor the pull has a record of
   the zone.
   */
  ghost predicate ZoneInTime(n: Instance, t: nat, a: string) {
    match n.phase
    case PullingZones(q, _) => t > q || NoRecords(n.mem, a)
    case PullingRecords(q, pending) => t > q || (NoRecords(n.mem, a) && forall c :: c in pending ==> c.apex != a)
    case _ => t > n.lastAt || NoRecords(n.mem, a)
  }

  ghost predicate NoRecords(mem: Zones, a: string) {
    forall r :: !Has(mem, a, r)
  }

  // ---- rows ----

  ghost predicate LiveRowWritten(db: Db, db': Db, t: nat, id: int) {
    RowWritten(db, db', t, id) && ActiveZone(db, db'.rows[id].apex)
  }

  lemma RowFrame(db: Db, db': Db, now: nat, now': nat, t: nat, n: Instance, id: int)
    requires Identified(db) && InstOk(db, now, n) && Up(n.phase) && LiveRowWritten(db, db', t, id) && now <= now'
    ensures Traceable(db', n.mem)
    ensures Framed(db', now', n) <==>
            (n.phase.PullingRecords? ==> t > n.phase.start || Current(db', n.phase.pending, id))
  {
    InstOkExactly(db, now, n);
    if n.phase.PullingRecords? {
      var q, pending := n.phase.start, n.phase.pending;
      forall c | c in pending
        ensures Harmless(db', c, q) <==> (About(c, db'.rows[id].apex, id) ==> t > q || c == ChangeOf(db', id))
      {
        PendingHarmless(db, db', t, c, q, id);
      }
    }
  }

  lemma PendingHarmless(db: Db, db': Db, t: nat, c: Change, q: nat, id: int)
    requires Identified(db) && LiveRowWritten(db, db', t, id) && !c.ZoneGone? && Harmless(db, c, q)
    ensures Harmless(db', c, q) <==> (About(c, db'.rows[id].apex, id) ==> t > q || c == ChangeOf(db', id))
  {
  }

  lemma RowOthers(db: Db, db': Db, t: nat, n: Instance, id: int, j: int)
    requires LiveRowWritten(db, db', t, id) && j != id
    ensures Agree(db', n.mem, j) <==> Agree(db, n.mem, j)
    ensures Repairable(db', n, j) <==> Repairable(db, n, j)
  {
  }

  lemma RowRepairable(db: Db, db': Db, t: nat, n: Instance, id: int)
    requires LiveRowWritten(db, db', t, id) && Up(n.phase)
    ensures Repairable(db', n, id) <==>
            t > n.lastAt && (n.phase.PullingRecords? ==> t > n.phase.start || RowFetched(db', n.phase.pending, id))
  {
  }

  lemma LiveRowStampExactly(db: Db, db': Db, now: nat, now': nat, t: nat, n: Instance, id: int)
    requires Identified(db) && InstOk(db, now, n) && Up(n.phase) && LiveRowWritten(db, db', t, id) && now <= now'
    ensures InstOk(db', now', n) <==> RowInTime(db', n, t, id)
  {
    InstOkExactly(db, now, n);
    InstOkExactly(db', now', n);
    RowFrame(db, db', now, now', t, n, id);
    RowRepairable(db, db', t, n, id);
    forall j: int | j != id ensures Agree(db', n.mem, j) || Repairable(db', n, j) { RowOthers(db, db', t, n, id, j); }
  }

  /** A row of a deleted zone: nothing changes for any replica. */
  lemma DeadRowWritten(db: Db, db': Db, now: nat, now': nat, t: nat, n: Instance, id: int)
    requires Identified(db) && InstOk(db, now, n) && Up(n.phase) && now <= now'
    requires RowWritten(db, db', t, id) && !ActiveZone(db, db'.rows[id].apex)
    ensures InstOk(db', now', n)
  {
    InstOkExactly(db, now, n);
    InstOkExactly(db', now', n);
    forall c | c in PendingOf(n.phase) && Syncing(n.phase) ensures Harmless(db', c, n.phase.start) {
      assert Harmless(db, c, n.phase.start);
    }
    forall j: int ensures Agree(db', n.mem, j) || Repairable(db', n, j) {
      DeadRowSame(db, db', t, n, id, j);
    }
  }

  lemma DeadRowSame(db: Db, db': Db, t: nat, n: Instance, id: int, j: int)
    requires RowWritten(db, db', t, id) && !ActiveZone(db, db'.rows[id].apex)
    ensures Agree(db', n.mem, j) <==> Agree(db, n.mem, j)
    ensures Repairable(db, n, j) ==> Repairable(db', n, j)
  {
  }

  lemma RowStampExactly(db: Db, db': Db, now: nat, now': nat, t: nat, n: Instance, id: int)
    requires Identified(db) && InstOk(db, now, n) && Up(n.phase) && RowWritten(db, db', t, id) && now <= now'
    ensures InstOk(db', now', n) <==> RowInTime(db', n, t, id)
  {
    if ActiveZone(db, db'.rows[id].apex) {
      LiveRowStampExactly(db, db', now, now', t, n, id);
    } else {
      DeadRowWritten(db, db', now, now', t, n, id);
    }
  }

  // ---- zones ----

  lemma ZoneRowsOf(db: Db, db': Db, t: nat, n: Instance, a: string, j: int)
    requires ZoneDeleted(db, db', t, a) && j in db.rows && db.rows[j].apex == a && Up(n.phase)
    requires n.phase.PullingZones? ==> ZoneGone(a) !in n.phase.pending
    ensures Agree(db', n.mem, j) <==> forall b, r: Record :: r.id == j ==> !Has(n.mem, b, r)
    ensures Repairable(db', n, j) <==>
            t > n.lastAt && (n.phase.PullingZones? || n.phase.PullingRecords? ==> t > n.phase.start)
  {
  }

  lemma ZoneOthers(db: Db, db': Db, t: nat, n: Instance, a: string, j: int)
    requires ZoneDeleted(db, db', t, a) && (j in db.rows ==> db.rows[j].apex != a)
    ensures Agree(db', n.mem, j) <==> Agree(db, n.mem, j)
    ensures Repairable(db', n, j) <==> Repairable(db, n, j)
  {
  }

  lemma ZonePendingHarmless(db: Db, db': Db, t: nat, a: string, c: Change, q: nat)
    requires ZoneDeleted(db, db', t, a) && Harmless(db, c, q)
    ensures c.ZoneGone? ==> Harmless(db', c, q) && c.apex != a
    ensures !c.ZoneGone? ==> (Harmless(db', c, q) <==> c.apex != a || t > q)
  {
  }

  lemma ZoneFrame(db: Db, db': Db, now: nat, now': nat, t: nat, n: Instance, a: string)
    requires InstOk(db, now, n) && Up(n.phase) && ZoneDeleted(db, db', t, a) && now <= now'
    ensures Traceable(db', n.mem) && (n.phase.PullingZones? ==> ZoneGone(a) !in n.phase.pending)
    ensures Framed(db', now', n) <==>
            (n.phase.PullingRecords? ==> t > n.phase.start || forall c :: c in n.phase.pending ==> c.apex != a)
  {
    InstOkExactly(db, now, n);
    if n.phase.PullingZones? || n.phase.PullingRecords? {
      forall c | c in n.phase.pending
        ensures c.ZoneGone? ==> Harmless(db', c, n.phase.start) && c.apex != a
        ensures !c.ZoneGone? ==> (Harmless(db', c, n.phase.start) <==> c.apex != a || t > n.phase.start)
      {
        ZonePendingHarmless(db, db', t, a, c, n.phase.start);
      }
    }
  }

  /** The records of a zone in memory, by id. */
  lemma NoRecordsById(db: Db, mem: Zones, a: string)
    requires Traceable(db, mem)
    ensures NoRecords(mem, a) <==>
            forall j, b, r: Record :: j in db.rows && db.rows[j].apex == a && r.id == j ==> !Has(mem, b, r)
  {
  }

  lemma ZoneStampExactly(db: Db, db': Db, now: nat, now': nat, t: nat, n: Instance, a: string)
    requires Identified(db) && InstOk(db, now, n) && Up(n.phase) && ZoneDeleted(db, db', t, a) && now <= now'
    ensures InstOk(db', now', n) <==> ZoneInTime(n, t, a)
  {
    InstOkExactly(db, now, n);
    InstOkExactly(db', now', n);
    ZoneFrame(db, db', now, now', t, n, a);
    NoRecordsById(db, n.mem, a);
    forall j: int
      ensures if j in db.rows && db.rows[j].apex == a
              then (Agree(db', n.mem, j) <==> forall b, r: Record :: r.id == j ==> !Has(n.mem, b, r))
                   && (Repairable(db', n, j) <==>
                       t > n.lastAt && (n.phase.PullingZones? || n.phase.PullingRecords? ==> t > n.phase.start))
              else Agree(db', n.mem, j) || Repairable(db', n, j)
    {
      if j in db.rows && db.rows[j].apex == a {
        ZoneRowsOf(db, db', t, n, a, j);
      } else {
        ZoneOthers(db, db', t, n, a, j);
      }
    }
  }

  // ---- any request ----

  lemma UnwrittenInst(db: Db, db': Db, now: nat, now': nat, n: Instance)
    requires Identified(db) && InstOk(db, now, n) && Up(n.phase) && Unwritten(db, db') && now <= now'
    ensures InstOk(db', now', n)
  {
    InstOkExactly(db, now, n);
    InstOkExactly(db', now', n);
    forall j: int
      ensures (Agree(db', n.mem, j) <==> Agree(db, n.mem, j)) && (Repairable(db', n, j) <==> Repairable(db, n, j))
    {
    }
  }

  /** The later of the two. */
  function Later(now: nat, t: nat): nat {
    if now < t then t else now
  }

  /** A bulk load that has its rows is judged like the idle instance it is about to become. */
  function Settling(n: Instance): Instance {
    if n.phase.Loaded? then Instance(ApplyAll(map[], n.phase.batch), n.phase.since, Idle) else n
  }

  /** The request, committed with stamp t, is in time for the instance, whatever its phase. */
  ghost predicate InTime(db: Db, t: nat, q: Request, n: Instance) {
    var db', m := Execute(db, t, q).db, Settling(n);
    !Up(m.phase) ||
    match TargetOf(db, q)
    case NoTarget => true
    case RowTarget(id) => id in db'.rows && RowInTime(db', m, t, id)
    case ZoneTarget(a) => ZoneInTime(m, t, a)
  }

  /**
   A request committed elsewhere with any stamp t, in the past or not, and with its zone live or not, keeps an
   instance's part of the invariant exactly when it is in time for that instance.
   */
  lemma StampExactly(db: Db, now: nat, t: nat, q: Request, n: Instance)
    requires Identified(db) && FreshIdOk(db, q) && Tame(db, q) && InstOk(db, now, n)
    ensures InstOk(Execute(db, t, q).db, Later(now, t), n) <==> InTime(db, t, q, n)
  {
    var db', now', m := Execute(db, t, q).db, Later(now, t), Settling(n);
    if Up(m.phase) {
      ExecuteTarget(db, t, q);
      assert InstOk(db, now, m) && (InstOk(db', now', m) <==> InstOk(db', now', n));
      match TargetOf(db, q)
      case NoTarget => UnwrittenInst(db, db', now, now', m);
      case RowTarget(id) => RowStampExactly(db, db', now, now', t, m, id);
      case ZoneTarget(a) => ZoneStampExactly(db, db', now, now', t, m, a);
    }
  }

  // ---- whole runs with stamps out of order ----

  ghost function Stamped(s: State, t: nat, q: Request): State {
    s.(now := Later(s.now, t), db := Execute(s.db, t, q).db)
  }

  /** The whole invariant survives a commit with any stamp exactly when the commit is in time for every instance. */
  lemma StampInvExactly(s: State, t: nat, q: Request)
    requires Inv(s) && FreshIdOk(s.db, q) && Tame(s.db, q)
    ensures Inv(Stamped(s, t, q)) <==> forall i :: i in s.insts ==> InTime(s.db, t, q, s.insts[i])
  {
    WellformedIdentified(s.db, s.now);
    ExecuteWellformed(s.db, s.now, t, q);
    ExecuteNoDuplicates(s.db, t, q);
    forall i | i in s.insts
      ensures InstOk(Stamped(s, t, q).db, Later(s.now, t), s.insts[i]) <==> InTime(s.db, t, q, s.insts[i])
    {
      StampExactly(s.db, s.now, t, q, s.insts[i]);
    }
  }

  /** A step of the protocol, or a commit whose stamp is not later than all that went before. */
  datatype Event = Regular(step: Step) | Odd(at: nat, request: Request)

  ghost predicate Possible(s: State, e: Event) {
    match e
    case Regular(step) => Enabled(s, step)
    case Odd(t, q) => FreshIdOk(s.db, q) && Tame(s.db, q) && forall i :: i in s.insts ==> InTime(s.db, t, q, s.insts[i])
  }

  ghost function Next(s: State, e: Event): State
    requires Possible(s, e)
  {
    match e
    case Regular(step) => After(s, step)
    case Odd(t, q) => Stamped(s, t, q)
  }

  ghost predicate PossibleRun(s: State, es: seq<Event>)
    decreases |es|
  {
    es == [] || (Possible(s, es[0]) && PossibleRun(Next(s, es[0]), es[1..]))
  }

  ghost function RunOf(s: State, es: seq<Event>): State
    requires PossibleRun(s, es)
    decreases |es|
  {
    if es == [] then s else RunOf(Next(s, es[0]), es[1..])
  }

  /**
   Safety over whole runs in which commits may be stamped out of order, as long as each is in time for every instance.
   */
  lemma {:induction false} InvOutOfOrder(s: State, es: seq<Event>)
    requires Inv(s) && PossibleRun(s, es)
    ensures Inv(RunOf(s, es))
    decreases |es|
  {
    if es != [] {
      if es[0].Regular? {
        InvStep(s, es[0].step);
      } else {
        StampInvExactly(s, es[0].at, es[0].request);
      }
      InvOutOfOrder(Next(s, es[0]), es[1..]);
    }
  }

  /** And so convergence. */
  lemma OutOfOrderConvergence(s0: State, es: seq<Event>, i: nat)
    requires Initial(s0) && PossibleRun(s0, es)
    requires i in RunOf(s0, es).insts && Quiescent(RunOf(s0, es).db, RunOf(s0, es).insts[i])
    ensures Converged(RunOf(s0, es).db, RunOf(s0, es).insts[i].mem)
  {
    InvOutOfOrder(s0, es);
    QuietConverges(RunOf(s0, es), i);
  }

  lemma PutServed()
    ensures Serve(TableAt("new", 2), 3, PutRecord(EXAMPLE, Version("newer"), 1)).db == TableAt("newer", 3)
  {
    assert !Collides(TableAt("new", 2), EXAMPLE, Version("newer"), 1);
  }

  /** So a commit stamped at the very instant a pull began, but made after its queries, is never pulled. */
  lemma SameInstantDiverges()
    ensures var db, n := Serve(TableAt("new", 2), 3, PutRecord(EXAMPLE, Version("newer"), 1)).db,
            Instance(MemoryOf("new"), 3, Idle);
      InstOk(TableAt("new", 2), 3, n) && Wellformed(db, 3) && Stuck(db, 3, n, 1)
  {
    PutServed();
    MissedUpdate(TableAt("newer", 3), Instance(MemoryOf("new"), 3, Idle));
    UpToDate(Instance(MemoryOf("new"), 3, Idle));
  }

  lemma MissedUpdate(db: Db, n: Instance)
    requires db == TableAt("newer", 3) && n == Instance(MemoryOf("new"), 3, Idle)
    ensures Wellformed(db, 3) && Stuck(db, 3, n, 1)
  {
    assert RowOk(db, 1, 3);
    MemoryOfHas("new");
    OnlyVersionAgrees(db, n.mem, EXAMPLE, Version("new"));
  }
}
