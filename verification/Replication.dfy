/**
 Many instances following one pair of tables. An instance bulk-loads, then pulls changes stamped after `lastAt` with
 two separate queries and applies the rows one at a time, while requests are served anywhere and any pull may fail at
 any point. There is one clock; a commit is stamped strictly later than every earlier clock reading. A request that
 writes to memory makes its zone check, its commit and that write in one step; one that does not only commits, and may
 have made its zone check any time before.
 */
module Replication {
  import opened Records
  import opened ZoneSpec
  import opened Changes
  import opened Database

  datatype Phase =
    | Down
    | Loading(since: nat)                                // syncSince is read, LoadAll has not queried yet
    | Loaded(since: nat, batch: seq<Change>)             // LoadAll has its rows, the store is not published yet
    | Idle
    | Begun(start: nat)                                  // queryStart is read, nothing queried yet
    | PullingZones(start: nat, pending: set<Change>)     // zone rows fetched, some still to apply
    | PullingRecords(start: nat, pending: set<Change>)   // record rows fetched, some still to apply

  datatype Instance = Instance(mem: Zones, lastAt: nat, phase: Phase)

  datatype State = State(now: nat, db: Db, insts: map<nat, Instance>)

  datatype Step =
    | BeginLoad(i: nat, at: nat)
    | QueryLoad(i: nat, batch: seq<Change>)
    | FinishLoad(i: nat)
    | BeginSync(i: nat, at: nat)
    | QueryZones(i: nat)
    | ApplyZone(i: nat, change: Change)
    | QueryRecords(i: nat)
    | ApplyRecord(i: nat, change: Change)
    | FinishSync(i: nat)
    | FailSync(i: nat)
    | Crash(i: nat)
    | Api(i: nat, at: nat, request: Request)      // served by instance i: tables, then its memory
    | Elsewhere(at: nat, request: Request)        // only committed, its zone perhaps deleted since it was looked up

  // ---- queries ----

  function ChangeOf(db: Db, id: int): Change
    requires id in db.rows
  {
    if db.rows[id].deleted then Tombstone(db.rows[id].apex, id) else Upsert(db.rows[id].apex, db.rows[id].rec)
  }

  /** Deleted zones stamped after `since`; live ones are returned too but cause no call. */
  function ZoneRowsSince(db: Db, since: nat): set<Change> {
    set a | a in db.zones && db.zones[a].deleted && db.zones[a].stamp > since :: ZoneGone(a)
  }

  /** Rows stamped after `since`, joined with the zones that are live now. */
  function RecordRowsSince(db: Db, since: nat): set<Change> {
    set id | id in db.rows && db.rows[id].stamp > since && ActiveZone(db, db.rows[id].apex) :: ChangeOf(db, id)
  }

  function ActiveRows(db: Db): set<Change> {
    set id | id in db.rows && ActiveRow(db, id) :: Upsert(db.rows[id].apex, db.rows[id].rec)
  }

  // ---- the step system ----

  predicate Up(p: Phase) {
    !p.Down? && !p.Loading? && !p.Loaded?
  }

  predicate Syncing(p: Phase) {
    p.Begun? || p.PullingZones? || p.PullingRecords?
  }

  ghost predicate Enabled(s: State, step: Step) {
    match step
    case BeginLoad(i, at) => i in s.insts && s.insts[i].phase.Down? && s.now <= at
    case QueryLoad(i, batch) => i in s.insts && s.insts[i].phase.Loading? && Elements(batch) == ActiveRows(s.db)
    case FinishLoad(i) => i in s.insts && s.insts[i].phase.Loaded?
    case BeginSync(i, at) => i in s.insts && s.insts[i].phase.Idle? && s.now <= at
    case QueryZones(i) => i in s.insts && s.insts[i].phase.Begun?
    case ApplyZone(i, c) => i in s.insts && s.insts[i].phase.PullingZones? && c in s.insts[i].phase.pending
    case QueryRecords(i) => i in s.insts && s.insts[i].phase.PullingZones? && s.insts[i].phase.pending == {}
    case ApplyRecord(i, c) => i in s.insts && s.insts[i].phase.PullingRecords? && c in s.insts[i].phase.pending
    case FinishSync(i) => i in s.insts && s.insts[i].phase.PullingRecords? && s.insts[i].phase.pending == {}
    case FailSync(i) => i in s.insts && Syncing(s.insts[i].phase)
    case Crash(i) => i in s.insts
    case Api(i, at, q) => i in s.insts && Up(s.insts[i].phase) && s.now < at && FreshIdOk(s.db, q) && Tame(s.db, q)
    case Elsewhere(at, q) => s.now < at && FreshIdOk(s.db, q) && Tame(s.db, q)
  }

  function With(s: State, i: nat, n: Instance): State {
    s.(insts := s.insts[i := n])
  }

  ghost function After(s: State, step: Step): State
    requires Enabled(s, step)
  {
    match step
    case BeginLoad(i, at) => With(s, i, s.insts[i].(phase := Loading(at))).(now := at)
    case QueryLoad(i, batch) => With(s, i, s.insts[i].(phase := Loaded(s.insts[i].phase.since, batch)))
    case FinishLoad(i) => With(s, i, Instance(ApplyAll(map[], s.insts[i].phase.batch), s.insts[i].phase.since, Idle))
    case BeginSync(i, at) => With(s, i, s.insts[i].(phase := Begun(at))).(now := at)
    case QueryZones(i) =>
      var n := s.insts[i];
      With(s, i, n.(phase := PullingZones(n.phase.start, ZoneRowsSince(s.db, n.lastAt))))
    case ApplyZone(i, c) =>
      var n := s.insts[i];
      With(s, i, n.(mem := ApplyOne(n.mem, c), phase := PullingZones(n.phase.start, n.phase.pending - {c})))
    case QueryRecords(i) =>
      var n := s.insts[i];
      With(s, i, n.(phase := PullingRecords(n.phase.start, RecordRowsSince(s.db, n.lastAt))))
    case ApplyRecord(i, c) =>
      var n := s.insts[i];
      With(s, i, n.(mem := ApplyOne(n.mem, c), phase := PullingRecords(n.phase.start, n.phase.pending - {c})))
    case FinishSync(i) => With(s, i, s.insts[i].(lastAt := s.insts[i].phase.start, phase := Idle))
    case FailSync(i) => With(s, i, s.insts[i].(phase := Idle))
    case Crash(i) => With(s, i, Instance(map[], 0, Down))
    case Api(i, at, q) =>
      var out := Serve(s.db, at, q);
      With(s, i, s.insts[i].(mem := ApplyEffect(s.insts[i].mem, out.effect))).(now := at, db := out.db)
    case Elsewhere(at, q) => s.(now := at, db := Execute(s.db, at, q).db)
  }

  /** A run: every step is enabled where it is taken. */
  ghost predicate Valid(s: State, steps: seq<Step>)
    decreases |steps|
  {
    steps == [] || (Enabled(s, steps[0]) && Valid(After(s, steps[0]), steps[1..]))
  }

  ghost function Run(s: State, steps: seq<Step>): State
    requires Valid(s, steps)
    decreases |steps|
  {
    if steps == [] then s else Run(After(s, steps[0]), steps[1..])
  }

  /** Any well-formed tables, every instance down. */
  ghost predicate Initial(s: State) {
    && Wellformed(s.db, s.now) && NoDuplicates(s.db)
    && forall i :: i in s.insts ==> s.insts[i].phase.Down?
  }

  // ---- the invariant ----

  /** What memory says about the id is what the tables say about it. */
  ghost predicate Agree(db: Db, mem: Zones, id: int) {
    forall a, r: Record :: r.id == id ==>
      (Has(mem, a, r) <==> ActiveRow(db, id) && a == db.rows[id].apex && r == db.rows[id].rec)
  }

  /** What a pull would return for the row is stamped after `t`: the deletion of its zone, or else the row itself. */
  predicate Dirty(db: Db, id: int, t: nat) {
    && id in db.rows && db.rows[id].apex in db.zones
    && (if db.zones[db.rows[id].apex].deleted then db.zones[db.rows[id].apex].stamp > t else db.rows[id].stamp > t)
  }

  /** Every record in memory is some version of a row of that zone, filed under the row's key. */
  ghost predicate Traceable(db: Db, mem: Zones) {
    forall a, r: Record :: Has(mem, a, r) ==>
      r.id in db.rows && db.rows[r.id].apex == a && r.Key() == db.rows[r.id].rec.Key()
  }

  ghost predicate MemOk(db: Db, mem: Zones, lastAt: nat) {
    && Good(mem) && Traceable(db, mem)
    && forall id: int :: Agree(db, mem, id) || Dirty(db, id, lastAt)
  }

  /** The deletion of the row's zone is still to be applied by the pull in progress. */
  predicate ZoneAwaited(db: Db, pending: set<Change>, id: int) {
    id in db.rows && ZoneGone(db.rows[id].apex) in pending
  }

  /** The row is still to be queried by the pull in progress. */
  predicate RowAwaited(db: Db, lastAt: nat, id: int) {
    id in db.rows && db.rows[id].stamp > lastAt && ActiveZone(db, db.rows[id].apex)
  }

  /** The row's present version is fetched and still to be applied. */
  predicate RowFetched(db: Db, pending: set<Change>, id: int) {
    id in db.rows && ChangeOf(db, id) in pending && ActiveZone(db, db.rows[id].apex)
  }

  /**
   A change of a version of a row: the present version of a row in a live zone, or of a row that is dirty since `q`.
   */
  ghost predicate VersionOf(db: Db, c: Change, id: int, q: nat) {
    && id in db.rows && About(c, db.rows[id].apex, id)
    && (c.Upsert? ==> c.rec.Key() == db.rows[id].rec.Key())
    && (Dirty(db, id, q) || (c == ChangeOf(db, id) && ActiveZone(db, db.rows[id].apex)))
  }

  /** Applying the change leaves what it touches in agreement, or dirty since `q`. */
  ghost predicate Harmless(db: Db, c: Change, q: nat) {
    match c
    case ZoneGone(a) => a in db.zones && db.zones[a].deleted
    case Tombstone(a, id) => id > 0 && VersionOf(db, c, id, q)
    case Upsert(a, rec) => rec.id > 0 && VersionOf(db, c, rec.id, q)
  }

  ghost predicate PhaseOk(db: Db, mem: Zones, lastAt: nat, now: nat, p: Phase) {
    match p
    case Down => true
    case Loading(since) => since <= now
    case Loaded(since, batch) => since <= now && MemOk(db, ApplyAll(map[], batch), since)
    case Idle => lastAt <= now && MemOk(db, mem, lastAt)
    case Begun(q) => lastAt <= q <= now && MemOk(db, mem, lastAt)
    case PullingZones(q, pending) =>
      && lastAt <= q <= now && MemOk(db, mem, lastAt)
      && (forall c :: c in pending ==> c.ZoneGone? && Harmless(db, c, q))
      && (forall id: int :: Agree(db, mem, id) || Dirty(db, id, q)
                       || ZoneAwaited(db, pending, id) || RowAwaited(db, lastAt, id))
    case PullingRecords(q, pending) =>
      && lastAt <= q <= now && MemOk(db, mem, lastAt)
      && (forall c :: c in pending ==> !c.ZoneGone? && Harmless(db, c, q))
      && (forall id: int :: Agree(db, mem, id) || Dirty(db, id, q) || RowFetched(db, pending, id))
  }

  ghost predicate InstOk(db: Db, now: nat, n: Instance) {
    PhaseOk(db, n.mem, n.lastAt, now, n.phase)
  }

  ghost predicate Inv(s: State) {
    && Wellformed(s.db, s.now) && NoDuplicates(s.db)
    && forall i :: i in s.insts ==> InstOk(s.db, s.now, s.insts[i])
  }
}
