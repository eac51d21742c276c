/**
 The two tables that are the source of truth, as the SQL changes them, and the effect each API request has on the
 tables and on the memory of the instance that serves it. A zone row is keyed by its name: the name is unique, never
 updated, and never freed by a soft delete.
 */
module Database {
  import opened Records
  import opened Changes

  datatype ZoneRow = ZoneRow(stamp: nat, deleted: bool)
  datatype Row = Row(apex: string, rec: Record, stamp: nat, deleted: bool)
  datatype Db = Db(zones: map<string, ZoneRow>, rows: map<int, Row>)

  predicate ActiveZone(db: Db, apex: string) {
    apex in db.zones && !db.zones[apex].deleted
  }

  predicate ActiveRow(db: Db, id: int) {
    id in db.rows && !db.rows[id].deleted && ActiveZone(db, db.rows[id].apex)
  }

  predicate SameRdata(x: Row, apex: string, rec: Record) {
    x.apex == apex && x.rec.Key() == rec.Key() && x.rec.value == rec.value
  }

  /** A row other than `id` that the partial unique index would collide with. */
  ghost predicate Collides(db: Db, apex: string, rec: Record, id: int) {
    exists j :: j in db.rows && j != id && !db.rows[j].deleted && SameRdata(db.rows[j], apex, rec)
  }

  ghost predicate Wellformed(db: Db, now: nat) {
    && (forall a :: a in db.zones ==> db.zones[a].stamp <= now)
    && (forall id :: id in db.rows ==> RowOk(db, id, now))
  }

  /** Every row carries its own positive id and belongs to some zone row. */
  ghost predicate Identified(db: Db) {
    forall id :: id in db.rows ==> id > 0 && db.rows[id].rec.id == id && db.rows[id].apex in db.zones
  }

  lemma WellformedIdentified(db: Db, now: nat)
    requires Wellformed(db, now)
    ensures Identified(db)
  {
  }

  predicate RowOk(db: Db, id: int, now: nat)
    requires id in db.rows
  {
    var row := db.rows[id];
    id > 0 && row.rec.id == id && row.apex in db.zones && row.stamp <= now
  }

  /** The partial unique index: no two live rows with the same zone, name, type and value. */
  ghost predicate NoDuplicates(db: Db) {
    forall i, j :: i in db.rows && j in db.rows && i != j && !db.rows[i].deleted && !db.rows[j].deleted
                   ==> !SameRdata(db.rows[i], db.rows[j].apex, db.rows[j].rec)
  }

  // ---- table transitions ----

  datatype Effect = Quiet | Reset(apex: string) | Do(change: Change)
  datatype Outcome = Outcome(db: Db, effect: Effect)

  /** POST of a domain. The insert is skipped on any name conflict; a soft-deleted name then fails the request. */
  function CreateZone(db: Db, t: nat, apex: string): Outcome {
    if apex !in db.zones then Outcome(db.(zones := db.zones[apex := ZoneRow(t, false)]), Reset(apex))
    else if ActiveZone(db, apex) then Outcome(db, Reset(apex))
    else Outcome(db, Quiet)
  }

  /** DELETE of a domain: only the zone row is stamped. */
  function SoftDeleteZone(db: Db, t: nat, apex: string): Outcome {
    if ActiveZone(db, apex)
    then Outcome(db.(zones := db.zones[apex := ZoneRow(t, true)]), Do(ZoneGone(apex)))
    else Outcome(db, Quiet)
  }

  /**
   POST of a record: a live row with the same data is returned as it is, else a row is inserted under a fresh id. Like
   the other statements on records it takes a zone row, and does not look whether that is still live.
   */
  ghost function CreateRecord(db: Db, t: nat, apex: string, rec: Record, id: int): Outcome {
    if apex !in db.zones then Outcome(db, Quiet)
    else if Collides(db, apex, rec, 0) then
      var j :| j in db.rows && j != 0 && !db.rows[j].deleted && SameRdata(db.rows[j], apex, rec);
      Outcome(db, Do(Upsert(apex, db.rows[j].rec)))
    else
      var row := Row(apex, rec.(id := id), t, false);
      Outcome(db.(rows := db.rows[id := row]), Do(Upsert(apex, row.rec)))
  }

  /** PUT of a record: the row may be soft-deleted and is revived; a collision with another live row changes nothing. */
  ghost function UpdateRecord(db: Db, t: nat, apex: string, id: int, rec: Record): Outcome {
    if id !in db.rows || db.rows[id].apex != apex || Collides(db, apex, rec, id)
    then Outcome(db, Quiet)
    else
      var row := Row(apex, rec.(id := id), t, false);
      Outcome(db.(rows := db.rows[id := row]), Do(Upsert(apex, row.rec)))
  }

  function SoftDeleteRecord(db: Db, t: nat, apex: string, id: int): Outcome {
    if id !in db.rows || db.rows[id].apex != apex || db.rows[id].deleted
    then Outcome(db, Quiet)
    else Outcome(db.(rows := db.rows[id := db.rows[id].(deleted := true, stamp := t)]), Do(Tombstone(apex, id)))
  }

  datatype Request =
    | PostDomain(apex: string)
    | DeleteDomain(apex: string)
    | PostRecord(apex: string, rec: Record, freshId: int)
    | PutRecord(apex: string, rec: Record, id: int)
    | DeleteRecord(apex: string, id: int)

  /** The commit alone: a handler looked the zone up before, and it may have been deleted since. */
  ghost function Execute(db: Db, t: nat, q: Request): Outcome {
    match q
    case PostDomain(apex) => CreateZone(db, t, apex)
    case DeleteDomain(apex) => SoftDeleteZone(db, t, apex)
    case PostRecord(apex, rec, id) => CreateRecord(db, t, apex, rec, id)
    case PutRecord(apex, rec, id) => UpdateRecord(db, t, apex, id, rec)
    case DeleteRecord(apex, id) => SoftDeleteRecord(db, t, apex, id)
  }

  predicate OnRecord(q: Request) {
    q.PostRecord? || q.PutRecord? || q.DeleteRecord?
  }

  /** The zone check and the commit together: nothing is done under a zone that is not live. */
  ghost function Serve(db: Db, t: nat, q: Request): Outcome {
    if OnRecord(q) && !ActiveZone(db, q.apex) then Outcome(db, Quiet) else Execute(db, t, q)
  }

  /** The sequence behind the ids gives a fresh positive one. */
  predicate FreshIdOk(db: Db, q: Request) {
    q.PostRecord? ==> q.freshId > 0 && q.freshId !in db.rows
  }

  /**
   The two requests replication does not survive: POST of a live domain, and PUT that moves a record to another key.
   */
  predicate Tame(db: Db, q: Request) {
    && (q.PostDomain? ==> q.apex !in db.zones || db.zones[q.apex].deleted)
    && (q.PutRecord? && q.id in db.rows ==> q.rec.Key() == db.rows[q.id].rec.Key())
  }

  function ApplyEffect(mem: Zones, e: Effect): Zones {
    match e
    case Quiet => mem
    case Reset(apex) => mem[apex := ZoneVal(map[], None)]
    case Do(c) => ApplyOne(mem, c)
  }

  // ---- what a commit may do, seen from a replica ----

  ghost predicate RowMoves(db: Db, db': Db, t: nat, id: int) {
    && id in db'.rows
    && (id in db.rows ==>
          || db'.rows[id] == db.rows[id]
          || (db'.rows[id].stamp == t && db'.rows[id].apex == db.rows[id].apex
              && db'.rows[id].rec.Key() == db.rows[id].rec.Key()))
    && (id !in db.rows ==> db'.rows[id].stamp == t)
  }

  ghost predicate ZoneMoves(db: Db, db': Db, t: nat, a: string) {
    && a in db'.zones
    && (a in db.zones ==> db'.zones[a] == db.zones[a] || (!db.zones[a].deleted && db'.zones[a] == ZoneRow(t, true)))
  }

  /**
   Every row and zone is as it was or carries the new stamp; rows keep zone and key; a deleted zone stays as it is.
   */
  ghost predicate Commits(db: Db, db': Db, t: nat) {
    && db.rows.Keys <= db'.rows.Keys && db.zones.Keys <= db'.zones.Keys
    && (forall id :: id in db'.rows ==> RowMoves(db, db', t, id))
    && (forall a :: a in db.zones ==> ZoneMoves(db, db', t, a))
    && (forall a :: a in db'.zones && a !in db.zones ==> !db'.zones[a].deleted)
  }

  /** What any number of commits keep: rows with their zone and key, zones, and above all the deletion of a zone. */
  ghost predicate Grows(db: Db, db': Db) {
    && (forall id :: id in db.rows ==> id in db'.rows && db'.rows[id].apex == db.rows[id].apex
                                       && db'.rows[id].rec.Key() == db.rows[id].rec.Key())
    && (forall a :: a in db.zones ==> a in db'.zones && (db.zones[a].deleted ==> db'.zones[a] == db.zones[a]))
  }

  lemma CommitsGrow(db: Db, db': Db, t: nat)
    requires Commits(db, db', t)
    ensures Grows(db, db')
  {
    forall id | id in db.rows
      ensures id in db'.rows && db'.rows[id].apex == db.rows[id].apex && db'.rows[id].rec.Key() == db.rows[id].rec.Key()
    {
      assert RowMoves(db, db', t, id);
    }
    forall a | a in db.zones ensures a in db'.zones && (db.zones[a].deleted ==> db'.zones[a] == db.zones[a]) {
      assert ZoneMoves(db, db', t, a);
    }
  }

  lemma ExecuteWellformed(db: Db, now: nat, t: nat, q: Request)
    requires Wellformed(db, now) && FreshIdOk(db, q)
    ensures Wellformed(Execute(db, t, q).db, if now < t then t else now)
  {
  }

  /** Every commit, with the zone live or not, leaves each row and zone as it was or stamps it. */
  lemma ExecuteCommits(db: Db, t: nat, q: Request)
    requires Identified(db) && FreshIdOk(db, q) && Tame(db, q)
    ensures Commits(db, Execute(db, t, q).db, t)
  {
  }

  /** Every commit keeps the unique index, whatever it does. */
  lemma ExecuteNoDuplicates(db: Db, t: nat, q: Request)
    requires NoDuplicates(db) && FreshIdOk(db, q)
    requires 0 !in db.rows
    ensures NoDuplicates(Execute(db, t, q).db)
  {
  }

  /** So does a request that makes its zone check in the same step. */
  lemma ServeKeeps(db: Db, now: nat, t: nat, q: Request)
    requires Wellformed(db, now) && now < t && FreshIdOk(db, q) && Tame(db, q)
    ensures Wellformed(Serve(db, t, q).db, t) && Commits(db, Serve(db, t, q).db, t)
    ensures NoDuplicates(db) ==> NoDuplicates(Serve(db, t, q).db)
  {
    ExecuteWellformed(db, now, t, q);
    WellformedIdentified(db, now);
    ExecuteCommits(db, t, q);
    if NoDuplicates(db) { ExecuteNoDuplicates(db, t, q); }
  }

  // ---- what each request leaves, told from its own fields ----

  /** The row is the only thing that is new or changed. */
  ghost predicate OnlyRow(db: Db, db': Db, id: int, row: Row) {
    && db'.zones == db.zones && db'.rows.Keys == db.rows.Keys + {id} && db'.rows[id] == row
    && forall j :: j in db.rows && j != id ==> db'.rows[j] == db.rows[j]
  }

  /** The zone row is the only thing that is new or changed. */
  ghost predicate OnlyZone(db: Db, db': Db, apex: string, row: ZoneRow) {
    && db'.rows == db.rows && db'.zones.Keys == db.zones.Keys + {apex} && db'.zones[apex] == row
    && forall a :: a in db.zones && a != apex ==> db'.zones[a] == db.zones[a]
  }

  /** Row j is live and has the zone, name, type and value. */
  predicate LiveTwin(db: Db, j: int, apex: string, rec: Record) {
    && j in db.rows && !db.rows[j].deleted && db.rows[j].apex == apex
    && db.rows[j].rec.name == rec.name && db.rows[j].rec.rtype == rec.rtype && db.rows[j].rec.value == rec.value
  }

  function Numbered(rec: Record, id: int): Record {
    Record(id, rec.name, rec.rtype, rec.ttl, rec.value, rec.weight, rec.rr)
  }

  /** POST of a record leaves a live row with the request's fields under the fresh id, unless a live twin answers. */
  lemma PostOutcome(db: Db, t: nat, apex: string, rec: Record, id: int)
    requires Identified(db)
    ensures var out := Execute(db, t, PostRecord(apex, rec, id));
      if apex !in db.zones then out == Outcome(db, Quiet)
      else if exists j :: LiveTwin(db, j, apex, rec)
      then out.db == db && exists j :: LiveTwin(db, j, apex, rec) && out.effect == Do(Upsert(apex, db.rows[j].rec))
      else OnlyRow(db, out.db, id, Row(apex, Numbered(rec, id), t, false))
           && out.effect == Do(Upsert(apex, Numbered(rec, id)))
  {
    if j :| LiveTwin(db, j, apex, rec) { assert Collides(db, apex, rec, 0); }
    if apex in db.zones && Collides(db, apex, rec, 0) {
      var c := Execute(db, t, PostRecord(apex, rec, id)).effect.change;
      var j :| j in db.rows && j != 0 && !db.rows[j].deleted && SameRdata(db.rows[j], apex, rec)
        && c.rec == db.rows[j].rec;
      assert LiveTwin(db, j, apex, rec);
    }
  }

  /** PUT leaves the row live with the request's fields, deleted before or not, unless another live row is a twin. */
  lemma PutOutcome(db: Db, t: nat, apex: string, rec: Record, id: int)
    ensures var out := Execute(db, t, PutRecord(apex, rec, id));
      if id in db.rows && db.rows[id].apex == apex && !exists j :: j != id && LiveTwin(db, j, apex, rec)
      then OnlyRow(db, out.db, id, Row(apex, Numbered(rec, id), t, false))
           && out.effect == Do(Upsert(apex, Numbered(rec, id)))
      else out == Outcome(db, Quiet)
  {
    if j :| j != id && LiveTwin(db, j, apex, rec) { assert Collides(db, apex, rec, id); }
    if Collides(db, apex, rec, id) {
      var j :| j in db.rows && j != id && !db.rows[j].deleted && SameRdata(db.rows[j], apex, rec);
      assert LiveTwin(db, j, apex, rec);
    }
  }

  /** DELETE of a record leaves a live row deleted, its record as it was, and drops it from memory. */
  lemma DeleteOutcome(db: Db, t: nat, apex: string, id: int)
    ensures var out := Execute(db, t, DeleteRecord(apex, id));
      if id in db.rows && db.rows[id].apex == apex && !db.rows[id].deleted
      then OnlyRow(db, out.db, id, Row(apex, db.rows[id].rec, t, true)) && out.effect == Do(Tombstone(apex, id))
      else out == Outcome(db, Quiet)
  {
  }

  /**
   POST of a domain makes a new live zone; DELETE deletes a live one; either way memory follows, and no record row
   moves.
   */
  lemma DomainOutcome(db: Db, t: nat, apex: string)
    ensures var out := Execute(db, t, PostDomain(apex));
      if apex !in db.zones then OnlyZone(db, out.db, apex, ZoneRow(t, false)) && out.effect == Reset(apex)
      else out == Outcome(db, if db.zones[apex].deleted then Quiet else Reset(apex))
    ensures var out := Execute(db, t, DeleteDomain(apex));
      if apex in db.zones && !db.zones[apex].deleted
      then OnlyZone(db, out.db, apex, ZoneRow(t, true)) && out.effect == Do(ZoneGone(apex))
      else out == Outcome(db, Quiet)
  {
  }

  /** The zone check: a request on a record does nothing unless its zone is live; otherwise it is the commit. */
  lemma ServeOutcome(db: Db, t: nat, q: Request)
    ensures Serve(db, t, q) ==
            if (q.PostRecord? || q.PutRecord? || q.DeleteRecord?) && !(q.apex in db.zones && !db.zones[q.apex].deleted)
            then Outcome(db, Quiet) else Execute(db, t, q)
  {
  }
}
