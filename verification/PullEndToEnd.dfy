/**
 The two loaders from end to end: the tables at the instant of each query, the rows as they are delivered, the calls on
 the heap store, and what memory then says about every id. Requests may be committed between the two queries of a pull,
 any query may break off, and the loader may skip rows.
 */
module PullEndToEnd {
  import opened Records
  import opened Names
  import opened ZoneSpec
  import opened ZoneStore
  import opened Changes
  import opened Loader
  import opened Database
  import opened Replication
  import opened ReplicationProof
  import opened ReplicationTheorems
  import opened ReplicationLimits

  // ---- the rows of the tables, as delivered ----

  /** Each row is that of a zone stamped after `since`. */
  ghost predicate ZonesFrom(db: Db, since: nat, rows: seq<ZoneText>) {
    forall i :: 0 <= i < |rows| ==>
      var a := Fqdn(rows[i].name); a in db.zones && db.zones[a].stamp > since && rows[i].deleted == db.zones[a].deleted
  }

  /** Every zone stamped after `since` has its row. */
  ghost predicate AllZones(db: Db, since: nat, rows: seq<ZoneText>) {
    forall a :: a in db.zones && db.zones[a].stamp > since ==> exists i :: 0 <= i < |rows| && Fqdn(rows[i].name) == a
  }

  predicate Fetchable(db: Db, since: nat, id: int) {
    id in db.rows && db.rows[id].stamp > since && ActiveZone(db, db.rows[id].apex)
  }

  /** The loader reads the row text as the present version of the table row, or skips it. */
  ghost predicate RowRead(lib: DnsLib, db: Db, row: RowText, id: int, skipped: set<int>) {
    && id in db.rows && row.id == id
    && PullChange(lib, row) == if id in skipped then None else Some(ChangeOf(db, id))
  }

  /** Each row is that of a row of a live zone stamped after `since`. */
  ghost predicate RecordsFrom(lib: DnsLib, db: Db, since: nat, rows: seq<RowText>, skipped: set<int>) {
    forall i :: 0 <= i < |rows| ==> Fetchable(db, since, rows[i].id) && RowRead(lib, db, rows[i], rows[i].id, skipped)
  }

  ghost predicate AllRecords(lib: DnsLib, db: Db, since: nat, rows: seq<RowText>, skipped: set<int>) {
    forall id :: Fetchable(db, since, id) ==> exists i :: 0 <= i < |rows| && RowRead(lib, db, rows[i], id, skipped)
  }

  /** Only rows with something to parse are skipped. */
  ghost predicate Skippable(db: Db, since: nat, skipped: set<int>) {
    forall id :: id in skipped ==> Fetchable(db, since, id) && !db.rows[id].deleted
  }

  ghost predicate SomeZoneRow(rows: seq<ZoneText>, c: Change) {
    exists i :: 0 <= i < |rows| && rows[i].deleted && c == ZoneGone(Fqdn(rows[i].name))
  }

  lemma SomeZoneSnoc(front: seq<ZoneText>, last: ZoneText, c: Change)
    ensures SomeZoneRow(front + [last], c) <==>
            SomeZoneRow(front, c) || (last.deleted && c == ZoneGone(Fqdn(last.name)))
  {
    var rows := front + [last];
    assert rows[|front|] == last;
    if i :| 0 <= i < |front| && front[i].deleted && c == ZoneGone(Fqdn(front[i].name)) { assert rows[i] == front[i]; }
  }

  lemma {:induction false} ZoneChangesExactly(rows: seq<ZoneText>, c: Change)
    ensures c in ZoneChanges(rows) <==> SomeZoneRow(rows, c)
    decreases |rows|
  {
    if rows != [] {
      var front, last := rows[..|rows| - 1], rows[|rows| - 1];
      ZoneChangesExactly(front, c);
      SomeZoneSnoc(front, last, c);
      InOne(ZoneChanges(front), if last.deleted then Some(ZoneGone(Fqdn(last.name))) else None, c);
      assert rows == front + [last];
    }
  }

  lemma InOne(cs: seq<Change>, x: Option<Change>, c: Change)
    ensures c in cs + One(x) <==> c in cs || x == Some(c)
  {
  }

  ghost predicate SomeRecordRow(lib: DnsLib, rows: seq<RowText>, c: Change) {
    exists i :: 0 <= i < |rows| && PullChange(lib, rows[i]) == Some(c)
  }

  lemma {:induction false} RecordChangesExactly(lib: DnsLib, rows: seq<RowText>, c: Change)
    ensures c in RecordChanges(lib, rows) <==> SomeRecordRow(lib, rows, c)
    decreases |rows|
  {
    if rows != [] {
      var front, last := rows[..|rows| - 1], rows[|rows| - 1];
      RecordChangesExactly(lib, front, c);
      SomeRecordSnoc(lib, front, last, c);
      InOne(RecordChanges(lib, front), PullChange(lib, last), c);
      assert rows == front + [last];
    }
  }

  lemma SomeRecordSnoc(lib: DnsLib, front: seq<RowText>, last: RowText, c: Change)
    ensures SomeRecordRow(lib, front + [last], c) <==> SomeRecordRow(lib, front, c) || PullChange(lib, last) == Some(c)
  {
    var rows := front + [last];
    assert rows[|front|] == last;
    if i :| 0 <= i < |front| && PullChange(lib, front[i]) == Some(c) { assert rows[i] == front[i]; }
  }

  lemma ZoneDelivered(db: Db, since: nat, rows: seq<ZoneText>, c: Change)
    requires ZonesFrom(db, since, rows)
    ensures c in ZoneChanges(rows) ==> c in ZoneRowsSince(db, since)
    ensures AllZones(db, since, rows) && c in ZoneRowsSince(db, since) ==> c in ZoneChanges(rows)
  {
    ZoneChangesExactly(rows, c);
    if AllZones(db, since, rows) && c in ZoneRowsSince(db, since) {
      var i :| 0 <= i < |rows| && Fqdn(rows[i].name) == c.apex;
      assert rows[i].deleted && c == ZoneGone(Fqdn(rows[i].name));
    }
  }

  /** The rows delivered make the changes of the zone query, all of them when it ended well. */
  lemma ZonesDelivered(db: Db, since: nat, rows: seq<ZoneText>)
    requires ZonesFrom(db, since, rows)
    ensures Elements(ZoneChanges(rows)) <= ZoneRowsSince(db, since)
    ensures AllZones(db, since, rows) ==> Elements(ZoneChanges(rows)) == ZoneRowsSince(db, since)
  {
    forall c ensures c in Elements(ZoneChanges(rows)) ==> c in ZoneRowsSince(db, since) {
      ZoneDelivered(db, since, rows, c);
    }
    if AllZones(db, since, rows) {
      forall c ensures c in ZoneRowsSince(db, since) ==> c in Elements(ZoneChanges(rows)) {
        ZoneDelivered(db, since, rows, c);
      }
    }
  }

  lemma RecordDelivered(lib: DnsLib, db: Db, since: nat, rows: seq<RowText>, skipped: set<int>, c: Change)
    requires Identified(db) && RecordsFrom(lib, db, since, rows, skipped) && c in RecordChanges(lib, rows)
    ensures c in Loadable(RecordRowsSince(db, since), skipped)
  {
    RecordChangesExactly(lib, rows, c);
    var i :| 0 <= i < |rows| && PullChange(lib, rows[i]) == Some(c);
    assert RowRead(lib, db, rows[i], rows[i].id, skipped);
  }

  lemma RecordArrives(lib: DnsLib, db: Db, since: nat, rows: seq<RowText>, skipped: set<int>, c: Change)
    requires Identified(db) && AllRecords(lib, db, since, rows, skipped) && Skippable(db, since, skipped)
    requires c in Loadable(RecordRowsSince(db, since), skipped)
    ensures c in RecordChanges(lib, rows)
  {
    var id :| id in db.rows && db.rows[id].stamp > since && ActiveZone(db, db.rows[id].apex) && c == ChangeOf(db, id);
    assert Fetchable(db, since, id);
    var i :| 0 <= i < |rows| && RowRead(lib, db, rows[i], id, skipped);
    RecordChangesExactly(lib, rows, c);
  }

  /** The rows delivered make changes of the record query, without those of skipped rows. */
  lemma RecordsDelivered(lib: DnsLib, db: Db, since: nat, rows: seq<RowText>, skipped: set<int>)
    requires Identified(db) && RecordsFrom(lib, db, since, rows, skipped)
    ensures Elements(RecordChanges(lib, rows)) <= Loadable(RecordRowsSince(db, since), skipped)
  {
    forall c | c in Elements(RecordChanges(lib, rows)) ensures c in Loadable(RecordRowsSince(db, since), skipped) {
      RecordDelivered(lib, db, since, rows, skipped, c);
    }
  }

  /** And all of them when it ended well. */
  lemma RecordsArrive(lib: DnsLib, db: Db, since: nat, rows: seq<RowText>, skipped: set<int>)
    requires Identified(db) && AllRecords(lib, db, since, rows, skipped) && Skippable(db, since, skipped)
    ensures Loadable(RecordRowsSince(db, since), skipped) <= Elements(RecordChanges(lib, rows))
  {
    forall c | c in Loadable(RecordRowsSince(db, since), skipped) ensures c in Elements(RecordChanges(lib, rows)) {
      RecordArrives(lib, db, since, rows, skipped, c);
    }
  }

  // ---- requests committed between the two queries ----

  datatype Commit = Commit(at: nat, request: Request)

  ghost predicate Timely(db: Db, now: nat, qs: seq<Commit>)
    decreases |qs|
  {
    qs == [] || (now < qs[0].at && FreshIdOk(db, qs[0].request) && Tame(db, qs[0].request)
                 && Timely(Execute(db, qs[0].at, qs[0].request).db, qs[0].at, qs[1..]))
  }

  ghost function ExecuteAll(db: Db, qs: seq<Commit>): Db
    decreases |qs|
  {
    if qs == [] then db else ExecuteAll(Execute(db, qs[0].at, qs[0].request).db, qs[1..])
  }

  function Latest(now: nat, qs: seq<Commit>): nat
    decreases |qs|
  {
    if qs == [] then now else Latest(qs[0].at, qs[1..])
  }

  lemma {:induction false} CommitsInst(db: Db, now: nat, qs: seq<Commit>, n: Instance)
    requires Wellformed(db, now) && InstOk(db, now, n) && Timely(db, now, qs)
    ensures Wellformed(ExecuteAll(db, qs), Latest(now, qs)) && InstOk(ExecuteAll(db, qs), Latest(now, qs), n)
    ensures Grows(db, ExecuteAll(db, qs))
    decreases |qs|
  {
    if qs != [] {
      var db1 := Execute(db, qs[0].at, qs[0].request).db;
      ExecuteWellformed(db, now, qs[0].at, qs[0].request);
      WellformedIdentified(db, now);
      ExecuteCommits(db, qs[0].at, qs[0].request);
      CommitsGrow(db, db1, qs[0].at);
      CommitInst(db, db1, now, qs[0].at, n);
      CommitsInst(db1, qs[0].at, qs[1..], n);
    }
  }

  // ---- the two halves of the pull ----

  /** A fetched zone deletion may be applied twice. */
  lemma ZoneAppliedAgain(db: Db, now: nat, n: Instance, c: Change)
    requires Wellformed(db, now) && InstOk(db, now, n) && n.phase.PullingZones? && Harmless(db, c, n.phase.start)
    ensures InstOk(db, now, n.(mem := ApplyOne(n.mem, c), phase := PullingZones(n.phase.start, n.phase.pending - {c})))
  {
    if c in n.phase.pending {
      ZoneApplied(db, now, n, c);
    } else {
      HarmlessInst(db, now, n.phase.start, n, c);
      assert n.phase.pending - {c} == n.phase.pending;
    }
  }

  /** So may a fetched row. */
  lemma RecordAppliedAgain(db: Db, now: nat, n: Instance, c: Change)
    requires Wellformed(db, now) && InstOk(db, now, n) && n.phase.PullingRecords? && Harmless(db, c, n.phase.start)
    ensures InstOk(db, now,
              n.(mem := ApplyOne(n.mem, c), phase := PullingRecords(n.phase.start, n.phase.pending - {c})))
  {
    if c in n.phase.pending {
      RecordApplied(db, now, n, c);
    } else {
      HarmlessInst(db, now, n.phase.start, n, c);
      assert n.phase.pending - {c} == n.phase.pending;
    }
  }

  /** Zone deletions of the query, applied in any order, repeated or broken off. */
  lemma {:induction false} ZonePhase(db: Db, now: nat, n: Instance, zs: seq<Change>)
    requires Wellformed(db, now) && InstOk(db, now, n) && n.phase.PullingZones?
    requires forall c :: c in zs ==> c.ZoneGone? && Harmless(db, c, n.phase.start)
    ensures InstOk(db, now,
              n.(mem := ApplyAll(n.mem, zs), phase := PullingZones(n.phase.start, n.phase.pending - Elements(zs))))
    decreases |zs|
  {
    if zs == [] {
      assert n.phase.pending - Elements(zs) == n.phase.pending;
    } else {
      var front, c := zs[..|zs| - 1], zs[|zs| - 1];
      ElementsSnoc(zs);
      ZonePhase(db, now, n, front);
      var n1 := n.(mem := ApplyAll(n.mem, front),
          phase := PullingZones(n.phase.start, n.phase.pending - Elements(front)));
      ZoneAppliedAgain(db, now, n1, c);
      assert n1.phase.pending - {c} == n.phase.pending - Elements(zs);
    }
  }

  lemma {:induction false} RecordPhase(db: Db, now: nat, n: Instance, rs: seq<Change>)
    requires Wellformed(db, now) && InstOk(db, now, n) && n.phase.PullingRecords?
    requires forall c :: c in rs ==> !c.ZoneGone? && Harmless(db, c, n.phase.start)
    ensures InstOk(db, now,
              n.(mem := ApplyAll(n.mem, rs), phase := PullingRecords(n.phase.start, n.phase.pending - Elements(rs))))
    decreases |rs|
  {
    if rs == [] {
      assert n.phase.pending - Elements(rs) == n.phase.pending;
    } else {
      var front, c := rs[..|rs| - 1], rs[|rs| - 1];
      ElementsSnoc(rs);
      RecordPhase(db, now, n, front);
      var n1 := n.(mem := ApplyAll(n.mem, front),
          phase := PullingRecords(n.phase.start, n.phase.pending - Elements(front)));
      RecordAppliedAgain(db, now, n1, c);
      assert n1.phase.pending - {c} == n.phase.pending - Elements(rs);
    }
  }

  lemma ZoneHalf(db: Db, now: nat, mem: Zones, lastAt: nat, q: nat, zs: seq<Change>)
    requires Wellformed(db, now) && InstOk(db, now, Instance(mem, lastAt, Begun(q)))
             && Elements(zs) <= ZoneRowsSince(db, lastAt)
    ensures InstOk(db, now,
              Instance(ApplyAll(mem, zs), lastAt, PullingZones(q, ZoneRowsSince(db, lastAt) - Elements(zs))))
  {
    var n := Instance(mem, lastAt, Begun(q));
    ZonesQueried(db, now, n);
    forall c | c in zs ensures c.ZoneGone? && Harmless(db, c, q) { assert c in Elements(zs); }
    ZonePhase(db, now, Instance(mem, lastAt, PullingZones(q, ZoneRowsSince(db, lastAt))), zs);
  }

  lemma RecordHalf(db: Db, now: nat, mem: Zones, lastAt: nat, q: nat, rs: seq<Change>)
    requires Wellformed(db, now) && InstOk(db, now, Instance(mem, lastAt, PullingZones(q, {})))
             && Elements(rs) <= RecordRowsSince(db, lastAt)
    ensures InstOk(db, now,
              Instance(ApplyAll(mem, rs), lastAt, PullingRecords(q, RecordRowsSince(db, lastAt) - Elements(rs))))
  {
    RecordsQueried(db, now, Instance(mem, lastAt, PullingZones(q, {})));
    var n := Instance(mem, lastAt, PullingRecords(q, RecordRowsSince(db, lastAt)));
    forall c | c in rs ensures !c.ZoneGone? && Harmless(db, c, q) { assert c in Elements(rs) && c in n.phase.pending; }
    RecordPhase(db, now, n, rs);
  }

  /**
   The whole pull on values: zone changes as of the first query, record changes as of the second, each set applied in
   any order and perhaps in part. Memory stays good since `lastAt`; once the zone changes are all in, it is good since
   the pull's start but for the rows that were returned and not applied.
   */
  lemma PullSettles(db: Db, now: nat, qs: seq<Commit>, mem: Zones, lastAt: nat, q: nat, zs: seq<Change>,
                    rs: seq<Change>)
    requires Wellformed(db, now) && InstOk(db, now, Instance(mem, lastAt, Begun(q))) && Timely(db, now, qs)
    requires Elements(zs) <= ZoneRowsSince(db, lastAt) && Elements(rs) <= RecordRowsSince(ExecuteAll(db, qs), lastAt)
    requires Elements(zs) == ZoneRowsSince(db, lastAt) || rs == []
    ensures var db', mem' := ExecuteAll(db, qs), ApplyAll(mem, zs + rs);
      && MemOk(db', mem', lastAt)
      && (Elements(zs) == ZoneRowsSince(db, lastAt) ==>
            forall id: int :: Agree(db', mem', id) || Dirty(db', id, q)
                              || (Fetchable(db', lastAt, id) && ChangeOf(db', id) !in Elements(rs)))
  {
    var db' := ExecuteAll(db, qs);
    var pending := ZoneRowsSince(db, lastAt) - Elements(zs);
    ZoneHalf(db, now, mem, lastAt, q, zs);
    CommitsInst(db, now, qs, Instance(ApplyAll(mem, zs), lastAt, PullingZones(q, pending)));
    ApplyAppend(mem, zs, rs);
    if Elements(zs) == ZoneRowsSince(db, lastAt) {
      assert pending == {};
      RecordHalf(db', Latest(now, qs), ApplyAll(mem, zs), lastAt, q, rs);
      WellformedIdentified(db', Latest(now, qs));
      forall id: int | RowFetched(db', RecordRowsSince(db', lastAt) - Elements(rs), id)
        ensures Fetchable(db', lastAt, id) && ChangeOf(db', id) !in Elements(rs)
      {
        FetchedIsFetchable(db', lastAt, id);
      }
    } else {
      assert zs + rs == zs;
    }
  }

  lemma FetchedIsFetchable(db: Db, lastAt: nat, id: int)
    requires Identified(db) && id in db.rows && ChangeOf(db, id) in RecordRowsSince(db, lastAt)
    ensures Fetchable(db, lastAt, id)
  {
    var j :| j in db.rows && db.rows[j].stamp > lastAt && ActiveZone(db, db.rows[j].apex)
      && ChangeOf(db, id) == ChangeOf(db, j);
  }

  // ---- the pull on the heap ----

  /** Delivered: rows of the tables as the two queries see them; all of them where a query ended well. */
  ghost predicate Delivered(lib: DnsLib, db: Db, db': Db, lastAt: nat, zones: Fetch<ZoneText>, records: Fetch<RowText>,
                            skipped: set<int>) {
    && ZonesFrom(db, lastAt, zones.rows) && (zones.complete ==> AllZones(db, lastAt, zones.rows))
    && RecordsFrom(lib, db', lastAt, records.rows, skipped)
    && (records.complete ==> AllRecords(lib, db', lastAt, records.rows, skipped))
    && Skippable(db', lastAt, skipped)
  }

  /** Good since t, but for the ids of some rows. */
  ghost predicate MemOkBut(db: Db, mem: Zones, t: nat, skipped: set<int>) {
    && Good(mem) && Traceable(db, mem)
    && forall id: int :: id in skipped || Agree(db, mem, id) || Dirty(db, id, t)
  }

  /** Memory says the same about the ids as before. */
  ghost predicate SameAbout(mem: Zones, mem': Zones, ids: set<int>) {
    forall a, r: Record :: r.id in ids ==> (Has(mem', a, r) <==> Has(mem, a, r))
  }

  lemma AppliedBut(db: Db, now: nat, qs: seq<Commit>, mem: Zones, lastAt: nat, q: nat, zs: seq<Change>, rs: seq<Change>,
                   skipped: set<int>)
    requires Wellformed(db, now) && InstOk(db, now, Instance(mem, lastAt, Begun(q))) && Timely(db, now, qs)
    requires Elements(zs) == ZoneRowsSince(db, lastAt) && Skippable(ExecuteAll(db, qs), lastAt, skipped)
    requires Elements(rs) == Loadable(RecordRowsSince(ExecuteAll(db, qs), lastAt), skipped)
    ensures MemOkBut(ExecuteAll(db, qs), ApplyAll(mem, zs + rs), q, skipped)
    ensures SameAbout(mem, ApplyAll(mem, zs + rs), skipped)
  {
    var db' := ExecuteAll(db, qs);
    PullSettles(db, now, qs, mem, lastAt, q, zs, rs);
    CommitsInst(db, now, qs, Instance(mem, lastAt, Begun(q)));
    WellformedIdentified(db', Latest(now, qs));
    forall id: int | Fetchable(db', lastAt, id) && ChangeOf(db', id) !in Elements(rs) ensures id in skipped {
      assert ChangeOf(db', id) in RecordRowsSince(db', lastAt);
    }
    var fetched := ZoneRowsSince(db, lastAt) + RecordRowsSince(db', lastAt);
    assert Elements(zs + rs) == Elements(zs) + Elements(rs);
    assert Elements(zs + rs) == Loadable(fetched, skipped);
    forall a, r: Record | r.id in skipped ensures Has(ApplyAll(mem, zs + rs), a, r) <==> Has(mem, a, r) {
      SkippedStaysExactly(db, db', mem, lastAt, skipped, r.id, zs + rs);
    }
  }

  lemma OutcomeIsApplied(db: Db, now: nat, qs: seq<Commit>, mem: Zones, lastAt: nat, q: nat, zs: seq<Change>,
                         rs: seq<Change>, mem': Zones)
    requires Wellformed(db, now) && InstOk(db, now, Instance(mem, lastAt, Begun(q))) && Timely(db, now, qs)
    requires Elements(zs) <= ZoneRowsSince(db, lastAt) && Elements(rs) <= RecordRowsSince(ExecuteAll(db, qs), lastAt)
    requires Reaches(mem, zs + rs, mem')
    ensures mem' == ApplyAll(mem, zs + rs)
  {
    var db' := ExecuteAll(db, qs);
    CommitsInst(db, now, qs, Instance(mem, lastAt, Begun(q)));
    WellformedIdentified(db', Latest(now, qs));
    PullIsOrderly(db, db', mem, lastAt);
    assert Elements(zs + rs) == Elements(zs) + Elements(rs);
    OrderlySubset(mem, ZoneRowsSince(db, lastAt) + RecordRowsSince(db', lastAt), Elements(zs + rs));
    OrderlyReaches(mem, zs + rs, mem');
  }

  lemma PullOutcome(lib: DnsLib, db: Db, now: nat, qs: seq<Commit>, mem: Zones, lastAt: nat, q: nat,
                    zones: Fetch<ZoneText>, records: Fetch<RowText>, skipped: set<int>, mem': Zones)
    requires Wellformed(db, now) && InstOk(db, now, Instance(mem, lastAt, Begun(q))) && Timely(db, now, qs)
    requires Delivered(lib, db, ExecuteAll(db, qs), lastAt, zones, records, skipped)
    requires Reaches(mem, PulledChanges(lib, zones, records), mem')
    ensures MemOk(ExecuteAll(db, qs), mem', lastAt)
    ensures zones.complete && records.complete ==>
              MemOkBut(ExecuteAll(db, qs), mem', q, skipped) && SameAbout(mem, mem', skipped)
  {
    var db', zs := ExecuteAll(db, qs), ZoneChanges(zones.rows);
    var rs := if zones.complete then RecordChanges(lib, records.rows) else [];
    CommitsInst(db, now, qs, Instance(mem, lastAt, Begun(q)));
    WellformedIdentified(db', Latest(now, qs));
    ZonesDelivered(db, lastAt, zones.rows);
    RecordsDelivered(lib, db', lastAt, records.rows, skipped);
    PullSettles(db, now, qs, mem, lastAt, q, zs, rs);
    OutcomeIsApplied(db, now, qs, mem, lastAt, q, zs, rs, mem');
    if zones.complete && records.complete {
      RecordsArrive(lib, db', lastAt, records.rows, skipped);
      AppliedBut(db, now, qs, mem, lastAt, q, zs, rs, skipped);
    }
  }

  lemma NothingDirty(db: Db, mem: Zones, q: nat)
    requires MemOkBut(db, mem, q, {}) && forall id :: id in db.rows ==> !Dirty(db, id, q)
    ensures Converged(db, mem)
  {
    forall id: int ensures Agree(db, mem, id) { assert !Dirty(db, id, q); }
    AgreeEverywhere(db, mem);
  }

  /**
   The pull on the rows of the tables. Whatever is committed between its queries, wherever they break off and whatever
   rows the loader skips, the store stays good since `lastAt`. When both queries end well it is good since the pull's
   start but for the skipped rows, about which it says what it said before; and if none was skipped and nothing is
   dirty since then, it holds exactly the live rows of live zones.
   */
  method Pull(lib: DnsLib, store: RWMutexStore, zones: Fetch<ZoneText>, records: Fetch<RowText>,
              ghost db: Db, ghost now: nat, ghost qs: seq<Commit>, ghost lastAt: nat, ghost q: nat,
                ghost skipped: set<int>)
    returns (ok: bool)
    requires Wellformed(db, now) && InstOk(db, now, Instance(store.Contents(), lastAt, Begun(q))) && Timely(db, now, qs)
    requires Delivered(lib, db, ExecuteAll(db, qs), lastAt, zones, records, skipped)
    modifies store.zones
    ensures ok <==> zones.complete && records.complete
    ensures MemOk(ExecuteAll(db, qs), store.Contents(), lastAt)
    ensures ok ==> MemOkBut(ExecuteAll(db, qs), store.Contents(), q, skipped)
    ensures ok ==> SameAbout(old(store.Contents()), store.Contents(), skipped)
    ensures ok && skipped == {}
            && (forall id :: id in ExecuteAll(db, qs).rows ==> !Dirty(ExecuteAll(db, qs), id, q)) ==>
              Converged(ExecuteAll(db, qs), store.Contents())
  {
    ghost var mem := store.Contents();
    var updated, deleted, ignored;
    ok, updated, deleted, ignored := IncrementalLoad(lib, store, zones, records);
    PullOutcome(lib, db, now, qs, mem, lastAt, q, zones, records, skipped, store.Contents());
    if ok && skipped == {} && forall id :: id in ExecuteAll(db, qs).rows ==> !Dirty(ExecuteAll(db, qs), id, q) {
      NothingDirty(ExecuteAll(db, qs), store.Contents(), q);
    }
  }

  // ---- the bulk load on the heap ----

  /** The bulk load reads the row text as the table row, or skips it. */
  ghost predicate BulkRead(lib: DnsLib, db: Db, row: RowText, id: int, skipped: set<int>) {
    && id in db.rows && row.id == id
    && BulkChange(lib, row) == if id in skipped then None else Some(Upsert(db.rows[id].apex, db.rows[id].rec))
  }

  ghost predicate LoadFrom(lib: DnsLib, db: Db, rows: seq<RowText>, skipped: set<int>) {
    forall i :: 0 <= i < |rows| ==> ActiveRow(db, rows[i].id) && BulkRead(lib, db, rows[i], rows[i].id, skipped)
  }

  ghost predicate AllLoaded(lib: DnsLib, db: Db, rows: seq<RowText>, skipped: set<int>) {
    forall id :: ActiveRow(db, id) ==> exists i :: 0 <= i < |rows| && BulkRead(lib, db, rows[i], id, skipped)
  }

  ghost predicate SomeBulkRow(lib: DnsLib, rows: seq<RowText>, c: Change) {
    exists i :: 0 <= i < |rows| && BulkChange(lib, rows[i]) == Some(c)
  }

  lemma SomeBulkSnoc(lib: DnsLib, front: seq<RowText>, last: RowText, c: Change)
    ensures SomeBulkRow(lib, front + [last], c) <==> SomeBulkRow(lib, front, c) || BulkChange(lib, last) == Some(c)
  {
    var rows := front + [last];
    assert rows[|front|] == last;
    if i :| 0 <= i < |front| && BulkChange(lib, front[i]) == Some(c) { assert rows[i] == front[i]; }
  }

  lemma {:induction false} BulkChangesExactly(lib: DnsLib, rows: seq<RowText>, c: Change)
    ensures c in BulkChanges(lib, rows) <==> SomeBulkRow(lib, rows, c)
    decreases |rows|
  {
    if rows != [] {
      var front, last := rows[..|rows| - 1], rows[|rows| - 1];
      BulkChangesExactly(lib, front, c);
      SomeBulkSnoc(lib, front, last, c);
      InOne(BulkChanges(lib, front), BulkChange(lib, last), c);
      assert rows == front + [last];
    }
  }

  lemma BulkDelivered(lib: DnsLib, db: Db, rows: seq<RowText>, skipped: set<int>)
    requires Identified(db) && LoadFrom(lib, db, rows, skipped)
    ensures Elements(BulkChanges(lib, rows)) <= Loadable(ActiveRows(db), skipped)
  {
    forall c | c in Elements(BulkChanges(lib, rows)) ensures c in Loadable(ActiveRows(db), skipped) {
      BulkChangesExactly(lib, rows, c);
      var i :| 0 <= i < |rows| && BulkChange(lib, rows[i]) == Some(c);
      assert BulkRead(lib, db, rows[i], rows[i].id, skipped);
    }
  }

  lemma BulkArrives(lib: DnsLib, db: Db, rows: seq<RowText>, skipped: set<int>, id: int)
    requires AllLoaded(lib, db, rows, skipped) && ActiveRow(db, id) && id !in skipped
    ensures Upsert(db.rows[id].apex, db.rows[id].rec) in Elements(BulkChanges(lib, rows))
  {
    var i :| 0 <= i < |rows| && BulkRead(lib, db, rows[i], id, skipped);
    BulkChangesExactly(lib, rows, Upsert(db.rows[id].apex, db.rows[id].rec));
  }

  /** Agreement on every id but those of some rows. */
  ghost predicate AgreesBut(db: Db, mem: Zones, skipped: set<int>) {
    Good(mem) && Traceable(db, mem) && forall id: int :: id in skipped || Agree(db, mem, id)
  }

  lemma BulkSetAgrees(db: Db, now: nat, cs: seq<Change>, skipped: set<int>)
    requires Wellformed(db, now) && Elements(cs) <= ActiveRows(db)
    requires forall id :: ActiveRow(db, id) && id !in skipped ==>
             Upsert(db.rows[id].apex, db.rows[id].rec) in Elements(cs)
    ensures AgreesBut(db, ApplyAll(map[], cs), skipped)
  {
    var mem := ApplyAll(map[], cs);
    WellformedIdentified(db, now);
    ActiveRowsOrderly(db, now);
    OrderlySubset(map[], ActiveRows(db), Elements(cs));
    ApplySettles(map[], cs);
    forall a, r: Record | Has(mem, a, r)
      ensures ActiveRow(db, r.id) && a == db.rows[r.id].apex && r == db.rows[r.id].rec
    {
      assert Upsert(a, r) in ActiveRows(db);
    }
  }

  /** What the grouped rows hold: every live row that was not skipped, as it is. */
  lemma BulkAgrees(lib: DnsLib, db: Db, now: nat, rows: seq<RowText>, skipped: set<int>)
    requires Wellformed(db, now) && DistinctIds(rows)
    requires LoadFrom(lib, db, rows, skipped) && AllLoaded(lib, db, rows, skipped)
    ensures AgreesBut(db, AsZones(Grouped(lib, rows)), skipped)
  {
    WellformedIdentified(db, now);
    BulkIsIncremental(lib, rows);
    BulkDelivered(lib, db, rows, skipped);
    forall id | ActiveRow(db, id) && id !in skipped
      ensures Upsert(db.rows[id].apex, db.rows[id].rec) in Elements(BulkChanges(lib, rows))
    {
      BulkArrives(lib, db, rows, skipped, id);
    }
    BulkSetAgrees(db, now, BulkChanges(lib, rows), skipped);
  }

  /**
   The bulk load on the rows of the tables, into an empty store: when the query ends well the store agrees with the
   tables it saw on every id but those of skipped rows, so it is a memory the protocol may start from, with any `since`
   read before; when it breaks off the store stays empty.
   */
  method Load(lib: DnsLib, store: RWMutexStore, fetched: Fetch<RowText>,
              ghost db: Db, ghost now: nat, ghost since: nat, ghost skipped: set<int>)
    returns (ok: bool)
    requires store.Contents() == map[] && Wellformed(db, now) && since <= now && DistinctIds(fetched.rows)
    requires LoadFrom(lib, db, fetched.rows, skipped)
             && (fetched.complete ==> AllLoaded(lib, db, fetched.rows, skipped))
    modifies store.zones
    ensures ok <==> fetched.complete
    ensures !ok ==> store.Contents() == map[]
    ensures ok ==> AgreesBut(db, store.Contents(), skipped)
    ensures ok && skipped == {} ==> InstOk(db, now, Instance(store.Contents(), since, Idle))
  {
    ghost var mem := AsZones(Grouped(lib, fetched.rows));
    var loaded, ignored;
    ok, loaded, ignored := LoadAll(lib, store, fetched);
    if ok {
      assert map[] + mem == mem;
      assert store.Contents() == mem;
      BulkAgrees(lib, db, now, fetched.rows, skipped);
      if skipped == {} { AgreesEverywhereOk(db, now, since, mem); }
    }
  }

  lemma AgreesEverywhereOk(db: Db, now: nat, since: nat, mem: Zones)
    requires AgreesBut(db, mem, {}) && since <= now
    ensures InstOk(db, now, Instance(mem, since, Idle))
  {
  }
}
