/**
 The two loaders that carry table rows into a zone store: the bulk load at start-up and the incremental pull. Type
 names and RR parsing belong to the DNS library and are parameters.
 */
module Loader {
  import opened Records
  import opened Names
  import opened ZoneSpec
  import opened ZoneStore
  import opened Changes

  datatype Parsed = Rejected | Accepted(rr: Option<RR>)

  datatype DnsLib = DnsLib(typeOf: string -> Option<nat>, parse: (string, int, string, string) -> Parsed)

  /** A joined row of the zones and records tables, as scanned. */
  datatype RowText = RowText(apex: string, id: int, name: string, typeName: string, ttl: int, value: string,
                             weight: int, deleted: bool)

  datatype ZoneText = ZoneText(name: string, deleted: bool)

  /** The rows a query delivered before it ended; `complete` is false when it ended in an error, at any point. */
  datatype Fetch<T> = Fetch(rows: seq<T>, complete: bool)

  const TWO_32: int := 0x1_0000_0000

  /** uint32(ttl) */
  function Wrap32(ttl: int): (r: int)
    ensures 0 <= r < TWO_32
    ensures 0 <= ttl < TWO_32 <==> r == ttl
    ensures (r - ttl) % TWO_32 == 0
  {
    ttl % TWO_32
  }

  /** The record of a row whose rdata was parsed with the given ttl, or nothing when the row is skipped. */
  function ToRecord(lib: DnsLib, row: RowText, parsedTtl: int): Option<Record> {
    match lib.typeOf(row.typeName)
    case None => None
    case Some(qtype) =>
      match lib.parse(Fqdn(row.name), parsedTtl, row.typeName, row.value)
      case Rejected => None
      case Accepted(rr) =>
        Some(Record(row.id, Fqdn(row.name), qtype, Wrap32(row.ttl), row.value, row.weight, rr))
  }

  // ---- incremental pull ----

  function ZoneChanges(rows: seq<ZoneText>): seq<Change> {
    if rows == [] then []
    else
      var last := rows[|rows| - 1];
      ZoneChanges(rows[..|rows| - 1]) + (if last.deleted then [ZoneGone(Fqdn(last.name))] else [])
  }

  /** The pull converts the ttl before it builds the RR text. */
  function PullChange(lib: DnsLib, row: RowText): Option<Change> {
    if row.deleted then Some(Tombstone(Fqdn(row.apex), row.id))
    else
      match ToRecord(lib, row, Wrap32(row.ttl))
      case None => None
      case Some(rec) => Some(Upsert(Fqdn(row.apex), rec))
  }

  function RecordChanges(lib: DnsLib, rows: seq<RowText>): seq<Change> {
    if rows == [] then []
    else
      RecordChanges(lib, rows[..|rows| - 1]) + One(PullChange(lib, rows[|rows| - 1]))
  }

  function One(c: Option<Change>): seq<Change> {
    match c case None => [] case Some(x) => [x]
  }

  /** All the changes a pull gets to apply: the record query runs only when the zone query ended well. */
  function PulledChanges(lib: DnsLib, zones: Fetch<ZoneText>, records: Fetch<RowText>): seq<Change> {
    ZoneChanges(zones.rows) + if zones.complete then RecordChanges(lib, records.rows) else []
  }

  lemma ApplySnoc(z: Zones, cs: seq<Change>, c: Change)
    ensures ApplyAll(z, cs + [c]) == ApplyOne(ApplyAll(z, cs), c)
  {
  }

  /** What one call on the store may do; which of several copies of an id is dropped depends on map iteration. */
  ghost predicate Moves(z: Zones, c: Change, z': Zones) {
    match c
    case ZoneGone(apex) => z' == Remove(z, apex)
    case Tombstone(apex, id) => DropsIn(z, apex, id, z')
    case Upsert(apex, rec) => z' == Put(z, apex, rec)
  }

  /** The calls of the changes, one after the other, can take the store from z to z'. */
  ghost predicate Reaches(z: Zones, cs: seq<Change>, z': Zones)
    decreases |cs|
  {
    if cs == [] then z' == z
    else
      var front, c := cs[..|cs| - 1], cs[|cs| - 1];
      exists mid :: Reaches(z, front, mid) && Moves(mid, c, z')
  }

  lemma ReachesSnoc(z: Zones, cs: seq<Change>, mid: Zones, c: Change, z': Zones)
    requires Reaches(z, cs, mid) && Moves(mid, c, z')
    ensures Reaches(z, cs + [c], z')
  {
    assert (cs + [c])[..|cs|] == cs;
  }

  /** On an orderly pull there is only one outcome. */
  lemma {:induction false} OrderlyReaches(z: Zones, cs: seq<Change>, z': Zones)
    requires Orderly(z, Elements(cs)) && Reaches(z, cs, z')
    ensures z' == ApplyAll(z, cs)
    decreases |cs|
  {
    if cs != [] {
      var front, c := cs[..|cs| - 1], cs[|cs| - 1];
      var mid :| Reaches(z, front, mid) && Moves(mid, c, z');
      ElementsSnoc(cs);
      OrderlySubset(z, Elements(cs), Elements(front));
      OrderlyReaches(z, front, mid);
      ApplySettles(z, front);
      assert c in Elements(cs);
      if c.Tombstone? { DropsInIsPurge(mid, c.apex, c.id, z'); }
    }
  }

  /** One call on the store per change; a removal of an absent zone is ignored. */
  method ApplyChange(store: RWMutexStore, c: Change, ghost z: Zones, ghost done: seq<Change>)
    requires Reaches(z, done, store.Contents())
    modifies store.zones
    ensures Reaches(z, done + [c], store.Contents())
  {
    ghost var before := store.Contents();
    match c {
      case ZoneGone(apex) => var _ := store.Delete(apex);
      case Tombstone(apex, id) => store.DropRecord(apex, id);
      case Upsert(apex, rec) => store.PutRecord(apex, rec);
    }
    ReachesSnoc(z, done, before, c, store.Contents());
  }

  /** The loop over the zone rows: only deleted zones cause a call. */
  method ApplyZoneRows(store: RWMutexStore, rows: seq<ZoneText>)
    modifies store.zones
    ensures Reaches(old(store.Contents()), ZoneChanges(rows), store.Contents())
  {
    ghost var z := store.Contents();
    for i := 0 to |rows|
      invariant Reaches(z, ZoneChanges(rows[..i]), store.Contents())
    {
      ZoneSnoc(rows, i);
      if rows[i].deleted {
        ApplyChange(store, ZoneGone(Fqdn(rows[i].name)), z, ZoneChanges(rows[..i]));
      }
    }
    assert rows[..|rows|] == rows;
  }

  lemma ZoneSnoc(rows: seq<ZoneText>, i: nat)
    requires i < |rows|
    ensures ZoneChanges(rows[..i + 1]) ==
            if rows[i].deleted then ZoneChanges(rows[..i]) + [ZoneGone(Fqdn(rows[i].name))] else ZoneChanges(rows[..i])
  {
    assert rows[..i + 1][..i] == rows[..i];
  }

  /** How many of the rows are tombstones. */
  function Tombstones(rows: seq<RowText>): nat {
    if rows == [] then 0 else Tombstones(rows[..|rows| - 1]) + if rows[|rows| - 1].deleted then 1 else 0
  }

  lemma TombstonesSnoc(rows: seq<RowText>, i: nat)
    requires i < |rows|
    ensures Tombstones(rows[..i + 1]) == Tombstones(rows[..i]) + if rows[i].deleted then 1 else 0
  {
    assert rows[..i + 1][..i] == rows[..i];
  }

  lemma RecordSnoc(lib: DnsLib, rows: seq<RowText>, i: nat)
    requires i < |rows|
    ensures RecordChanges(lib, rows[..i + 1]) == RecordChanges(lib, rows[..i]) + One(PullChange(lib, rows[i]))
  {
    assert rows[..i + 1][..i] == rows[..i];
  }

  lemma RecordNext(lib: DnsLib, rows: seq<RowText>, i: nat, before: seq<Change>)
    requires i < |rows|
    ensures before + RecordChanges(lib, rows[..i]) + One(PullChange(lib, rows[i])) ==
            before + RecordChanges(lib, rows[..i + 1])
  {
    RecordSnoc(lib, rows, i);
    Assoc(before, RecordChanges(lib, rows[..i]), One(PullChange(lib, rows[i])));
  }

  /** Every row is counted once: tombstones as deleted, other changes as updated, the rest as skipped. */
  ghost predicate Counted(lib: DnsLib, rows: seq<RowText>, updated: nat, deleted: nat, skipped: nat) {
    && updated + deleted + skipped == |rows|
    && updated + deleted == |RecordChanges(lib, rows)| && deleted == Tombstones(rows)
  }

  lemma CountedNext(lib: DnsLib, rows: seq<RowText>, i: nat, updated: nat, deleted: nat, skipped: nat)
    requires i < |rows| && Counted(lib, rows[..i], updated, deleted, skipped)
    ensures if PullChange(lib, rows[i]).None? then Counted(lib, rows[..i + 1], updated, deleted, skipped + 1)
            else if rows[i].deleted then Counted(lib, rows[..i + 1], updated, deleted + 1, skipped)
            else Counted(lib, rows[..i + 1], updated + 1, deleted, skipped)
  {
    RecordSnoc(lib, rows, i);
    TombstonesSnoc(rows, i);
  }

  /** One record row: drop, put, or skip, and the counters that go with it. */
  method ApplyRow(lib: DnsLib, store: RWMutexStore, rows: seq<RowText>, i: nat,
                  updated: nat, deleted: nat, skipped: nat, ghost z: Zones, ghost done: seq<Change>)
    returns (u: nat, d: nat, s: nat)
    requires i < |rows| && Reaches(z, done, store.Contents()) && Counted(lib, rows[..i], updated, deleted, skipped)
    modifies store.zones
    ensures Reaches(z, done + One(PullChange(lib, rows[i])), store.Contents())
    ensures Counted(lib, rows[..i + 1], u, d, s)
  {
    CountedNext(lib, rows, i, updated, deleted, skipped);
    u, d, s := updated, deleted, skipped;
    match PullChange(lib, rows[i])
    case None =>
      assert done + [] == done;
      s := s + 1;
    case Some(c) =>
      if rows[i].deleted {
        d := d + 1;
      } else {
        u := u + 1;
      }
      ApplyChange(store, c, z, done);
  }

  /** The loop over the record rows, with its three counters. */
  method ApplyRecordRows(lib: DnsLib, store: RWMutexStore, rows: seq<RowText>, ghost z: Zones,
                         ghost before: seq<Change>)
    returns (updated: nat, deleted: nat, skipped: nat)
    requires Reaches(z, before, store.Contents())
    modifies store.zones
    ensures Reaches(z, before + RecordChanges(lib, rows), store.Contents())
    ensures Counted(lib, rows, updated, deleted, skipped)
  {
    updated, deleted, skipped := 0, 0, 0;
    ghost var done := before;
    for i := 0 to |rows|
      invariant done == before + RecordChanges(lib, rows[..i])
      invariant Reaches(z, done, store.Contents())
      invariant Counted(lib, rows[..i], updated, deleted, skipped)
    {
      RecordNext(lib, rows, i, before);
      updated, deleted, skipped := ApplyRow(lib, store, rows, i, updated, deleted, skipped, z, done);
      done := before + RecordChanges(lib, rows[..i + 1]);
    }
    assert rows[..|rows|] == rows;
  }

  /**
   One pull, on any store and any rows. The rows that arrived are applied in order, one call each, whether or not the
   queries then failed; it succeeds exactly when both queries did.
   */
  method IncrementalLoad(lib: DnsLib, store: RWMutexStore, zones: Fetch<ZoneText>, records: Fetch<RowText>)
    returns (ok: bool, updated: nat, deleted: nat, skipped: nat)
    modifies store.zones
    ensures ok <==> zones.complete && records.complete
    ensures Reaches(old(store.Contents()), PulledChanges(lib, zones, records), store.Contents())
    ensures zones.complete ==> Counted(lib, records.rows, updated, deleted, skipped)
  {
    ghost var z := store.Contents();
    ApplyZoneRows(store, zones.rows);
    if !zones.complete {
      assert PulledChanges(lib, zones, records) == ZoneChanges(zones.rows);
      return false, 0, 0, 0;
    }
    updated, deleted, skipped := ApplyRecordRows(lib, store, records.rows, z, ZoneChanges(zones.rows));
    ok := records.complete;
  }

  // ---- bulk load ----

  /** The bulk load builds the RR text from the ttl as it stands in the row. */
  function BulkRecord(lib: DnsLib, row: RowText): Option<Record> {
    ToRecord(lib, row, row.ttl)
  }

  function Appended(zones: map<string, Rrsets>, apex: string, rec: Record): map<string, Rrsets> {
    var m := if apex in zones then zones[apex] else map[];
    zones[apex := m[rec.Key() := RrsetOf(m, rec.Key()) + [rec]]]
  }

  function Grown(lib: DnsLib, zones: map<string, Rrsets>, row: RowText): map<string, Rrsets> {
    match BulkRecord(lib, row)
    case None => zones
    case Some(rec) => Appended(zones, Fqdn(row.apex), rec)
  }

  /** The local map of zones that the rows build up, each record appended to its rrset. */
  function Grouped(lib: DnsLib, rows: seq<RowText>): map<string, Rrsets> {
    if rows == [] then map[]
    else Grown(lib, Grouped(lib, rows[..|rows| - 1]), rows[|rows| - 1])
  }

  function AsZones(zones: map<string, Rrsets>): Zones {
    map a | a in zones :: ZoneVal(zones[a], None)
  }

  function BulkChange(lib: DnsLib, row: RowText): Option<Change> {
    match BulkRecord(lib, row)
    case None => None
    case Some(rec) => Some(Upsert(Fqdn(row.apex), rec))
  }

  /** The same rows as writes of single records. */
  function BulkChanges(lib: DnsLib, rows: seq<RowText>): seq<Change> {
    if rows == [] then []
    else BulkChanges(lib, rows[..|rows| - 1]) + One(BulkChange(lib, rows[|rows| - 1]))
  }

  method BuildMap(m: Rrsets) returns (out: RecordMap)
    ensures fresh(out) && out.Value() == m
  {
    out := new RecordMap();
    var rest := m.Keys;
    while rest != {}
      invariant rest <= m.Keys
      invariant fresh(out) && out.m.Keys == m.Keys - rest
      invariant forall k :: k in out.m ==> out.m[k][..] == m[k]
      decreases rest
    {
      var k :| k in rest;
      var rs := m[k];
      var a := new Record[|rs|](j requires 0 <= j < |rs| => rs[j]);
      assert a[..] == rs;
      out.m := out.m[k := a];
      rest := rest - {k};
    }
    assert out.Value() == m;
  }

  lemma BulkSnoc(lib: DnsLib, rows: seq<RowText>, i: nat)
    requires i < |rows|
    ensures BulkChanges(lib, rows[..i + 1]) == BulkChanges(lib, rows[..i]) + One(BulkChange(lib, rows[i]))
    ensures Grouped(lib, rows[..i + 1]) == Grown(lib, Grouped(lib, rows[..i]), rows[i])
  {
    assert rows[..i + 1][..i] == rows[..i];
  }

  lemma BulkCount(lib: DnsLib, rows: seq<RowText>, i: nat)
    requires i < |rows|
    ensures |BulkChanges(lib, rows[..i + 1])| ==
            |BulkChanges(lib, rows[..i])| + if BulkRecord(lib, rows[i]).Some? then 1 else 0
    ensures Grouped(lib, rows[..i + 1]) == Grown(lib, Grouped(lib, rows[..i]), rows[i])
  {
    BulkSnoc(lib, rows, i);
  }

  /** One row: appended to its rrset in the local map and counted as loaded, or counted as skipped. */
  method GroupRow(lib: DnsLib, zones: map<string, Rrsets>, row: RowText)
    returns (grown: map<string, Rrsets>, kept: bool)
    ensures grown == Grown(lib, zones, row) && (kept <==> BulkRecord(lib, row).Some?)
  {
    var rec := BulkRecord(lib, row);
    kept := rec.Some?;
    grown := if kept then Appended(zones, Fqdn(row.apex), rec.value) else zones;
  }

  /** The loop over the rows. */
  method GroupRows(lib: DnsLib, rows: seq<RowText>) returns (zones: map<string, Rrsets>, loaded: nat, skipped: nat)
    ensures zones == Grouped(lib, rows)
    ensures loaded + skipped == |rows| && loaded == |BulkChanges(lib, rows)|
  {
    loaded, skipped, zones := 0, 0, map[];
    for i := 0 to |rows|
      invariant zones == Grouped(lib, rows[..i])
      invariant loaded + skipped == i && loaded == |BulkChanges(lib, rows[..i])|
    {
      BulkCount(lib, rows, i);
      var kept;
      zones, kept := GroupRow(lib, zones, rows[i]);
      loaded, skipped := if kept then loaded + 1 else loaded, if kept then skipped else skipped + 1;
    }
    assert rows[..|rows|] == rows;
  }

  /**
   Rows are grouped locally and each zone is published once. A failed query publishes nothing; otherwise the grouped
   zones replace those of the same name and every row is counted as loaded or skipped.
   */
  method LoadAll(lib: DnsLib, store: RWMutexStore, fetched: Fetch<RowText>)
    returns (ok: bool, loaded: nat, skipped: nat)
    modifies store.zones
    ensures ok <==> fetched.complete
    ensures store.Contents() ==
            if ok then old(store.Contents()) + AsZones(Grouped(lib, fetched.rows)) else old(store.Contents())
    ensures loaded + skipped == |fetched.rows| && loaded == |BulkChanges(lib, fetched.rows)|
  {
    ghost var z := store.Contents();
    var zones: map<string, Rrsets>;
    zones, loaded, skipped := GroupRows(lib, fetched.rows);
    assert store.Contents() == z;
    ok := fetched.complete;
    if ok {
      PublishAll(store, zones);
    }
  }

  lemma PublishOne(z: Zones, m: Zones, rest: set<string>, apex: string)
    requires apex in rest && apex in m
    ensures (z + (m - rest))[apex := m[apex]] == z + (m - (rest - {apex}))
  {
  }

  /** One grouped zone becomes a zone of the store. */
  method PublishZone(store: RWMutexStore, apex: string, records: Rrsets)
    modifies store.zones
    ensures store.Contents() == old(store.Contents())[apex := ZoneVal(records, None)]
  {
    ghost var z := store.Contents();
    var m := BuildMap(records);
    var zone := new Zone(apex, m, None);
    assert zone.Value() == ZoneVal(records, None) && store.Contents() == z;
    store.Update(zone);
  }

  method PublishAll(store: RWMutexStore, zones: map<string, Rrsets>)
    modifies store.zones
    ensures store.Contents() == old(store.Contents()) + AsZones(zones)
  {
    ghost var z := store.Contents();
    var rest := zones.Keys;
    while rest != {}
      invariant rest <= zones.Keys
      invariant store.Contents() == z + (AsZones(zones) - rest)
      decreases rest
    {
      var apex :| apex in rest;
      PublishOne(z, AsZones(zones), rest, apex);
      PublishZone(store, apex, zones[apex]);
      rest := rest - {apex};
    }
    assert AsZones(zones) - {} == AsZones(zones);
  }

  // ---- what a loaded record shows ----

  /** Field by field: the row, parsed with the given ttl, is the record r of zone a. */
  ghost predicate RowShows(lib: DnsLib, row: RowText, parsedTtl: int, a: string, r: Record) {
    && a == Fqdn(row.apex) && r.name == Fqdn(row.name) && lib.typeOf(row.typeName) == Some(r.rtype)
    && r.id == row.id && r.ttl == Wrap32(row.ttl) && r.value == row.value && r.weight == row.weight
    && lib.parse(r.name, parsedTtl, row.typeName, r.value) == Accepted(r.rr)
  }

  /** A live row becomes an upsert of exactly the record it shows; a deleted one only ever a tombstone of its id. */
  lemma PullShows(lib: DnsLib, row: RowText, a: string, r: Record, id: int)
    ensures PullChange(lib, row) == Some(Upsert(a, r)) <==> !row.deleted && RowShows(lib, row, Wrap32(row.ttl), a, r)
    ensures PullChange(lib, row) == Some(Tombstone(a, id)) <==> row.deleted && a == Fqdn(row.apex) && id == row.id
    ensures PullChange(lib, row) != Some(ZoneGone(a))
  {
  }

  lemma BulkShows(lib: DnsLib, row: RowText, a: string, r: Record)
    ensures RowShows(lib, row, row.ttl, a, r) <==> BulkRecord(lib, row) == Some(r) && a == Fqdn(row.apex)
  {
  }

  /** A row adds its own record to its own zone and nothing else. */
  lemma GrownHas(lib: DnsLib, g: map<string, Rrsets>, row: RowText, a: string, r: Record)
    ensures Has(AsZones(Grown(lib, g, row)), a, r) <==> Has(AsZones(g), a, r) || RowShows(lib, row, row.ttl, a, r)
  {
    BulkShows(lib, row, a, r);
    if BulkRecord(lib, row).Some? {
      var rec, apex := BulkRecord(lib, row).value, Fqdn(row.apex);
      AppendedHas(g, apex, rec, a, r);
    }
  }

  lemma AppendedHas(g: map<string, Rrsets>, apex: string, rec: Record, a: string, r: Record)
    ensures Has(AsZones(Appended(g, apex, rec)), a, r) <==> Has(AsZones(g), a, r) || (a == apex && r == rec)
  {
    var m := if apex in g then g[apex] else map[];
    var m' := Appended(g, apex, rec)[apex];
    var rs := RrsetOf(m, rec.Key());
    assert At(m', rec.Key(), |rs|) && m'[rec.Key()][|rs|] == rec;
    if InZone(m, r) {
      var k, i :| At(m, k, i) && m[k][i] == r;
      assert At(m', k, i) && m'[k][i] == r;
    }
    if InZone(m', r) && r != rec {
      var k, i :| At(m', k, i) && m'[k][i] == r;
      assert At(m, k, i) && m[k][i] == r;
    }
  }

  ghost predicate SomeRowShows(lib: DnsLib, rows: seq<RowText>, a: string, r: Record) {
    exists i :: 0 <= i < |rows| && RowShows(lib, rows[i], rows[i].ttl, a, r)
  }

  lemma SomeRowSnoc(lib: DnsLib, front: seq<RowText>, last: RowText, a: string, r: Record)
    ensures SomeRowShows(lib, front + [last], a, r) <==>
            SomeRowShows(lib, front, a, r) || RowShows(lib, last, last.ttl, a, r)
  {
    var rows := front + [last];
    assert rows[|front|] == last;
    if i :| 0 <= i < |front| && RowShows(lib, front[i], front[i].ttl, a, r) { assert rows[i] == front[i]; }
  }

  /**
   The grouped zones hold exactly the records that the rows show: none lost, none invented, each in its row's zone.
   */
  lemma {:induction false} GroupedExactly(lib: DnsLib, rows: seq<RowText>, a: string, r: Record)
    ensures Has(AsZones(Grouped(lib, rows)), a, r) <==> SomeRowShows(lib, rows, a, r)
    decreases |rows|
  {
    if rows != [] {
      var front, last := rows[..|rows| - 1], rows[|rows| - 1];
      GroupedExactly(lib, front, a, r);
      GrownHas(lib, Grouped(lib, front), last, a, r);
      SomeRowSnoc(lib, front, last, a, r);
      assert rows == front + [last];
    }
  }

  ghost predicate DistinctIds(rows: seq<RowText>) {
    forall i, j :: 0 <= i < j < |rows| ==> rows[i].id != rows[j].id
  }

  lemma {:induction false} GroupedIds(lib: DnsLib, rows: seq<RowText>, a: string, k: RecordKey, r: Record)
    requires a in Grouped(lib, rows) && k in Grouped(lib, rows)[a] && r in Grouped(lib, rows)[a][k]
    ensures exists i :: 0 <= i < |rows| && rows[i].id == r.id
    decreases |rows|
  {
    var front, last := rows[..|rows| - 1], rows[|rows| - 1];
    if a in Grouped(lib, front) && k in Grouped(lib, front)[a] && r in Grouped(lib, front)[a][k] {
      GroupedIds(lib, front, a, k, r);
      var i :| 0 <= i < |front| && front[i].id == r.id;
      assert rows[i].id == r.id;
    } else {
      assert last.id == r.id;
    }
  }

  /** A row whose id is new to its rrset is appended by either loader. */
  lemma AppendIsPut(lib: DnsLib, rows: seq<RowText>, row: RowText, rec: Record)
    requires (forall i :: 0 <= i < |rows| ==> rows[i].id != row.id) && BulkRecord(lib, row) == Some(rec)
    ensures AsZones(Appended(Grouped(lib, rows), Fqdn(row.apex), rec)) ==
            Put(AsZones(Grouped(lib, rows)), Fqdn(row.apex), rec)
  {
    var g, apex := Grouped(lib, rows), Fqdn(row.apex);
    var rs := RrsetOf(ZoneOf(AsZones(g), apex).rrsets, rec.Key());
    var i := IndexOfId(rs, rec.id);
    if i < |rs| {
      assert rs[i] in rs;
      GroupedIds(lib, rows, apex, rec.Key(), rs[i]);
    }
  }

  /**
   Bulk load equals incremental load: with row ids distinct, the grouped zones are exactly the store obtained by
   writing the valid rows one at a time into an empty one, rrset order included.
   */
  lemma {:induction false} BulkIsIncremental(lib: DnsLib, rows: seq<RowText>)
    requires DistinctIds(rows)
    ensures AsZones(Grouped(lib, rows)) == ApplyAll(map[], BulkChanges(lib, rows))
    decreases |rows|
  {
    if rows != [] {
      var front, last := rows[..|rows| - 1], rows[|rows| - 1];
      BulkIsIncremental(lib, front);
      BulkSnoc(lib, rows, |rows| - 1);
      assert rows[..|rows|] == rows;
      var cs := BulkChanges(lib, front);
      match BulkRecord(lib, last)
      case None => assert cs + [] == cs;
      case Some(rec) =>
        AppendIsPut(lib, front, last, rec);
        ApplySnoc(map[], cs, Upsert(Fqdn(last.apex), rec));
    }
  }

  // ---- the two loaders beside each other ----

  /** RR text with a negative ttl does not parse. */
  ghost predicate RefusesNegativeTtl(lib: DnsLib) {
    forall name, ttl, typeName, value :: ttl < 0 ==> lib.parse(name, ttl, typeName, value).Rejected?
  }

  /** A row that is not deleted, with a ttl that the INTEGER column can hold. */
  predicate LiveRow(row: RowText) {
    !row.deleted && -TWO_31 <= row.ttl < TWO_31
  }

  /** The ttl is not negative, or the row is skipped whatever its ttl. */
  predicate RowAgrees(lib: DnsLib, row: RowText) {
    || 0 <= row.ttl
    || lib.typeOf(row.typeName).None?
    || lib.parse(Fqdn(row.name), Wrap32(row.ttl), row.typeName, row.value).Rejected?
  }

  lemma RowLoadsAlike(lib: DnsLib, row: RowText)
    requires RefusesNegativeTtl(lib) && LiveRow(row)
    ensures if RowAgrees(lib, row) then PullChange(lib, row) == BulkChange(lib, row)
            else PullChange(lib, row).Some? && BulkChange(lib, row).None?
  {
  }

  lemma {:induction false} PullLoadsMore(lib: DnsLib, rows: seq<RowText>)
    requires RefusesNegativeTtl(lib) && forall i :: 0 <= i < |rows| ==> LiveRow(rows[i])
    ensures |BulkChanges(lib, rows)| <= |RecordChanges(lib, rows)|
    decreases |rows|
  {
    if rows != [] {
      PullLoadsMore(lib, rows[..|rows| - 1]);
      RowLoadsAlike(lib, rows[|rows| - 1]);
    }
  }

  lemma StepAgrees(p: seq<Change>, b: seq<Change>, x: Option<Change>, y: Option<Change>, same: bool)
    requires |b| <= |p| && if same then x == y else x.Some? && y.None?
    ensures p + One(x) == b + One(y) <==> p == b && same
  {
    if p + One(x) == b + One(y) && same {
      assert p == (p + One(x))[..|p|] && b == (b + One(y))[..|b|];
    }
  }

  ghost predicate AllAgree(lib: DnsLib, rows: seq<RowText>) {
    forall i :: 0 <= i < |rows| ==> RowAgrees(lib, rows[i])
  }

  lemma AllAgreeSnoc(lib: DnsLib, rows: seq<RowText>)
    requires rows != []
    ensures AllAgree(lib, rows) <==> AllAgree(lib, rows[..|rows| - 1]) && RowAgrees(lib, rows[|rows| - 1])
  {
  }

  /**
   On live rows the bulk load and the pull make the same writes exactly when no row that would otherwise load has a
   negative ttl: the pull converts the ttl before parsing, the bulk load parses it as it is.
   */
  lemma {:induction false} LoadersAgreeExactly(lib: DnsLib, rows: seq<RowText>)
    requires RefusesNegativeTtl(lib) && forall i :: 0 <= i < |rows| ==> LiveRow(rows[i])
    ensures RecordChanges(lib, rows) == BulkChanges(lib, rows) <==> AllAgree(lib, rows)
    decreases |rows|
  {
    if rows != [] {
      var front, last := rows[..|rows| - 1], rows[|rows| - 1];
      LoadersAgreeExactly(lib, front);
      PullLoadsMore(lib, front);
      RowLoadsAlike(lib, last);
      AllAgreeSnoc(lib, rows);
      StepAgrees(RecordChanges(lib, front), BulkChanges(lib, front), PullChange(lib, last), BulkChange(lib, last),
          RowAgrees(lib, last));
    }
  }

  /** The failing case: ttl -1 is skipped at start-up and loaded with ttl 4294967295 by a pull. */
  lemma NegativeTtlSplits(lib: DnsLib)
    requires RefusesNegativeTtl(lib) && lib.typeOf("A") == Some(TYPE_A)
    requires lib.parse("www.example.com.", TWO_32 - 1, "A", "192.0.2.1").Accepted?
    ensures var row := RowText("example.com.", 1, "www.example.com.", "A", -1, "192.0.2.1", 0, false);
      BulkChange(lib, row).None? && PullChange(lib, row).Some? && PullChange(lib, row).value.rec.ttl == TWO_32 - 1
  {
  }
}
