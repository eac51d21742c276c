/**
 The in-memory zone store on the heap. Zones, their record maps and their rrset arrays are objects that readers keep
 after a look-up; every write publishes fresh ones. The lock is not modelled: a call is one step.
 */
module ZoneStore {
  import opened Records
  import opened Names
  import opened ZoneSpec

  /** A mutable map from record key to rrset array, shared by reference. */
  class RecordMap {
    var m: map<RecordKey, array<Record>>

    constructor ()
      ensures m == map[]
    {
      m := map[];
    }

    ghost function Value(): Rrsets
      reads this, m.Values
    {
      map k | k in m :: m[k][..]
    }
  }

  class Zone {
    const name: string
    const records: RecordMap
    const soa: Option<RR>

    constructor (name: string, records: RecordMap, soa: Option<RR>)
      ensures this.name == name && this.records == records && this.soa == soa
    {
      this.name := name;
      this.records := records;
      this.soa := soa;
    }

    ghost function Value(): ZoneVal
      reads records, records.m.Values
    {
      ZoneVal(records.Value(), soa)
    }
  }

  /** A mutable map from apex to zone. */
  class ZoneMap {
    var m: map<string, Zone>

    constructor ()
      ensures m == map[]
    {
      m := map[];
    }
  }

  class RWMutexStore {
    const zones: ZoneMap

    constructor ()
      ensures fresh(zones) && zones.m == map[]
    {
      zones := new ZoneMap();
    }

    ghost function Contents(): Zones
      reads zones, (set a | a in zones.m :: zones.m[a].records),
            (set a, k | a in zones.m && k in zones.m[a].records.m :: zones.m[a].records.m[k])
    {
      map a | a in zones.m :: zones.m[a].Value()
    }

    /** Walk up the labels of `name` until an apex of the store is met. */
    method LockedFindZone(name: string) returns (z: Zone?)
      ensures match FindApex(zones.m.Keys, name) case Some(a) => a in zones.m && z == zones.m[a] case None => z == null
      ensures z == null <==> Uncovered(zones.m.Keys, name)
      ensures z != null ==> exists a :: a in zones.m && zones.m[a] == z && ClosestApex(zones.m.Keys, name, a)
    {
      FindApexIsClosest(zones.m.Keys, name);
      var n := name;
      while true
        invariant FindApex(zones.m.Keys, n) == FindApex(zones.m.Keys, name)
        decreases |n|
      {
        if n in zones.m {
          return zones.m[n];
        }
        var dot := IndexByteDot(n);
        if dot < 0 || dot == |n| - 1 {
          break;
        }
        n := n[dot + 1..];
      }
      return null;
    }

    /** strings.IndexByte(n, '.') */
    static method IndexByteDot(n: string) returns (dot: int)
      ensures dot == (if IndexOf(n, '.') == |n| then -1 else IndexOf(n, '.'))
    {
      dot := 0;
      while dot < |n|
        invariant 0 <= dot <= |n|
        invariant forall j :: 0 <= j < dot ==> n[j] != '.'
      {
        if n[dot] == '.' {
          assert IndexOf(n, '.') == dot;
          return;
        }
        dot := dot + 1;
      }
      return -1;
    }

    method FindZone(name: string) returns (z: Zone?)
      ensures match FindApex(zones.m.Keys, name) case Some(a) => a in zones.m && z == zones.m[a] case None => z == null
      ensures z == null <==> Uncovered(zones.m.Keys, name)
    {
      z := LockedFindZone(name);
    }

    method Lookup(name: string, qtype: nat) returns (rs: array?<Record>)
      ensures (if rs == null then [] else rs[..]) == LookupIn(Contents(), name, qtype)
      ensures IsRrset(Contents(), name, qtype, if rs == null then [] else rs[..])
    {
      LookupExactly(Contents(), name, qtype, LookupIn(Contents(), name, qtype));
      assert Contents().Keys == zones.m.Keys;
      var zone := LockedFindZone(name);
      if zone == null {
        return null;
      }
      var key := RecordKey(name, qtype);
      if key in zone.records.m {
        rs := zone.records.m[key];
      } else {
        rs := null;
      }
    }

    method NameExists(name: string) returns (found: bool)
      ensures found <==> NameKnown(Contents(), name)
    {
      assert Contents().Keys == zones.m.Keys;
      FindApexIsClosest(zones.m.Keys, name);
      ghost var apex := FindApex(zones.m.Keys, name);
      forall a | a in zones.m && ClosestApex(zones.m.Keys, name, a) ensures apex == Some(a) {
        FindApexExact(zones.m.Keys, name, a);
      }
      var zone := LockedFindZone(name);
      if zone == null {
        return false;
      }
      var rest := zone.records.m.Keys;
      while rest != {}
        invariant rest <= zone.records.m.Keys
        invariant forall k :: k in zone.records.m && k !in rest ==> k.name != name
        decreases rest
      {
        var k :| k in rest;
        if k.name == name {
          assert apex.value in Contents() && k in Contents()[apex.value].rrsets;
          return true;
        }
        rest := rest - {k};
      }
      assert forall a, k :: a in Contents() && ClosestApex(zones.m.Keys, name, a) && k in Contents()[a].rrsets ==>
        k.name != name;
      return false;
    }

    method Publish(apex: string, zone: Zone)
      modifies zones
      ensures zones.m == old(zones.m)[apex := zone]
      ensures Contents() == old(Contents())[apex := old(zone.Value())]
    {
      zones.m := zones.m[apex := zone];
    }

    /** Publish a whole zone, replacing any zone of that name. */
    method Update(zone: Zone)
      modifies zones
      ensures zones.m == old(zones.m)[zone.name := zone]
      ensures Contents() == old(Contents())[zone.name := old(zone.Value())]
    {
      Publish(zone.name, zone);
    }

    method Delete(apex: string) returns (ok: bool)
      modifies zones
      ensures ok <==> apex in old(zones.m)
      ensures zones.m == old(zones.m) - {apex}
      ensures Contents() == Remove(old(Contents()), apex)
    {
      if apex !in zones.m {
        assert Contents() == Remove(Contents(), apex);
        return false;
      }
      zones.m := zones.m - {apex};
      return true;
    }

    /** A fresh map that holds the very same zone objects. */
    method Snapshot() returns (snap: ZoneMap)
      ensures fresh(snap) && snap.m == zones.m
    {
      snap := new ZoneMap();
      var rest := zones.m.Keys;
      while rest != {}
        invariant rest <= zones.m.Keys
        invariant snap.m.Keys == zones.m.Keys - rest
        invariant forall a :: a in snap.m ==> snap.m[a] == zones.m[a]
        modifies snap
        decreases rest
      {
        var a :| a in rest;
        snap.m := snap.m[a := zones.m[a]];
        rest := rest - {a};
      }
    }

    /** A fresh map with the same entries: the arrays are shared, the map is not. */
    static method CopyMap(from: RecordMap) returns (to: RecordMap)
      ensures fresh(to) && to.m == from.m
    {
      to := new RecordMap();
      var rest := from.m.Keys;
      while rest != {}
        invariant rest <= from.m.Keys
        invariant to.m.Keys == from.m.Keys - rest
        invariant forall k :: k in to.m ==> to.m[k] == from.m[k]
        modifies to
        decreases rest
      {
        var k :| k in rest;
        to.m := to.m[k := from.m[k]];
        rest := rest - {k};
      }
    }

    /** The rrset with `rec` written into it, as a fresh array. */
    static method WriteInto(existing: array?<Record>, rec: Record) returns (out: array<Record>)
      ensures fresh(out)
      ensures out[..] == PutRrset(if existing == null then [] else existing[..], rec)
    {
      if existing == null {
        out := new Record[1](_ => rec);
        assert out[..] == [rec];
        return;
      }
      ghost var rs := existing[..];
      var n := existing.Length;
      if rec.id > 0 {
        var i := 0;
        while i < n
          invariant 0 <= i <= n
          invariant forall j :: 0 <= j < i ==> existing[j].id != rec.id
        {
          if existing[i].id == rec.id {
            out := new Record[n](j requires 0 <= j < n reads existing => existing[j]);
            out[i] := rec;
            assert IndexOfId(rs, rec.id) == i;
            assert out[..] == rs[i := rec];
            return;
          }
          i := i + 1;
        }
        assert IndexOfId(rs, rec.id) == n;
      }
      out := new Record[n + 1](j requires 0 <= j <= n reads existing => if j < n then existing[j] else rec);
      assert out[..] == rs + [rec];
    }

    /** The old record map with `rec` written into its rrset, as a fresh map; other rrset arrays are shared. */
    static method PutMap(was: RecordMap?, rec: Record) returns (newRecs: RecordMap)
      ensures fresh(newRecs)
      ensures newRecs.Value() == PutZone(if was == null then map[] else old(was.Value()), rec)
    {
      ghost var m: Rrsets := if was == null then map[] else was.Value();
      if was == null {
        newRecs := new RecordMap();
      } else {
        newRecs := CopyMap(was);
      }
      assert newRecs.Value() == m;
      var key := rec.Key();
      var existing: array?<Record> := if key in newRecs.m then newRecs.m[key] else null;
      var newSlice := WriteInto(existing, rec);
      newRecs.m := newRecs.m[key := newSlice];
      assert newRecs.Value() == PutZone(m, rec);
    }

    /**
     Add or replace one record, publishing a fresh zone. No object that existed before is written but the store's own
     map.
     */
    method PutRecord(apex: string, rec: Record)
      modifies zones
      ensures Contents() == Put(old(Contents()), apex, rec)
      ensures apex in zones.m && fresh(zones.m[apex]) && zones.m[apex].name == apex
              && zones.m == old(zones.m)[apex := zones.m[apex]]
    {
      var was: Zone? := if apex in zones.m then zones.m[apex] else null;
      var newRecs := PutMap(if was == null then null else was.records, rec);
      var newZone := new Zone(apex, newRecs, if was == null then None else was.soa);
      Update(newZone);
    }

    /** Find some rrset with the id: the first match in whichever rrset is visited first. */
    static method FindId(recs: RecordMap, id: int) returns (found: bool, key: RecordKey, idx: nat)
      ensures found <==> HasId(recs.Value(), id)
      ensures found ==> At(recs.Value(), key, idx) && idx == IndexOfId(recs.Value()[key], id)
    {
      found, key, idx := false, RecordKey("", 0), 0;
      var rest := recs.m.Keys;
      while rest != {} && !found
        invariant rest <= recs.m.Keys
        invariant !found ==> forall k, i :: At(recs.Value(), k, i) && k !in rest ==> recs.Value()[k][i].id != id
        invariant found ==> At(recs.Value(), key, idx) && idx == IndexOfId(recs.Value()[key], id)
        decreases rest, !found
      {
        var k :| k in rest;
        var rs := recs.m[k];
        var i := 0;
        while i < rs.Length && !found
          invariant 0 <= i <= rs.Length
          invariant !found ==> forall j :: 0 <= j < i ==> rs[j].id != id
          invariant found ==> At(recs.Value(), key, idx) && idx == IndexOfId(recs.Value()[key], id)
          decreases rs.Length - i, !found
        {
          if rs[i].id == id {
            found, key, idx := true, k, i;
          }
          i := i + 1;
        }
        rest := rest - {k};
      }
    }

    static method CutArray(existing: array<Record>, idx: nat) returns (out: array<Record>)
      requires idx < existing.Length
      ensures fresh(out) && out[..] == RemoveAt(existing[..], idx)
    {
      var n := existing.Length;
      out := new Record[n - 1](
        j requires 0 <= j < n - 1 reads existing => if j < idx then existing[j] else existing[j + 1]);
      assert out[..] == RemoveAt(existing[..], idx);
    }

    /** The old record map with one position of one rrset cut, as a fresh map. */
    static method CutMap(was: RecordMap, key: RecordKey, idx: nat) returns (newRecs: RecordMap)
      requires At(was.Value(), key, idx)
      ensures fresh(newRecs) && newRecs.Value() == CutZone(old(was.Value()), key, idx)
    {
      ghost var m := was.Value();
      newRecs := CopyMap(was);
      var existing := was.m[key];
      if existing.Length == 1 {
        newRecs.m := newRecs.m - {key};
      } else {
        var newSlice := CutArray(existing, idx);
        newRecs.m := newRecs.m[key := newSlice];
      }
      assert newRecs.Value() == CutZone(m, key, idx);
    }

    /** The zone after dropping the id: a fresh one, or the zone itself when the id is absent. */
    static method DropFrom(apex: string, was: Zone, id: int) returns (newZone: Zone)
      ensures newZone == was || (fresh(newZone) && newZone.name == apex)
      ensures DropsZone(old(was.Value()), id, newZone.Value())
    {
      var found, foundKey, foundIdx := FindId(was.records, id);
      if !found {
        return was;
      }
      var newRecs := CutMap(was.records, foundKey, foundIdx);
      newZone := new Zone(apex, newRecs, was.soa);
    }

    /** Remove one record by id, publishing a fresh zone; nothing happens when the zone or the id is absent. */
    method DropRecord(apex: string, id: int)
      modifies zones
      ensures DropsIn(old(Contents()), apex, id, Contents())
      ensures apex in old(zones.m) ==> apex in zones.m && zones.m == old(zones.m)[apex := zones.m[apex]]
      ensures apex in old(zones.m) ==>
              zones.m[apex] == old(zones.m)[apex] || (fresh(zones.m[apex]) && zones.m[apex].name == apex)
      ensures apex !in old(zones.m) ==> zones.m == old(zones.m)
    {
      if apex !in zones.m {
        return;
      }
      var newZone := DropFrom(apex, zones.m[apex], id);
      Publish(apex, newZone);
    }
  }
  // ---- snapshot isolation ----

  datatype Write = PutWrite(apex: string, rec: Record) | DropWrite(apex: string, id: int)
                 | DeleteWrite(apex: string) | UpdateWrite(zone: Zone)

  /** Any sequence of writes. Only the store's own map is ever modified. */
  method RunWrites(store: RWMutexStore, writes: seq<Write>)
    modifies store.zones
  {
    for i := 0 to |writes| {
      match writes[i]
      case PutWrite(apex, rec) => store.PutRecord(apex, rec);
      case DropWrite(apex, id) => store.DropRecord(apex, id);
      case DeleteWrite(apex) => var _ := store.Delete(apex);
      case UpdateWrite(zone) => store.Update(zone);
    }
  }

  /** The three kinds of read: the closest zone, its rrset, and a copy of the map of all zones. */
  method ReadAll(store: RWMutexStore, name: string, qtype: nat, ghost z: Zones)
    returns (zone: Zone?, rrset: array?<Record>, snap: ZoneMap)
    requires z == store.Contents()
    ensures fresh(snap) && snap.m == old(store.zones.m) && snap.m.Keys == z.Keys
    ensures zone == null <==> Uncovered(snap.m.Keys, name)
    ensures zone != null ==> exists a :: a in snap.m && ClosestApex(snap.m.Keys, name, a) && zone == snap.m[a]
    ensures IsRrset(z, name, qtype, if rrset == null then [] else rrset[..])
  {
    rrset := store.Lookup(name, qtype);
    zone := store.LockedFindZone(name);
    snap := store.Snapshot();
  }

  /**
   What a reader got before any number of writes still has, after them, the value the store had when it was read: the
   zone found, the rrset looked up, and the snapshot with every zone of it.
   */
  method ReadAcrossWrites(store: RWMutexStore, name: string, qtype: nat, writes: seq<Write>)
    returns (zone: Zone?, rrset: array?<Record>, snap: ZoneMap)
    modifies store.zones
    ensures zone == null <==> Uncovered(old(store.zones.m.Keys), name)
    ensures zone != null ==> exists a :: a in old(store.zones.m) && ClosestApex(old(store.zones.m.Keys), name, a)
                                         && zone.Value() == old(store.Contents())[a]
    ensures IsRrset(old(store.Contents()), name, qtype, if rrset == null then [] else rrset[..])
    ensures snap.m == old(store.zones.m)
    ensures forall a :: a in snap.m ==> snap.m[a].Value() == old(store.Contents())[a]
  {
    ghost var z := store.Contents();
    zone, rrset, snap := ReadAll(store, name, qtype, z);
    RunWrites(store, writes);
    assert forall a :: a in snap.m ==> snap.m[a].Value() == z[a];
  }
}
