/**
 What the zone store computes, on values: the effect of each write on a map from apex to zone, the invariants the
 writes keep, and the refinement to the set of (apex, record) pairs.
 */
module ZoneSpec {
  import opened Records
  import opened Names

  // ---- one rrset ----

  /** Index of the first record with the given id, or the length when there is none. */
  function IndexOfId(rs: seq<Record>, id: int): (i: nat)
    ensures i <= |rs|
    ensures i < |rs| ==> rs[i].id == id
    ensures forall j :: 0 <= j < i ==> rs[j].id != id
  {
    if rs == [] || rs[0].id == id then 0 else 1 + IndexOfId(rs[1..], id)
  }

  /** Replace the first record with the same positive id, else append. */
  function PutRrset(rs: seq<Record>, rec: Record): seq<Record> {
    var i := IndexOfId(rs, rec.id);
    if rec.id > 0 && i < |rs| then rs[i := rec] else rs + [rec]
  }

  function RemoveAt(rs: seq<Record>, i: nat): seq<Record>
    requires i < |rs|
  {
    rs[..i] + rs[i + 1..]
  }

  function RrsetOf(m: Rrsets, k: RecordKey): seq<Record> {
    if k in m then m[k] else []
  }

  // ---- one zone ----

  function PutZone(m: Rrsets, rec: Record): Rrsets {
    m[rec.Key() := PutRrset(RrsetOf(m, rec.Key()), rec)]
  }

  /** Remove position `i` of rrset `k`; an emptied rrset disappears. */
  function CutZone(m: Rrsets, k: RecordKey, i: nat): Rrsets
    requires k in m && i < |m[k]|
  {
    if |m[k]| == 1 then m - {k} else m[k := RemoveAt(m[k], i)]
  }

  /** Some record of the zone carries this id. */
  ghost predicate HasId(m: Rrsets, id: int) {
    exists k, i :: At(m, k, i) && m[k][i].id == id
  }

  predicate At(m: Rrsets, k: RecordKey, i: int) {
    k in m && 0 <= i < |m[k]|
  }

  /**
   The effect of dropping an id, as a relation: the first match in whichever rrset the map iteration meets first is
   cut; nothing happens when no rrset has the id.
   */
  ghost predicate Drops(m: Rrsets, id: int, m': Rrsets) {
    if HasId(m, id)
    then exists k, i :: At(m, k, i) && i == IndexOfId(m[k], id) && m' == CutZone(m, k, i)
    else m' == m
  }

  ghost predicate DropsZone(v: ZoneVal, id: int, v': ZoneVal) {
    v'.soa == v.soa && Drops(v.rrsets, id, v'.rrsets)
  }

  ghost predicate DropsIn(z: Zones, apex: string, id: int, z': Zones) {
    if apex !in z then z' == z
    else apex in z' && z' == z[apex := z'[apex]] && DropsZone(z[apex], id, z'[apex])
  }

  function Without(rs: seq<Record>, id: int): (out: seq<Record>)
    ensures forall r :: r in out <==> r in rs && r.id != id
  {
    if rs == [] then []
    else if rs[0].id == id then Without(rs[1..], id)
    else [rs[0]] + Without(rs[1..], id)
  }

  /** Remove every record with the id, and every rrset this empties. */
  function PurgeZone(m: Rrsets, id: int): Rrsets {
    map k | k in m && Without(m[k], id) != [] :: Without(m[k], id)
  }

  // ---- the whole store ----

  function ZoneOf(z: Zones, apex: string): ZoneVal {
    if apex in z then z[apex] else ZoneVal(map[], None)
  }

  function Put(z: Zones, apex: string, rec: Record): Zones {
    var was := ZoneOf(z, apex);
    z[apex := ZoneVal(PutZone(was.rrsets, rec), was.soa)]
  }

  function Purge(z: Zones, apex: string, id: int): Zones {
    if apex !in z then z
    else z[apex := ZoneVal(PurgeZone(z[apex].rrsets, id), z[apex].soa)]
  }

  function Remove(z: Zones, apex: string): Zones {
    z - {apex}
  }

  function LookupIn(z: Zones, name: string, qtype: nat): seq<Record> {
    match FindApex(z.Keys, name)
    case None => []
    case Some(a) => if a in z then RrsetOf(z[a].rrsets, RecordKey(name, qtype)) else []
  }

  /** The closest zone has an rrset at the name. */
  ghost predicate NameKnown(z: Zones, name: string) {
    exists a, k :: a in z && ClosestApex(z.Keys, name, a) && k in z[a].rrsets && k.name == name
  }

  // ---- invariants ----

  /** No empty rrset, and every record filed under its own name and type. */
  ghost predicate Filed(m: Rrsets) {
    && (forall k :: k in m ==> m[k] != [])
    && (forall k, i :: At(m, k, i) ==> m[k][i].Key() == k)
  }

  /** A positive id names one position of the zone. */
  ghost predicate UniqueIds(m: Rrsets) {
    forall k, i, j, l :: At(m, k, i) && At(m, j, l) && m[k][i].id == m[j][l].id > 0 ==> k == j && i == l
  }

  ghost predicate AllPositive(m: Rrsets) {
    forall k, i :: At(m, k, i) ==> m[k][i].id > 0
  }

  ghost predicate GoodZone(m: Rrsets) {
    Filed(m) && UniqueIds(m) && AllPositive(m)
  }

  ghost predicate Good(z: Zones) {
    forall a :: a in z ==> GoodZone(z[a].rrsets)
  }

  /** Any record of the zone with the same id has the same name and type. */
  ghost predicate KeyStable(m: Rrsets, rec: Record) {
    forall k, i :: At(m, k, i) && m[k][i].id == rec.id ==> k == rec.Key()
  }

  // ---- the abstract state: which records each zone holds ----

  ghost predicate InZone(m: Rrsets, r: Record) {
    exists k, i :: At(m, k, i) && m[k][i] == r
  }

  ghost predicate Has(z: Zones, a: string, r: Record) {
    a in z && InZone(z[a].rrsets, r)
  }

  // ---- what one write does, with no assumption on the zone ----

  lemma PutRrsetBag(rs: seq<Record>, rec: Record)
    ensures var i := IndexOfId(rs, rec.id);
      multiset(PutRrset(rs, rec)) ==
      if rec.id > 0 && i < |rs| then multiset(rs) - multiset{rs[i]} + multiset{rec} else multiset(rs) + multiset{rec}
  {
  }

  /** Position i holds the first record with the positive id. */
  ghost predicate FirstWithId(rs: seq<Record>, id: int, i: int) {
    0 <= i < |rs| && id > 0 && rs[i].id == id && forall j :: 0 <= j < i ==> rs[j].id != id
  }

  /** A write leaves every record where it is: it takes the place of the first one with its id, or goes to the end. */
  lemma PutKeepsPlaces(rs: seq<Record>, rec: Record)
    ensures var out := PutRrset(rs, rec);
      if exists i :: FirstWithId(rs, rec.id, i)
      then |out| == |rs| && forall i :: 0 <= i < |rs| ==> out[i] == if FirstWithId(rs, rec.id, i) then rec else rs[i]
      else |out| == |rs| + 1 && out[|rs|] == rec && forall i :: 0 <= i < |rs| ==> out[i] == rs[i]
  {
    if rec.id > 0 && IndexOfId(rs, rec.id) < |rs| { assert FirstWithId(rs, rec.id, IndexOfId(rs, rec.id)); }
  }

  /** A cut closes the gap: what was before stays, what was behind moves up by one. */
  lemma CutKeepsPlaces(m: Rrsets, k: RecordKey, i: nat)
    requires At(m, k, i)
    ensures var m' := CutZone(m, k, i);
      && (forall j :: j in m && j != k ==> j in m' && m'[j] == m[j]) && (forall j :: j in m' ==> j in m)
      && (k in m' <==> |m[k]| > 1)
      && (k in m' ==> |m'[k]| == |m[k]| - 1 && forall l :: 0 <= l < |m'[k]| ==>
          m'[k][l] == m[k][if l < i then l else l + 1])
  {
  }

  /** Putting `rec` exchanges one copy of a record for it. */
  ghost predicate Exchanges(before: multiset<Record>, gone: Record, rec: Record, after: multiset<Record>) {
    gone in before && after == before - multiset{gone} + multiset{rec}
  }

  lemma ExchangeWithin(part: multiset<Record>, rest: multiset<Record>, gone: Record, rec: Record,
                       part': multiset<Record>)
    requires Exchanges(part, gone, rec, part')
    ensures Exchanges(part + rest, gone, rec, part' + rest)
  {
  }

  /**
   Without key stability: exactly one copy is added when the id is not in the target rrset (or is not positive), else
   exactly one record with that id is exchanged for the new one.
   */
  lemma PutBag(m: Rrsets, rec: Record)
    ensures var rs := RrsetOf(m, rec.Key()); var i := IndexOfId(rs, rec.id);
      if rec.id > 0 && i < |rs|
      then Exchanges(Bag(m), rs[i], rec, Bag(PutZone(m, rec)))
      else Bag(PutZone(m, rec)) == Bag(m) + multiset{rec}
  {
    var k := rec.Key();
    var rs := RrsetOf(m, k);
    BagUpdate(m, k, PutRrset(rs, rec));
    PutRrsetBag(rs, rec);
    if k in m {
      BagSplit(m, k);
    } else {
      assert m - {k} == m;
    }
    var i := IndexOfId(rs, rec.id);
    if rec.id > 0 && i < |rs| {
      ExchangeWithin(multiset(rs), Bag(m - {k}), rs[i], rec, multiset(PutRrset(rs, rec)));
    }
  }

  lemma CutBag(m: Rrsets, k: RecordKey, i: nat)
    requires At(m, k, i)
    ensures m[k][i] in Bag(m) && Bag(CutZone(m, k, i)) == Bag(m) - multiset{m[k][i]}
  {
    BagSplit(m, k);
    assert m[k] == m[k][..i] + [m[k][i]] + m[k][i + 1..];
    if |m[k]| > 1 {
      BagUpdate(m, k, RemoveAt(m[k], i));
    }
  }

  /** Dropping an id that is present removes exactly one copy of one record with that id. */
  lemma DropBag(m: Rrsets, id: int, m': Rrsets)
    requires Drops(m, id, m')
    ensures if HasId(m, id)
            then exists r :: r in Bag(m) && r.id == id && Bag(m') == Bag(m) - multiset{r}
            else m' == m
  {
    if HasId(m, id) {
      var k, i :| At(m, k, i) && i == IndexOfId(m[k], id) && m' == CutZone(m, k, i);
      CutBag(m, k, i);
    }
  }

  // ---- invariants are kept ----

  /** Writing a record keeps the rrsets non-empty and filed. */
  lemma PutKeepsFiled(m: Rrsets, rec: Record)
    requires Filed(m)
    ensures Filed(PutZone(m, rec))
  {
  }

  lemma CutKeepsFiled(m: Rrsets, k: RecordKey, i: nat)
    requires Filed(m) && At(m, k, i)
    ensures Filed(CutZone(m, k, i))
  {
  }

  /** With stable keys a write keeps ids unique, and replaces what the id stood for. */
  lemma PutKeepsUnique(m: Rrsets, rec: Record)
    requires UniqueIds(m) && KeyStable(m, rec)
    ensures UniqueIds(PutZone(m, rec))
  {
    var k := rec.Key();
    var rs := RrsetOf(m, k);
    var m' := PutZone(m, rec);
    var p := if rec.id > 0 && IndexOfId(rs, rec.id) < |rs| then IndexOfId(rs, rec.id) else |rs|;
    forall j, l | At(m', j, l) && !(j == k && l == p)
      ensures At(m, j, l) && m[j][l] == m'[j][l] && (rec.id > 0 ==> m'[j][l].id != rec.id)
    {
      if rec.id > 0 && m[j][l].id == rec.id {
        assert j == k && p == IndexOfId(rs, rec.id) < |rs| && At(m, k, p);
        assert false;
      }
    }
  }

  lemma CutKeepsUnique(m: Rrsets, k: RecordKey, i: nat)
    requires UniqueIds(m) && At(m, k, i)
    ensures UniqueIds(CutZone(m, k, i))
  {
    var m' := CutZone(m, k, i);
    forall j, l, u, v | At(m', j, l) && At(m', u, v) && m'[j][l].id == m'[u][v].id > 0
      ensures j == u && l == v
    {
      var l' := if j == k && l >= i then l + 1 else l;
      var v' := if u == k && v >= i then v + 1 else v;
      assert m'[j][l] == m[j][l'] && m'[u][v] == m[u][v'];
    }
  }

  lemma {:induction false} WithoutKeeps(rs: seq<Record>, id: int)
    requires forall i :: 0 <= i < |rs| ==> rs[i].id != id
    ensures Without(rs, id) == rs
  {
    if rs != [] {
      WithoutKeeps(rs[1..], id);
    }
  }

  lemma RemoveAtCons(rs: seq<Record>, i: nat)
    requires 0 < i < |rs|
    ensures RemoveAt(rs, i) == [rs[0]] + RemoveAt(rs[1..], i - 1)
  {
  }

  lemma {:induction false} WithoutRemoves(rs: seq<Record>, i: nat)
    requires i < |rs| && forall j :: 0 <= j < |rs| && j != i ==> rs[j].id != rs[i].id
    ensures Without(rs, rs[i].id) == RemoveAt(rs, i)
  {
    if i == 0 {
      WithoutKeeps(rs[1..], rs[0].id);
    } else {
      WithoutRemoves(rs[1..], i - 1);
      RemoveAtCons(rs, i);
    }
  }

  /** An rrset without the id is not touched by the purge. */
  lemma PurgeSpares(m: Rrsets, k: RecordKey, id: int)
    requires Filed(m) && k in m
    requires forall i :: At(m, k, i) ==> m[k][i].id != id
    ensures k in PurgeZone(m, id) && PurgeZone(m, id)[k] == m[k]
  {
    forall i | 0 <= i < |m[k]| ensures m[k][i].id != id { assert At(m, k, i); }
    WithoutKeeps(m[k], id);
  }

  lemma UniqueWithout(m: Rrsets, k: RecordKey, i: nat)
    requires UniqueIds(m) && At(m, k, i) && m[k][i].id > 0
    ensures Without(m[k], m[k][i].id) == RemoveAt(m[k], i)
  {
    forall l | 0 <= l < |m[k]| && l != i ensures m[k][l].id != m[k][i].id { assert At(m, k, l); }
    WithoutRemoves(m[k], i);
  }

  lemma UniqueSpares(m: Rrsets, k: RecordKey, i: nat, j: RecordKey)
    requires Filed(m) && UniqueIds(m) && At(m, k, i) && m[k][i].id > 0 && j in m && j != k
    ensures Without(m[j], m[k][i].id) == m[j] != []
  {
    forall l | 0 <= l < |m[j]| ensures m[j][l].id != m[k][i].id { assert At(m, j, l); }
    WithoutKeeps(m[j], m[k][i].id);
  }

  lemma PurgeCuts(m: Rrsets, k: RecordKey, i: nat)
    requires Filed(m) && UniqueIds(m) && At(m, k, i) && m[k][i].id > 0
    ensures PurgeZone(m, m[k][i].id) == CutZone(m, k, i)
  {
    var id := m[k][i].id;
    forall j | j in m && j != k ensures Without(m[j], id) == m[j] != [] {
      UniqueSpares(m, k, i, j);
    }
    UniqueWithout(m, k, i);
    PurgeIsCut(m, k, i, id);
  }

  lemma PurgeIsCut(m: Rrsets, k: RecordKey, i: nat, id: int)
    requires At(m, k, i) && Without(m[k], id) == RemoveAt(m[k], i)
    requires forall j :: j in m && j != k ==> Without(m[j], id) == m[j] != []
    ensures PurgeZone(m, id) == CutZone(m, k, i)
  {
  }

  lemma PurgeAbsent(m: Rrsets, id: int)
    requires Filed(m) && !HasId(m, id)
    ensures PurgeZone(m, id) == m
  {
    forall j | j in m ensures j in PurgeZone(m, id) && PurgeZone(m, id)[j] == m[j] {
      PurgeSpares(m, j, id);
    }
  }

  /** On a zone whose positive ids are unique, dropping is deterministic: it is the purge. */
  lemma DropIsPurge(m: Rrsets, id: int, m': Rrsets)
    requires Filed(m) && UniqueIds(m) && id > 0 && Drops(m, id, m')
    ensures m' == PurgeZone(m, id)
  {
    if HasId(m, id) {
      var k, i :| At(m, k, i) && i == IndexOfId(m[k], id) && m' == CutZone(m, k, i);
      PurgeCuts(m, k, i);
    } else {
      PurgeAbsent(m, id);
    }
  }

  lemma DropsInIsPurge(z: Zones, apex: string, id: int, z': Zones)
    requires Good(z) && id > 0 && DropsIn(z, apex, id, z')
    ensures z' == Purge(z, apex, id)
  {
    if apex in z {
      assert GoodZone(z[apex].rrsets);
      DropIsPurge(z[apex].rrsets, id, z'[apex].rrsets);
    }
  }

  // ---- the writes on the abstract state ----

  lemma PutGood(z: Zones, apex: string, rec: Record)
    requires Good(z) && rec.id > 0 && KeyStable(ZoneOf(z, apex).rrsets, rec)
    ensures Good(Put(z, apex, rec))
  {
    var m := ZoneOf(z, apex).rrsets;
    assert GoodZone(m);
    PutKeepsFiled(m, rec);
    PutKeepsUnique(m, rec);
    var m' := PutZone(m, rec);
    forall k, i | At(m', k, i) ensures m'[k][i].id > 0 {
      if m'[k][i] != rec { assert At(m, k, i); }
    }
  }

  /** A zone after a write holds the new record and exactly the old ones with another id. */
  lemma PutInZone(m: Rrsets, rec: Record, r: Record)
    requires UniqueIds(m) && rec.id > 0 && KeyStable(m, rec)
    ensures InZone(PutZone(m, rec), r) <==> r == rec || (InZone(m, r) && r.id != rec.id)
  {
    var k := rec.Key();
    var rs := RrsetOf(m, k);
    var m' := PutZone(m, rec);
    var p := if IndexOfId(rs, rec.id) < |rs| then IndexOfId(rs, rec.id) else |rs|;
    assert At(m', k, p) && m'[k][p] == rec;
    if InZone(m, r) && r.id != rec.id {
      var j, l :| At(m, j, l) && m[j][l] == r;
      assert At(m', j, l) && m'[j][l] == r;
    }
    if InZone(m', r) && r != rec {
      var j, l :| At(m', j, l) && m'[j][l] == r;
      assert At(m, j, l) && m[j][l] == r;
      if r.id == rec.id {
        assert false;
      }
    }
  }

  /** A zone after a purge holds exactly the old records with another id. */
  lemma PurgeInZone(m: Rrsets, id: int, r: Record)
    ensures InZone(PurgeZone(m, id), r) <==> InZone(m, r) && r.id != id
  {
    var m' := PurgeZone(m, id);
    if InZone(m', r) {
      var j, l :| At(m', j, l) && m'[j][l] == r;
      assert r in Without(m[j], id);
      var i :| 0 <= i < |m[j]| && m[j][i] == r;
      assert At(m, j, i);
    }
    if InZone(m, r) && r.id != id {
      var j, l :| At(m, j, l) && m[j][l] == r;
      assert r in Without(m[j], id);
      var i :| 0 <= i < |m'[j]| && m'[j][i] == r;
      assert At(m', j, i);
    }
  }

  lemma CutKeepsPositive(m: Rrsets, k: RecordKey, i: nat)
    requires AllPositive(m) && At(m, k, i)
    ensures AllPositive(CutZone(m, k, i))
  {
    var m' := CutZone(m, k, i);
    forall j, l | At(m', j, l) ensures m'[j][l].id > 0 {
      assert m'[j][l] == m[j][if j == k && l >= i then l + 1 else l];
      assert At(m, j, if j == k && l >= i then l + 1 else l);
    }
  }

  lemma PurgeKeepsGood(m: Rrsets, id: int)
    requires GoodZone(m) && id > 0
    ensures GoodZone(PurgeZone(m, id))
  {
    if HasId(m, id) {
      var k, i :| At(m, k, i) && m[k][i].id == id;
      PurgeCuts(m, k, i);
      CutKeepsFiled(m, k, i);
      CutKeepsUnique(m, k, i);
      CutKeepsPositive(m, k, i);
    } else {
      PurgeAbsent(m, id);
    }
  }

  /** The refinement: on a good store, writing one record replaces the pair of that apex and id, and nothing else. */
  lemma PutHas(z: Zones, apex: string, rec: Record, a: string, r: Record)
    requires Good(z) && rec.id > 0 && KeyStable(ZoneOf(z, apex).rrsets, rec)
    ensures Has(Put(z, apex, rec), a, r) <==>
            (a == apex && r == rec) || (Has(z, a, r) && !(a == apex && r.id == rec.id))
  {
    assert GoodZone(ZoneOf(z, apex).rrsets);
    if a == apex {
      PutInZone(ZoneOf(z, apex).rrsets, rec, r);
    }
  }

  lemma PurgeHas(z: Zones, apex: string, id: int, a: string, r: Record)
    ensures Has(Purge(z, apex, id), a, r) <==> Has(z, a, r) && !(a == apex && r.id == id)
  {
    if a == apex && apex in z {
      PurgeInZone(z[apex].rrsets, id, r);
    }
  }

  lemma RemoveHas(z: Zones, apex: string, a: string, r: Record)
    ensures Has(Remove(z, apex), a, r) <==> Has(z, a, r) && a != apex
  {
  }

  lemma PurgeGood(z: Zones, apex: string, id: int)
    requires Good(z) && id > 0
    ensures Good(Purge(z, apex, id))
  {
    if apex in z { PurgeKeepsGood(z[apex].rrsets, id); }
  }

  // ---- writes and look-ups ----

  /** The rrset is the one filed in the closest zone under exactly this name and type, or nothing. */
  ghost predicate IsRrset(z: Zones, name: string, qtype: nat, rs: seq<Record>) {
    && (Uncovered(z.Keys, name) ==> rs == [])
    && forall a :: a in z && ClosestApex(z.Keys, name, a) ==>
         var m := z[a].rrsets; rs == if RecordKey(name, qtype) in m then m[RecordKey(name, qtype)] else []
  }

  /** A look-up gives that rrset and no other. */
  lemma LookupExactly(z: Zones, name: string, qtype: nat, rs: seq<Record>)
    ensures IsRrset(z, name, qtype, rs) <==> rs == LookupIn(z, name, qtype)
  {
    FindApexIsClosest(z.Keys, name);
    forall a | a in z && ClosestApex(z.Keys, name, a) ensures FindApex(z.Keys, name) == Some(a) {
      FindApexExact(z.Keys, name, a);
    }
  }

  /** On a filed store every record found has the name and the type asked for. */
  lemma LookupFiled(z: Zones, name: string, qtype: nat, r: Record)
    requires (forall a :: a in z ==> Filed(z[a].rrsets)) && r in LookupIn(z, name, qtype)
    ensures r.name == name && r.rtype == qtype
  {
    var a := FindApex(z.Keys, name).value;
    var m, k := z[a].rrsets, RecordKey(name, qtype);
    var i :| 0 <= i < |m[k]| && m[k][i] == r;
    assert At(m, k, i);
  }

  /**
   A written record is found at its own key exactly when the written apex is the closest one to its name; otherwise the
   look-up does not notice the write at all.
   */
  lemma PutThenLookup(z: Zones, apex: string, rec: Record)
    ensures var z' := Put(z, apex, rec);
      if ClosestApex(z.Keys + {apex}, rec.name, apex)
      then rec in LookupIn(z', rec.name, rec.rtype)
      else LookupIn(z', rec.name, rec.rtype) == LookupIn(z, rec.name, rec.rtype)
  {
    var z' := Put(z, apex, rec);
    assert z'.Keys == z.Keys + {apex};
    FindApexExact(z'.Keys, rec.name, apex);
    FindApexAdd(z.Keys, apex, rec.name);
    var rs := RrsetOf(ZoneOf(z, apex).rrsets, rec.Key());
    var i := IndexOfId(rs, rec.id);
    assert PutRrset(rs, rec)[if rec.id > 0 && i < |rs| then i else |rs|] == rec;
  }

  /**
   Two stores with the same apexes, the same SOAs, the same rrset keys and the same records, up to order within an
   rrset.
   */
  ghost predicate SameUpToOrder(y: Zones, z: Zones) {
    && y.Keys == z.Keys
    && forall a :: a in y ==> y[a].soa == z[a].soa && SameZone(y[a].rrsets, z[a].rrsets)
  }

  ghost predicate SameZone(m: Rrsets, n: Rrsets) {
    m.Keys == n.Keys && forall k :: k in m ==> multiset(m[k]) == multiset(n[k])
  }

  lemma {:induction false} DistinctMultiset(rs: seq<Record>, r: Record)
    requires forall i, j :: 0 <= i < j < |rs| ==> rs[i] != rs[j]
    ensures multiset(rs)[r] == if r in rs then 1 else 0
  {
    if rs != [] {
      DistinctMultiset(rs[1..], r);
      assert rs == [rs[0]] + rs[1..];
    }
  }

  lemma GoodRrsetMember(m: Rrsets, k: RecordKey, r: Record)
    requires GoodZone(m)
    ensures k in m && r in m[k] <==> InZone(m, r) && r.Key() == k
  {
  }

  lemma GoodRrsetCount(m: Rrsets, k: RecordKey, r: Record)
    requires GoodZone(m) && k in m
    ensures multiset(m[k])[r] == if InZone(m, r) && r.Key() == k then 1 else 0
  {
    forall i, j | 0 <= i < j < |m[k]| ensures m[k][i] != m[k][j] {
      assert At(m, k, i) && At(m, k, j);
    }
    DistinctMultiset(m[k], r);
    GoodRrsetMember(m, k, r);
  }

  lemma GoodRrsetKey(m: Rrsets, k: RecordKey)
    requires GoodZone(m)
    ensures k in m <==> exists r :: InZone(m, r) && r.Key() == k
  {
    if k in m { assert At(m, k, 0); }
  }

  /** On good zones the set of records determines the zone up to order within an rrset. */
  lemma SameRecordsSameZone(m: Rrsets, n: Rrsets)
    requires GoodZone(m) && GoodZone(n)
    requires forall r :: InZone(m, r) <==> InZone(n, r)
    ensures SameZone(m, n)
  {
    forall k ensures k in m <==> k in n {
      GoodRrsetKey(m, k);
      GoodRrsetKey(n, k);
    }
    forall k | k in m ensures multiset(m[k]) == multiset(n[k]) {
      forall r ensures multiset(m[k])[r] == multiset(n[k])[r] {
        GoodRrsetCount(m, k, r);
        GoodRrsetCount(n, k, r);
      }
    }
  }
}
