/**
 Changes pulled from the tables and their application to a store, one at a time. The queries have no ORDER BY and a
 failed pull is replayed, so the result must depend only on the set of changes.
 */
module Changes {
  import opened Records
  import opened ZoneSpec

  datatype Change =
    | ZoneGone(apex: string)
    | Tombstone(apex: string, id: int)
    | Upsert(apex: string, rec: Record)

  function ApplyOne(z: Zones, c: Change): Zones {
    match c
    case ZoneGone(a) => Remove(z, a)
    case Tombstone(a, id) => Purge(z, a, id)
    case Upsert(a, rec) => Put(z, a, rec)
  }

  function ApplyAll(z: Zones, cs: seq<Change>): Zones {
    if cs == [] then z else ApplyOne(ApplyAll(z, cs[..|cs| - 1]), cs[|cs| - 1])
  }

  function Elements(cs: seq<Change>): set<Change> {
    set c | c in cs
  }

  /** The change is about this record of this zone. */
  predicate About(c: Change, a: string, id: int) {
    match c
    case ZoneGone(_) => false
    case Tombstone(b, i) => b == a && i == id
    case Upsert(b, rec) => b == a && rec.id == id
  }

  /**
   What one pull guarantees: ids are positive, an id occurs in one row version only, and no row of a removed zone is
   returned.
   */
  ghost predicate OnePull(s: set<Change>) {
    && (forall c :: c in s && c.Tombstone? ==> c.id > 0)
    && (forall c :: c in s && c.Upsert? ==> c.rec.id > 0)
    && (forall c, d, a, id :: c in s && d in s && About(c, a, id) && About(d, a, id) ==> c == d)
    && (forall c, d :: c in s && d in s && c.ZoneGone? && !d.ZoneGone? ==> c.apex != d.apex)
  }

  /** An id keeps its name and type: what is in memory and what is pulled for one id share a key. */
  ghost predicate KeysAgree(z: Zones, s: set<Change>) {
    forall c, r :: c in s && c.Upsert? && Has(z, c.apex, r) && r.id == c.rec.id ==> r.Key() == c.rec.Key()
  }

  ghost predicate Orderly(z: Zones, s: set<Change>) {
    Good(z) && OnePull(s) && KeysAgree(z, s)
  }

  ghost predicate Touched(s: set<Change>, a: string, id: int) {
    exists c :: c in s && About(c, a, id)
  }

  /** What a zone holds once all changes of `s` are in, whatever their order: stated on sets alone. */
  ghost predicate Settled(z: Zones, s: set<Change>, a: string, r: Record) {
    Upsert(a, r) in s || (Has(z, a, r) && ZoneGone(a) !in s && !Touched(s, a, r.id))
  }

  lemma KeyStableFromHas(z: Zones, apex: string, rec: Record)
    requires Good(z)
    requires forall r :: Has(z, apex, r) && r.id == rec.id ==> r.Key() == rec.Key()
    ensures KeyStable(ZoneOf(z, apex).rrsets, rec)
  {
  }

  /** One more change, on the abstract state. */
  lemma ApplyOneHas(z: Zones, c: Change)
    requires Good(z) && (c.Tombstone? ==> c.id > 0) && (c.Upsert? ==> c.rec.id > 0) && KeysAgree(z, {c})
    ensures Good(ApplyOne(z, c))
    ensures forall a, r :: Has(ApplyOne(z, c), a, r) <==>
              c == Upsert(a, r) || (Has(z, a, r) && c != ZoneGone(a) && !About(c, a, r.id))
  {
    match c
    case ZoneGone(b) =>
      forall a, r { RemoveHas(z, b, a, r); }
    case Tombstone(b, id) =>
      PurgeGood(z, b, id);
      forall a, r { PurgeHas(z, b, id, a, r); }
    case Upsert(b, rec) =>
      assert c in {c};
      KeyStableFromHas(z, b, rec);
      PutGood(z, b, rec);
      forall a, r { PutHas(z, b, rec, a, r); }
  }

  lemma ElementsSnoc(cs: seq<Change>)
    requires cs != []
    ensures Elements(cs) == Elements(cs[..|cs| - 1]) + {cs[|cs| - 1]}
  {
  }

  lemma OrderlySubset(z: Zones, s: set<Change>, t: set<Change>)
    requires Orderly(z, s) && t <= s
    ensures Orderly(z, t)
  {
  }

  /** Settling one more change of the same pull. */
  lemma SettledStep(z: Zones, s: set<Change>, c: Change, a: string, r: Record)
    requires OnePull(s + {c})
    ensures Settled(z, s + {c}, a, r) <==>
            c == Upsert(a, r) || (Settled(z, s, a, r) && c != ZoneGone(a) && !About(c, a, r.id))
  {
  }

  lemma SettledKeysAgree(z: Zones, s: set<Change>, z1: Zones, c: Change)
    requires OnePull(s + {c}) && KeysAgree(z, s + {c})
    requires forall a, r :: Has(z1, a, r) <==> Settled(z, s, a, r)
    ensures KeysAgree(z1, {c})
  {
    forall d, r | d in {c} && d.Upsert? && Has(z1, d.apex, r) && r.id == d.rec.id ensures r.Key() == d.rec.Key() {
      assert c in s + {c};
      if Upsert(d.apex, r) in s {
        assert Upsert(d.apex, r) in s + {c};
        assert About(Upsert(d.apex, r), d.apex, r.id) && About(c, d.apex, r.id);
      } else {
        assert Has(z, d.apex, r);
      }
    }
  }

  /** Applying the changes in sequence leaves exactly what the set of changes settles. */
  lemma {:induction false} ApplySettles(z: Zones, cs: seq<Change>)
    requires Orderly(z, Elements(cs))
    ensures Good(ApplyAll(z, cs))
    ensures forall a, r :: Has(ApplyAll(z, cs), a, r) <==> Settled(z, Elements(cs), a, r)
  {
    if cs != [] {
      var front, c := cs[..|cs| - 1], cs[|cs| - 1];
      ElementsSnoc(cs);
      OrderlySubset(z, Elements(cs), Elements(front));
      ApplySettles(z, front);
      var z1 := ApplyAll(z, front);
      SettledKeysAgree(z, Elements(front), z1, c);
      assert c in Elements(cs);
      ApplyOneHas(z1, c);
      forall a, r ensures Has(ApplyAll(z, cs), a, r) <==> Settled(z, Elements(cs), a, r) {
        SettledStep(z, Elements(front), c, a, r);
      }
    }
  }

  ghost predicate Gains(s: set<Change>, a: string) {
    exists c :: c in s && c.Upsert? && c.apex == a
  }

  /** Which zones exist afterwards, and with which SOA. */
  lemma {:induction false} ApplyZones(z: Zones, cs: seq<Change>, a: string)
    requires OnePull(Elements(cs))
    ensures a in ApplyAll(z, cs) <==> (a in z && ZoneGone(a) !in Elements(cs)) || Gains(Elements(cs), a)
    ensures a in ApplyAll(z, cs) ==>
              ApplyAll(z, cs)[a].soa == if a in z && ZoneGone(a) !in Elements(cs) then z[a].soa else None
  {
    if cs != [] {
      var front, c := cs[..|cs| - 1], cs[|cs| - 1];
      ElementsSnoc(cs);
      ApplyZones(z, front, a);
      assert c in Elements(cs);
      if d :| d in Elements(front) && d.Upsert? && d.apex == a {
        assert d in Elements(cs) && c != ZoneGone(a);
      }
      if c.Upsert? && c.apex == a {
        assert ZoneGone(a) !in Elements(cs);
      }
    }
  }

  /**
   Idempotent and independent of order: two sequences with the same elements lead to the same store, up to order within
   an rrset. A permutation, a repetition, and a failed prefix followed by a full replay are all instances.
   */
  lemma OrderIrrelevant(z: Zones, cs: seq<Change>, ds: seq<Change>)
    requires Orderly(z, Elements(cs)) && Elements(cs) == Elements(ds)
    ensures SameUpToOrder(ApplyAll(z, cs), ApplyAll(z, ds))
  {
    var y, w := ApplyAll(z, cs), ApplyAll(z, ds);
    ApplySettles(z, cs);
    ApplySettles(z, ds);
    forall a ensures a in y <==> a in w {
      ApplyZones(z, cs, a);
      ApplyZones(z, ds, a);
    }
    forall a | a in y ensures y[a].soa == w[a].soa && SameZone(y[a].rrsets, w[a].rrsets) {
      ApplyZones(z, cs, a);
      ApplyZones(z, ds, a);
      forall r ensures InZone(y[a].rrsets, r) <==> InZone(w[a].rrsets, r) {
        assert InZone(y[a].rrsets, r) <==> Has(y, a, r);
        assert InZone(w[a].rrsets, r) <==> Has(w, a, r);
      }
      SameRecordsSameZone(y[a].rrsets, w[a].rrsets);
    }
  }

  lemma {:induction false} ApplyAppend(z: Zones, cs: seq<Change>, ds: seq<Change>)
    ensures ApplyAll(z, cs + ds) == ApplyAll(ApplyAll(z, cs), ds)
  {
    if ds == [] {
      assert cs + ds == cs;
    } else {
      assert (cs + ds)[..|cs + ds| - 1] == cs + ds[..|ds| - 1];
      ApplyAppend(z, cs, ds[..|ds| - 1]);
    }
  }

  /** A pull that failed after any prefix, then replayed in full in any order, ends where an undisturbed pull ends. */
  lemma ReplayAfterFailure(z: Zones, cs: seq<Change>, k: nat, ds: seq<Change>)
    requires Orderly(z, Elements(cs)) && k <= |cs| && Elements(ds) == Elements(cs)
    ensures SameUpToOrder(ApplyAll(ApplyAll(z, cs[..k]), ds), ApplyAll(z, cs))
  {
    ApplyAppend(z, cs[..k], ds);
    assert Elements(cs[..k] + ds) == Elements(cs);
    OrderIrrelevant(z, cs[..k] + ds, cs);
  }
}
