/** How one query is answered from a store: response code, answer section and authority section. */
module Query {
  import opened Records
  import opened Names
  import opened ZoneSpec
  import opened ZoneStore
  import opened Weights

  datatype Rcode = NoError | NxDomain | Refused

  const TYPE_HINFO: nat := 13
  const TYPE_ANY: nat := 255

  class Msg {
    var rcode: Rcode
    var answer: seq<RR>
    var ns: seq<RR>

    constructor ()
      ensures rcode == NoError && answer == [] && ns == []
    {
      rcode, answer, ns := NoError, [], [];
    }
  }

  /** Supplies weights for (name, type). */
  type Provider = (string, nat) -> Answer

  // ---- the classification, stated on the store's value ----

  /** The closest zone has records at exactly this name and type. */
  ghost predicate Populated(z: Zones, name: string, qtype: nat) {
    exists a :: a in z && ClosestApex(z.Keys, name, a)
                && RecordKey(name, qtype) in z[a].rrsets && z[a].rrsets[RecordKey(name, qtype)] != []
  }

  /** That is when a look-up finds something. */
  lemma PopulatedLookup(z: Zones, name: string, qtype: nat)
    ensures Populated(z, name, qtype) <==> LookupIn(z, name, qtype) != []
  {
    LookupExactly(z, name, qtype, LookupIn(z, name, qtype));
    FindApexIsClosest(z.Keys, name);
  }

  /** The name is an alias and the query is not for the alias itself. */
  ghost predicate Aliased(z: Zones, name: string, qtype: nat) {
    qtype != TYPE_CNAME && Populated(z, name, TYPE_CNAME)
  }

  /** The name exists, but nothing can be said for this type. */
  ghost predicate NoData(z: Zones, name: string, qtype: nat) {
    NameKnown(z, name) && !Populated(z, name, qtype) && !Aliased(z, name, qtype)
  }

  ghost predicate NoName(z: Zones, name: string) {
    !Uncovered(z.Keys, name) && !NameKnown(z, name)
  }

  lemma PopulatedIsKnown(z: Zones, name: string, qtype: nat)
    requires Populated(z, name, qtype)
    ensures NameKnown(z, name) && !Uncovered(z.Keys, name)
  {
    var a :| a in z && ClosestApex(z.Keys, name, a) && RecordKey(name, qtype) in z[a].rrsets;
    FindApexExact(z.Keys, name, a);
    FindApexIsClosest(z.Keys, name);
  }

  lemma KnownIsCovered(z: Zones, name: string)
    requires NameKnown(z, name)
    ensures !Uncovered(z.Keys, name)
  {
  }

  /**
   Total and exclusive: every query falls in exactly one of refused, no such name, no data, direct answer and alias.
   */
  lemma ResponsesPartition(z: Zones, name: string, qtype: nat)
    ensures var refused, noName, noData := Uncovered(z.Keys, name), NoName(z, name), NoData(z, name, qtype);
      var direct, aliased := Populated(z, name, qtype), !Populated(z, name, qtype) && Aliased(z, name, qtype);
      && (refused || noName || noData || direct || aliased)
      && !(refused && (noName || noData || direct || aliased))
      && !(noName && (noData || direct || aliased))
      && !(noData && (direct || aliased)) && !(direct && aliased)
  {
    if Populated(z, name, qtype) { PopulatedIsKnown(z, name, qtype); }
    if Aliased(z, name, qtype) { PopulatedIsKnown(z, name, TYPE_CNAME); }
    if NameKnown(z, name) { KnownIsCovered(z, name); }
  }

  /** In a store without empty rrsets, a name is known exactly when some type has records there. */
  lemma KnownMeansPopulated(z: Zones, name: string)
    requires forall a :: a in z ==> Filed(z[a].rrsets)
    ensures NameKnown(z, name) <==> exists t: nat :: Populated(z, name, t)
  {
    if NameKnown(z, name) {
      var a, k :| a in z && ClosestApex(z.Keys, name, a) && k in z[a].rrsets && k.name == name;
      assert k == RecordKey(name, k.qtype);
      assert Populated(z, name, k.qtype);
    }
    if t: nat :| Populated(z, name, t) { PopulatedIsKnown(z, name, t); }
  }

  // ---- what goes into the sections ----

  function Parsed(r: Record): seq<RR> {
    if r.rr.Some? then [r.rr.value] else []
  }

  function ParsedAll(rs: seq<Record>): seq<RR> {
    if rs == [] then [] else ParsedAll(rs[..|rs| - 1]) + Parsed(rs[|rs| - 1])
  }

  /** The zone's own SOA, or one made up for its name. */
  function SyntheticSoa(name: string, soa: Option<RR>): (rr: RR)
    ensures soa == Some(rr) || (soa.None? && rr.owner == name && rr.rtype == TYPE_SOA && rr.ttl == 300)
  {
    if soa.Some? then soa.value
    else RR(name, TYPE_SOA, 300, "ns1." + name + " hostmaster." + name + " 1 3600 900 604800 300")
  }

  /** The alias target, empty when the record's RR is not a CNAME. */
  function Target(cn: Record): string {
    if cn.rr.Some? && cn.rr.value.rtype == TYPE_CNAME then cn.rr.value.rdata else ""
  }

  /** rand.Intn(total) for an arbitrary raw draw. */
  function Draw(raw: nat, rs: seq<Record>, dyn: Answer): (n: int)
    requires rs != []
    ensures 0 <= n < Sum(EffectiveAll(rs, dyn))
  {
    SumPositive(rs, dyn);
    raw % Sum(EffectiveAll(rs, dyn))
  }

  lemma SumPositive(rs: seq<Record>, dyn: Answer)
    requires rs != []
    ensures Sum(EffectiveAll(rs, dyn)) >= 1
  {
    var ws := EffectiveAll(rs, dyn);
    SumMonotone(ws, 0, |ws|);
    assert ws[..|ws|] == ws;
  }

  /** Address rrsets are reduced to the one record the draw selects; every other rrset is given in full and in order. */
  function AnswerOf(rs: seq<Record>, dyn: Answer, qtype: nat, raw: nat): seq<RR>
    requires rs != []
  {
    if qtype == TYPE_A || qtype == TYPE_AAAA
    then Parsed(rs[if |rs| == 1 then 0 else Chosen(EffectiveAll(rs, dyn), Draw(raw, rs, dyn))])
    else ParsedAll(rs)
  }

  /** The alias record, then what the store has for its target. */
  function AliasAnswer(z: Zones, weights: Provider, cn: Record, qtype: nat, raw: nat): seq<RR> {
    var target := Target(cn);
    Parsed(cn) +
    if target == "" || LookupIn(z, target, qtype) == [] then []
    else AnswerOf(LookupIn(z, target, qtype), weights(target, qtype), qtype, raw)
  }

  // ---- the answer section, told from the store alone ----

  /** The record's RR, when it parsed. */
  ghost predicate IsRrOf(r: Record, ans: seq<RR>) {
    (r.rr.Some? ==> ans == [r.rr.value]) && (r.rr.None? ==> ans == [])
  }

  /** The positions of the records that parsed, in order, and their RRs. */
  ghost predicate ParsedPlaces(rs: seq<Record>, places: seq<nat>, ans: seq<RR>) {
    && |ans| == |places|
    && (forall j, k :: 0 <= j < k < |places| ==> places[j] < places[k])
    && (forall j :: 0 <= j < |places| ==> places[j] < |rs| && rs[places[j]].rr == Some(ans[j]))
    && (forall i :: 0 <= i < |rs| && rs[i].rr.Some? ==> i in places)
  }

  /** The RRs of the records that parsed, each once and in the order of the rrset. */
  ghost predicate IsFilter(rs: seq<Record>, ans: seq<RR>) {
    exists places :: ParsedPlaces(rs, places, ans)
  }

  lemma {:induction false} ParsedIsFilter(rs: seq<Record>)
    ensures IsFilter(rs, ParsedAll(rs))
    decreases |rs|
  {
    if rs == [] {
      assert ParsedPlaces(rs, [], []);
    } else {
      var front, last := rs[..|rs| - 1], rs[|rs| - 1];
      ParsedIsFilter(front);
      FilterSnoc(front, last, ParsedAll(front));
      assert rs == front + [last];
    }
  }

  lemma FilterSnoc(front: seq<Record>, last: Record, ans: seq<RR>)
    requires IsFilter(front, ans)
    ensures IsFilter(front + [last], ans + Parsed(last))
  {
    var places :| ParsedPlaces(front, places, ans);
    if last.rr.Some? {
      PlacesAdd(front, last, places, ans);
    } else {
      PlacesKeep(front, last, places, ans);
      assert ans + Parsed(last) == ans;
    }
  }

  lemma PlacesKeep(front: seq<Record>, last: Record, places: seq<nat>, ans: seq<RR>)
    requires ParsedPlaces(front, places, ans) && last.rr.None?
    ensures ParsedPlaces(front + [last], places, ans)
  {
    var rs := front + [last];
    forall i | 0 <= i < |rs| && rs[i].rr.Some? ensures i in places { assert rs[i] == front[i]; }
  }

  lemma PlacesAdd(front: seq<Record>, last: Record, places: seq<nat>, ans: seq<RR>)
    requires ParsedPlaces(front, places, ans) && last.rr.Some?
    ensures ParsedPlaces(front + [last], places + [|front|], ans + [last.rr.value])
  {
    var rs, more, all := front + [last], places + [|front|], ans + [last.rr.value];
    forall i | 0 <= i < |rs| && rs[i].rr.Some? ensures i in more {
      if i < |front| {
        assert rs[i] == front[i] && i in places;
        var j :| 0 <= j < |places| && places[j] == i;
        assert more[j] == i;
      } else {
        assert more[|places|] == i;
      }
    }
    forall j | 0 <= j < |more| ensures more[j] < |rs| && rs[more[j]].rr == Some(all[j]) {
      if j < |places| { assert more[j] == places[j] && rs[places[j]] == front[places[j]]; }
    }
  }

  /**
   The answer from an rrset. For an address type it is the RR of one record, and for a draw within the total weight
   that of the record whose slice the draw falls in; for any other type it is every RR that parsed, in order.
   */
  ghost predicate DirectOk(rs: seq<Record>, dyn: Answer, qtype: nat, raw: nat, ans: seq<RR>) {
    if qtype == TYPE_A || qtype == TYPE_AAAA
    then
      && (exists i :: 0 <= i < |rs| && IsRrOf(rs[i], ans))
      && (|rs| != 1 ==> forall ws, i :: IsWeights(rs, dyn, ws) && Selects(ws, raw, i) && i < |rs| ==>
          IsRrOf(rs[i], ans))
    else IsFilter(rs, ans)
  }

  lemma DrawBelow(raw: nat, rs: seq<Record>, dyn: Answer)
    requires rs != [] && raw < Sum(EffectiveAll(rs, dyn))
    ensures Draw(raw, rs, dyn) == raw
  {
  }

  lemma DrawInRange(rs: seq<Record>, dyn: Answer, ws: seq<int>, raw: nat, i: int)
    requires rs != [] && IsWeights(rs, dyn, ws) && Selects(ws, raw, i)
    ensures raw < Sum(EffectiveAll(rs, dyn)) && Draw(raw, rs, dyn) == raw && Chosen(EffectiveAll(rs, dyn), raw) == i
  {
    EffectiveExactly(rs, dyn, ws);
    EffectivePositive(rs, dyn);
    SelectsInRange(ws, raw, i);
    DrawBelow(raw, rs, dyn);
    SelectsUnique(ws, raw, i, Chosen(ws, raw));
  }

  lemma AnswerIsDirect(rs: seq<Record>, dyn: Answer, qtype: nat, raw: nat)
    requires rs != []
    ensures DirectOk(rs, dyn, qtype, raw, AnswerOf(rs, dyn, qtype, raw))
  {
    if qtype == TYPE_A || qtype == TYPE_AAAA {
      var i := if |rs| == 1 then 0 else Chosen(EffectiveAll(rs, dyn), Draw(raw, rs, dyn));
      assert IsRrOf(rs[i], AnswerOf(rs, dyn, qtype, raw));
      forall ws, j | |rs| != 1 && IsWeights(rs, dyn, ws) && Selects(ws, raw, j) && j < |rs|
        ensures IsRrOf(rs[j], AnswerOf(rs, dyn, qtype, raw))
      {
        DrawInRange(rs, dyn, ws, raw, j);
      }
    } else {
      ParsedIsFilter(rs);
    }
  }

  /** Every record of an address rrset is the answer to some draw. */
  lemma EveryRecordDrawn(rs: seq<Record>, dyn: Answer, qtype: nat, i: nat)
    requires i < |rs| && (qtype == TYPE_A || qtype == TYPE_AAAA)
    ensures exists raw: nat :: IsRrOf(rs[i], AnswerOf(rs, dyn, qtype, raw))
  {
    if |rs| == 1 {
      assert IsRrOf(rs[i], AnswerOf(rs, dyn, qtype, 0));
    } else {
      var ws := EffectiveAll(rs, dyn);
      EffectivePositive(rs, dyn);
      SumMonotone(ws, 0, i);
      EffectiveExactly(rs, dyn, ws);
      var raw: nat := Sum(ws[..i]);
      assert Selects(ws, raw, i);
      DrawInRange(rs, dyn, ws, raw, i);
      assert IsRrOf(rs[i], AnswerOf(rs, dyn, qtype, raw));
    }
  }

  /** What follows an alias: what a direct query for its target gets, or nothing. */
  ghost predicate TailOk(z: Zones, weights: Provider, cn: Record, qtype: nat, raw: nat, tail: seq<RR>) {
    if cn.rr.Some? && cn.rr.value.rtype == TYPE_CNAME && cn.rr.value.rdata != ""
    then
      var target := cn.rr.value.rdata;
      forall ts :: IsRrset(z, target, qtype, ts) ==>
        if ts == [] then tail == [] else DirectOk(ts, weights(target, qtype), qtype, raw, tail)
    else tail == []
  }

  /** The alias's own RR, when it parsed, and then its tail. */
  ghost predicate AliasOk(z: Zones, weights: Provider, cn: Record, qtype: nat, raw: nat, ans: seq<RR>) {
    exists first, tail :: ans == first + tail && IsRrOf(cn, first) && TailOk(z, weights, cn, qtype, raw, tail)
  }

  lemma AliasIsOk(z: Zones, weights: Provider, cn: Record, qtype: nat, raw: nat)
    ensures AliasOk(z, weights, cn, qtype, raw, AliasAnswer(z, weights, cn, qtype, raw))
  {
    var target := Target(cn);
    var ts := LookupIn(z, target, qtype);
    var tail := if target == "" || ts == [] then [] else AnswerOf(ts, weights(target, qtype), qtype, raw);
    forall us | IsRrset(z, target, qtype, us) ensures us == ts { LookupExactly(z, target, qtype, us); }
    if ts != [] { AnswerIsDirect(ts, weights(target, qtype), qtype, raw); }
    assert IsRrOf(cn, Parsed(cn)) && TailOk(z, weights, cn, qtype, raw, tail);
    assert AliasAnswer(z, weights, cn, qtype, raw) == Parsed(cn) + tail;
  }

  /** The answer section: from the rrset asked for, else from the first alias at the name, else nothing. */
  ghost predicate AnswerOk(z: Zones, weights: Provider, name: string, qtype: nat, raw: nat, ans: seq<RR>) {
    forall rs, cs :: IsRrset(z, name, qtype, rs) && IsRrset(z, name, TYPE_CNAME, cs) ==>
      if rs != [] then DirectOk(rs, weights(name, qtype), qtype, raw, ans)
      else if qtype != TYPE_CNAME && cs != [] then AliasOk(z, weights, cs[0], qtype, raw, ans)
      else ans == []
  }

  lemma ExpectedIsOk(z: Zones, weights: Provider, name: string, qtype: nat, raw: nat)
    ensures AnswerOk(z, weights, name, qtype, raw, ExpectedAnswer(z, weights, name, qtype, raw))
  {
    var rs, cs := LookupIn(z, name, qtype), LookupIn(z, name, TYPE_CNAME);
    forall us | IsRrset(z, name, qtype, us) ensures us == rs { LookupExactly(z, name, qtype, us); }
    forall us | IsRrset(z, name, TYPE_CNAME, us) ensures us == cs { LookupExactly(z, name, TYPE_CNAME, us); }
    if rs != [] {
      AnswerIsDirect(rs, weights(name, qtype), qtype, raw);
    } else if cs != [] {
      AliasIsOk(z, weights, cs[0], qtype, raw);
    }
  }

  method AddAnswers(m: Msg, rs: seq<Record>, name: string, qtype: nat, weights: Provider, raw: nat)
    requires rs != []
    modifies m`answer
    ensures m.answer == old(m.answer) + AnswerOf(rs, weights(name, qtype), qtype, raw)
  {
    ghost var before := m.answer;
    if qtype == TYPE_A || qtype == TYPE_AAAA {
      var dyn := weights(name, qtype);
      var draw := Draw(raw, rs, dyn);
      var i := Pick(rs, dyn, draw);
      if |rs| != 1 {
        EffectivePositive(rs, dyn);
        SelectsUnique(EffectiveAll(rs, dyn), draw, i, Chosen(EffectiveAll(rs, dyn), draw));
      }
      if rs[i].rr.Some? {
        m.answer := m.answer + [rs[i].rr.value];
      }
    } else {
      for i := 0 to |rs|
        invariant m.answer == before + ParsedAll(rs[..i])
      {
        assert rs[..i + 1][..i] == rs[..i];
        if rs[i].rr.Some? {
          m.answer := m.answer + [rs[i].rr.value];
        }
      }
      assert rs[..|rs|] == rs;
    }
  }

  /** An rrset as found in the store: nil reads as empty. */
  method LookupRrset(store: RWMutexStore, name: string, qtype: nat) returns (rs: seq<Record>)
    ensures rs == LookupIn(store.Contents(), name, qtype)
  {
    var a := store.Lookup(name, qtype);
    if a == null {
      return [];
    }
    return a[..];
  }

  /** One hop: the alias record, then the target's rrset when the store has one. */
  method Chase(m: Msg, store: RWMutexStore, cn: Record, qtype: nat, weights: Provider, raw: nat, ghost z: Zones)
    requires m.answer == [] && z == store.Contents()
    modifies m`answer
    ensures m.answer == AliasAnswer(z, weights, cn, qtype, raw)
    ensures AliasOk(z, weights, cn, qtype, raw, m.answer)
  {
    if cn.rr.Some? {
      m.answer := m.answer + [cn.rr.value];
    }
    var target := Target(cn);
    if target != "" {
      var targeted := LookupRrset(store, target, qtype);
      if |targeted| > 0 {
        AddAnswers(m, targeted, target, qtype, weights, raw);
      }
    }
    AliasIsOk(z, weights, cn, qtype, raw);
  }

  /** The SOA of the closest zone. */
  ghost predicate SoaOfClosest(zones: map<string, Zone>, name: string, rr: RR) {
    exists a :: a in zones && ClosestApex(zones.Keys, name, a) && rr == SyntheticSoa(zones[a].name, zones[a].soa)
  }

  /** Nothing to answer with: not ours, no such name, or no data. */
  method Negative(m: Msg, store: RWMutexStore, name: string, ghost z: Zones)
    requires m.rcode == NoError && m.ns == [] && z == store.Contents()
    modifies m`rcode, m`ns
    ensures m.rcode == Refused <==> Uncovered(z.Keys, name)
    ensures m.rcode == NxDomain <==> NoName(z, name)
    ensures if m.rcode == Refused then m.ns == [] else |m.ns| == 1 && SoaOfClosest(old(store.zones.m), name, m.ns[0])
  {
    assert z.Keys == store.zones.m.Keys;
    var zone := store.LockedFindZone(name);
    if zone == null {
      m.rcode := Refused;
      return;
    }
    var known := store.NameExists(name);
    m.rcode := if known then NoError else NxDomain;
    m.ns := m.ns + [SyntheticSoa(zone.name, zone.soa)];
  }

  /** The answer section a query must get. */
  function ExpectedAnswer(z: Zones, weights: Provider, name: string, qtype: nat, raw: nat): seq<RR> {
    var rs, cnames := LookupIn(z, name, qtype), LookupIn(z, name, TYPE_CNAME);
    if rs != [] then AnswerOf(rs, weights(name, qtype), qtype, raw)
    else if qtype != TYPE_CNAME && cnames != [] then AliasAnswer(z, weights, cnames[0], qtype, raw)
    else []
  }

  /**
   What a response must be, over a fixed store. Refused exactly when no suffix of the name is an apex; NXDOMAIN exactly
   when the closest zone has nothing at the name; an SOA is in authority exactly for NXDOMAIN and NODATA.
   */
  ghost predicate Correct(z: Zones, name: string, qtype: nat, rcode: Rcode, soas: nat) {
    && (rcode == Refused <==> Uncovered(z.Keys, name))
    && (rcode == NxDomain <==> NoName(z, name))
    && soas == if NoName(z, name) || NoData(z, name, qtype) then 1 else 0
  }

  lemma PositiveCorrect(z: Zones, name: string, qtype: nat)
    requires Populated(z, name, qtype) || Aliased(z, name, qtype)
    ensures Correct(z, name, qtype, NoError, 0)
  {
    ResponsesPartition(z, name, qtype);
  }

  lemma NegativeCorrect(z: Zones, name: string, qtype: nat, rcode: Rcode, soas: nat)
    requires !Populated(z, name, qtype) && !Aliased(z, name, qtype)
    requires rcode == Refused <==> Uncovered(z.Keys, name)
    requires rcode == NxDomain <==> NoName(z, name)
    requires soas == if rcode == Refused then 0 else 1
    ensures Correct(z, name, qtype, rcode, soas)
  {
  }

  /** The alias at the name and its target; false when there is no alias. */
  method TryAlias(m: Msg, store: RWMutexStore, name: string, qtype: nat, weights: Provider, raw: nat, ghost z: Zones)
    returns (done: bool)
    requires m.answer == [] && z == store.Contents() && qtype != TYPE_CNAME
    modifies m`answer
    ensures done <==> LookupIn(z, name, TYPE_CNAME) != []
    ensures m.answer == if done then AliasAnswer(z, weights, LookupIn(z, name, TYPE_CNAME)[0], qtype, raw) else []
  {
    var cnames := LookupRrset(store, name, TYPE_CNAME);
    if |cnames| == 0 {
      return false;
    }
    Chase(m, store, cnames[0], qtype, weights, raw, z);
    return true;
  }

  /** The direct rrset, else the alias and its target; false when there is neither. */
  method TryAnswer(m: Msg, store: RWMutexStore, name: string, qtype: nat, weights: Provider, raw: nat, ghost z: Zones)
    returns (done: bool)
    requires m.answer == [] && z == store.Contents()
    modifies m`answer
    ensures done <==> LookupIn(z, name, qtype) != [] || (qtype != TYPE_CNAME && LookupIn(z, name, TYPE_CNAME) != [])
    ensures m.answer == ExpectedAnswer(z, weights, name, qtype, raw)
  {
    var records := LookupRrset(store, name, qtype);
    if |records| > 0 {
      AddAnswers(m, records, name, qtype, weights, raw);
      return true;
    }
    if qtype == TYPE_CNAME {
      return false;
    }
    done := TryAlias(m, store, name, qtype, weights, raw, z);
  }

  /**
   The whole decision; the SOA, when there is one, is that of the closest zone. A query for every type at once says
   nothing of the store: it is answered the same whether or not the name is served here.
   */
  method HandleQuery(m: Msg, store: RWMutexStore, name: string, qtype: nat, weights: Provider, raw: nat)
    requires m.rcode == NoError && m.answer == [] && m.ns == []
    modifies m
    ensures qtype == TYPE_ANY ==> m.rcode == NoError && m.ns == [] && m.answer == [RR(name, TYPE_HINFO, 60, "RFC8482")]
    ensures qtype != TYPE_ANY ==> Correct(old(store.Contents()), name, qtype, m.rcode, |m.ns|)
    ensures m.ns != [] ==> SoaOfClosest(old(store.zones.m), name, m.ns[0])
    ensures qtype != TYPE_ANY ==> AnswerOk(old(store.Contents()), weights, name, qtype, raw, m.answer)
  {
    if qtype == TYPE_ANY {
      m.answer := m.answer + [RR(name, TYPE_HINFO, 60, "RFC8482")];
      return;
    }
    ghost var z := store.Contents();
    PopulatedLookup(z, name, qtype);
    PopulatedLookup(z, name, TYPE_CNAME);
    ExpectedIsOk(z, weights, name, qtype, raw);
    var done := TryAnswer(m, store, name, qtype, weights, raw, z);
    if done {
      PositiveCorrect(z, name, qtype);
      return;
    }
    Negative(m, store, name, z);
    NegativeCorrect(z, name, qtype, m.rcode, |m.ns|);
  }
}
