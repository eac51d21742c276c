/** Traffic splitting: the weighted choice of one record, and the providers its weights come from. */
module Weights {
  import opened Records

  /** A provider's answer: nil, or a map from rdata value to weight. */
  type Answer = Option<map<string, int>>

  function AtLeastOne(w: int): int {
    if w <= 0 then 1 else w
  }

  /** The weight `pick` gives a record: the provider's when it has one, else the record's own, and at least 1. */
  function Effective(r: Record, dyn: Answer): int {
    AtLeastOne(if dyn.Some? && r.value in dyn.value then dyn.value[r.value] else r.weight)
  }

  function EffectiveAll(rs: seq<Record>, dyn: Answer): seq<int> {
    seq(|rs|, i requires 0 <= i < |rs| => Effective(rs[i], dyn))
  }

  function Sum(ws: seq<int>): int {
    if ws == [] then 0 else Sum(ws[..|ws| - 1]) + ws[|ws| - 1]
  }

  ghost predicate Positive(ws: seq<int>) {
    forall i :: 0 <= i < |ws| ==> ws[i] >= 1
  }

  /** Draw `n` falls in the slice of record `i`. */
  predicate Selects(ws: seq<int>, n: int, i: int) {
    0 <= i < |ws| && Sum(ws[..i]) <= n < Sum(ws[..i]) + ws[i]
  }

  lemma SumStep(ws: seq<int>, i: nat)
    requires i < |ws|
    ensures Sum(ws[..i + 1]) == Sum(ws[..i]) + ws[i]
  {
    assert ws[..i + 1][..i] == ws[..i];
  }

  /** The record a draw selects. */
  function Chosen(ws: seq<int>, n: int): (i: nat)
    requires 0 <= n < Sum(ws)
    ensures Selects(ws, n, i)
  {
    var front := ws[..|ws| - 1];
    if Sum(front) <= n then |ws| - 1
    else
      var i := Chosen(front, n);
      assert front[..i] == ws[..i];
      i
  }

  lemma {:induction false} SumMonotone(ws: seq<int>, i: nat, j: nat)
    requires Positive(ws) && i <= j <= |ws|
    ensures Sum(ws[..j]) - Sum(ws[..i]) >= j - i
    decreases j
  {
    if i < j {
      SumMonotone(ws, i, j - 1);
      SumStep(ws, j - 1);
    }
  }

  /** The provider answers and names the value. */
  predicate Named(dyn: Answer, v: string) {
    dyn.Some? && v in dyn.value
  }

  /**
   The weights of an rrset under a provider's answer: the provider's where it names the record's value, the record's
   own where it does not, and 1 wherever that is not positive.
   */
  ghost predicate IsWeights(rs: seq<Record>, dyn: Answer, ws: seq<int>) {
    && |ws| == |rs|
    && (forall i :: 0 <= i < |rs| && Named(dyn, rs[i].value) && dyn.value[rs[i].value] > 0 ==>
          ws[i] == dyn.value[rs[i].value])
    && (forall i :: 0 <= i < |rs| && Named(dyn, rs[i].value) && dyn.value[rs[i].value] <= 0 ==> ws[i] == 1)
    && (forall i :: 0 <= i < |rs| && !Named(dyn, rs[i].value) && rs[i].weight > 0 ==> ws[i] == rs[i].weight)
    && (forall i :: 0 <= i < |rs| && !Named(dyn, rs[i].value) && rs[i].weight <= 0 ==> ws[i] == 1)
  }

  lemma EffectiveExactly(rs: seq<Record>, dyn: Answer, ws: seq<int>)
    ensures IsWeights(rs, dyn, ws) <==> ws == EffectiveAll(rs, dyn)
  {
    var es := EffectiveAll(rs, dyn);
    assert IsWeights(rs, dyn, es);
    if IsWeights(rs, dyn, ws) {
      forall i | 0 <= i < |rs| ensures ws[i] == es[i] {}
    }
  }

  /**
   Of all possible draws, as many select a record as the provider's weight for its value says, or the record's own
   weight when the provider does not name it, or 1 where that is not positive.
   */
  lemma ShareOfDraws(rs: seq<Record>, dyn: Answer, ws: seq<int>, i: nat)
    requires IsWeights(rs, dyn, ws) && i < |rs|
    ensures var w := if Named(dyn, rs[i].value) then dyn.value[rs[i].value] else rs[i].weight;
      |set n | 0 <= n < Sum(ws) && Selects(ws, n, i)| == if w > 0 then w else 1
  {
    EffectiveExactly(rs, dyn, ws);
    EffectivePositive(rs, dyn);
    ExactlyProportional(ws, i);
  }

  /** An answer about one value leaves the weight of every record with another value as it was. */
  lemma WeightsLocal(rs: seq<Record>, dyn: map<string, int>, v: string, w: int, ws: seq<int>, ws': seq<int>, i: nat)
    requires IsWeights(rs, Some(dyn), ws) && IsWeights(rs, Some(dyn[v := w]), ws') && i < |rs| && rs[i].value != v
    ensures ws'[i] == ws[i]
  {
    EffectiveExactly(rs, Some(dyn), ws);
    EffectiveExactly(rs, Some(dyn[v := w]), ws');
  }

  /**
   Weighted choice with the draw as an argument. The weights are summed and the draw walks down them; the slice it
   falls in is the record returned, and the walk never runs off the end.
   */
  method Pick(rs: seq<Record>, dyn: Answer, draw: int) returns (i: nat)
    requires rs != [] && (|rs| != 1 ==> 0 <= draw < Sum(EffectiveAll(rs, dyn)))
    ensures i < |rs|
    ensures |rs| != 1 ==> Selects(EffectiveAll(rs, dyn), draw, i)
    ensures |rs| != 1 ==> forall ws :: IsWeights(rs, dyn, ws) ==> Selects(ws, draw, i)
  {
    forall ws | IsWeights(rs, dyn, ws) ensures ws == EffectiveAll(rs, dyn) { EffectiveExactly(rs, dyn, ws); }
    if |rs| == 1 {
      return 0;
    }
    ghost var spec := EffectiveAll(rs, dyn);
    var total := 0;
    var ws: seq<int> := [];
    for k := 0 to |rs|
      invariant ws == spec[..k] && total == Sum(spec[..k])
    {
      var w := rs[k].weight;
      if dyn.Some? {
        if rs[k].value in dyn.value {
          w := dyn.value[rs[k].value];
        }
      }
      if w <= 0 {
        w := 1;
      }
      SumStep(spec, k);
      ws := ws + [w];
      total := total + w;
    }
    assert spec[..|rs|] == spec;
    var n := draw;
    i := 0;
    while i < |ws|
      invariant 0 <= i <= |ws|
      invariant n == draw - Sum(spec[..i]) && 0 <= n
    {
      n := n - ws[i];
      if n < 0 {
        return;
      }
      SumStep(spec, i);
      i := i + 1;
    }
    assert false;
  }

  /** A draw that selects a record is below the total. */
  lemma SelectsInRange(ws: seq<int>, n: int, i: int)
    requires Positive(ws) && Selects(ws, n, i)
    ensures 0 <= n < Sum(ws)
  {
    SumMonotone(ws, 0, i);
    SumStep(ws, i);
    SumMonotone(ws, i + 1, |ws|);
    assert ws[..|ws|] == ws;
  }

  /** Every draw selects one record and only one. */
  lemma SelectsUnique(ws: seq<int>, n: int, i: int, j: int)
    requires Positive(ws) && Selects(ws, n, i) && Selects(ws, n, j)
    ensures i == j
  {
    if i < j {
      SumStep(ws, i);
      SumMonotone(ws, i + 1, j);
    } else if j < i {
      SumStep(ws, j);
      SumMonotone(ws, j + 1, i);
    }
  }

  /** The integers from lo up to but not including hi. */
  function Interval(lo: int, hi: int): (s: set<int>)
    requires lo <= hi
    ensures forall n :: n in s <==> lo <= n < hi
    ensures |s| == hi - lo
    decreases hi - lo
  {
    if lo == hi then {} else Interval(lo, hi - 1) + {hi - 1}
  }

  /** Exactly proportional: of the possible draws, exactly `ws[i]` select record i; so every record is reachable. */
  lemma ExactlyProportional(ws: seq<int>, i: nat)
    requires Positive(ws) && i < |ws|
    ensures |set n | 0 <= n < Sum(ws) && Selects(ws, n, i)| == ws[i] >= 1
  {
    SumMonotone(ws, 0, i);
    SumStep(ws, i);
    SumMonotone(ws, i + 1, |ws|);
    assert ws[..|ws|] == ws;
    assert (set n | 0 <= n < Sum(ws) && Selects(ws, n, i)) == Interval(Sum(ws[..i]), Sum(ws[..i + 1]));
  }

  lemma EffectivePositive(rs: seq<Record>, dyn: Answer)
    ensures Positive(EffectiveAll(rs, dyn))
  {
  }


  /**
   With 32-bit weights and fewer than 2^31 records the total is positive and fits a 64-bit int, so the draw is defined.
   */
  lemma TotalFits(rs: seq<Record>, dyn: Answer)
    requires 0 < |rs| < TWO_31
    requires forall i :: 0 <= i < |rs| ==> rs[i].weight < TWO_31
    requires dyn.Some? ==> forall v :: v in dyn.value ==> dyn.value[v] < TWO_31
    ensures |rs| <= Sum(EffectiveAll(rs, dyn)) < TWO_63
  {
    var ws := EffectiveAll(rs, dyn);
    SumMonotone(ws, 0, |ws|);
    assert ws[..|ws|] == ws;
    SumBelow(ws, TWO_31);
  }

  lemma {:induction false} SumBelow(ws: seq<int>, b: int)
    requires forall i :: 0 <= i < |ws| ==> ws[i] < b
    ensures Sum(ws) <= |ws| * b
  {
    if ws != [] {
      SumBelow(ws[..|ws| - 1], b);
    }
  }

  // ---- the static provider ----

  /** Later records overwrite earlier ones with the same value; weights that are not positive leave no entry. */
  function StaticMap(rs: seq<Record>): map<string, int> {
    if rs == [] then map[]
    else
      var m, r := StaticMap(rs[..|rs| - 1]), rs[|rs| - 1];
      if r.weight > 0 then m[r.value := r.weight] else m
  }

  function StaticAnswer(rs: seq<Record>): Answer {
    if StaticMap(rs) == map[] then None else Some(StaticMap(rs))
  }

  method StaticGetWeights(rs: seq<Record>) returns (dyn: Answer)
    ensures dyn == StaticAnswer(rs)
    ensures dyn.Some? <==> exists j :: 0 <= j < |rs| && rs[j].weight > 0
    ensures dyn.Some? ==> forall v :: v in dyn.value ==>
              exists j :: LastWeighted(rs, v, j) && rs[j].weight == dyn.value[v]
  {
    StaticAnswers(rs);
    forall v | v in StaticMap(rs) ensures exists j :: LastWeighted(rs, v, j) && rs[j].weight == StaticMap(rs)[v] {
      StaticEntries(rs, v);
    }
    var ws: map<string, int> := map[];
    for i := 0 to |rs|
      invariant ws == StaticMap(rs[..i])
    {
      assert rs[..i + 1][..i] == rs[..i];
      if rs[i].weight > 0 {
        ws := ws[rs[i].value := rs[i].weight];
      }
    }
    assert rs[..|rs|] == rs;
    if ws == map[] {
      return None;
    }
    return Some(ws);
  }

  /** Record j is the last one with the value and a positive weight. */
  ghost predicate LastWeighted(rs: seq<Record>, v: string, j: int) {
    && 0 <= j < |rs| && rs[j].value == v && rs[j].weight > 0
    && forall l :: j < l < |rs| && rs[l].value == v ==> rs[l].weight <= 0
  }

  /**
   A value has an entry exactly when some record with it has a positive weight, and the entry is that of the last one.
   */
  lemma {:induction false} StaticEntries(rs: seq<Record>, v: string)
    ensures v in StaticMap(rs) <==> exists j :: 0 <= j < |rs| && rs[j].value == v && rs[j].weight > 0
    ensures v in StaticMap(rs) ==> exists j :: LastWeighted(rs, v, j) && rs[j].weight == StaticMap(rs)[v]
  {
    if rs != [] {
      var front, r := rs[..|rs| - 1], rs[|rs| - 1];
      StaticEntries(front, v);
      if r.value == v && r.weight > 0 {
        assert LastWeighted(rs, v, |rs| - 1);
      } else if v in StaticMap(front) {
        var j :| LastWeighted(front, v, j) && front[j].weight == StaticMap(front)[v];
        assert LastWeighted(rs, v, j) && rs[j].weight == StaticMap(rs)[v];
      }
      if j :| 0 <= j < |rs| && rs[j].value == v && rs[j].weight > 0 && j < |front| {
        assert front[j].value == v && front[j].weight > 0;
      }
    }
  }

  /** The provider answers exactly when some record has a positive weight. */
  lemma StaticAnswers(rs: seq<Record>)
    ensures StaticAnswer(rs).Some? <==> exists j :: 0 <= j < |rs| && rs[j].weight > 0
  {
    if j :| 0 <= j < |rs| && rs[j].weight > 0 { StaticEntries(rs, rs[j].value); }
    if v :| v in StaticMap(rs) { StaticEntries(rs, v); }
  }

  /** Two records with the same value, one of them with a positive weight, have that weight in common. */
  ghost predicate Consistent(rs: seq<Record>) {
    forall i, j :: 0 <= i < |rs| && 0 <= j < |rs| && rs[i].value == rs[j].value && rs[j].weight > 0
                   ==> AtLeastOne(rs[i].weight) == rs[j].weight
  }

  /** The static provider changes no effective weight exactly when records of equal value are consistently weighted. */
  lemma StaticTransparentExactly(rs: seq<Record>)
    ensures EffectiveAll(rs, StaticAnswer(rs)) == EffectiveAll(rs, None) <==> Consistent(rs)
  {
    var m := StaticMap(rs);
    if Consistent(rs) {
      forall i | 0 <= i < |rs| ensures Effective(rs[i], StaticAnswer(rs)) == Effective(rs[i], None) {
        StaticEntries(rs, rs[i].value);
      }
    }
    if EffectiveAll(rs, StaticAnswer(rs)) == EffectiveAll(rs, None) {
      forall i, j | 0 <= i < |rs| && 0 <= j < |rs| && rs[i].value == rs[j].value && rs[j].weight > 0
        ensures AtLeastOne(rs[i].weight) == rs[j].weight
      {
        StaticEntries(rs, rs[i].value);
        assert EffectiveAll(rs, StaticAnswer(rs))[i] == EffectiveAll(rs, None)[i];
        assert EffectiveAll(rs, StaticAnswer(rs))[j] == EffectiveAll(rs, None)[j];
      }
    }
  }

  /** The unique index on live rows makes values distinct, and then the static provider is always transparent. */
  lemma DistinctIsConsistent(rs: seq<Record>)
    requires forall i, j :: 0 <= i < j < |rs| ==> rs[i].value != rs[j].value
    ensures Consistent(rs)
  {
  }

  /** Equal values with different weights are the failing case: the later weight overrides the earlier. */
  lemma StaticOverrides()
    ensures var rs := [Record(1, "a.", TYPE_A, 60, "1.2.3.4", 70, None),
              Record(2, "a.", TYPE_A, 60, "1.2.3.4", 30, None)];
      EffectiveAll(rs, None)[0] == 70 && EffectiveAll(rs, StaticAnswer(rs))[0] == 30
  {
    var r, t := Record(1, "a.", TYPE_A, 60, "1.2.3.4", 70, None), Record(2, "a.", TYPE_A, 60, "1.2.3.4", 30, None);
    var rs := [r, t];
    assert rs[..1] == [r];
    assert [r][..0] == [];
    assert StaticMap([r]) == map["1.2.3.4" := 70];
    assert StaticMap(rs) == map["1.2.3.4" := 30];
    assert "1.2.3.4" in StaticMap(rs);
    assert Effective(r, Some(map["1.2.3.4" := 30])) == 30;
  }

  // ---- the composite provider ----

  function Composite(primary: Answer, secondary: Answer): Answer {
    if primary.Some? then primary else secondary
  }

  /**
   Falling back to the static weights is transparent, for any primary provider, exactly when it answers or the rrset is
   consistent.
   */
  lemma FallbackTransparentExactly(rs: seq<Record>, primary: Answer)
    ensures EffectiveAll(rs, Composite(primary, StaticAnswer(rs))) == EffectiveAll(rs, primary)
            <==> primary.Some? || Consistent(rs)
  {
    StaticTransparentExactly(rs);
  }

  // ---- the push-driven provider ----

  ghost predicate ColonFree(s: string) {
    forall i :: 0 <= i < |s| ==> s[i] != ':'
  }

  /** Type names are distinct and contain no colon. */
  ghost predicate GoodTypeNames(typeStr: nat -> string) {
    && (forall q :: ColonFree(typeStr(q)))
    && (forall p, q :: typeStr(p) == typeStr(q) ==> p == q)
  }

  function CacheKey(typeStr: nat -> string, fqdn: string, qtype: nat): string {
    fqdn + ":" + typeStr(qtype)
  }

  lemma AfterColon(f: string, t: string)
    requires ColonFree(t)
    ensures var s := f + ":" + t;
      s[|f|] == ':' && s[..|f|] == f && s[|f| + 1..] == t && forall i :: |f| < i < |s| ==> s[i] != ':'
  {
  }

  /** The separator is the last colon of the key. */
  lemma LastColon(f: string, t: string, g: string, u: string)
    requires ColonFree(t) && ColonFree(u) && f + ":" + t == g + ":" + u
    ensures f == g && t == u
  {
    AfterColon(f, t);
    AfterColon(g, u);
    assert |f| == |g|;
  }

  /** A name may itself contain colons; the key still determines the pair. */
  lemma CacheKeyInjective(typeStr: nat -> string, f: string, p: nat, g: string, q: nat)
    requires GoodTypeNames(typeStr) && CacheKey(typeStr, f, p) == CacheKey(typeStr, g, q)
    ensures f == g && p == q
  {
    LastColon(f, typeStr(p), g, typeStr(q));
  }

  /**
   Something that reaches the provider: a query, a start-up prefetch, or a pushed configuration (None when malformed).
   */
  datatype Op = Get(fqdn: string, qtype: nat) | Prefetch(fqdn: string, qtype: nat) | Push(key: string, data: Answer)

  /** The watched keys are exactly those of the watches started. */
  ghost predicate Watches(typeStr: nat -> string, started: seq<(string, nat)>, watched: set<string>) {
    && (forall p :: p in started ==> CacheKey(typeStr, p.0, p.1) in watched)
    && (forall k :: k in watched ==> exists p :: p in started && CacheKey(typeStr, p.0, p.1) == k)
  }

  ghost predicate Distinct(started: seq<(string, nat)>) {
    forall i, j :: 0 <= i < j < |started| ==> started[i] != started[j]
  }

  lemma WatchesOneMore(typeStr: nat -> string, started: seq<(string, nat)>, watched: set<string>, p: (string, nat))
    requires Watches(typeStr, started, watched) && Distinct(started) && CacheKey(typeStr, p.0, p.1) !in watched
    ensures Watches(typeStr, started + [p], watched + {CacheKey(typeStr, p.0, p.1)}) && Distinct(started + [p])
  {
  }

  /** The last well-formed push for a key. */
  function LastPush(ops: seq<Op>, key: string): Answer {
    if ops == [] then None
    else
      var o := ops[|ops| - 1];
      if o.Push? && o.key == key && o.data.Some? then o.data else LastPush(ops[..|ops| - 1], key)
  }

  lemma LastPushSnoc(ops: seq<Op>, o: Op, key: string)
    ensures LastPush(ops + [o], key) == if o.Push? && o.key == key && o.data.Some? then o.data else LastPush(ops, key)
  {
    assert (ops + [o])[..|ops|] == ops;
  }

  function Cached(weights: map<string, map<string, int>>, key: string): Answer {
    if key in weights then Some(weights[key]) else None
  }

  /** What a key's entry becomes: an empty map clears it, no push leaves it. */
  function AfterPushes(was: Answer, last: Answer): Answer {
    if last.None? then was else if last.value == map[] then None else last
  }

  class NacosProvider {
    const typeStr: nat -> string
    var weights: map<string, map<string, int>>
    var watched: set<string>
    ghost var started: seq<(string, nat)>

    /** No empty weight map is stored; the watches started are those of the watched keys, each once. */
    ghost predicate Valid()
      reads this
    {
      && GoodTypeNames(typeStr)
      && (forall k :: k in weights ==> weights[k] != map[])
      && Watches(typeStr, started, watched) && Distinct(started)
    }

    /** A watched key means a watch of exactly that pair. */
    lemma WatchedPair(fqdn: string, qtype: nat)
      requires Valid() && CacheKey(typeStr, fqdn, qtype) in watched
      ensures (fqdn, qtype) in started
    {
      var p :| p in started && CacheKey(typeStr, p.0, p.1) == CacheKey(typeStr, fqdn, qtype);
      CacheKeyInjective(typeStr, p.0, p.1, fqdn, qtype);
    }

    constructor (typeStr: nat -> string)
      requires GoodTypeNames(typeStr)
      ensures Valid() && weights == map[] && watched == {} && started == [] && this.typeStr == typeStr
    {
      this.typeStr := typeStr;
      weights := map[];
      watched := {};
      started := [];
    }

    /** LoadOrStore on the watched set: the first caller for a key starts the watch. */
    method Watch(fqdn: string, qtype: nat)
      requires Valid()
      modifies this`watched, this`started
      ensures Valid()
      ensures watched == old(watched) + {CacheKey(typeStr, fqdn, qtype)}
      ensures started == old(started) + if CacheKey(typeStr, fqdn, qtype) in old(watched) then [] else [(fqdn, qtype)]
    {
      var key := CacheKey(typeStr, fqdn, qtype);
      if key !in watched {
        WatchesOneMore(typeStr, started, watched, (fqdn, qtype));
        watched := watched + {key};
        started := started + [(fqdn, qtype)];
      }
    }

    /** The cached weights, never an empty map; the first call for a pair also starts its watch. */
    method GetWeights(fqdn: string, qtype: nat) returns (ws: Answer)
      requires Valid()
      modifies this`watched, this`started
      ensures Valid() && watched == old(watched) + {CacheKey(typeStr, fqdn, qtype)}
      ensures ws == Cached(weights, CacheKey(typeStr, fqdn, qtype))
      ensures ws != Some(map[])
    {
      Watch(fqdn, qtype);
      var key := CacheKey(typeStr, fqdn, qtype);
      ws := if key in weights then Some(weights[key]) else None;
    }

    /** A pushed configuration: malformed data changes nothing, and an empty map clears the entry. */
    method Update(key: string, data: Answer)
      requires Valid()
      modifies this`weights
      ensures Valid()
      ensures weights == match data
                case None => old(weights)
                case Some(ws) => if ws == map[] then old(weights) - {key} else old(weights)[key := ws]
    {
      if data.None? {
        return;
      }
      if data.value == map[] {
        weights := weights - {key};
      } else {
        weights := weights[key := data.value];
      }
    }

    /**
     In every interleaving of queries, prefetches and pushes, each pair asked for gets one watch and only one, and the
     weights are those of the last well-formed push for each key.
     */
    method Interleave(ops: seq<Op>)
      requires Valid()
      modifies this
      ensures Valid()
      ensures Distinct(started)
      ensures forall key :: Cached(weights, key) == AfterPushes(Cached(old(weights), key), LastPush(ops, key))
      ensures forall o :: o in ops && !o.Push? ==> (o.fqdn, o.qtype) in started
    {
      ghost var before := weights;
      for n := 0 to |ops|
        invariant Valid()
        invariant forall key :: Cached(weights, key) == AfterPushes(Cached(before, key), LastPush(ops[..n], key))
        invariant forall o :: o in ops[..n] && !o.Push? ==> CacheKey(typeStr, o.fqdn, o.qtype) in watched
      {
        assert ops[..n + 1] == ops[..n] + [ops[n]];
        forall key { LastPushSnoc(ops[..n], ops[n], key); }
        match ops[n]
        case Get(f, q) => var _ := GetWeights(f, q);
        case Prefetch(f, q) => Watch(f, q);
        case Push(key, data) => Update(key, data);
      }
      assert ops[..|ops|] == ops;
      forall o | o in ops && !o.Push? ensures (o.fqdn, o.qtype) in started {
        WatchedPair(o.fqdn, o.qtype);
      }
    }
  }

  /**
   After any interleaving the composite answers with the weights of the last well-formed push for the key when it had
   any, and falls back to the static weights when it had none, or when there never was one.
   */
  method WeightsAfter(p: NacosProvider, ops: seq<Op>, fqdn: string, qtype: nat, rs: seq<Record>) returns (dyn: Answer)
    requires p.Valid()
    modifies p
    ensures p.Valid()
    ensures var key := CacheKey(p.typeStr, fqdn, qtype); var last := LastPush(ops, key);
      dyn == if last.Some? && last.value != map[] then last
             else if last.Some? || key !in old(p.weights) then StaticAnswer(rs)
             else Some(old(p.weights)[key])
  {
    ghost var key, was := CacheKey(p.typeStr, fqdn, qtype), p.weights;
    p.Interleave(ops);
    assert Cached(p.weights, key) == AfterPushes(Cached(was, key), LastPush(ops, key));
    var primary := p.GetWeights(fqdn, qtype);
    var secondary := StaticGetWeights(rs);
    dyn := Composite(primary, secondary);
  }
}
