/**
 Zone transfer: the SOA, the records in messages of at most 500, the SOA again (section 2.2 of RFC 5936). Store writes
 may happen before every message; the connection may fail at any message.
 */
module Transfer {
  import opened Records
  import opened Names
  import opened ZoneStore
  import opened Query

  const BATCH: nat := 500

  // ---- what a transfer is ----

  /** The positions of a zone, rrset and place in it, whose record satisfies p. */
  ghost function Places(m: Rrsets, p: Record -> bool): set<(RecordKey, int)> {
    set k, i | k in m && 0 <= i < |m[k]| && p(m[k][i]) :: (k, i)
  }

  /** The positions whose record carries the RR. */
  ghost function Carriers(m: Rrsets, rr: RR): set<(RecordKey, int)> {
    Places(m, (r: Record) => r.rr == Some(rr))
  }

  /** The positions whose record parsed. */
  ghost function AllParsed(m: Rrsets): set<(RecordKey, int)> {
    Places(m, (r: Record) => r.rr.Some?)
  }

  function Concat(msgs: seq<seq<RR>>): seq<RR> {
    if msgs == [] then [] else Concat(msgs[..|msgs| - 1]) + msgs[|msgs| - 1]
  }

  /**
   SOA first and last; between them non-empty messages of at most 500 RRs, as few as possible, holding every RR exactly
   as often as records of the zone carry it.
   */
  ghost predicate IsTransfer(m: Rrsets, soa: RR, msgs: seq<seq<RR>>) {
    && |msgs| == 2 + (|AllParsed(m)| + 499) / 500
    && msgs[0] == [soa] && msgs[|msgs| - 1] == [soa]
    && (forall i :: 0 < i < |msgs| - 1 ==> 1 <= |msgs[i]| <= 500)
    && forall rr :: multiset(Concat(msgs[1..|msgs| - 1]))[rr] == |Carriers(m, rr)|
  }

  lemma {:induction false} ConcatMember(msgs: seq<seq<RR>>, rr: RR)
    ensures rr in Concat(msgs) <==> exists i :: 0 <= i < |msgs| && rr in msgs[i]
    decreases |msgs|
  {
    if msgs != [] {
      var front, last := msgs[..|msgs| - 1], msgs[|msgs| - 1];
      ConcatMember(front, rr);
      if i :| 0 <= i < |front| && rr in front[i] { assert rr in msgs[i]; }
      if i :| 0 <= i < |msgs| && rr in msgs[i] && i < |front| { assert rr in front[i]; }
    }
  }

  /** An RR is in some middle message exactly when some record of the zone carries it. */
  lemma TransferMember(m: Rrsets, soa: RR, msgs: seq<seq<RR>>, rr: RR)
    requires IsTransfer(m, soa, msgs)
    ensures (exists i :: 0 < i < |msgs| - 1 && rr in msgs[i]) <==>
            exists k, i :: k in m && 0 <= i < |m[k]| && m[k][i].rr == Some(rr)
  {
    var mid := msgs[1..|msgs| - 1];
    ConcatMember(mid, rr);
    assert rr in Concat(mid) <==> multiset(Concat(mid))[rr] > 0;
    if i :| 0 < i < |msgs| - 1 && rr in msgs[i] { assert rr in mid[i - 1]; }
    if i :| 0 <= i < |mid| && rr in mid[i] { assert rr in msgs[i + 1]; }
    if |Carriers(m, rr)| > 0 {
      var p :| p in Carriers(m, rr);
    }
    if k, i :| k in m && 0 <= i < |m[k]| && m[k][i].rr == Some(rr) { assert (k, i) in Carriers(m, rr); }
  }

  // ---- the RRs of a zone, counted by position ----

  function ParsedMap(m: Rrsets): map<RecordKey, seq<RR>> {
    map k | k in m :: ParsedAll(m[k])
  }

  /** All parsed RRs of a zone, with multiplicity. */
  ghost function RRBag(m: Rrsets): multiset<RR> {
    Bag(ParsedMap(m))
  }

  ghost function Spots(rs: seq<Record>, p: Record -> bool): set<int> {
    set i | 0 <= i < |rs| && p(rs[i])
  }

  lemma SpotsSnoc(front: seq<Record>, last: Record, p: Record -> bool)
    ensures |Spots(front + [last], p)| == |Spots(front, p)| + if p(last) then 1 else 0
  {
    var rs := front + [last];
    assert Spots(rs, p) == Spots(front, p) + if p(last) then {|front|} else {};
  }

  lemma {:induction false} ParsedCounts(rs: seq<Record>, rr: RR)
    ensures multiset(ParsedAll(rs))[rr] == |Spots(rs, (r: Record) => r.rr == Some(rr))|
    ensures |ParsedAll(rs)| == |Spots(rs, (r: Record) => r.rr.Some?)|
    decreases |rs|
  {
    if rs == [] {
      assert Spots(rs, (r: Record) => r.rr == Some(rr)) == {} && Spots(rs, (r: Record) => r.rr.Some?) == {};
    } else {
      var front, last := rs[..|rs| - 1], rs[|rs| - 1];
      ParsedCounts(front, rr);
      SpotsSnoc(front, last, (r: Record) => r.rr == Some(rr));
      SpotsSnoc(front, last, (r: Record) => r.rr.Some?);
      assert rs == front + [last];
    }
  }

  ghost function Tag(s: set<int>, k: RecordKey): set<(RecordKey, int)> {
    set i | i in s :: (k, i)
  }

  lemma {:induction false} Tagged(s: set<int>, k: RecordKey)
    ensures |Tag(s, k)| == |s|
    decreases s
  {
    if s == {} {
      assert Tag(s, k) == {};
    } else {
      var j := SomeMember(s);
      Tagged(s - {j}, k);
      assert Tag(s, k) == Tag(s - {j}, k) + {(k, j)};
    }
  }

  lemma PlacesSplit(m: Rrsets, k: RecordKey, p: Record -> bool)
    requires k in m
    ensures |Places(m, p)| == |Spots(m[k], p)| + |Places(m - {k}, p)|
  {
    var here := Tag(Spots(m[k], p), k);
    Tagged(Spots(m[k], p), k);
    assert Places(m, p) == here + Places(m - {k}, p);
    assert here * Places(m - {k}, p) == {};
  }

  lemma RRBagSplit(m: Rrsets, k: RecordKey)
    requires k in m
    ensures RRBag(m) == multiset(ParsedAll(m[k])) + RRBag(m - {k})
  {
    BagSplit(ParsedMap(m), k);
    assert ParsedMap(m) - {k} == ParsedMap(m - {k});
  }

  /** The bag holds every RR as often as positions carry it, and as many RRs as positions parsed. */
  lemma {:induction false} RRBagExactly(m: Rrsets, rr: RR)
    ensures RRBag(m)[rr] == |Carriers(m, rr)| && |RRBag(m)| == |AllParsed(m)|
    decreases m.Keys
  {
    if m == map[] {
      assert Carriers(m, rr) == {} && AllParsed(m) == {};
      assert ParsedMap(m) == map[];
    } else {
      var k :| k in m;
      RRBagExactly(m - {k}, rr);
      RRBagSplit(m, k);
      ParsedCounts(m[k], rr);
      PlacesSplit(m, k, (r: Record) => r.rr == Some(rr));
      PlacesSplit(m, k, (r: Record) => r.rr.Some?);
    }
  }

  /** A number of items in groups of 500. */
  function Groups(n: nat): nat {
    (n + BATCH - 1) / BATCH
  }

  // ---- the stream of a given record order ----

  function Chunks(rrs: seq<RR>): seq<seq<RR>>
    decreases |rrs|
  {
    if rrs == [] then []
    else if |rrs| <= BATCH then [rrs]
    else [rrs[..BATCH]] + Chunks(rrs[BATCH..])
  }

  lemma {:induction false} ChunksSizes(rrs: seq<RR>)
    ensures |Chunks(rrs)| == Groups(|rrs|)
    ensures forall i :: 0 <= i < |Chunks(rrs)| ==> 1 <= |Chunks(rrs)[i]| <= BATCH
    decreases |rrs|
  {
    if |rrs| > BATCH {
      ChunksSizes(rrs[BATCH..]);
    }
  }

  lemma {:induction false} ConcatCons(x: seq<RR>, msgs: seq<seq<RR>>)
    ensures Concat([x] + msgs) == x + Concat(msgs)
    decreases |msgs|
  {
    if msgs == [] {
      assert [x] + msgs == [x];
      assert [x][..0] == [];
    } else {
      assert ([x] + msgs)[..|msgs|] == [x] + msgs[..|msgs| - 1];
      ConcatCons(x, msgs[..|msgs| - 1]);
    }
  }

  lemma {:induction false} ChunksConcat(rrs: seq<RR>)
    ensures Concat(Chunks(rrs)) == rrs
    decreases |rrs|
  {
    if rrs == [] {
    } else if |rrs| <= BATCH {
      assert [rrs][..0] == [];
    } else {
      ChunksConcat(rrs[BATCH..]);
      ConcatCons(rrs[..BATCH], Chunks(rrs[BATCH..]));
      assert rrs[..BATCH] + rrs[BATCH..] == rrs;
    }
  }

  function Stream(soa: RR, rrs: seq<RR>): seq<seq<RR>> {
    [[soa]] + Chunks(rrs) + [[soa]]
  }

  function Ordered(p: map<RecordKey, seq<RR>>, order: seq<RecordKey>): seq<RR>
    requires forall k :: k in order ==> k in p
  {
    if order == [] then [] else Ordered(p, order[..|order| - 1]) + p[order[|order| - 1]]
  }

  /** Each key once. */
  ghost predicate Visits(keys: set<RecordKey>, order: seq<RecordKey>) {
    && (forall k :: k in keys <==> k in order)
    && forall i, j :: 0 <= i < j < |order| ==> order[i] != order[j]
  }

  lemma VisitsFront(keys: set<RecordKey>, order: seq<RecordKey>)
    requires Visits(keys, order) && order != []
    ensures order[|order| - 1] in keys && Visits(keys - {order[|order| - 1]}, order[..|order| - 1])
  {
  }

  lemma {:induction false} OrderedSub(p: map<RecordKey, seq<RR>>, q: map<RecordKey, seq<RR>>, order: seq<RecordKey>)
    requires forall k :: k in order ==> k in p && k in q && p[k] == q[k]
    ensures Ordered(p, order) == Ordered(q, order)
  {
    if order != [] {
      OrderedSub(p, q, order[..|order| - 1]);
      assert order[|order| - 1] in order;
    }
  }

  lemma {:induction false} OrderedBag(p: map<RecordKey, seq<RR>>, order: seq<RecordKey>)
    requires Visits(p.Keys, order)
    ensures multiset(Ordered(p, order)) == Bag(p)
    decreases |order|
  {
    if order == [] {
      assert p == map[] by { assert p.Keys == {}; }
    } else {
      var front, k := order[..|order| - 1], order[|order| - 1];
      VisitsFront(p.Keys, order);
      BagSplit(p, k);
      OrderedBag(p - {k}, front);
      OrderedSub(p, p - {k}, front);
    }
  }

  lemma StreamShape(soa: RR, rrs: seq<RR>)
    ensures var msgs := Stream(soa, rrs);
      && |msgs| == 2 + (|rrs| + 499) / 500 && msgs[0] == [soa] && msgs[|msgs| - 1] == [soa]
      && (forall i :: 0 < i < |msgs| - 1 ==> 1 <= |msgs[i]| <= 500)
      && Concat(msgs[1..|msgs| - 1]) == rrs
  {
    var msgs := Stream(soa, rrs);
    ChunksConcat(rrs);
    ChunksSizes(rrs);
    assert msgs[1..|msgs| - 1] == Chunks(rrs);
    forall i | 0 < i < |msgs| - 1 ensures 1 <= |msgs[i]| <= 500 { assert msgs[i] == Chunks(rrs)[i - 1]; }
  }

  lemma OrderedCounts(m: Rrsets, order: seq<RecordKey>, rr: RR)
    requires Visits(m.Keys, order)
    ensures var rrs := Ordered(ParsedMap(m), order);
      multiset(rrs)[rr] == |Carriers(m, rr)| && |rrs| == |AllParsed(m)|
  {
    OrderedBag(ParsedMap(m), order);
    RRBagExactly(m, rr);
    assert |multiset(Ordered(ParsedMap(m), order))| == |Ordered(ParsedMap(m), order)|;
  }

  /** Whatever order the map is visited in, the stream is a transfer of the zone. */
  lemma StreamIsTransfer(m: Rrsets, soa: RR, order: seq<RecordKey>)
    requires Visits(m.Keys, order)
    ensures IsTransfer(m, soa, Stream(soa, Ordered(ParsedMap(m), order)))
  {
    var rrs := Ordered(ParsedMap(m), order);
    StreamShape(soa, rrs);
    OrderedCounts(m, order, soa);
    forall rr ensures multiset(rrs)[rr] == |Carriers(m, rr)| { OrderedCounts(m, order, rr); }
  }

  // ---- filling and flushing batches ----

  ghost predicate AllFull(mids: seq<seq<RR>>) {
    forall i :: 0 <= i < |mids| ==> |mids[i]| == BATCH
  }

  lemma ConcatSnoc(front: seq<seq<RR>>, last: seq<RR>, rest: seq<RR>)
    ensures Concat(front + [last]) + rest == Concat(front) + (last + rest)
  {
  }

  lemma ChunkOff(last: seq<RR>, rest: seq<RR>)
    requires |last| == BATCH
    ensures Chunks(last + rest) == [last] + Chunks(rest)
  {
    var all := last + rest;
    assert all[..BATCH] == last && all[BATCH..] == rest;
    if rest == [] { assert all == last && Chunks(rest) == []; }
  }

  /** Full messages come off the front of the stream unchanged. */
  lemma {:induction false} FullChunks(mids: seq<seq<RR>>, rest: seq<RR>)
    requires AllFull(mids)
    ensures Chunks(Concat(mids) + rest) == mids + Chunks(rest)
    decreases |mids|
  {
    if mids == [] {
      assert Concat(mids) + rest == rest;
    } else {
      var front, last := mids[..|mids| - 1], mids[|mids| - 1];
      FullChunks(front, last + rest);
      assert mids == front + [last];
      ConcatSnoc(front, last, rest);
      ChunkOff(last, rest);
      Assoc(front, [last], Chunks(rest));
    }
  }

  /**
   Sent so far: the opening SOA and full messages; in hand: a batch that is not full; together they are the RRs
   processed.
   */
  ghost predicate Progress(soa: RR, mids: seq<seq<RR>>, batch: seq<RR>, processed: seq<RR>, sent: seq<seq<RR>>) {
    sent == [[soa]] + mids && AllFull(mids) && |batch| < BATCH && Concat(mids) + batch == processed
  }

  /** Broken off: what was sent is the opening SOA and full messages taken from the front of `all`. */
  ghost predicate BrokenOff(soa: RR, all: seq<RR>, sent: seq<seq<RR>>) {
    sent <= Stream(soa, all)
  }

  lemma ProgressIsPrefix(soa: RR, mids: seq<seq<RR>>, processed: seq<RR>, all: seq<RR>)
    requires AllFull(mids) && Concat(mids) <= processed <= all
    ensures BrokenOff(soa, all, [[soa]] + mids)
  {
    var rest := all[|Concat(mids)|..];
    assert all == Concat(mids) + rest;
    FullChunks(mids, rest);
    assert [[soa]] + mids <= Stream(soa, all);
  }

  // ---- the connection ----

  /** A connection that accepts `budget` more messages and then fails. */
  class Conn {
    var sent: seq<seq<RR>>
    var refused: bool
    var budget: nat

    constructor (budget: nat)
      ensures sent == [] && !refused && this.budget == budget
    {
      sent := [];
      refused := false;
      this.budget := budget;
    }

    method Refuse()
      modifies this`refused
      ensures refused
    {
      refused := true;
    }

    method WriteMsg(msg: seq<RR>) returns (ok: bool)
      modifies this`sent, this`budget
      ensures ok <==> old(budget) > 0
      ensures sent == if ok then old(sent) + [msg] else old(sent)
      ensures budget == if ok then old(budget) - 1 else old(budget)
    {
      ok := budget > 0;
      if ok {
        sent := sent + [msg];
        budget := budget - 1;
      }
    }
  }

  /** Other goroutines may write to the store before each message goes out: `writes[n]` before message n. */
  method Send(conn: Conn, msg: seq<RR>, store: RWMutexStore, writes: seq<seq<Write>>) returns (ok: bool)
    modifies conn`sent, conn`budget, store.zones
    ensures ok <==> old(conn.budget) > 0
    ensures conn.sent == if ok then old(conn.sent) + [msg] else old(conn.sent)
    ensures conn.budget == if ok then old(conn.budget) - 1 else 0
  {
    RunWrites(store, if |conn.sent| < |writes| then writes[|conn.sent|] else []);
    ok := conn.WriteMsg(msg);
  }

  /** Map iteration order is not specified. */
  method AnyOrder(keys: set<RecordKey>) returns (order: seq<RecordKey>)
    ensures Visits(keys, order)
  {
    order := [];
    var rest := keys;
    while rest != {}
      invariant rest <= keys && Visits(keys - rest, order)
      decreases rest
    {
      var k :| k in rest;
      order := order + [k];
      rest := rest - {k};
    }
    assert keys - {} == keys;
  }

  /** Append one RR to the batch and flush the batch when it is full. */
  method AddRR(conn: Conn, store: RWMutexStore, writes: seq<seq<Write>>, rr: RR, batch: seq<RR>,
               ghost soa: RR, ghost mids: seq<seq<RR>>, ghost done: seq<RR>, ghost all: seq<RR>)
    returns (ok: bool, batch': seq<RR>, ghost mids': seq<seq<RR>>)
    requires Progress(soa, mids, batch, done, conn.sent) && done + [rr] <= all
    modifies conn`sent, conn`budget, store.zones
    ensures ok ==> Progress(soa, mids', batch', done + [rr], conn.sent)
    ensures !ok ==> BrokenOff(soa, all, conn.sent) && conn.budget == 0
  {
    batch' := batch + [rr];
    mids' := mids;
    ok := true;
    assert Concat(mids) + batch' == done + [rr];
    if |batch'| >= BATCH {
      ok := Send(conn, batch', store, writes);
      if !ok {
        ProgressIsPrefix(soa, mids, done, all);
        return;
      }
      mids' := mids + [batch'];
      assert mids'[..|mids|] == mids;
      assert Concat(mids') == done + [rr];
      batch' := [];
    }
  }

  /** One rrset of the zone. */
  method AddRrset(conn: Conn, store: RWMutexStore, writes: seq<seq<Write>>, rs: array<Record>, batch: seq<RR>,
                  ghost soa: RR, ghost mids: seq<seq<RR>>, ghost done: seq<RR>, ghost all: seq<RR>)
    returns (ok: bool, batch': seq<RR>, ghost mids': seq<seq<RR>>)
    requires Progress(soa, mids, batch, done, conn.sent) && done + ParsedAll(rs[..]) <= all
    modifies conn`sent, conn`budget, store.zones
    ensures ok ==> Progress(soa, mids', batch', done + ParsedAll(rs[..]), conn.sent)
    ensures !ok ==> BrokenOff(soa, all, conn.sent) && conn.budget == 0
  {
    ghost var s := rs[..];
    ok, batch', mids' := true, batch, mids;
    assert done + ParsedAll(s[..0]) == done;
    for i := 0 to rs.Length
      invariant ok && rs[..] == s
      invariant Progress(soa, mids', batch', done + ParsedAll(s[..i]), conn.sent)
    {
      ParsedPrefix(s, i);
      if rs[i].rr.Some? {
        assert done + ParsedAll(s[..i]) + [s[i].rr.value] == done + ParsedAll(s[..i + 1]);
        ok, batch', mids' := AddRR(conn, store, writes, rs[i].rr.value, batch', soa, mids', done + ParsedAll(s[..i]),
            all);
        if !ok {
          return;
        }
      }
    }
    assert s[..rs.Length] == s;
  }

  lemma ParsedPrefix(s: seq<Record>, i: nat)
    requires i < |s|
    ensures ParsedAll(s[..i + 1]) == ParsedAll(s[..i]) + Parsed(s[i]) <= ParsedAll(s)
  {
    assert s[..i + 1][..i] == s[..i];
    ParsedMonotone(s, i + 1);
  }

  lemma {:induction false} ParsedMonotone(s: seq<Record>, i: nat)
    requires i <= |s|
    ensures ParsedAll(s[..i]) <= ParsedAll(s)
    decreases |s|
  {
    if i == |s| {
      assert s[..i] == s;
    } else {
      ParsedMonotone(s[..|s| - 1], i);
      assert s[..|s| - 1][..i] == s[..i];
    }
  }

  lemma {:induction false} OrderedPrefix(p: map<RecordKey, seq<RR>>, order: seq<RecordKey>, i: nat)
    requires i <= |order| && forall k :: k in order ==> k in p
    ensures Ordered(p, order[..i]) <= Ordered(p, order)
    decreases |order|
  {
    if i == |order| {
      assert order[..i] == order;
    } else {
      OrderedPrefix(p, order[..|order| - 1], i);
      assert order[..|order| - 1][..i] == order[..i];
    }
  }

  lemma OrderedNext(p: map<RecordKey, seq<RR>>, order: seq<RecordKey>, i: nat)
    requires i < |order| && forall k :: k in order ==> k in p
    ensures order[i] in order
    ensures Ordered(p, order[..i + 1]) == Ordered(p, order[..i]) + p[order[i]] <= Ordered(p, order)
  {
    assert order[..i + 1][..i] == order[..i];
    OrderedPrefix(p, order, i + 1);
  }

  /** Every rrset, in the order of the keys; a last batch that is not full stays in hand. */
  method SendRrsets(conn: Conn, store: RWMutexStore, writes: seq<seq<Write>>, records: RecordMap,
                    order: seq<RecordKey>, ghost soa: RR, ghost p: map<RecordKey, seq<RR>>)
    returns (ok: bool, batch: seq<RR>, ghost mids: seq<seq<RR>>)
    requires p == ParsedMap(records.Value()) && (forall k :: k in order ==> k in p) && conn.sent == [[soa]]
    modifies conn`sent, conn`budget, store.zones
    ensures if ok then Progress(soa, mids, batch, Ordered(p, order), conn.sent)
            else BrokenOff(soa, Ordered(p, order), conn.sent) && conn.budget == 0
  {
    ok, batch, mids := true, [], [];
    for i := 0 to |order|
      invariant ok && Progress(soa, mids, batch, Ordered(p, order[..i]), conn.sent)
      invariant forall k :: k in order ==> k in records.m && ParsedAll(records.m[k][..]) == p[k]
    {
      OrderedNext(p, order, i);
      ok, batch, mids := AddRrset(conn, store, writes, records.m[order[i]], batch, soa, mids, Ordered(p, order[..i]),
          Ordered(p, order));
      if !ok {
        return;
      }
    }
    assert order[..|order|] == order;
  }

  /** The final flush and the closing SOA. */
  method Finish(conn: Conn, store: RWMutexStore, writes: seq<seq<Write>>, batch: seq<RR>, soa: RR,
                ghost mids: seq<seq<RR>>, ghost all: seq<RR>)
    returns (ok: bool)
    requires Progress(soa, mids, batch, all, conn.sent)
    modifies conn`sent, conn`budget, store.zones
    ensures if ok then conn.sent == Stream(soa, all) else BrokenOff(soa, all, conn.sent) && conn.budget == 0
  {
    FullChunks(mids, batch);
    if |batch| > 0 {
      ok := Send(conn, batch, store, writes);
      if !ok {
        ProgressIsPrefix(soa, mids, all, all);
        return;
      }
    }
    assert conn.sent == [[soa]] + Chunks(all);
    ok := Send(conn, [soa], store, writes);
    assert ok ==> conn.sent == Stream(soa, all);
  }

  /** Opening SOA, records, closing SOA. */
  method SendStream(conn: Conn, store: RWMutexStore, records: RecordMap, order: seq<RecordKey>, soa: RR,
                    writes: seq<seq<Write>>, ghost p: map<RecordKey, seq<RR>>)
    returns (ok: bool)
    requires p == ParsedMap(records.Value()) && (forall k :: k in order ==> k in p) && conn.sent == []
    modifies conn`sent, conn`budget, store.zones
    ensures if ok then conn.sent == Stream(soa, Ordered(p, order))
            else BrokenOff(soa, Ordered(p, order), conn.sent) && conn.budget == 0
  {
    ok := Send(conn, [soa], store, writes);
    if !ok {
      return;
    }
    var batch: seq<RR>;
    ghost var mids: seq<seq<RR>>;
    ok, batch, mids := SendRrsets(conn, store, writes, records, order, soa, p);
    if !ok {
      return;
    }
    ok := Finish(conn, store, writes, batch, soa, mids, Ordered(p, order));
  }

  /** The transfer of a zone object already found, whose records are `m`. */
  method TransferZone(conn: Conn, store: RWMutexStore, zone: Zone, writes: seq<seq<Write>>, ghost m: Rrsets)
    returns (ok: bool, ghost full: seq<seq<RR>>)
    requires conn.sent == [] && m == zone.records.Value()
    modifies conn`sent, conn`budget, store.zones
    ensures IsTransfer(m, SyntheticSoa(zone.name, zone.soa), full)
    ensures if ok then conn.sent == full else conn.sent <= full && conn.budget == 0
  {
    var soaRR := SyntheticSoa(zone.name, zone.soa);
    assert m.Keys == zone.records.m.Keys;
    var order := AnyOrder(zone.records.m.Keys);
    ghost var p := ParsedMap(m);
    full := Stream(soaRR, Ordered(p, order));
    StreamIsTransfer(m, soaRR, order);
    ok := SendStream(conn, store, zone.records, order, soaRR, writes, p);
  }

  /** The messages are a transfer of the zone the name belonged to in the given store value. */
  ghost predicate TransfersClosest(zones: map<string, Zone>, z: Zones, name: string, full: seq<seq<RR>>) {
    exists a :: a in zones && a in z && ClosestApex(zones.Keys, name, a)
                && IsTransfer(z[a].rrsets, SyntheticSoa(zones[a].name, z[a].soa), full)
  }

  /**
   The transfer of the zone as it stood when it was found, whatever is written to the store meanwhile. With a
   connection that holds, the messages are a transfer of that zone; when it fails, they are a prefix of one.
   */
  method ServeAxfr(conn: Conn, store: RWMutexStore, name: string, isTcp: bool, writes: seq<seq<Write>>)
    returns (ok: bool, ghost full: seq<seq<RR>>)
    requires conn.sent == [] && !conn.refused
    modifies conn, store.zones
    ensures conn.refused <==> !isTcp || Uncovered(old(store.zones.m.Keys), name)
    ensures conn.refused ==> conn.sent == []
    ensures !conn.refused ==> if ok then conn.sent == full else conn.sent <= full && conn.budget == 0
    ensures !conn.refused ==> TransfersClosest(old(store.zones.m), old(store.Contents()), name, full)
  {
    if !isTcp {
      conn.Refuse();
      return false, [];
    }
    ghost var zones, z := store.zones.m, store.Contents();
    var zone := store.LockedFindZone(name);
    if zone == null {
      conn.Refuse();
      return false, [];
    }
    ghost var a :| a in zones && zones[a] == zone && ClosestApex(zones.Keys, name, a);
    ok, full := TransferZone(conn, store, zone, writes, z[a].rrsets);
    assert TransfersClosest(zones, z, name, full);
  }
}
