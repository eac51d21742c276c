/** The values shared by every component: resource records, rrsets and zones. */
module Records {

  datatype Option<+T> = None | Some(value: T)

  /** A parsed resource record. Its wire form is opaque; only the owner, type, ttl and rdata text matter here. */
  datatype RR = RR(owner: string, rtype: nat, ttl: int, rdata: string)

  datatype RecordKey = RecordKey(name: string, qtype: nat)

  /** A stored record; `id` is the table row id, 0 for records that live only in memory. */
  datatype Record = Record(id: int, name: string, rtype: nat, ttl: int, value: string, weight: int, rr: Option<RR>) {
    function Key(): RecordKey {
      RecordKey(name, rtype)
    }
  }

  type Rrsets = map<RecordKey, seq<Record>>

  datatype ZoneVal = ZoneVal(rrsets: Rrsets, soa: Option<RR>)

  /** The value of a whole store: apex name to zone. */
  type Zones = map<string, ZoneVal>

  const TYPE_A: nat := 1
  const TYPE_CNAME: nat := 5
  const TYPE_SOA: nat := 6
  const TYPE_AAAA: nat := 28

  // ---- the bag of all records of a zone ----

  ghost function PickKey<T>(m: map<RecordKey, seq<T>>): (k: RecordKey)
    requires m != map[]
    ensures k in m
  {
    var k :| k in m; k
  }

  /** Everything filed in a zone, with multiplicity, whatever rrset it is filed under. */
  ghost function Bag<T>(m: map<RecordKey, seq<T>>): multiset<T>
    decreases m.Keys
  {
    if m == map[] then multiset{} else
      var k := PickKey(m);
      multiset(m[k]) + Bag(m - {k})
  }

  /** The bag does not depend on the order in which the rrsets are visited. */
  lemma {:induction false} BagSplit<T>(m: map<RecordKey, seq<T>>, k: RecordKey)
    requires k in m
    ensures Bag(m) == multiset(m[k]) + Bag(m - {k})
    decreases m.Keys
  {
    var j := PickKey(m);
    if j != k {
      BagSplit(m - {j}, k);
      BagSplit(m - {k}, j);
      assert m - {j} - {k} == m - {k} - {j};
    }
  }

  /** Membership in the bag is membership in some rrset. */
  lemma {:induction false} BagMember<T>(m: map<RecordKey, seq<T>>, r: T)
    ensures r in Bag(m) <==> exists k :: k in m && r in m[k]
    decreases m.Keys
  {
    if m != map[] {
      var k := PickKey(m);
      BagMember(m - {k}, r);
      if r in Bag(m) && r !in m[k] {
        var j :| j in m - {k} && r in (m - {k})[j];
        assert j in m && r in m[j];
      }
      if j :| j in m && r in m[j] && j != k {
        assert j in m - {k} && r in (m - {k})[j];
      }
    }
  }

  /** Replacing one rrset changes the bag by exactly the difference of the two rrsets. */
  lemma BagUpdate<T>(m: map<RecordKey, seq<T>>, k: RecordKey, rs: seq<T>)
    ensures Bag(m[k := rs]) == multiset(rs) + Bag(m - {k})
  {
    BagSplit(m[k := rs], k);
    assert m[k := rs] - {k} == m - {k};
  }

  lemma Assoc<T>(a: seq<T>, b: seq<T>, c: seq<T>)
    ensures a + b + c == a + (b + c)
  {
  }

  // ---- small helpers ----

  lemma SomeMember<T>(s: set<T>) returns (x: T)
    requires s != {}
    ensures x in s
  {
    x :| x in s;
  }

  const TWO_31: int := 0x8000_0000
  const TWO_63: int := 0x8000_0000_0000_0000

  /** Position of the first `c`, or the length when there is none. */
  function IndexOf(s: string, c: char): (j: nat)
    ensures j <= |s| && (j < |s| ==> s[j] == c) && forall i :: 0 <= i < j ==> s[i] != c
  {
    if s == "" || s[0] == c then 0 else 1 + IndexOf(s[1..], c)
  }
}
