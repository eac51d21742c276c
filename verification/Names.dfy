/** Domain names, their label-aligned suffixes, and the walk that finds the closest enclosing zone. */
module Names {
  import opened Records

  predicate IsFqdn(name: string) {
    |name| > 0 && name[|name| - 1] == '.'
  }

  /** Adds the trailing dot when it is missing. */
  function Fqdn(name: string): (r: string)
    ensures IsFqdn(r)
    ensures IsFqdn(name) <==> r == name
    ensures name <= r && |r| <= |name| + 1
  {
    if IsFqdn(name) then name else name + "."
  }

  /** Position `p` starts a label of `name`: the name itself, or just after a dot with something left. */
  predicate LabelStart(name: string, p: nat) {
    p == 0 || (p < |name| && name[p - 1] == '.')
  }

  /** The suffix at `p` is an apex and no longer label-aligned suffix is. */
  ghost predicate ClosestAt(apexes: set<string>, name: string, p: nat) {
    && p <= |name| && LabelStart(name, p) && name[p..] in apexes
    && forall q: nat :: q < p && LabelStart(name, q) ==> name[q..] !in apexes
  }

  /** Stated without the walk: `a` is the longest label-aligned suffix of `name` that is an apex. */
  ghost predicate ClosestApex(apexes: set<string>, name: string, a: string) {
    exists p: nat :: ClosestAt(apexes, name, p) && a == name[p..]
  }

  /** No label-aligned suffix of `name` is an apex. */
  ghost predicate Uncovered(apexes: set<string>, name: string) {
    forall p: nat :: p <= |name| && LabelStart(name, p) ==> name[p..] !in apexes
  }

  /** The walk up the label hierarchy: drop the first label until an apex is met. */
  function FindApex(apexes: set<string>, n: string): Option<string>
    decreases |n|
  {
    if n in apexes then Some(n)
    else
      var dot := IndexOf(n, '.');
      if dot == |n| || dot == |n| - 1 then None
      else FindApex(apexes, n[dot + 1..])
  }

  /** The first label of the name and its dot are the first `d` characters, and something follows. */
  ghost predicate FirstLabel(n: string, d: nat) {
    0 < d < |n| && n[d - 1] == '.' && forall j :: 0 <= j < d - 1 ==> n[j] != '.'
  }

  /** The label starts of a name are 0 and those of what follows its first dot. */
  lemma LabelStartShift(n: string, d: nat, q: nat)
    requires FirstLabel(n, d)
    ensures 0 < q && LabelStart(n, q) ==> d <= q && LabelStart(n[d..], q - d)
    ensures LabelStart(n[d..], q) ==> LabelStart(n, q + d)
  {
  }

  lemma ClosestAtShift(apexes: set<string>, n: string, d: nat, p: nat)
    requires n !in apexes && FirstLabel(n, d) && ClosestAt(apexes, n[d..], p)
    ensures ClosestAt(apexes, n, p + d)
  {
    LabelStartShift(n, d, p);
    assert n[p + d..] == n[d..][p..];
    forall q: nat | q < p + d && LabelStart(n, q)
      ensures n[q..] !in apexes
    {
      if q == 0 {
        assert n[q..] == n;
      } else {
        LabelStartShift(n, d, q);
        NotBefore(apexes, n, d, p, q);
      }
    }
  }

  lemma NotBefore(apexes: set<string>, n: string, d: nat, p: nat, q: nat)
    requires d <= q <= |n| && ClosestAt(apexes, n[d..], p) && q - d < p && LabelStart(n[d..], q - d)
    ensures n[q..] !in apexes
  {
    assert n[q..] == n[d..][q - d..];
  }

  lemma UncoveredShift(apexes: set<string>, n: string, d: nat)
    requires n !in apexes && FirstLabel(n, d) && Uncovered(apexes, n[d..])
    ensures Uncovered(apexes, n)
  {
    forall q: nat | q <= |n| && LabelStart(n, q)
      ensures n[q..] !in apexes
    {
      if q == 0 {
        assert n[q..] == n;
      } else {
        LabelStartShift(n, d, q);
        assert n[q..] == n[d..][q - d..];
      }
    }
  }

  lemma UncoveredOneLabel(apexes: set<string>, n: string)
    requires n !in apexes && IndexOf(n, '.') >= |n| - 1
    ensures Uncovered(apexes, n)
  {
  }

  lemma ClosestCovers(apexes: set<string>, n: string, p: nat)
    requires ClosestAt(apexes, n, p)
    ensures ClosestApex(apexes, n, n[p..]) && !Uncovered(apexes, n)
  {
  }

  /** The closest apex of what follows the first label is that of the name, when the name itself is no apex. */
  lemma ClosestApexShift(apexes: set<string>, n: string, d: nat, a: string)
    requires n !in apexes && FirstLabel(n, d) && ClosestApex(apexes, n[d..], a)
    ensures ClosestApex(apexes, n, a) && !Uncovered(apexes, n)
  {
    var p: nat :| ClosestAt(apexes, n[d..], p) && a == n[d..][p..];
    ClosestAtShift(apexes, n, d, p);
    ClosestCovers(apexes, n, p + d);
    assert n[p + d..] == n[d..][p..];
  }

  /** The walk answers exactly the longest label-aligned suffix that is an apex, or nothing when there is none. */
  lemma {:induction false} FindApexIsClosest(apexes: set<string>, n: string)
    ensures match FindApex(apexes, n)
            case Some(a) => a in apexes && ClosestApex(apexes, n, a) && !Uncovered(apexes, n)
            case None => Uncovered(apexes, n)
    decreases |n|
  {
    var dot := IndexOf(n, '.');
    if n in apexes {
      assert n[0..] == n && LabelStart(n, 0);
      ClosestCovers(apexes, n, 0);
    } else if dot >= |n| - 1 {
      UncoveredOneLabel(apexes, n);
    } else {
      var m := n[dot + 1..];
      FindApexIsClosest(apexes, m);
      assert FirstLabel(n, dot + 1);
      if FindApex(apexes, m).Some? {
        ClosestApexShift(apexes, n, dot + 1, FindApex(apexes, m).value);
      } else {
        UncoveredShift(apexes, n, dot + 1);
      }
    }
  }

  /** A name has at most one closest apex. */
  lemma ClosestApexUnique(apexes: set<string>, name: string, a: string, b: string)
    requires ClosestApex(apexes, name, a) && ClosestApex(apexes, name, b)
    ensures a == b
  {
  }

  /** So the walk computes the closest apex and nothing else. */
  lemma FindApexExact(apexes: set<string>, name: string, a: string)
    ensures FindApex(apexes, name) == Some(a) <==> ClosestApex(apexes, name, a)
    ensures FindApex(apexes, name) == None <==> Uncovered(apexes, name)
  {
    FindApexIsClosest(apexes, name);
    if ClosestApex(apexes, name, a) {
      var p: nat :| ClosestAt(apexes, name, p) && a == name[p..];
      assert !Uncovered(apexes, name);
      ClosestApexUnique(apexes, name, a, FindApex(apexes, name).value);
    }
  }

  /** Adding an apex changes the closest apex of a name only to the added apex itself. */
  lemma {:induction false} FindApexAdd(apexes: set<string>, apex: string, name: string)
    ensures FindApex(apexes + {apex}, name) == Some(apex) || FindApex(apexes + {apex}, name) == FindApex(apexes, name)
    decreases |name|
  {
    if name !in apexes + {apex} && IndexOf(name, '.') < |name| - 1 {
      FindApexAdd(apexes, apex, name[IndexOf(name, '.') + 1..]);
    }
  }
}
