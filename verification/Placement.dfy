/** The storage pool and the greedy choice of one SSU per extent. */
module Placement {
  import opened Types

  datatype Resource = Resource(ssuId: string, total: nat, used: nat, state: string, hostId: string)

  predicate Online(r: Resource) { r.state == "ONLINE" }

  /** Space for length more bytes behind a sector-aligned fill mark. */
  predicate Room(r: Resource, length: nat) {
    r.used <= r.total && r.used % SECTOR == 0 && length <= r.total - r.used
  }

  function OnlineIndexes(pool: seq<Resource>): (s: seq<nat>)
    ensures |s| <= |pool|
    ensures forall i :: 0 <= i < |s| ==> s[i] < |pool| && Online(pool[s[i]])
    ensures Distinct(s)
    ensures forall x :: 0 <= x < |pool| && Online(pool[x]) ==> x in s
  {
    if pool == [] then []
    else OnlineIndexes(pool[..|pool| - 1]) + if Online(pool[|pool| - 1]) then [|pool| - 1] else []
  }

  predicate Distinct(s: seq<nat>) {
    forall i, j :: 0 <= i < j < |s| ==> s[i] != s[j]
  }

  /** Extent i of base + (i < rem) bytes. */
  function ExtentLen(base: nat, rem: nat, i: nat): nat { base + if i < rem then 1 else 0 }

  predicate Suits(pool: seq<Resource>, x: nat, taken: seq<nat>, length: nat) {
    x !in taken && x < |pool| && Room(pool[x], length)
  }

  function FirstFit(pool: seq<Resource>, online: seq<nat>, taken: seq<nat>, length: nat): (j: nat)
    ensures j <= |online|
    ensures j < |online| ==> Suits(pool, online[j], taken, length)
    ensures forall i :: 0 <= i < j ==> !Suits(pool, online[i], taken, length)
  {
    if online == [] || Suits(pool, online[0], taken, length) then 0
    else 1 + FirstFit(pool, online[1..], taken, length)
  }

  /** The greedy choice for the first n extents, None when it gets stuck. */
  function Select(pool: seq<Resource>, online: seq<nat>, base: nat, rem: nat, n: nat): (s: Option<seq<nat>>)
    ensures s.Some? ==> |s.value| == n
  {
    if n == 0 then Some([])
    else
      var front := Select(pool, online, base, rem, n - 1);
      if front.None? then None
      else
        var j := FirstFit(pool, online, front.value, ExtentLen(base, rem, n - 1));
        if j == |online| then None else Some(front.value + [online[j]])
  }

  /** Every extent sits alone on a listed SSU whose mark is on a sector border and, with
      the extent behind it, not past the SSU's size. */
  predicate Assignment(pool: seq<Resource>, online: seq<nat>, base: nat, rem: nat, a: seq<nat>) {
    && Distinct(a)
    && forall i :: 0 <= i < |a| ==>
      && a[i] in online && a[i] < |pool|
      && pool[a[i]].used % 512 == 0 && pool[a[i]].used + ExtentLen(base, rem, i) <= pool[a[i]].total
  }

  lemma ExtendAssignment(pool: seq<Resource>, online: seq<nat>, base: nat, rem: nat, a: seq<nat>, x: nat)
    requires Assignment(pool, online, base, rem, a)
    requires x in online && Suits(pool, x, a, ExtentLen(base, rem, |a|))
    ensures Assignment(pool, online, base, rem, a + [x])
  {}

  lemma {:induction false} SelectIsAssignment(pool: seq<Resource>, online: seq<nat>, base: nat, rem: nat, n: nat)
    requires Select(pool, online, base, rem, n).Some?
    ensures Assignment(pool, online, base, rem, Select(pool, online, base, rem, n).value)
  {
    if n > 0 {
      SelectIsAssignment(pool, online, base, rem, n - 1);
      var front := Select(pool, online, base, rem, n - 1).value;
      var j := FirstFit(pool, online, front, ExtentLen(base, rem, n - 1));
      ExtendAssignment(pool, online, base, rem, front, online[j]);
    }
  }

  function Elems(s: seq<nat>): set<nat> { set x | x in s }

  lemma {:induction false} DistinctCard(s: seq<nat>)
    requires Distinct(s)
    ensures |Elems(s)| == |s|
  {
    if s != [] {
      var front, last := s[..|s| - 1], s[|s| - 1];
      DistinctCard(front);
      assert last !in Elems(front);
      assert Elems(s) == Elems(front) + {last};
    }
  }

  lemma SubsetCard(a: set<nat>, b: set<nat>)
    requires a <= b
    ensures |a| <= |b|
  {
    if a != {} {
      var x :| x in a;
      SubsetCard(a - {x}, b - {x});
    }
  }

  lemma NotMoreThan(a: seq<nat>, taken: seq<nat>)
    requires Distinct(a) && Distinct(taken)
    requires forall i :: 0 <= i < |a| ==> a[i] in taken
    ensures |a| <= |taken|
  {
    DistinctCard(a);
    DistinctCard(taken);
    SubsetCard(Elems(a), Elems(taken));
  }

  /** Nothing suits extent n-1, so the SSUs of any n extents are all taken. */
  lemma AllTaken(pool: seq<Resource>, online: seq<nat>, base: nat, rem: nat, n: nat, a: seq<nat>, taken: seq<nat>)
    requires Assignment(pool, online, base, rem, a) && 0 < n <= |a|
    requires FirstFit(pool, online, taken, ExtentLen(base, rem, n - 1)) == |online|
    ensures forall i :: 0 <= i < n ==> a[i] in taken
  {}

  /** When the greedy choice gets stuck, no assignment exists either: all SSUs with
      room for the current extent are taken, and the extents so far plus this one
      need one more of them, because lengths never grow. */
  lemma {:induction false} StuckMeansImpossible(pool: seq<Resource>, online: seq<nat>, base: nat, rem: nat, n: nat,
      a: seq<nat>)
    requires Select(pool, online, base, rem, n).None?
    requires Assignment(pool, online, base, rem, a)
    ensures |a| < n
  {
    if Select(pool, online, base, rem, n - 1).None? {
      StuckMeansImpossible(pool, online, base, rem, n - 1, a);
    } else if |a| >= n {
      var taken := Select(pool, online, base, rem, n - 1).value;
      SelectIsAssignment(pool, online, base, rem, n - 1);
      AllTaken(pool, online, base, rem, n, a, taken);
      NotMoreThan(a[..n], taken);
    }
  }

  ghost predicate Placeable(pool: seq<Resource>, online: seq<nat>, base: nat, rem: nat, n: nat) {
    exists a :: |a| == n && Assignment(pool, online, base, rem, a)
  }

  /** First fit is complete. */
  lemma SelectComplete(pool: seq<Resource>, online: seq<nat>, base: nat, rem: nat, n: nat)
    ensures Select(pool, online, base, rem, n).Some? <==> Placeable(pool, online, base, rem, n)
  {
    if Select(pool, online, base, rem, n).Some? {
      SelectIsAssignment(pool, online, base, rem, n);
    } else if Placeable(pool, online, base, rem, n) {
      var a :| |a| == n && Assignment(pool, online, base, rem, a);
      StuckMeansImpossible(pool, online, base, rem, n, a);
    }
  }

  /** The inner loop. */
  method FindFit(pool: seq<Resource>, online: seq<nat>, taken: seq<nat>, length: nat) returns (j: nat)
    ensures j == FirstFit(pool, online, taken, length)
  {
    j := 0;
    while j < |online| && !Suits(pool, online[j], taken, length)
      invariant j <= |online|
      invariant forall k :: 0 <= k < j ==> !Suits(pool, online[k], taken, length)
    {
      j := j + 1;
    }
  }

  method SelectPoolIndexes(pool: seq<Resource>, online: seq<nat>, count: nat, base: nat, rem: nat)
    returns (ok: bool, selected: seq<nat>)
    ensures ok <==> Placeable(pool, online, base, rem, count)
    ensures ok ==> |selected| == count && Assignment(pool, online, base, rem, selected)
    ensures Select(pool, online, base, rem, count) == if ok then Some(selected) else None
  {
    SelectComplete(pool, online, base, rem, count);
    ok, selected := true, [];
    var i := 0;
    while i < count && ok
      invariant 0 <= i <= count
      invariant Select(pool, online, base, rem, i) == if ok then Some(selected) else None
    {
      var j := FindFit(pool, online, selected, ExtentLen(base, rem, i));
      if j == |online| {
        ok := false;
      } else {
        selected := selected + [online[j]];
      }
      i := i + 1;
    }
    if ok {
      SelectIsAssignment(pool, online, base, rem, count);
    } else {
      NoneStays(pool, online, base, rem, i, count);
    }
  }

  lemma {:induction false} NoneStays(pool: seq<Resource>, online: seq<nat>, base: nat, rem: nat, m: nat, n: nat)
    requires m <= n && Select(pool, online, base, rem, m).None?
    ensures Select(pool, online, base, rem, n).None?
  {
    if m < n { NoneStays(pool, online, base, rem, m, n - 1); }
  }
}
