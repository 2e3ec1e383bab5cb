/** The canonical form of a host list: sorted, joined by commas, bounded. */
module HostKey {
  import opened Types
  import opened Tables

  const KEY_SIZE: nat := 256

  /** strcmp(a, b) <= 0. */
  predicate Le(a: string, b: string) {
    a == [] || (b != [] && (a[0] < b[0] || (a[0] == b[0] && Le(a[1..], b[1..]))))
  }

  lemma {:induction false} LeTotal(a: string, b: string)
    ensures Le(a, b) || Le(b, a)
    ensures Le(a, b) && Le(b, a) ==> a == b
    ensures Le(a, a)
  {
    if a != [] && b != [] && a[0] == b[0] {
      LeTotal(a[1..], b[1..]);
      assert a == [a[0]] + a[1..] && b == [b[0]] + b[1..];
    }
    if a != [] { LeTotal(a[1..], a[1..]); }
  }

  lemma {:induction false} LeTransitive(a: string, b: string, c: string)
    requires Le(a, b) && Le(b, c)
    ensures Le(a, c)
  {
    if a != [] && a[0] == b[0] == c[0] {
      LeTransitive(a[1..], b[1..], c[1..]);
    }
  }

  /** One round of insertion sort: h moves left past everything larger. */
  function Insert(s: seq<string>, h: string): (r: seq<string>)
    ensures |r| == |s| + 1
    ensures multiset(r) == multiset(s) + multiset{h}
  {
    if s == [] || Le(s[|s| - 1], h) then s + [h]
    else
      assert s == s[..|s| - 1] + [s[|s| - 1]];
      Insert(s[..|s| - 1], h) + [s[|s| - 1]]
  }

  function Sort(s: seq<string>): (r: seq<string>)
    ensures |r| == |s| && multiset(r) == multiset(s)
  {
    if s == [] then []
    else
      assert s == s[..|s| - 1] + [s[|s| - 1]];
      Insert(Sort(s[..|s| - 1]), s[|s| - 1])
  }

  /** Every host is at least as large as all before it. */
  predicate Ascending(s: seq<string>) {
    forall i, j :: 0 <= i < j < |s| ==> Le(s[i], s[j])
  }

  lemma InsertMembers(s: seq<string>, h: string)
    ensures forall x :: x in Insert(s, h) ==> x in s || x == h
  {}

  lemma {:induction false} InsertAscending(s: seq<string>, h: string)
    requires Ascending(s)
    ensures Ascending(Insert(s, h))
  {
    if s != [] {
      var last := s[|s| - 1];
      LeTotal(last, h);
      if Le(last, h) {
        forall i | 0 <= i < |s| ensures Le(s[i], h) {
          LeTotal(last, last);
          LeTransitive(s[i], last, h);
        }
      } else {
        var front := s[..|s| - 1];
        InsertAscending(front, h);
        InsertMembers(front, h);
        assert forall x :: x in Insert(front, h) ==> Le(x, last);
      }
    }
  }

  lemma {:induction false} SortAscending(s: seq<string>)
    ensures Ascending(Sort(s))
  {
    if s != [] {
      SortAscending(s[..|s| - 1]);
      InsertAscending(Sort(s[..|s| - 1]), s[|s| - 1]);
    }
  }

  lemma LastGreatest(s: seq<string>, x: string)
    requires Ascending(s) && x in s
    ensures Le(x, s[|s| - 1])
  {
    LeTotal(x, x);
  }

  lemma FrontMultiset(s: seq<string>)
    requires s != []
    ensures multiset(s[..|s| - 1]) == multiset(s) - multiset{s[|s| - 1]}
    ensures s[|s| - 1] in multiset(s)
  {
    FrontSlices(s, 0);
    assert multiset(s[..|s| - 1] + [s[|s| - 1]]) == multiset(s[..|s| - 1]) + multiset{s[|s| - 1]};
  }

  /** An ascending sequence is determined by its elements. */
  lemma {:induction false} AscendingUnique(a: seq<string>, b: seq<string>)
    requires Ascending(a) && Ascending(b) && multiset(a) == multiset(b)
    ensures a == b
    decreases |a|
  {
    assert |a| == |multiset(a)| == |multiset(b)| == |b|;
    if a != [] {
      FrontMultiset(a);
      FrontMultiset(b);
      assert a[|a| - 1] in b && b[|b| - 1] in a;
      LastGreatest(b, a[|a| - 1]);
      LastGreatest(a, b[|b| - 1]);
      LeTotal(a[|a| - 1], b[|b| - 1]);
      AscendingUnique(a[..|a| - 1], b[..|b| - 1]);
      FrontSlices(a, 0);
      FrontSlices(b, 0);
    }
  }

  predicate ValidHost(h: string) { h != [] && ',' !in h }

  predicate ValidHosts(hosts: seq<string>) {
    |hosts| <= MAX_HOSTS && forall i :: 0 <= i < |hosts| ==> ValidHost(hosts[i])
  }

  /** The key, or None for a list that is refused. */
  function Key(hosts: seq<string>): Option<string> {
    if !ValidHosts(hosts) then None
    else
      var key := Join(Sort(hosts), ',');
      if |key| < KEY_SIZE then Some(key) else None
  }

  lemma LaterComma(p: string, x: string, q: string, y: string)
    requires p + [','] + x == q + [','] + y && |p| < |q|
    ensures ',' in x
  {
    assert (p + [','] + x)[|q|] == ',';
    assert (p + [','] + x)[|q|] == x[|q| - |p| - 1];
  }

  /** Cuts the last host off a joined list. */
  lemma JoinLast(p: string, x: string, q: string, y: string)
    requires ',' !in x && ',' !in y
    requires p + [','] + x == q + [','] + y
    ensures p == q && x == y
  {
    if |p| < |q| {
      LaterComma(p, x, q, y);
    } else if |q| < |p| {
      LaterComma(q, y, p, x);
    } else {
      assert p == (p + [','] + x)[..|p|] && q == (q + [','] + y)[..|q|];
      assert x == (p + [','] + x)[|p| + 1..] && y == (q + [','] + y)[|q| + 1..];
    }
  }

  lemma {:induction false} JoinCommas(hosts: seq<string>)
    requires forall i :: 0 <= i < |hosts| ==> ValidHost(hosts[i])
    ensures Join(hosts, ',') == [] <==> hosts == []
    ensures |hosts| >= 2 ==> ',' in Join(hosts, ',')
  {}

  lemma {:induction false} JoinInjective(a: seq<string>, b: seq<string>)
    requires forall i :: 0 <= i < |a| ==> ValidHost(a[i])
    requires forall i :: 0 <= i < |b| ==> ValidHost(b[i])
    requires Join(a, ',') == Join(b, ',')
    ensures a == b
    decreases |a|
  {
    JoinCommas(a);
    JoinCommas(b);
    if |a| >= 2 && |b| >= 2 {
      JoinLast(Join(a[..|a| - 1], ','), a[|a| - 1], Join(b[..|b| - 1], ','), b[|b| - 1]);
      JoinInjective(a[..|a| - 1], b[..|b| - 1]);
      FrontSlices(a, 0);
      FrontSlices(b, 0);
    }
  }

  lemma ValidPermuted(a: seq<string>, b: seq<string>)
    requires multiset(a) == multiset(b) && ValidHosts(a)
    ensures ValidHosts(b)
  {
    assert |a| == |multiset(a)| == |multiset(b)| == |b|;
    forall i | 0 <= i < |b| ensures ValidHost(b[i]) {
      assert b[i] in multiset(b);
      assert b[i] in a;
    }
  }

  /** Acceptance and key depend on the hosts only, not on their order. */
  lemma KeyIgnoresOrder(a: seq<string>, b: seq<string>)
    requires multiset(a) == multiset(b)
    ensures Key(a) == Key(b)
  {
    SortAscending(a);
    SortAscending(b);
    AscendingUnique(Sort(a), Sort(b));
    if ValidHosts(a) { ValidPermuted(a, b); }
    if ValidHosts(b) { ValidPermuted(b, a); }
  }

  /** For accepted lists the keys agree exactly when the lists are permutations. */
  lemma KeyCanonical(a: seq<string>, b: seq<string>)
    requires Key(a).Some? && Key(b).Some?
    ensures Key(a) == Key(b) <==> multiset(a) == multiset(b)
  {
    if multiset(a) == multiset(b) {
      KeyIgnoresOrder(a, b);
    }
    if Key(a) == Key(b) {
      ValidPermuted(a, Sort(a));
      ValidPermuted(b, Sort(b));
      JoinInjective(Sort(a), Sort(b));
    }
  }

  /** The characters of all hosts together. */
  function TotalLength(hosts: seq<string>): nat {
    if hosts == [] then 0 else TotalLength(hosts[..|hosts| - 1]) + |hosts[|hosts| - 1]|
  }

  lemma {:induction false} InsertLength(s: seq<string>, h: string)
    ensures TotalLength(Insert(s, h)) == TotalLength(s) + |h|
  {
    if s != [] && !Le(s[|s| - 1], h) {
      InsertLength(s[..|s| - 1], h);
      assert (Insert(s[..|s| - 1], h) + [s[|s| - 1]])[..|s|] == Insert(s[..|s| - 1], h);
    } else {
      assert (s + [h])[..|s|] == s;
    }
  }

  lemma {:induction false} SortLength(s: seq<string>)
    ensures TotalLength(Sort(s)) == TotalLength(s)
  {
    if s != [] {
      SortLength(s[..|s| - 1]);
      InsertLength(Sort(s[..|s| - 1]), s[|s| - 1]);
    }
  }

  lemma {:induction false} JoinLength(hosts: seq<string>)
    ensures |Join(hosts, ',')| == TotalLength(hosts) + if hosts == [] then 0 else |hosts| - 1
  {
    if |hosts| > 1 { JoinLength(hosts[..|hosts| - 1]); }
  }

  /** A list is accepted exactly when it names at most 32 hosts, none empty or with a
      comma, and their names with a comma between each two fit 255 characters. */
  lemma AcceptedIff(hosts: seq<string>)
    ensures Key(hosts).Some? <==>
      && |hosts| <= 32 && (forall i :: 0 <= i < |hosts| ==> hosts[i] != [] && ',' !in hosts[i])
      && TotalLength(hosts) + |hosts| <= 256
  {
    SortLength(hosts);
    JoinLength(Sort(hosts));
  }

  lemma {:induction false} InsertShift(s: seq<string>, j: nat, h: string)
    requires j <= |s|
    requires forall i :: j <= i < |s| ==> !Le(s[i], h)
    ensures Insert(s, h) == Insert(s[..j], h) + s[j..]
  {
    if j < |s| {
      FrontSlices(s, j);
      InsertShift(s[..|s| - 1], j, h);
    } else {
      TakeAll(s);
    }
  }

  /** Where the inner loop stops, h lands between the two parts of s. */
  lemma InsertAt(s: seq<string>, j: nat, h: string)
    requires j <= |s|
    requires forall i :: j <= i < |s| ==> !Le(s[i], h)
    requires j > 0 ==> Le(s[j - 1], h)
    ensures Insert(s, h) == s[..j] + [h] + s[j..]
  {
    InsertShift(s, j, h);
    InsertLast(s[..j], h);
  }

  lemma InsertLast(s: seq<string>, h: string)
    requires s == [] || Le(s[|s| - 1], h)
    ensures Insert(s, h) == s + [h]
  {}

  /** The in-place insertion sort. */
  method SortInPlace(a: array<string>)
    modifies a
    ensures a[..] == Sort(old(a[..]))
  {
    ghost var input := a[..];
    for i := 0 to a.Length
      invariant a[..i] == Sort(input[..i])
      invariant a[i..] == input[i..]
    {
      assert a[i] == a[i..][0] == input[i];
      SortStep(a, i);
      SortNext(input, i);
      assert a[i + 1..] == input[i..][1..];
    }
    TakeAll(input);
  }

  lemma SortNext(s: seq<string>, i: nat)
    requires i < |s|
    ensures Sort(s[..i + 1]) == Insert(Sort(s[..i]), s[i])
  {
    assert s[..i + 1][..i] == s[..i];
  }

  /** after is before with host, found at i, moved down to j. */
  predicate Moved(before: seq<string>, after: seq<string>, i: nat, j: nat, host: string)
    requires |before| == |after| && j <= i < |after|
  {
    && after[j] == host
    && (forall k :: 0 <= k < j ==> after[k] == before[k])
    && (forall k :: j < k <= i ==> after[k] == before[k - 1])
    && (forall k :: i < k < |after| ==> after[k] == before[k])
  }

  lemma MovedInserts(before: seq<string>, after: seq<string>, i: nat, j: nat, host: string)
    requires |before| == |after| && j <= i < |after| && Moved(before, after, i, j, host)
    requires forall k :: j <= k < i ==> !Le(before[k], host)
    requires j > 0 ==> Le(before[j - 1], host)
    ensures after[..i + 1] == Insert(before[..i], host)
    ensures after[i + 1..] == before[i..][1..]
  {
    InsertAt(before[..i], j, host);
    MovedParts(before, after, i, j, host);
  }

  lemma MovedParts(before: seq<string>, after: seq<string>, i: nat, j: nat, host: string)
    requires |before| == |after| && j <= i < |after| && Moved(before, after, i, j, host)
    ensures after[..i + 1] == before[..i][..j] + [host] + before[..i][j..]
    ensures after[i + 1..] == before[i..][1..]
  {}

  method SortStep(a: array<string>, i: nat)
    requires i < a.Length
    modifies a
    ensures a[..i + 1] == Insert(old(a[..i]), old(a[i]))
    ensures a[i + 1..] == old(a[i..])[1..]
  {
    ghost var before := a[..];
    var host := a[i];
    var j := i;
    while j > 0 && !Le(a[j - 1], host)
      invariant 0 <= j <= i
      invariant forall k :: 0 <= k < j ==> a[k] == before[k]
      invariant forall k :: j < k <= i ==> a[k] == before[k - 1]
      invariant forall k :: j <= k < i ==> !Le(before[k], host)
      invariant forall k :: i < k < a.Length ==> a[k] == before[k]
    {
      a[j] := a[j - 1];
      j := j - 1;
    }
    a[j] := host;
    MovedInserts(before, a[..], i, j, host);
    assert a[..][..i + 1] == a[..i + 1] && a[..][i + 1..] == a[i + 1..];
    assert before[..i] == old(a[..i]) && before[i..] == old(a[i..]);
  }

  /** Checks, sorts, and appends host by host into the bounded buffer. */
  method BuildHostKey(hosts: seq<string>) returns (key: Option<string>)
    ensures key == Key(hosts)
  {
    if |hosts| > MAX_HOSTS {
      return None;
    }
    for i := 0 to |hosts|
      invariant forall j :: 0 <= j < i ==> ValidHost(hosts[j])
    {
      if !ValidHost(hosts[i]) {
        return None;
      }
    }
    var ordered := new string[|hosts|](i requires 0 <= i < |hosts| => hosts[i]);
    assert ordered[..] == hosts;
    SortInPlace(ordered);
    key := AppendAll(ordered[..]);
  }

  method AppendAll(ordered: seq<string>) returns (key: Option<string>)
    ensures key == if |Join(ordered, ',')| < KEY_SIZE then Some(Join(ordered, ',')) else None
  {
    var out := "";
    for i := 0 to |ordered|
      invariant out == Join(ordered[..i], ',') && |out| < KEY_SIZE
    {
      TakeNext(ordered, i);
      assert (ordered[..i] + [ordered[i]])[..i] == ordered[..i];
      out := out + (if i > 0 then "," else "") + ordered[i];
      assert out == Join(ordered[..i + 1], ',');
      if |out| >= KEY_SIZE {
        JoinPrefixShorter(ordered, ',', i + 1);
        return None;
      }
    }
    TakeAll(ordered);
    return Some(out);
  }
}
