/** Fixed tables whose slots are free or hold a row: the shape of every table in
    the controller, the mock plugin and the kernel module. */
module Tables {
  import opened Types

  lemma TakeNext<T>(s: seq<T>, i: nat)
    requires i < |s|
    ensures s[..i + 1] == s[..i] + [s[i]]
  {}

  lemma TakeAll<T>(s: seq<T>)
    ensures s[..|s|] == s
  {}

  /** Cutting off the last element commutes with taking and dropping below it. */
  lemma FrontSlices<T>(s: seq<T>, i: nat)
    requires i < |s|
    ensures s[..|s| - 1][..i] == s[..i]
    ensures s[i..] == s[..|s| - 1][i..] + [s[|s| - 1]]
    ensures s == s[..|s| - 1] + [s[|s| - 1]]
  {}

  lemma {:induction false} JoinPrefixShorter(parts: seq<string>, sep: char, i: nat)
    requires i <= |parts|
    ensures |Join(parts[..i], sep)| <= |Join(parts, sep)|
  {
    if i < |parts| {
      assert parts[..|parts| - 1][..i] == parts[..i];
      JoinPrefixShorter(parts[..|parts| - 1], sep, i);
    } else {
      TakeAll(parts);
    }
  }

  /** The first free slot, or the table size when there is none. */
  function FirstFree<T>(t: seq<Option<T>>): (i: nat)
    ensures i <= |t|
    ensures i < |t| ==> t[i].None?
    ensures forall j :: 0 <= j < i ==> t[j].Some?
  {
    if t == [] || t[0].None? then 0 else 1 + FirstFree(t[1..])
  }

  function FreeCount<T>(t: seq<Option<T>>): nat {
    if t == [] then 0
    else FreeCount(t[..|t| - 1]) + if t[|t| - 1].None? then 1 else 0
  }

  /** The view of every row whose key is k, in slot order. */
  function Pick<T, U>(t: seq<Option<T>>, key: T -> string, view: T -> U, k: string): seq<U> {
    if t == [] then []
    else
      var last := t[|t| - 1];
      Pick(t[..|t| - 1], key, view, k) +
      if Carries(last, key, k) then [view(last.value)] else []
  }

  predicate Has<T>(t: seq<Option<T>>, key: T -> string, k: string) {
    Find(t, key, k) < |t|
  }

  predicate Carries<T>(s: Option<T>, key: T -> string, k: string) { s.Some? && key(s.value) == k }

  /** The first slot whose row has key k, or the table size. */
  function Find<T>(t: seq<Option<T>>, key: T -> string, k: string): (i: nat)
    ensures i <= |t|
    ensures i < |t| ==> Carries(t[i], key, k)
    ensures forall j :: 0 <= j < i ==> !Carries(t[j], key, k)
  {
    if t == [] || Carries(t[0], key, k) then 0 else 1 + Find(t[1..], key, k)
  }

  /** The table with x in its first free slot. */
  function Put<T>(t: seq<Option<T>>, x: T): seq<Option<T>>
    requires FirstFree(t) < |t|
  {
    t[FirstFree(t) := Some(x)]
  }

  /** The rows xs put one after the other. */
  function PutAll<T>(t: seq<Option<T>>, xs: seq<T>): (r: seq<Option<T>>)
    requires FreeCount(t) >= |xs|
    ensures |r| == |t| && FreeCount(r) == FreeCount(t) - |xs|
  {
    if xs == [] then t
    else
      var front := PutAll(t, xs[..|xs| - 1]);
      FreeCountPositive(front);
      FreeCountUpdate(front, FirstFree(front), Some(xs[|xs| - 1]));
      Put(front, xs[|xs| - 1])
  }

  lemma {:induction false} FreeCountConcat<T>(a: seq<Option<T>>, b: seq<Option<T>>)
    ensures FreeCount(a + b) == FreeCount(a) + FreeCount(b)
  {
    if b == [] {
      assert a + b == a;
    } else {
      assert (a + b)[..|a + b| - 1] == a + b[..|b| - 1];
      FreeCountConcat(a, b[..|b| - 1]);
    }
  }

  lemma {:induction false} FreeCountUpdate<T>(t: seq<Option<T>>, i: nat, x: Option<T>)
    requires i < |t|
    ensures FreeCount(t[i := x]) == FreeCount(t) - (if t[i].None? then 1 else 0) + (if x.None? then 1 else 0)
  {
    assert t == t[..i] + [t[i]] + t[i + 1..];
    assert t[i := x] == t[..i] + [x] + t[i + 1..];
    FreeCountConcat(t[..i] + [t[i]], t[i + 1..]);
    FreeCountConcat(t[..i] + [x], t[i + 1..]);
    FreeCountConcat(t[..i], [t[i]]);
    FreeCountConcat(t[..i], [x]);
    assert FreeCount([t[i]]) == if t[i].None? then 1 else 0;
    assert FreeCount([x]) == if x.None? then 1 else 0;
  }

  lemma {:induction false} FreeCountPositive<T>(t: seq<Option<T>>)
    ensures FreeCount(t) > 0 <==> FirstFree(t) < |t|
  {
    if t != [] {
      var n := |t| - 1;
      FreeCountPositive(t[..n]);
      if FirstFree(t) < n {
        assert t[..n][FirstFree(t)].None?;
      }
    }
  }

  lemma {:induction false} PickConcat<T, U>(a: seq<Option<T>>, b: seq<Option<T>>, key: T -> string, view: T -> U,
      k: string)
    ensures Pick(a + b, key, view, k) == Pick(a, key, view, k) + Pick(b, key, view, k)
  {
    if b == [] {
      assert a + b == a;
    } else {
      assert (a + b)[..|a + b| - 1] == a + b[..|b| - 1];
      PickConcat(a, b[..|b| - 1], key, view, k);
    }
  }

  /** One slot's share of a pick. */
  function Share<T, U>(s: Option<T>, key: T -> string, view: T -> U, k: string): seq<U> {
    if Carries(s, key, k) then [view(s.value)] else []
  }

  lemma {:induction false} PickSplit<T, U>(t: seq<Option<T>>, i: nat, x: Option<T>, key: T -> string, view: T -> U,
      k: string)
    requires i < |t|
    ensures Pick(t, key, view, k) == Pick(t[..i], key, view, k) + Share(t[i], key, view, k)
      + Pick(t[i + 1..], key, view, k)
    ensures Pick(t[i := x], key, view, k) == Pick(t[..i], key, view, k) + Share(x, key, view, k)
      + Pick(t[i + 1..], key, view, k)
  {
    assert t == (t[..i] + [t[i]]) + t[i + 1..];
    assert t[i := x] == (t[..i] + [x]) + t[i + 1..];
    PickConcat(t[..i] + [t[i]], t[i + 1..], key, view, k);
    PickConcat(t[..i] + [x], t[i + 1..], key, view, k);
    PickConcat(t[..i], [t[i]], key, view, k);
    PickConcat(t[..i], [x], key, view, k);
    assert [t[i]][..0] == [] && [x][..0] == [];
  }

  /** A slot that does not carry the key before or after leaves the pick alone. */
  lemma {:induction false} PickOther<T, U>(t: seq<Option<T>>, i: nat, x: Option<T>, key: T -> string, view: T -> U,
      k: string)
    requires i < |t|
    requires !Carries(t[i], key, k) && !Carries(x, key, k)
    ensures Pick(t[i := x], key, view, k) == Pick(t, key, view, k)
  {
    PickSplit(t, i, x, key, view, k);
  }

  lemma HasSome<T>(t: seq<Option<T>>, key: T -> string, k: string)
    ensures Has(t, key, k) <==> exists i :: 0 <= i < |t| && Carries(t[i], key, k)
  {
    assert Has(t, key, k) ==> Carries(t[Find(t, key, k)], key, k);
  }

  lemma {:induction false} PickNone<T, U>(t: seq<Option<T>>, key: T -> string, view: T -> U, k: string)
    ensures Pick(t, key, view, k) == [] <==> !Has(t, key, k)
  {
    HasSome(t, key, k);
    if t != [] {
      var n := |t| - 1;
      PickNone(t[..n], key, view, k);
      HasSome(t[..n], key, k);
      assert forall i :: 0 <= i < n ==> t[..n][i] == t[i];
    }
  }

  /** Every row with the key is in the pick, and nothing else. */
  lemma {:induction false} PickIn<T, U>(t: seq<Option<T>>, key: T -> string, view: T -> U, k: string, i: nat)
    requires i < |t| && Carries(t[i], key, k)
    ensures view(t[i].value) in Pick(t, key, view, k)
  {
    if i < |t| - 1 { PickIn(t[..|t| - 1], key, view, k, i); }
  }

  lemma {:induction false} PickFrom<T, U>(t: seq<Option<T>>, key: T -> string, view: T -> U, k: string, u: U)
    returns (i: nat)
    requires u in Pick(t, key, view, k)
    ensures i < |t| && Carries(t[i], key, k) && view(t[i].value) == u
  {
    var n := |t| - 1;
    if Carries(t[n], key, k) && view(t[n].value) == u {
      i := n;
    } else {
      i := PickFrom(t[..n], key, view, k, u);
    }
  }

  /** Two tables, possibly of different row types, that agree slot by slot on who
      carries the key and on the view give the same pick. */
  lemma {:induction false} PickAgree<S, T, U>(a: seq<Option<S>>, b: seq<Option<T>>,
      keyA: S -> string, viewA: S -> U, keyB: T -> string, viewB: T -> U, k: string, kB: string)
    requires |a| == |b|
    requires forall i :: 0 <= i < |a| ==> Share(a[i], keyA, viewA, k) == Share(b[i], keyB, viewB, kB)
    ensures Pick(a, keyA, viewA, k) == Pick(b, keyB, viewB, kB)
  {
    if a != [] {
      var n := |a| - 1;
      forall i | 0 <= i < n ensures Share(a[..n][i], keyA, viewA, k) == Share(b[..n][i], keyB, viewB, kB) {
        assert a[..n][i] == a[i] && b[..n][i] == b[i];
      }
      PickAgree(a[..n], b[..n], keyA, viewA, keyB, viewB, k, kB);
      assert Share(a[n], keyA, viewA, k) == Share(b[n], keyB, viewB, kB);
    }
  }

  /** No slot from i on carries the key k. */
  predicate Below<T>(t: seq<Option<T>>, key: T -> string, k: string, i: nat) {
    forall j :: i <= j < |t| ==> !Carries(t[j], key, k)
  }

  /** Putting a row with key k when every such row sits below the first free slot
      appends it to the pick, and the next first free slot is above it. */
  lemma {:induction false} PickPut<T, U>(t: seq<Option<T>>, x: T, key: T -> string, view: T -> U, k: string)
    requires FirstFree(t) < |t|
    requires key(x) == k ==> Below(t, key, k, FirstFree(t))
    ensures Pick(Put(t, x), key, view, k) == Pick(t, key, view, k) + Share(Some(x), key, view, k)
  {
    var f := FirstFree(t);
    PickSplit(t, f, Some(x), key, view, k);
    if key(x) == k {
      PickAbove(t, key, view, k, f + 1);
    }
    ShareInserted(Pick(t[..f], key, view, k), Share(Some(x), key, view, k), Pick(t[f + 1..], key, view, k));
  }

  lemma ShareInserted<U>(a: seq<U>, s: seq<U>, b: seq<U>)
    requires s == [] || b == []
    ensures a + s + b == (a + [] + b) + s
  {}

  lemma PutBelow<T>(t: seq<Option<T>>, x: T, key: T -> string, k: string)
    requires FirstFree(t) < |t|
    requires Below(t, key, k, FirstFree(t))
    ensures Below(Put(t, x), key, k, FirstFree(Put(t, x)))
  {
    FirstFreeUp(t, x);
  }

  lemma FirstFreeUp<T>(t: seq<Option<T>>, x: T)
    requires FirstFree(t) < |t|
    ensures FirstFree(t) < FirstFree(Put(t, x))
  {
    assert forall j :: 0 <= j <= FirstFree(t) ==> Put(t, x)[j].Some?;
  }

  lemma PickAbove<T, U>(t: seq<Option<T>>, key: T -> string, view: T -> U, k: string, i: nat)
    requires i <= |t| && Below(t, key, k, i)
    ensures Pick(t[i..], key, view, k) == []
  {
    PickNone(t[i..], key, view, k);
  }

  lemma {:induction false} PickPutAll<T, U>(t: seq<Option<T>>, xs: seq<T>, key: T -> string, view: T -> U, k: string,
      us: seq<U>)
    requires FreeCount(t) >= |xs| == |us|
    requires !Has(t, key, k)
    requires forall j :: 0 <= j < |xs| ==> key(xs[j]) == k && view(xs[j]) == us[j]
    ensures Pick(PutAll(t, xs), key, view, k) == us
    ensures xs == [] || Below(PutAll(t, xs), key, k, FirstFree(PutAll(t, xs)))
  {
    PickNone(t, key, view, k);
    if xs != [] {
      var n := |xs| - 1;
      var front := PutAll(t, xs[..n]);
      PickPutAll(t, xs[..n], key, view, k, us[..n]);
      FreeCountPositive(front);
      PickPut(front, xs[n], key, view, k);
      PutBelow(front, xs[n], key, k);
      assert us == us[..n] + [us[n]];
    }
  }

  lemma {:induction false} PickPutAllOther<T, U>(t: seq<Option<T>>, xs: seq<T>, key: T -> string, view: T -> U,
      k: string)
    requires FreeCount(t) >= |xs|
    requires forall j :: 0 <= j < |xs| ==> key(xs[j]) != k
    ensures Pick(PutAll(t, xs), key, view, k) == Pick(t, key, view, k)
  {
    if xs != [] {
      var n := |xs| - 1;
      var front := PutAll(t, xs[..n]);
      PickPutAllOther(t, xs[..n], key, view, k);
      FreeCountPositive(front);
      PickOther(front, FirstFree(front), Some(xs[n]), key, view, k);
    }
  }

  /** Every row after PutAll was there before or is one of the rows put. */
  lemma {:induction false} PutAllRows<T>(t: seq<Option<T>>, xs: seq<T>)
    requires FreeCount(t) >= |xs|
    ensures forall i :: 0 <= i < |t| && t[i].Some? ==> PutAll(t, xs)[i] == t[i]
    ensures forall i :: 0 <= i < |t| && t[i].None? && PutAll(t, xs)[i].Some? ==> PutAll(t, xs)[i].value in xs
  {
    if xs != [] {
      PutAllRows(t, xs[..|xs| - 1]);
    }
  }

  /** The table without the rows of key k. */
  function Drop<T>(t: seq<Option<T>>, key: T -> string, k: string): (r: seq<Option<T>>)
    ensures |r| == |t|
    ensures forall i :: 0 <= i < |t| ==> r[i] == if Carries(t[i], key, k) then None else t[i]
  {
    if t == [] then []
    else Drop(t[..|t| - 1], key, k) + [if Carries(t[|t| - 1], key, k) then None else t[|t| - 1]]
  }

  /** Dropping one key leaves the picks of the others. */
  lemma DropPick<T, U>(t: seq<Option<T>>, key: T -> string, k: string, view: T -> U, k2: string)
    requires k2 != k
    ensures Pick(Drop(t, key, k), key, view, k2) == Pick(t, key, view, k2)
  {
    PickAgree(Drop(t, key, k), t, key, view, key, view, k2, k2);
  }
}
