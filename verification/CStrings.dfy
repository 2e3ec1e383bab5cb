/** C strings in character buffers: printing into one with a bound, and cutting one
    into tokens in place, as strtok_r does. */
module CStrings {
  import opened Types

  const NUL: char := '\0'

  type CString = s: string | NUL !in s

  /** The string that starts at i. */
  function CStr(b: seq<char>, i: nat): (s: CString)
    requires i <= |b|
    ensures i + |s| <= |b| && b[i..i + |s|] == s
    ensures i + |s| < |b| ==> b[i + |s|] == NUL
    decreases |b| - i
  {
    if i == |b| || b[i] == NUL then [] else [b[i]] + CStr(b, i + 1)
  }

  /** The string t, closed by a NUL, lies at i. */
  predicate Holds(b: seq<char>, i: nat, t: string) {
    i + |t| < |b| && b[i..i + |t|] == t && b[i + |t|] == NUL
  }

  lemma HoldsCStr(b: seq<char>, i: nat, t: CString)
    requires Holds(b, i, t)
    ensures CStr(b, i) == t
  {}

  // ---- tokens ----

  function SkipDelim(s: string, d: char): (r: string)
    ensures |r| <= |s| && (r == [] || r[0] != d)
    ensures NUL !in s ==> NUL !in r
  {
    if s != [] && s[0] == d then SkipDelim(s[1..], d) else s
  }

  /** What stands before the first delimiter. */
  function Token(s: string, d: char): (t: string)
    ensures t <= s && d !in t
    ensures |t| < |s| ==> s[|t|] == d
  {
    if s == [] || s[0] == d then [] else [s[0]] + Token(s[1..], d)
  }

  /** What stands behind the first delimiter. */
  function Rest(s: string, d: char): (r: string)
    ensures NUL !in s ==> NUL !in r
  {
    if |Token(s, d)| == |s| then [] else s[|Token(s, d)| + 1..]
  }

  /** The non-empty stretches between delimiters. */
  function Tokens(s: string, d: char): seq<string>
    decreases |s|
  {
    var t := SkipDelim(s, d);
    if t == [] then [] else [Token(t, d)] + Tokens(Rest(t, d), d)
  }

  lemma TokenOf(x: string, y: string, d: char)
    requires d !in x && (y == [] || y[0] == d)
    ensures Token(x + y, d) == x
  {
    var t := Token(x + y, d);
    assert forall k :: 0 <= k < |x| ==> (x + y)[k] == x[k];
    assert forall k :: 0 <= k < |t| ==> (x + y)[k] == t[k];
    assert |y| > 0 ==> (x + y)[|x|] == y[0];
  }

  lemma {:induction false} JoinFirst(ts: seq<string>, d: char)
    requires |ts| >= 2
    ensures Join(ts, d) == ts[0] + ([d] + Join(ts[1..], d))
  {
    var n := |ts| - 1;
    if n == 1 {
      assert ts[..1][0] == ts[0] && ts[1..] == [ts[1]];
      assert ts[0] + [d] + ts[1] == ts[0] + ([d] + ts[1]);
    } else {
      JoinFirst(ts[..n], d);
      assert ts[..n][1..] == ts[1..][..n - 1];
      assert Join(ts[1..], d) == Join(ts[1..][..n - 1], d) + [d] + ts[n];
      assert ts[0] + ([d] + Join(ts[..n][1..], d)) + [d] + ts[n] == ts[0]
        + ([d] + (Join(ts[..n][1..], d) + [d] + ts[n]));
    }
  }

  /** A list of tokens that can be told apart again. */
  predicate Separable(ts: seq<string>, d: char) {
    forall i :: 0 <= i < |ts| ==> ts[i] != [] && d !in ts[i]
  }

  lemma TokensCons(x: string, rest: string, d: char)
    requires x != [] && d !in x
    ensures Tokens(x, d) == [x]
    ensures Tokens(x + ([d] + rest), d) == [x] + Tokens(rest, d)
  {
    LastToken(x, d);
    FirstToken(x, rest, x + ([d] + rest), d);
  }

  lemma LastToken(x: string, d: char)
    requires x != [] && d !in x
    ensures Tokens(x, d) == [x]
  {
    TokenOf(x, [], d);
    assert x + [] == x;
  }

  lemma FirstToken(x: string, rest: string, s: string, d: char)
    requires x != [] && d !in x && s == x + ([d] + rest)
    ensures Tokens(s, d) == [x] + Tokens(rest, d)
  {
    TokenOf(x, [d] + rest, d);
    assert s[|x| + 1..] == rest;
    assert s[0] == x[0];
    assert SkipDelim(s, d) == s && Rest(s, d) == rest;
  }

  /** Cutting undoes joining. */
  lemma {:induction false} TokensJoin(ts: seq<string>, d: char)
    requires Separable(ts, d)
    ensures Tokens(Join(ts, d), d) == ts
  {
    if |ts| == 1 {
      TokensCons(ts[0], [], d);
    } else if |ts| >= 2 {
      JoinFirst(ts, d);
      TokensCons(ts[0], Join(ts[1..], d), d);
      TokensJoin(ts[1..], d);
      assert ts == [ts[0]] + ts[1..];
    }
  }

  /** A joined list has no characters but those of its parts and the separator. */
  lemma {:induction false} JoinChars(ts: seq<string>, d: char, c: char)
    requires c != d && forall i :: 0 <= i < |ts| ==> c !in ts[i]
    ensures c !in Join(ts, d)
  {
    if |ts| >= 2 {
      JoinChars(ts[..|ts| - 1], d, c);
    }
  }

  /** after differs from before only by NULs put over delimiters in [lo, hi). */
  ghost predicate CutBetween(before: seq<char>, after: seq<char>, lo: int, hi: int) {
    && |after| == |before|
    && forall k :: 0 <= k < |before| && after[k] != before[k] ==> lo <= k < hi && before[k] != NUL
  }

  /** A token outside the range that is being cut stays what it is. */
  lemma CutKeeps(before: seq<char>, after: seq<char>, lo: int, hi: int, i: nat, t: CString)
    requires CutBetween(before, after, lo, hi) && Holds(before, i, t)
    requires i + |t| <= lo || hi <= i
    ensures Holds(after, i, t)
  {}

  /** What one call of strtok_r does to the buffer b with a string in [save, end): c is
      the buffer afterwards, tok the position of the token t, and the rest lies at next. */
  ghost predicate TokStep(b: seq<char>, c: seq<char>, save: nat, end: nat, tok: Option<nat>, next: nat, t: string,
      rest: string)
  {
    && CutBetween(b, c, save, end)
    && save <= next && next + |rest| <= end && Holds(c, next, rest)
    && (tok.Some? ==> save <= tok.value && Points(c, tok.value, t, next))
  }

  ghost predicate Points(b: seq<char>, p: nat, t: string, end: nat) { NUL !in t && Holds(b, p, t) && p + |t| <= end }

  /** The scan for a token's start has stopped at p. */
  ghost predicate Skipped(b: seq<char>, save: nat, p: nat, d: char) {
    && save <= p < |b| && p + |CStr(b, p)| == save + |CStr(b, save)| < |b|
    && CStr(b, p) == SkipDelim(CStr(b, save), d)
    && (b[p] == NUL <==> CStr(b, p) == [])
  }

  /** The token in [p, e), closed at e, and the rest of the string behind it. */
  lemma CutHere(b: seq<char>, c: seq<char>, save: nat, p: nat, e: nat, end: nat)
    requires save <= p <= e < end < |b| && b[end] == NUL && NUL !in b[p..e] && b[e] != NUL && c == b[e := NUL]
    ensures TokStep(b, c, save, end, Some(p), e + 1, b[p..e], b[e + 1..end])
  {}

  /** strtok_r with one delimiter, on the string at save. It closes the token with
      a NUL in the buffer and returns where to go on. */
  method StrtokR(buf: array<char>, save: nat, d: char) returns (tok: Option<nat>, next: nat)
    requires save <= buf.Length && save + |CStr(buf[..], save)| < buf.Length && d != NUL
    modifies buf
    ensures Strtok(old(buf[..]), buf[..], save, d, tok, next)
  {
    ghost var b := buf[..];
    var p := SkipDelims(buf, save, d);
    if buf[p] == NUL {
      StrtokNone(b, save, p, d);
      return None, p;
    }
    var e := ScanToken(buf, p, d);
    if buf[e] == NUL {
      StrtokEnd(b, save, p, e, d);
      return Some(p), e;
    }
    buf[e] := NUL;
    assert buf[..] == b[e := NUL];
    StrtokCut(b, buf[..], save, p, e, d);
    return Some(p), e + 1;
  }

  lemma StrtokNone(b: seq<char>, save: nat, p: nat, d: char)
    requires Skipped(b, save, p, d) && b[p] == NUL
    ensures Strtok(b, b, save, d, None, p)
  {}

  lemma StrtokEnd(b: seq<char>, save: nat, p: nat, e: nat, d: char)
    requires Skipped(b, save, p, d) && CStr(b, p) != [] && d != NUL
    requires Scanned(b, p, e, d) && b[e] == NUL
    ensures Strtok(b, b, save, d, Some(p), e)
  {
    var s := CStr(b, p);
    CStrEndsAt(b, p, e);
    TokenAt(b, p, s, e, d);
    StrtokFound(b, b, save, p, s, d, e, Token(s, d), []);
  }

  lemma StrtokCut(b: seq<char>, c: seq<char>, save: nat, p: nat, e: nat, d: char)
    requires Skipped(b, save, p, d) && CStr(b, p) != [] && d != NUL
    requires Scanned(b, p, e, d) && b[e] != NUL && c == b[e := NUL]
    ensures Strtok(b, c, save, d, Some(p), e + 1)
  {
    var s := CStr(b, p);
    SkippedHolds(b, save, p, s, d);
    CutToken(b, c, save, p, s, e, d);
    StrtokFound(b, c, save, p, s, d, e + 1, Token(s, d), Rest(s, d));
  }

  lemma SkippedHolds(b: seq<char>, save: nat, p: nat, s: CString, d: char)
    requires Skipped(b, save, p, d) && s == CStr(b, p)
    ensures Holds(b, p, s)
  {}

  lemma CutToken(b: seq<char>, c: seq<char>, save: nat, p: nat, s: CString, e: nat, d: char)
    requires Holds(b, p, s) && save <= p <= e <= p + |s| && d != NUL
    requires d !in b[p..e] && b[e] == d && c == b[e := NUL]
    ensures TokStep(b, c, save, p + |s|, Some(p), e + 1, Token(s, d), Rest(s, d))
  {
    TokenAt(b, p, s, e, d);
    NoNulIn(b, p, s, e);
    CutHere(b, c, save, p, e, p + |s|);
  }

  lemma NoNulIn(b: seq<char>, p: nat, s: CString, e: nat)
    requires Holds(b, p, s) && p <= e <= p + |s|
    ensures NUL !in b[p..e]
  {
    assert b[p..e] == s[..e - p];
  }

  /** The call finds the first token of the string at save, if there is one. */
  ghost predicate Strtok(b: seq<char>, c: seq<char>, save: nat, d: char, tok: Option<nat>, next: nat)
    requires save <= |b|
  {
    var s := SkipDelim(CStr(b, save), d);
    && tok.Some? == (s != [])
    && TokStep(b, c, save, save + |CStr(b, save)|, tok, next, Token(s, d), if s == [] then [] else Rest(s, d))
  }

  lemma StrtokFound(b: seq<char>, c: seq<char>, save: nat, p: nat, s: CString, d: char, next: nat, t: string,
      rest: string)
    requires Skipped(b, save, p, d) && s == CStr(b, p) != [] && Token(s, d) == t && Rest(s, d) == rest
    requires TokStep(b, c, save, p + |s|, Some(p), next, t, rest)
    ensures Strtok(b, c, save, d, Some(p), next)
  {}

  method SkipDelims(buf: array<char>, save: nat, d: char) returns (p: nat)
    requires save <= buf.Length && save + |CStr(buf[..], save)| < buf.Length && d != NUL
    ensures Skipped(buf[..], save, p, d)
  {
    ghost var b, text := buf[..], CStr(buf[..], save);
    p := save;
    while buf[p] == d
      invariant save <= p <= save + |text|
      invariant p + |CStr(b, p)| == save + |text|
      invariant SkipDelim(CStr(b, p), d) == SkipDelim(text, d)
      decreases save + |text| - p
    {
      p := p + 1;
    }
  }

  method ScanToken(buf: array<char>, p: nat, d: char) returns (e: nat)
    requires p <= buf.Length && p + |CStr(buf[..], p)| < buf.Length
    ensures Scanned(buf[..], p, e, d)
  {
    ghost var end := p + |CStr(buf[..], p)|;
    e := p;
    while buf[e] != NUL && buf[e] != d
      invariant p <= e <= end
      invariant d !in buf[p..e]
      decreases end - e
    {
      e := e + 1;
    }
  }

  /** The scan for a token's end, from p, has stopped at e. */
  ghost predicate Scanned(b: seq<char>, p: nat, e: nat, d: char) {
    p <= e < |b| && e <= p + |CStr(b, p)| && d !in b[p..e] && (b[e] == NUL || b[e] == d)
  }

  /** The token that the scan from p to e finds. */
  lemma TokenAt(b: seq<char>, p: nat, s: CString, e: nat, d: char)
    requires Holds(b, p, s) && p <= e <= p + |s| && d !in b[p..e] && (e == p + |s| || b[e] == d)
    ensures Token(s, d) == b[p..e]
    ensures Rest(s, d) == if e == p + |s| then [] else b[e + 1..p + |s|]
  {
    assert s == b[p..e] + b[e..p + |s|];
    TokenOf(b[p..e], b[e..p + |s|], d);
  }

  lemma CStrEndsAt(b: seq<char>, p: nat, e: nat)
    requires p <= e < |b| && b[e] == NUL && e <= p + |CStr(b, p)|
    ensures e == p + |CStr(b, p)|
  {}

  /** Some calls of strtok_r on a string with the tokens all have returned ptrs; each
      position still reads its token, and rest, at save, has the tokens to come. */
  ghost predicate Reading(b: seq<char>, ptrs: seq<Option<nat>>, save: nat, rest: CString, all: seq<string>, d: char) {
    && Pointing(b, ptrs, save, all)
    && Holds(b, save, rest)
    && Tokens(rest, d) == if |ptrs| <= |all| then all[|ptrs|..] else []
  }

  ghost predicate Pointing(b: seq<char>, ptrs: seq<Option<nat>>, save: nat, all: seq<string>) {
    && (forall i :: 0 <= i < |ptrs| ==> Nth(b, ptrs, i, save, all))
    && (forall i, j :: 0 <= i < j < |ptrs| && j < |all| ==> Before(ptrs, all, i, j))
  }

  ghost predicate Nth(b: seq<char>, ptrs: seq<Option<nat>>, i: nat, save: nat, all: seq<string>)
    requires i < |ptrs|
  {
    ptrs[i].Some? == (i < |all|) && (i < |all| ==> Points(b, ptrs[i].value, all[i], save))
  }

  ghost predicate Before(ptrs: seq<Option<nat>>, all: seq<string>, i: nat, j: nat)
    requires i < |ptrs| && j < |ptrs| && i < |all|
  {
    ptrs[i].Some? && ptrs[j].Some? && ptrs[i].value + |all[i]| <= ptrs[j].value
  }

  lemma TokensUnfold(s: string, d: char)
    ensures var t := SkipDelim(s, d);
      Tokens(s, d) == if t == [] then [] else [Token(t, d)] + Tokens(Rest(t, d), d)
  {}

  /** One more call keeps all earlier tokens readable. */
  method NextToken(buf: array<char>, save: nat, d: char, ghost ptrs: seq<Option<nat>>, ghost rest: CString,
      ghost all: seq<string>)
    returns (tok: Option<nat>, next: nat, ghost rest2: CString)
    requires Reading(buf[..], ptrs, save, rest, all, d) && d != NUL
    modifies buf
    ensures Reading(buf[..], ptrs + [tok], next, rest2, all, d)
    ensures CutBetween(old(buf[..]), buf[..], save, save + |rest|)
    ensures save <= next && next + |rest2| <= save + |rest|
  {
    ghost var before := buf[..];
    HoldsCStr(before, save, rest);
    tok, next := StrtokR(buf, save, d);
    ReadingTokens(|ptrs|, rest, all, d);
    rest2 := if tok.Some? then Rest(SkipDelim(rest, d), d) else [];
    ReadingGrows(before, buf[..], save, d, tok, next, ptrs, rest, Token(SkipDelim(rest, d), d), rest2, all);
  }

  lemma ReadingGrows(before: seq<char>, after: seq<char>, save: nat, d: char, tok: Option<nat>, next: nat,
      ptrs: seq<Option<nat>>, rest: CString, t: string, rest2: CString, all: seq<string>)
    requires Reading(before, ptrs, save, rest, all, d)
    requires TokStep(before, after, save, save + |rest|, tok, next, t, rest2)
    requires tok.Some? == (|ptrs| < |all|)
    requires tok.Some? ==> t == all[|ptrs|]
    requires Tokens(rest2, d) == if |ptrs| < |all| then all[|ptrs| + 1..] else []
    ensures Reading(after, ptrs + [tok], next, rest2, all, d)
  {
    EarlierKept(before, after, ptrs, save, save + |rest|, all);
    PointsOneMore(after, ptrs, tok, save, next, all);
  }

  lemma ReadingTokens(n: nat, rest: string, all: seq<string>, d: char)
    requires Tokens(rest, d) == if n <= |all| then all[n..] else []
    ensures var s := SkipDelim(rest, d);
      && (s != []) == (n < |all|)
      && (s != [] ==> Token(s, d) == all[n] && Tokens(Rest(s, d), d) == all[n + 1..])
  {
    TokensUnfold(rest, d);
    if n < |all| {
      var ts := Tokens(rest, d);
      assert ts[0] == all[n] && ts[1..] == all[n + 1..];
    }
  }

  lemma EarlierKept(before: seq<char>, after: seq<char>, ptrs: seq<Option<nat>>, save: nat, end: nat, all: seq<string>)
    requires Pointing(before, ptrs, save, all) && CutBetween(before, after, save, end)
    ensures Pointing(after, ptrs, save, all)
  {
    forall i | 0 <= i < |ptrs| ensures Nth(after, ptrs, i, save, all) {
      assert Nth(before, ptrs, i, save, all);
      if i < |all| {
        CutKeeps(before, after, save, end, ptrs[i].value, all[i]);
      }
    }
  }

  lemma PointsOneMore(b: seq<char>, ptrs: seq<Option<nat>>, tok: Option<nat>, save: nat, next: nat, all: seq<string>)
    requires Pointing(b, ptrs, save, all) && save <= next && tok.Some? == (|ptrs| < |all|)
    requires tok.Some? ==> save <= tok.value && Points(b, tok.value, all[|ptrs|], next)
    ensures Pointing(b, ptrs + [tok], next, all)
  {
    var more := ptrs + [tok];
    forall i | 0 <= i < |more| ensures Nth(b, more, i, next, all) {
      assert i < |ptrs| ==> Nth(b, ptrs, i, save, all);
    }
    forall i, j | 0 <= i < j < |more| && j < |all| ensures Before(more, all, i, j) {
      assert Nth(b, ptrs, i, save, all);
      assert j < |ptrs| ==> Before(ptrs, all, i, j);
    }
  }

  lemma CutTwice(a: seq<char>, b: seq<char>, c: seq<char>, lo: int, hi: int, lo2: int, hi2: int)
    requires CutBetween(a, b, lo, hi) && CutBetween(b, c, lo2, hi2) && lo <= lo2 && hi2 <= hi
    ensures CutBetween(a, c, lo, hi)
  {}

  /** snprintf of s at position at: what fits, closed by a NUL, and the full length. */
  method Snprintf(buf: array<char>, at: nat, s: string) returns (rc: nat)
    requires at < buf.Length
    modifies buf
    ensures rc == |s|
    ensures buf[..at] == old(buf[..at])
    ensures rc < buf.Length - at ==> Holds(buf[..], at, s)
  {
    var n := if |s| < buf.Length - at then |s| else buf.Length - at - 1;
    forall k | 0 <= k < n {
      buf[at + k] := s[k];
    }
    buf[at + n] := NUL;
    return |s|;
  }
}
