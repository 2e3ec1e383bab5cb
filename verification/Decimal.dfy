/** Decimal printing and the three integer parsers the sources use. */
module Decimal {
  import opened Types

  predicate IsDigit(c: char) { '0' <= c <= '9' }

  predicate AllDigits(s: string) { forall i :: 0 <= i < |s| ==> IsDigit(s[i]) }

  function DigitChar(d: nat): char
    requires d < 10
  {
    ('0' as int + d) as char
  }

  function DigitValue(c: char): nat
    requires IsDigit(c)
  {
    c as int - '0' as int
  }

  /** printf's %u and %llu. */
  function Dec(n: nat): string {
    if n < 10 then [DigitChar(n)] else Dec(n / 10) + [DigitChar(n % 10)]
  }

  function Value(s: string): nat
    requires AllDigits(s)
  {
    if s == [] then 0 else Value(s[..|s| - 1]) * 10 + DigitValue(s[|s| - 1])
  }

  lemma {:induction false} ValueDec(n: nat)
    ensures |Dec(n)| > 0 && AllDigits(Dec(n)) && Value(Dec(n)) == n
  {
    if n < 10 {
      assert Dec(n)[..0] == [];
    } else {
      ValueDec(n / 10);
      assert Dec(n)[..|Dec(n)| - 1] == Dec(n / 10);
    }
  }

  lemma {:induction false} ValuePrefix(s: string, i: nat)
    requires AllDigits(s) && i <= |s|
    ensures Value(s[..i]) <= Value(s)
  {
    if i < |s| {
      ValuePrefix(s[..|s| - 1], i);
      assert s[..|s| - 1][..i] == s[..i];
    } else {
      assert s[..i] == s;
    }
  }

  predicate IsSpace(c: char) { c == ' ' || '\t' <= c <= '\r' }

  function SkipSpace(s: string): string {
    if s != [] && IsSpace(s[0]) then SkipSpace(s[1..]) else s
  }

  /** The longest prefix of digits. */
  function DigitPrefix(s: string): (p: string)
    ensures AllDigits(p) && p <= s
  {
    if s == [] || !IsDigit(s[0]) then [] else [s[0]] + DigitPrefix(s[1..])
  }

  lemma {:induction false} DigitPrefixAll(s: string)
    requires AllDigits(s)
    ensures DigitPrefix(s) == s
  {
    if s != [] { DigitPrefixAll(s[1..]); }
  }

  /** strtoul/strtoull of a whole string in base 10 on 64 bits: None when errno is
      set or characters are left over. A minus sign negates modulo 2^64. */
  function WholeUnsigned(s: string): Option<nat> {
    var t := SkipSpace(s);
    var signed := t != [] && (t[0] == '-' || t[0] == '+');
    var digits := if signed then t[1..] else t;
    if digits == [] || !AllDigits(digits) || Value(digits) > U64_MAX then None
    else if signed && t[0] == '-' then Some((TWO64 - Value(digits)) % TWO64)
    else Some(Value(digits))
  }

  /** The 32-bit check that follows every strtoul call. */
  function WholeU32(s: string): Option<nat> {
    var r := WholeUnsigned(s);
    if r.Some? && r.value <= U32_MAX then r else None
  }

  lemma WholeU32Dec(n: nat)
    ensures WholeU32(Dec(n)) == if n <= U32_MAX then Some(n) else None
  {
    ValueDec(n);
    assert IsDigit(Dec(n)[0]);
  }

  /** Digits behind a fixed prefix, no sign or space accepted, at most 32 bits. */
  function PrefixedU32(s: string, prefix: string): Option<nat> {
    if prefix <= s && s != prefix && AllDigits(s[|prefix|..]) && Value(s[|prefix|..]) <= U32_MAX
    then Some(Value(s[|prefix|..]))
    else None
  }

  /** The digit loop of parse_prefixed_u32: it gives up at the first character
      that is no digit or pushes the value over 32 bits. */
  method ParsePrefixedU32(s: string, prefix: string) returns (out: Option<nat>)
    ensures out == PrefixedU32(s, prefix)
  {
    if !(prefix <= s) || s == prefix {
      return None;
    }
    var p, value := |prefix|, 0;
    ghost var tail := s[|prefix|..];
    while p < |s|
      invariant |prefix| <= p <= |s|
      invariant AllDigits(s[|prefix|..p]) && value == Value(s[|prefix|..p]) <= U32_MAX
    {
      if !IsDigit(s[p]) {
        assert tail[p - |prefix|] == s[p];
        return None;
      }
      value := value * 10 + DigitValue(s[p]);
      assert s[|prefix|..p + 1][..p - |prefix|] == s[|prefix|..p];
      if value > U32_MAX {
        if AllDigits(tail) {
          ValuePrefix(tail, p + 1 - |prefix|);
          assert tail[..p + 1 - |prefix|] == s[|prefix|..p + 1];
        }
        return None;
      }
      p := p + 1;
    }
    assert s[|prefix|..p] == tail;
    return Some(value);
  }

  /** Splits off the trailing digits of a name. */
  function DigitTail(s: string): (t: string)
    ensures AllDigits(t) && |t| <= |s| && s[|s| - |t|..] == t
  {
    if s == [] || !IsDigit(s[|s| - 1]) then []
    else DigitTail(s[..|s| - 1]) + [s[|s| - 1]]
  }

  lemma {:induction false} DigitTailOf(head: string, digits: string)
    requires AllDigits(digits)
    requires head == [] || !IsDigit(head[|head| - 1])
    ensures DigitTail(head + digits) == digits
  {
    if digits == [] {
      assert head + digits == head;
    } else {
      assert (head + digits)[..|head + digits| - 1] == head + digits[..|digits| - 1];
      DigitTailOf(head, digits[..|digits| - 1]);
    }
  }

  /** parse_uint_tail: the number a namespace name ends in, 0 without digits. */
  function TailU32(s: string): Option<nat> {
    if s == [] then None
    else if DigitTail(s) == [] then Some(0)
    else if Value(DigitTail(s)) <= U32_MAX then Some(Value(DigitTail(s)))
    else None
  }

  lemma TailNumber(head: string, n: nat)
    requires head == [] || !IsDigit(head[|head| - 1])
    ensures TailU32(head + Dec(n)) == if n <= U32_MAX then Some(n) else None
  {
    ValueDec(n);
    DigitTailOf(head, Dec(n));
    TailIs(head + Dec(n), Dec(n));
  }

  lemma TailIs(s: string, t: string)
    requires DigitTail(s) == t && t != []
    ensures TailU32(s) == if Value(t) <= U32_MAX then Some(Value(t)) else None
  {}

  /** A counter that is 64 bits wide, printed behind a prefix. */
  function Numbered(prefix: string, n: nat): string {
    prefix + Dec(n % TWO64)
  }

  /** s is prefix-k for some k below n. */
  predicate IssuedBelow(prefix: string, s: string, n: nat) {
    && prefix <= s
    && AllDigits(s[|prefix|..])
    && Value(s[|prefix|..]) < n
    && s == prefix + Dec(Value(s[|prefix|..]))
  }

  lemma NumberedIssued(prefix: string, k: nat, n: nat)
    requires k < TWO64
    ensures IssuedBelow(prefix, Numbered(prefix, k), n) <==> k < n
  {
    var digits := Dec(k);
    ValueDec(k);
    assert Numbered(prefix, k) == prefix + digits;
    assert (prefix + digits)[|prefix|..] == digits;
  }

  lemma NumberedSmall(prefix: string, k: nat)
    requires k < TWO64
    ensures Numbered(prefix, k) == prefix + Dec(k)
  {
    assert k % TWO64 == k;
  }

  lemma NumberedInjective(prefix: string, j: nat, k: nat)
    ensures Numbered(prefix, j) == Numbered(prefix, k) <==> j % TWO64 == k % TWO64
  {
    ValueDec(j % TWO64);
    ValueDec(k % TWO64);
    assert Numbered(prefix, j)[|prefix|..] == Dec(j % TWO64);
    assert Numbered(prefix, k)[|prefix|..] == Dec(k % TWO64);
  }
}
