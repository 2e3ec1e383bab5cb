/** The ALLOCATE command: the SDK prints it, the runtime cuts it up again. */
module WireCommand {
  import opened Types
  import opened Tables
  import opened Decimal
  import opened CStrings

  const LIST_SIZE: nat := 256
  const COMMAND_SIZE: nat := 512
  const DEV_ROOT: CString := "/dev/ssu/"

  type Uint64 = n: nat | n <= U64_MAX
  type Uint32 = n: nat | n <= U32_MAX
  type Int32 = i: int | -0x8000_0000 <= i < 0x8000_0000

  /** What a caller of the SDK asks for; an empty user or disk is none. */
  datatype SdkReq = SdkReq(size: Uint64, share: Int32, disks: Uint32, aggregate: Int32,
    user: CString, hosts: seq<CString>, disk: CString)

  /** What the runtime hands to the API. */
  datatype ApiReq = ApiReq(size: Uint64, share: Int32, disks: Uint32, aggregate: Int32,
    user: Option<string>, hosts: seq<string>, disk: Option<string>)

  // ---- printing ----

  predicate IsBlank(c: char) { c == ' ' || c == '\t' || c == '\n' || c == '\r' }

  predicate Safe(s: string) { s != [] && forall i :: 0 <= i < |s| ==> !IsBlank(s[i]) }

  predicate SafeHost(s: string) { Safe(s) && ',' !in s }

  predicate SafeHosts(hosts: seq<string>) { forall i :: 0 <= i < |hosts| ==> SafeHost(hosts[i]) }

  /** The host list as one token, in a buffer of 256 characters. */
  function HostList(hosts: seq<string>): Option<string> {
    if hosts == [] then Some("local")
    else if SafeHosts(hosts) && |Join(hosts, ',')| < LIST_SIZE then Some(Join(hosts, ','))
    else None
  }

  function StripRoot(disk: string): string { if DEV_ROOT <= disk then disk[|DEV_ROOT|..] else disk }

  /** NAME or /dev/ssu/NAME as one token. */
  function DiskToken(disk: string): Option<string> {
    var name := StripRoot(disk);
    if disk == [] then Some("-")
    else if Safe(name) && '/' !in name && |name| < LIST_SIZE then Some(name)
    else None
  }

  function IntDec(i: int): string { if i < 0 then "-" + Dec(-i) else Dec(i) }

  function OrDash(s: string): string { if s == [] then "-" else s }

  /** The tokens of the command line. */
  function Command(req: SdkReq, hosts: string, disk: string): (ts: seq<string>)
    ensures |ts| == 8
  {
    ["ALLOCATE", Dec(req.size), IntDec(req.share), Dec(req.disks), IntDec(req.aggregate), OrDash(req.user), hosts, disk]
  }

  /** The command line, or None for a request that the SDK refuses. */
  function Encode(req: SdkReq): Option<string> {
    var hosts, disk := HostList(req.hosts), DiskToken(req.disk);
    if req.size == 0 || hosts.None? || disk.None? || !Safe(OrDash(req.user)) then None
    else
      var line := Join(Command(req, hosts.value, disk.value), ' ');
      if |line| < COMMAND_SIZE then Some(line) else None
  }

  // ---- parsing ----

  /** The value of the leading digits after spaces and a sign, and whether the sign is a minus. */
  function Leading(s: string): (bool, nat) {
    var t := SkipSpace(s);
    var signed := t != [] && (t[0] == '-' || t[0] == '+');
    (signed && t[0] == '-', Value(DigitPrefix(if signed then t[1..] else t)))
  }

  /** strtoull and 64-bit strtoul without an end argument. */
  function Strtoull(s: string): Uint64 {
    var (minus, v) := Leading(s);
    if v > U64_MAX then U64_MAX else if minus then (TWO64 - v) % TWO64 else v
  }

  /** 64-bit strtol without an end argument. */
  function Strtol(s: string): int {
    var minus, v: int := Leading(s).0, Leading(s).1;
    var half: int := TWO64 / 2;
    if minus then (if v > half then -half else -v)
    else if v > half - 1 then half - 1 else v
  }

  function ToUint32(x: nat): Uint32 { x % 0x1_0000_0000 }

  function ToInt32(x: int): Int32 {
    var y := x % 0x1_0000_0000;
    if y < 0x8000_0000 then y else y - 0x1_0000_0000
  }

  /** A dash stands for none. */
  function FromDash(s: string): Option<string> { if s == "-" then None else Some(s) }

  datatype Parsed = EMPTY_COMMAND | OTHER_COMMAND(name: string) | MALFORMED | TOO_MANY_HOSTS | Allocate(req: ApiReq)

  /** The line up to a carriage return or line feed. */
  function CutLine(s: string): (r: CString)
    requires NUL !in s
  {
    if s == [] || s[0] == '\r' || s[0] == '\n' then [] else [s[0]] + CutLine(s[1..])
  }

  /** The request in at least six fields; a seventh names the disk. */
  function Request(f: seq<string>): ApiReq
    requires |f| >= 6
  {
    ApiReq(Strtoull(f[0]), ToInt32(Strtol(f[1])), ToUint32(Strtoull(f[2])), ToInt32(Strtol(f[3])),
           FromDash(f[4]), Tokens(f[5], ','), if |f| == 6 then None else FromDash(f[6]))
  }

  function DecodeFields(f: seq<string>): Parsed {
    if |f| < 6 then MALFORMED
    else if |Tokens(f[5], ',')| > MAX_HOSTS then TOO_MANY_HOSTS
    else Allocate(Request(f))
  }

  function Decode(line: CString): Parsed {
    var ts := Tokens(CutLine(line), ' ');
    if ts == [] then EMPTY_COMMAND
    else if ts[0] != "ALLOCATE" then OTHER_COMMAND(ts[0])
    else DecodeFields(ts[1..])
  }

  // ---- the round trip ----

  /** What a request means to the runtime. */
  function Normal(req: SdkReq): ApiReq {
    ApiReq(req.size, req.share, req.disks, req.aggregate, FromDash(OrDash(req.user)),
           if req.hosts == [] then ["local"] else req.hosts, FromDash(OrDash(StripRoot(req.disk))))
  }

  predicate Clean(s: string) { Safe(s) && NUL !in s }

  lemma LeadingDigits(s: string)
    requires AllDigits(s) && s != []
    ensures Leading(s) == (false, Value(s))
  {
    DigitPrefixAll(s);
    assert IsDigit(s[0]);
  }

  lemma LeadingMinus(s: string)
    requires AllDigits(s)
    ensures Leading("-" + s) == (true, Value(s))
  {
    DigitPrefixAll(s);
    var t := "-" + s;
    assert t[0] == '-' && t[1..] == s;
    assert SkipSpace(t) == t;
  }

  lemma DigitsClean(s: string)
    requires AllDigits(s)
    ensures s != [] ==> Clean(s)
    ensures Clean("-" + s)
  {}

  lemma DecClean(n: nat)
    ensures Clean(Dec(n))
  {}

  lemma IntDecClean(i: int)
    ensures Clean(IntDec(i))
  {
    var n: nat := if i < 0 then 0 - i else i;
    ValueDec(n);
    DigitsClean(Dec(n));
  }

  lemma UnsignedReturns(s: string, n: Uint64)
    requires s == Dec(n)
    ensures Strtoull(s) == n
  {
    ValueDec(n);
    LeadingDigits(s);
  }

  lemma Unsigned32Returns(s: string, n: Uint32)
    requires s == Dec(n)
    ensures ToUint32(Strtoull(s)) == n
  {
    UnsignedReturns(s, n);
    Fits32(n);
  }

  lemma Fits32(n: Uint32)
    ensures ToUint32(n) == n
  {}

  lemma SignedReturns(s: string, i: Int32)
    requires s == IntDec(i)
    ensures ToInt32(Strtol(s)) == i
  {
    LongReturns(i);
    FitsInt32(i);
  }

  lemma FitsInt32(i: Int32)
    ensures ToInt32(i) == i
  {}

  lemma LongReturns(i: Int32)
    ensures Strtol(IntDec(i)) == i
  {
    if i < 0 {
      NegativeReturns(0 - (i as int));
    } else {
      NonNegativeReturns(i);
    }
  }

  lemma NegativeReturns(n: nat)
    requires 0 < n <= 0x8000_0000
    ensures Strtol(IntDec(0 - n)) == 0 - n
  {
    ValueDec(n);
    LeadingMinus(Dec(n));
  }

  lemma NonNegativeReturns(n: nat)
    requires n < 0x8000_0000
    ensures Strtol(IntDec(n)) == n
  {
    ValueDec(n);
    LeadingDigits(Dec(n));
  }

  predicate CleanAll(ts: seq<string>) { forall i :: 0 <= i < |ts| ==> Clean(ts[i]) }

  lemma HostListClean(hosts: seq<CString>)
    requires HostList(hosts).Some?
    ensures Clean(HostList(hosts).value)
    ensures Tokens(HostList(hosts).value, ',') == if hosts == [] then ["local"] else hosts
  {
    if hosts == [] {
      var one := ["local"];
      TokensJoin(one, ',');
    } else {
      var list := Join(hosts, ',');
      TokensJoin(hosts, ',');
      JoinChars(hosts, ',', ' ');
      JoinChars(hosts, ',', '\t');
      JoinChars(hosts, ',', '\n');
      JoinChars(hosts, ',', '\r');
      JoinChars(hosts, ',', NUL);
      assert forall i :: 0 <= i < |list| ==> list[i] in list;
      assert list != [];
    }
  }

  lemma AllClean(a: string, b: string, c: string, d: string, e: string, f: string, g: string, h: string)
    requires Clean(a) && Clean(b) && Clean(c) && Clean(d) && Clean(e) && Clean(f) && Clean(g) && Clean(h)
    ensures CleanAll([a, b, c, d, e, f, g, h])
  {}

  lemma CommandClean(req: SdkReq, hosts: string, disk: string)
    requires Clean(hosts) && Clean(disk) && Safe(OrDash(req.user))
    ensures CleanAll(Command(req, hosts, disk))
  {
    DecClean(req.size);
    DecClean(req.disks);
    IntDecClean(req.share);
    IntDecClean(req.aggregate);
    assert Clean(OrDash(req.user));
    assert Clean("ALLOCATE");
    AllClean("ALLOCATE", Dec(req.size), IntDec(req.share), Dec(req.disks), IntDec(req.aggregate), OrDash(req.user),
      hosts, disk);
  }

  lemma {:induction false} CutLineWhole(s: CString)
    requires '\r' !in s && '\n' !in s
    ensures CutLine(s) == s
  {
    if s != [] {
      CutLineWhole(s[1..]);
    }
  }

  /** A printed line is one C string without line ends, and cuts into its fields. */
  lemma LineTokens(ts: seq<string>)
    requires CleanAll(ts)
    ensures var line := Join(ts, ' ');
      NUL !in line && CutLine(line) == line && Tokens(line, ' ') == ts
  {
    JoinChars(ts, ' ', NUL);
    JoinChars(ts, ' ', '\r');
    JoinChars(ts, ' ', '\n');
    CutLineWhole(Join(ts, ' '));
    forall i | 0 <= i < |ts| ensures ' ' !in ts[i] {
      assert Clean(ts[i]);
    }
    TokensJoin(ts, ' ');
  }

  lemma LineDecodes(ts: seq<string>)
    requires CleanAll(ts) && ts != [] && ts[0] == "ALLOCATE"
    ensures NUL !in Join(ts, ' ')
    ensures Decode(Join(ts, ' ')) == DecodeFields(ts[1..])
  {
    LineTokens(ts);
  }

  lemma RequestIs(f: seq<string>, size: Uint64, share: Int32, disks: Uint32, aggregate: Int32)
    requires |f| == 7
    requires Strtoull(f[0]) == size && ToInt32(Strtol(f[1])) == share && ToUint32(Strtoull(f[2])) == disks
    requires ToInt32(Strtol(f[3])) == aggregate
    ensures Request(f) == ApiReq(size, share, disks, aggregate, FromDash(f[4]), Tokens(f[5], ','), FromDash(f[6]))
  {}

  lemma CommandRequest(f: seq<string>, req: SdkReq, hosts: string, disk: string)
    requires |f| == 7 && f[0] == Dec(req.size) && f[1] == IntDec(req.share) && f[2] == Dec(req.disks)
    requires f[3] == IntDec(req.aggregate)
    requires f[4] == OrDash(req.user) && f[5] == hosts && f[6] == disk
    ensures Request(f) == ApiReq(req.size, req.share, req.disks, req.aggregate, FromDash(OrDash(req.user)),
      Tokens(hosts, ','), FromDash(disk))
  {
    UnsignedReturns(f[0], req.size);
    SignedReturns(f[1], req.share);
    Unsigned32Returns(f[2], req.disks);
    SignedReturns(f[3], req.aggregate);
    RequestIs(f, req.size, req.share, req.disks, req.aggregate);
  }

  /** For every request that the SDK accepts, the runtime reads back its normal
      form, unless there are more than 32 hosts. */
  lemma RoundTrip(req: SdkReq)
    requires Encode(req).Some?
    ensures NUL !in Encode(req).value
    ensures Decode(Encode(req).value) == if |req.hosts| <= MAX_HOSTS then Allocate(Normal(req)) else TOO_MANY_HOSTS
  {
    var hosts, disk := HostList(req.hosts).value, DiskToken(req.disk).value;
    HostListClean(req.hosts);
    DiskTokenClean(req.disk);
    CommandDecodes(req, hosts, disk);
  }

  lemma DiskTokenClean(disk: CString)
    requires DiskToken(disk).Some?
    ensures Clean(DiskToken(disk).value) && DiskToken(disk).value == OrDash(StripRoot(disk))
  {}

  lemma CommandDecodes(req: SdkReq, hosts: string, disk: string)
    requires Clean(hosts) && Clean(disk) && Safe(OrDash(req.user))
    ensures NUL !in Join(Command(req, hosts, disk), ' ')
    ensures var list := Tokens(hosts, ',');
      Decode(Join(Command(req, hosts, disk), ' ')) ==
      if |list| > MAX_HOSTS then TOO_MANY_HOSTS
      else Allocate(ApiReq(req.size, req.share, req.disks, req.aggregate, FromDash(OrDash(req.user)), list,
        FromDash(disk)))
  {
    CommandClean(req, hosts, disk);
    LineDecodes(Command(req, hosts, disk));
    CommandRequest(Command(req, hosts, disk)[1..], req, hosts, disk);
  }

  /** Two accepted requests print the same line exactly when they mean the same. */
  lemma SameLineSameMeaning(a: SdkReq, b: SdkReq)
    requires Encode(a).Some? && Encode(b).Some?
    requires |a.hosts| <= MAX_HOSTS && |b.hosts| <= MAX_HOSTS
    ensures Encode(a) == Encode(b) <==> Normal(a) == Normal(b)
  {
    RoundTrip(a);
    RoundTrip(b);
    if Normal(a) == Normal(b) {
      HostListClean(a.hosts);
      SameList(a.hosts, b.hosts);
      assert OrDash(a.user) == OrDash(b.user);
      assert DiskToken(a.disk) == DiskToken(b.disk);
    }
  }

  lemma SameList(a: seq<CString>, b: seq<CString>)
    requires (if a == [] then ["local"] else a) == if b == [] then ["local"] else b
    requires HostList(a).Some? && HostList(b).Some?
    ensures HostList(a) == HostList(b)
  {}

  // ---- numbers ----

  lemma {:induction false} SpacesSkipped(spaces: string, s: string)
    requires (forall i :: 0 <= i < |spaces| ==> IsSpace(spaces[i])) && s != [] && !IsSpace(s[0])
    ensures SkipSpace(spaces + s) == s
  {
    if spaces != [] {
      assert (spaces + s)[1..] == spaces[1..] + s;
      SpacesSkipped(spaces[1..], s);
    } else {
      assert spaces + s == s;
    }
  }

  lemma {:induction false} DigitsEnd(digits: string, rest: string)
    requires AllDigits(digits) && (rest == [] || !IsDigit(rest[0]))
    ensures DigitPrefix(digits + rest) == digits
  {
    if digits != [] {
      assert (digits + rest)[1..] == digits[1..] + rest;
      DigitsEnd(digits[1..], rest);
    } else {
      assert digits + rest == rest;
    }
  }

  lemma LeadingIs(spaces: string, sign: string, digits: string, rest: string)
    requires (forall i :: 0 <= i < |spaces| ==> IsSpace(spaces[i])) && sign in {"", "+", "-"}
    requires AllDigits(digits) && digits != [] && (rest == [] || !IsDigit(rest[0]))
    ensures Leading(spaces + (sign + (digits + rest))) == (sign == "-", Value(digits))
  {
    var t := sign + (digits + rest);
    assert IsDigit(digits[0]);
    assert t[0] == if sign == "" then digits[0] else sign[0];
    SpacesSkipped(spaces, t);
    DigitsEnd(digits, rest);
    assert (if sign == "" then t else t[1..]) == digits + rest;
  }

  lemma NegatedModulo(n: nat)
    requires n <= U64_MAX
    ensures (TWO64 - n) % TWO64 == if n == 0 then 0 else TWO64 - n
  {}

  lemma StrtoullOf(s: string, minus: bool, n: nat)
    requires Leading(s) == (minus, n)
    ensures Strtoull(s) == if n > U64_MAX then U64_MAX else if !minus || n == 0 then n else TWO64 - n
  {
    if n <= U64_MAX { NegatedModulo(n); }
  }

  lemma StrtolOf(s: string, minus: bool, n: int)
    requires Leading(s) == (minus, n)
    ensures Strtol(s) == if minus then (if n > 0x8000_0000_0000_0000 then -0x8000_0000_0000_0000 else -n)
      else if n > 0x7FFF_FFFF_FFFF_FFFF then 0x7FFF_FFFF_FFFF_FFFF else n
  {}

  /** How any unsigned field is read: after white space and one sign the digits count, up
      to the first other character; they end at 2^64 - 1, and a minus negates them modulo
      2^64. */
  lemma UnsignedRead(spaces: string, sign: string, digits: string, rest: string)
    requires (forall i :: 0 <= i < |spaces| ==> IsSpace(spaces[i])) && sign in {"", "+", "-"}
    requires AllDigits(digits) && digits != [] && (rest == [] || !IsDigit(rest[0]))
    ensures var x, n := Strtoull(spaces + (sign + (digits + rest))), Value(digits);
      && (n > 0xFFFF_FFFF_FFFF_FFFF ==> x == 0xFFFF_FFFF_FFFF_FFFF)
      && (n <= 0xFFFF_FFFF_FFFF_FFFF && sign != "-" ==> x == n)
      && (n <= 0xFFFF_FFFF_FFFF_FFFF && sign == "-" ==> x == if n == 0 then 0 else 0x1_0000_0000_0000_0000 - n)
  {
    LeadingIs(spaces, sign, digits, rest);
    StrtoullOf(spaces + (sign + (digits + rest)), sign == "-", Value(digits));
  }

  /** And a signed one: it ends at -2^63 and 2^63 - 1. */
  lemma SignedRead(spaces: string, sign: string, digits: string, rest: string)
    requires (forall i :: 0 <= i < |spaces| ==> IsSpace(spaces[i])) && sign in {"", "+", "-"}
    requires AllDigits(digits) && digits != [] && (rest == [] || !IsDigit(rest[0]))
    ensures var x, n: int := Strtol(spaces + (sign + (digits + rest))), Value(digits);
      && (sign != "-" ==> x == if n < 0x8000_0000_0000_0000 then n else 0x7FFF_FFFF_FFFF_FFFF)
      && (sign == "-" ==> x + n == if n <= 0x8000_0000_0000_0000 then 0 else n - 0x8000_0000_0000_0000)
  {
    LeadingIs(spaces, sign, digits, rest);
    StrtolOf(spaces + (sign + (digits + rest)), sign == "-", Value(digits));
  }

  /** The command needs six fields. The disk may be missing, which is as if it were a
      dash, and what follows it is ignored. */
  lemma FieldsNeeded(f: seq<string>)
    ensures |f| < 6 <==> DecodeFields(f) == MALFORMED
    ensures |f| == 6 ==> DecodeFields(f + ["-"]) == DecodeFields(f)
    ensures |f| > 7 ==> DecodeFields(f) == DecodeFields(f[..7])
  {
    if |f| == 6 { assert (f + ["-"])[6] == "-"; }
  }

  // ---- the line itself ----

  lemma {:induction false} JoinEight(a: string, b: string, c: string, d: string, e: string, f: string, g: string,
      h: string)
    ensures Join([a, b, c, d, e, f, g, h], ' ') ==
      a + " " + b + " " + c + " " + d + " " + e + " " + f + " " + g + " " + h
  {
    var ts := [a, b, c, d, e, f, g, h];
    JoinNext(ts, 1);
    JoinNext(ts, 2);
    JoinNext(ts, 3);
    JoinNext(ts, 4);
    JoinNext(ts, 5);
    JoinNext(ts, 6);
    JoinNext(ts, 7);
    assert ts[..1] == [a] && ts[..8] == ts;
  }

  lemma JoinNext(ts: seq<string>, i: nat)
    requires 0 < i < |ts|
    ensures Join(ts[..i + 1], ' ') == Join(ts[..i], ' ') + " " + ts[i]
  {
    assert ts[..i + 1][..i] == ts[..i];
  }

  /** s is not empty and holds none of the characters. */
  predicate Without(s: string, chars: string) { s != [] && forall c :: c in chars ==> c !in s }

  predicate HostsSendable(hosts: seq<string>) {
    && (forall i :: 0 <= i < |hosts| ==> Without(hosts[i], " \t\n\r,"))
    && (hosts == [] || |Join(hosts, ',')| < 256)
  }

  /** What is printed for a disk. */
  function DiskName(disk: string): string {
    if disk == [] then "-" else if "/dev/ssu/" <= disk then disk[9..] else disk
  }

  /** What the SDK accepts: a size, hosts without blanks or commas, a user without blanks,
      a disk as NAME or /dev/ssu/NAME without blanks or further slashes, and lists and
      names that fit 255 characters. */
  predicate Sendable(req: SdkReq) {
    && req.size > 0 && (req.user == [] || Without(req.user, " \t\n\r")) && HostsSendable(req.hosts)
    && (req.disk == [] || (Without(DiskName(req.disk), " \t\n\r/") && |DiskName(req.disk)| < 256))
  }

  /** The line that a request prints: the command, the four numbers, the user or a dash,
      the hosts with commas or "local", the disk's name or a dash. */
  function Printed(req: SdkReq): string {
    "ALLOCATE" + " " + Dec(req.size) + " " + IntDec(req.share) + " " + Dec(req.disks) + " " + IntDec(req.aggregate)
    + " " + (if req.user == [] then "-" else req.user) + " "
    + (if req.hosts == [] then "local" else Join(req.hosts, ',')) + " " + DiskName(req.disk)
  }

  lemma SafeIff(s: string)
    ensures Safe(s) <==> Without(s, " \t\n\r")
    ensures Safe(s) && ',' !in s <==> Without(s, " \t\n\r,")
    ensures Safe(s) && '/' !in s <==> Without(s, " \t\n\r/")
  {
    BlankChars();
    if Without(s, " \t\n\r") {
      forall i | 0 <= i < |s| ensures !IsBlank(s[i]) {
        assert s[i] in s;
      }
    }
  }

  lemma BlankChars()
    ensures forall c :: c in " \t\n\r" <==> IsBlank(c)
    ensures forall c :: c in " \t\n\r," <==> IsBlank(c) || c == ','
    ensures forall c :: c in " \t\n\r/" <==> IsBlank(c) || c == '/'
  {}

  lemma HostsSend(hosts: seq<string>)
    ensures HostList(hosts) ==
      if HostsSendable(hosts) then Some(if hosts == [] then "local" else Join(hosts, ',')) else None
  {
    forall i | 0 <= i < |hosts| ensures SafeHost(hosts[i]) <==> Without(hosts[i], " \t\n\r,") {
      SafeIff(hosts[i]);
    }
  }

  lemma DiskSends(disk: string)
    ensures DiskToken(disk) ==
      if disk == [] || (Without(DiskName(disk), " \t\n\r/") && |DiskName(disk)| < 256) then Some(DiskName(disk))
      else None
  {
    SafeIff(StripRoot(disk));
  }

  /** The SDK sends exactly the requests that are in order and whose line fits 511
      characters, and this line. */
  lemma SendsIff(req: SdkReq)
    ensures Encode(req) == if Sendable(req) && |Printed(req)| < 512 then Some(Printed(req)) else None
  {
    SafeIff(OrDash(req.user));
    HostsSend(req.hosts);
    DiskSends(req.disk);
    assert Safe("-");
    var hosts, disk := HostList(req.hosts), DiskToken(req.disk);
    if hosts.Some? && disk.Some? {
      JoinEight("ALLOCATE", Dec(req.size), IntDec(req.share), Dec(req.disks), IntDec(req.aggregate), OrDash(req.user),
        hosts.value, disk.value);
    }
  }

  lemma SampleNumber()
    ensures Dec(1024) == "1024"
  {
    assert Dec(10) == "10";
    assert Dec(102) == "102";
  }

  /** For example. */
  lemma SampleLine()
    ensures Printed(SdkReq(1024, 1, 2, -1, "u", ["h1", "h2"], "/dev/ssu/vol")) == "ALLOCATE 1024 1 2 -1 u h1,h2 vol"
  {
    SampleNumber();
    SampleFields(SdkReq(1024, 1, 2, -1, "u", ["h1", "h2"], "/dev/ssu/vol"), "h1", "h2", "vol");
  }

  lemma SampleFields(req: SdkReq, a: CString, b: CString, name: CString)
    requires Dec(req.size) == "1024" && req.share == 1 && req.disks == 2 && req.aggregate == -1
    requires req.user == "u" && req.hosts == [a, b] && req.disk == "/dev/ssu/" + name
    ensures Printed(req) == "ALLOCATE 1024 1 2 -1 u " + a + "," + b + " " + name
  {
    assert req.disk[9..] == name;
    assert Join(req.hosts, ',') == a + "," + b;
  }

  // ---- the SDK's side, step by step ----

  method TokenIsSafe(s: string) returns (ok: bool)
    ensures ok == Safe(s)
  {
    if s == [] {
      return false;
    }
    for i := 0 to |s|
      invariant forall j :: 0 <= j < i ==> !IsBlank(s[j])
    {
      if IsBlank(s[i]) {
        return false;
      }
    }
    return true;
  }

  /** Prints host by host behind what is in the buffer so far. */
  method BuildHostList(buf: array<char>, hosts: seq<CString>) returns (ok: bool)
    requires buf.Length == LIST_SIZE
    modifies buf
    ensures ok == HostList(hosts).Some?
    ensures ok ==> Holds(buf[..], 0, HostList(hosts).value)
  {
    buf[0] := NUL;
    if hosts == [] {
      var _ := Snprintf(buf, 0, "local");
      return true;
    }
    var used := 0;
    for i := 0 to |hosts|
      invariant used == |Join(hosts[..i], ',')| < LIST_SIZE
      invariant Holds(buf[..], 0, Join(hosts[..i], ','))
      invariant SafeHosts(hosts[..i])
    {
      var safe := TokenIsSafe(hosts[i]);
      if !safe || ',' in hosts[i] {
        return false;
      }
      TakeNext(hosts, i);
      assert (hosts[..i] + [hosts[i]])[..i] == hosts[..i];
      ghost var front, before := Join(hosts[..i], ','), buf[..used];
      assert before == buf[..][0..used] == front;
      var piece := (if i == 0 then "" else ",") + hosts[i];
      var rc := Snprintf(buf, used, piece);
      assert Join(hosts[..i + 1], ',') == front + piece;
      if rc >= LIST_SIZE - used {
        JoinPrefixShorter(hosts, ',', i + 1);
        return false;
      }
      AppendHolds(buf[..], front, piece);
      used := used + rc;
    }
    TakeAll(hosts);
    return true;
  }

  lemma AppendHolds(b: seq<char>, front: string, piece: string)
    requires |front| <= |b| && b[..|front|] == front && Holds(b, |front|, piece)
    ensures Holds(b, 0, front + piece)
  {}

  method NormalizeDiskName(disk: CString) returns (out: Option<string>)
    ensures out == DiskToken(disk)
  {
    if disk == [] {
      return Some("-");
    }
    var name := disk;
    if DEV_ROOT <= disk {
      name := disk[|DEV_ROOT|..];
      if name == [] || '/' in name {
        return None;
      }
    } else if '/' in disk {
      return None;
    }
    var safe := TokenIsSafe(name);
    if !safe || |name| >= LIST_SIZE {
      return None;
    }
    return Some(name);
  }

  method EncodeAllocate(req: SdkReq) returns (line: Option<string>)
    ensures line == Encode(req)
  {
    if req.size == 0 {
      return None;
    }
    var list := new char[LIST_SIZE](_ => NUL);
    var listOk := BuildHostList(list, req.hosts);
    if !listOk {
      return None;
    }
    var user := if req.user == [] then "-" else req.user;
    var disk := NormalizeDiskName(req.disk);
    if disk.None? {
      return None;
    }
    var userOk := TokenIsSafe(user);
    var diskOk := TokenIsSafe(disk.value);
    if !userOk || !diskOk {
      return None;
    }
    HostListClean(req.hosts);
    HoldsCStr(list[..], 0, HostList(req.hosts).value);
    var command := Join(Command(req, CStr(list[..], 0), disk.value), ' ');
    if |command| >= COMMAND_SIZE {
      return None;
    }
    return Some(command);
  }

  // ---- the runtime's side, cutting the buffer in place ----

  /** request[strcspn(request, "\r\n")] = NUL */
  method CutAtLineEnd(buf: array<char>)
    requires |CStr(buf[..], 0)| < buf.Length
    modifies buf
    ensures Holds(buf[..], 0, CutLine(CStr(old(buf[..]), 0)))
  {
    ghost var b, text := buf[..], CStr(buf[..], 0);
    assert b[|text|] == NUL;
    var e := 0;
    while buf[e] != NUL && buf[e] != '\r' && buf[e] != '\n'
      invariant 0 <= e <= |text|
      invariant CutLine(text) == b[..e] + CutLine(b[e..|text|])
      decreases |text| - e
    {
      assert b[e] == text[e];
      assert b[e..|text|][1..] == b[e + 1..|text|];
      assert b[..e + 1] == b[..e] + [b[e]];
      e := e + 1;
    }
    CStrEndsAt(b, 0, |text|);
    buf[e] := NUL;
    assert CutLine(b[e..|text|]) == [];
    assert buf[0..e] == b[..e];
  }

  method HandleCommand(buf: array<char>) returns (r: Parsed)
    requires |CStr(buf[..], 0)| < buf.Length
    modifies buf
    ensures r == Decode(CStr(old(buf[..]), 0))
  {
    CutAtLineEnd(buf);
    ghost var line := CutLine(CStr(old(buf[..]), 0));
    ghost var all := Tokens(line, ' ');
    var cmd: Option<nat>, save: nat;
    ghost var rest;
    cmd, save, rest := NextToken(buf, 0, ' ', [], line, all);
    assert Nth(buf[..], [] + [cmd], 0, save, all);
    if cmd.None? {
      return EMPTY_COMMAND;
    }
    HoldsCStr(buf[..], cmd.value, all[0]);
    if CStr(buf[..], cmd.value) != "ALLOCATE" {
      return OTHER_COMMAND(CStr(buf[..], cmd.value));
    }
    r := HandleAllocate(buf, save, rest);
  }

  /** The seven strtok_r calls: size, share, disks, aggregate, then user, hosts and disk. */
  method ReadFields(buf: array<char>, save: nat, ghost rest: CString, ghost f: seq<string>)
    returns (p: seq<Option<nat>>, ghost at: nat, ghost last: CString)
    requires Holds(buf[..], save, rest) && f == Tokens(rest, ' ')
    modifies buf
    ensures |p| == 7 && Reading(buf[..], p, at, last, f, ' ')
  {
    var tok: Option<nat>, next: nat;
    p, last := [], rest;
    tok, next, last := NextToken(buf, save, ' ', p, last, f);
    p := p + [tok];
    tok, next, last := NextToken(buf, next, ' ', p, last, f);
    p := p + [tok];
    tok, next, last := NextToken(buf, next, ' ', p, last, f);
    p := p + [tok];
    tok, next, last := NextToken(buf, next, ' ', p, last, f);
    p := p + [tok];
    p, at, last := ReadNames(buf, next, p, last, f);
  }

  method ReadNames(buf: array<char>, save: nat, first: seq<Option<nat>>, ghost rest: CString, ghost f: seq<string>)
    returns (p: seq<Option<nat>>, ghost at: nat, ghost last: CString)
    requires |first| == 4 && Reading(buf[..], first, save, rest, f, ' ')
    modifies buf
    ensures |p| == 7 && Reading(buf[..], p, at, last, f, ' ')
  {
    var tok: Option<nat>, next: nat;
    p := first;
    tok, next, last := NextToken(buf, save, ' ', p, rest, f);
    p := p + [tok];
    tok, next, last := NextToken(buf, next, ' ', p, last, f);
    p := p + [tok];
    tok, next, last := NextToken(buf, next, ' ', p, last, f);
    p, at := p + [tok], next;
  }

  method HandleAllocate(buf: array<char>, save: nat, ghost rest: CString) returns (r: Parsed)
    requires Holds(buf[..], save, rest)
    modifies buf
    ensures r == DecodeFields(Tokens(rest, ' '))
  {
    ghost var f, at, last := Tokens(rest, ' '), save, rest;
    var p;
    p, at, last := ReadFields(buf, save, rest, f);
    FieldsFound(buf[..], p, at, f);
    if p[0].None? || p[1].None? || p[2].None? || p[3].None? || p[4].None? || p[5].None? {
      return MALFORMED;
    }
    ghost var b := buf[..];
    var hosts := SplitHosts(buf, p[5].value, f[5]);
    if hosts.None? {
      return TOO_MANY_HOSTS;
    }
    FieldsKept(b, buf[..], p, at, f);
    var req := BuildRequest(buf, p, hosts.value, f);
    return Allocate(req);
  }

  lemma FieldsFound(b: seq<char>, p: seq<Option<nat>>, save: nat, f: seq<string>)
    requires |p| == 7 && Pointing(b, p, save, f)
    ensures forall i :: 0 <= i < 7 ==> p[i].Some? == (i < |f|)
    ensures |f| >= 6 ==> NUL !in f[5] && Holds(b, p[5].value, f[5])
  {
    forall i | 0 <= i < 7 ensures p[i].Some? == (i < |f|) {
      assert Nth(b, p, i, save, f);
    }
    assert Nth(b, p, 5, save, f);
  }

  method BuildRequest(buf: array<char>, p: seq<Option<nat>>, hosts: seq<string>, ghost f: seq<string>)
    returns (req: ApiReq)
    requires |p| == 7 && |f| >= 6 && p[6].Some? == (|f| > 6)
    requires forall i :: 0 <= i < 7 && i < |f| && i != 5 ==> Reads(buf[..], p[i], f[i])
    requires hosts == Tokens(f[5], ',')
    ensures req == Request(f)
  {
    var b := buf[..];
    assert Reads(b, p[0], f[0]) && Reads(b, p[1], f[1]) && Reads(b, p[2], f[2]);
    assert Reads(b, p[3], f[3]) && Reads(b, p[4], f[4]) && (|f| > 6 ==> Reads(b, p[6], f[6]));
    var size, share := Strtoull(CStr(b, p[0].value)), ToInt32(Strtol(CStr(b, p[1].value)));
    var disks, aggregate := ToUint32(Strtoull(CStr(b, p[2].value))), ToInt32(Strtol(CStr(b, p[3].value)));
    var user := FromDash(CStr(b, p[4].value));
    var disk := if p[6].None? then None else FromDash(CStr(b, p[6].value));
    return ApiReq(size, share, disks, aggregate, user, hosts, disk);
  }

  predicate Reads(b: seq<char>, i: Option<nat>, t: string) { i.Some? && i.value <= |b| && CStr(b, i.value) == t }

  /** Cutting the host list leaves the other six fields in place. */
  lemma FieldsKept(before: seq<char>, after: seq<char>, ptrs: seq<Option<nat>>, save: nat, f: seq<string>)
    requires |ptrs| == 7 && |f| >= 6 && Pointing(before, ptrs, save, f)
    requires ptrs[5].Some? && CutBetween(before, after, ptrs[5].value, ptrs[5].value + |f[5]|)
    ensures forall i :: 0 <= i < 7 && i < |f| && i != 5 ==> Reads(after, ptrs[i], f[i])
  {
    forall i | 0 <= i < 7 && i < |f| && i != 5
      ensures Reads(after, ptrs[i], f[i])
    {
      assert Nth(before, ptrs, i, save, f) && Nth(before, ptrs, 5, save, f);
      assert if i < 5 then Before(ptrs, f, i, 5) else Before(ptrs, f, 5, i);
      CutKeeps(before, after, ptrs[5].value, ptrs[5].value + |f[5]|, ptrs[i].value, f[i]);
      HoldsCStr(after, ptrs[i].value, f[i]);
    }
  }

  /** The host loop: None when there is a 33rd host. */
  method SplitHosts(buf: array<char>, list: nat, ghost text: CString) returns (r: Option<seq<string>>)
    requires Holds(buf[..], list, text)
    modifies buf
    ensures CutBetween(old(buf[..]), buf[..], list, list + |text|)
    ensures r == if |Tokens(text, ',')| > MAX_HOSTS then None else Some(Tokens(text, ','))
  {
    ghost var all, b := Tokens(text, ','), buf[..];
    ghost var ptrs: seq<Option<nat>>, rest := [], text;
    var hosts: seq<nat> := [];
    var host: Option<nat>, save: nat;
    host, save, rest := NextToken(buf, list, ',', [], text, all);
    while host.Some?
      invariant SameSpots(ptrs, hosts) && |hosts| <= |all|
      invariant Reading(buf[..], ptrs + [host], save, rest, all, ',')
      invariant CutBetween(b, buf[..], list, list + |text|)
      invariant list <= save && save + |rest| <= list + |text| && |hosts| <= MAX_HOSTS
      decreases |all| - |hosts|
    {
      assert Nth(buf[..], ptrs + [host], |ptrs|, save, all);
      if |hosts| >= MAX_HOSTS {
        return None;
      }
      SpotAdded(ptrs, hosts, host);
      hosts := hosts + [host.value];
      ptrs := ptrs + [host];
      host, save, rest := NextHost(buf, list, text, b, save, ptrs, rest, all);
    }
    assert Nth(buf[..], ptrs + [host], |ptrs|, save, all);
    var now := buf[..];
    HostsRead(now, hosts, ptrs + [host], save, all);
    return Some(seq(|hosts|, i requires 0 <= i < |hosts| => CStr(now, hosts[i])));
  }

  ghost predicate SameSpots(ptrs: seq<Option<nat>>, hosts: seq<nat>) {
    |ptrs| == |hosts| && forall i :: 0 <= i < |hosts| ==> ptrs[i] == Some(hosts[i])
  }

  lemma SpotAdded(ptrs: seq<Option<nat>>, hosts: seq<nat>, host: Option<nat>)
    requires SameSpots(ptrs, hosts) && host.Some?
    ensures SameSpots(ptrs + [host], hosts + [host.value])
  {}

  /** The next host; the buffer still differs from b in the list only. */
  method NextHost(buf: array<char>, list: nat, ghost text: CString, ghost b: seq<char>, save: nat,
      ghost ptrs: seq<Option<nat>>, ghost rest: CString, ghost all: seq<string>)
    returns (host: Option<nat>, next: nat, ghost rest2: CString)
    requires Reading(buf[..], ptrs, save, rest, all, ',') && CutBetween(b, buf[..], list, list + |text|)
    requires list <= save && save + |rest| <= list + |text|
    modifies buf
    ensures Reading(buf[..], ptrs + [host], next, rest2, all, ',') && CutBetween(b, buf[..], list, list + |text|)
    ensures list <= next && next + |rest2| <= list + |text|
  {
    ghost var mid := buf[..];
    host, next, rest2 := NextToken(buf, save, ',', ptrs, rest, all);
    CutTwice(b, mid, buf[..], list, list + |text|, save, save + |rest|);
  }

  lemma HostsRead(b: seq<char>, hosts: seq<nat>, ptrs: seq<Option<nat>>, save: nat, all: seq<string>)
    requires Pointing(b, ptrs, save, all) && |hosts| == |all| <= |ptrs|
    requires forall i :: 0 <= i < |hosts| ==> ptrs[i] == Some(hosts[i])
    ensures forall i :: 0 <= i < |hosts| ==> hosts[i] <= |b|
    ensures all == seq(|hosts|, i requires 0 <= i < |hosts| => CStr(b, hosts[i]))
  {
    forall i | 0 <= i < |hosts| ensures hosts[i] <= |b| && CStr(b, hosts[i]) == all[i] {
      assert Nth(b, ptrs, i, save, all);
      HoldsCStr(b, hosts[i], all[i]);
    }
  }

  /** What the SDK prints, put in a buffer, is read back by the runtime in its
      normal form. */
  method SendAllocate(req: SdkReq) returns (sent: bool, r: Parsed)
    ensures sent == Encode(req).Some?
    ensures sent && |req.hosts| <= MAX_HOSTS ==> r == Allocate(Normal(req))
    ensures sent && |req.hosts| > MAX_HOSTS ==> r == TOO_MANY_HOSTS
  {
    var line := EncodeAllocate(req);
    if line.None? {
      return false, MALFORMED;
    }
    RoundTrip(req);
    var buf := new char[COMMAND_SIZE](_ => NUL);
    var _ := Snprintf(buf, 0, line.value);
    HoldsCStr(buf[..], 0, line.value);
    r := HandleCommand(buf);
    sent := true;
  }
}
