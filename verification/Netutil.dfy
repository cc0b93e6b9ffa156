/** Endpoint normalisation (internal/pkg/netutil/netutil.go), with concrete models
    of the two library parsers it leans on: net.ParseIP and net.SplitHostPort. */
module Netutil {
  import opened Text

  // ---- IP addresses ----------------------------------------------------------

  /** strings.Split by one character. */
  function Fields(s: string, sep: char): (fs: seq<string>)
    ensures fs != []
    decreases |s|
  {
    var i := IndexByte(s, sep);
    if i < 0 then [s] else [s[..i]] + Fields(s[i + 1..], sep)
  }

  lemma FieldsSingle(s: string, sep: char)
    requires sep !in s
    ensures Fields(s, sep) == [s]
  {
  }

  lemma FieldsCons(a: string, sep: char, b: string)
    requires sep !in a
    ensures Fields(a + [sep] + b, sep) == [a] + Fields(b, sep)
  {
    var s := a + [sep] + b;
    assert s[..|a|] == a && s[|a| + 1..] == b;
    IndexByteAt(s, sep, |a|);
  }

  predicate IsDecimal(s: string) {
    s != "" && forall c :: c in s ==> IsDigit(c)
  }

  function DigitValue(c: char): (d: nat)
    requires IsDigit(c)
    ensures d < 10
  {
    c as int - '0' as int
  }

  function DecimalValue(s: string): nat
    requires forall c :: c in s ==> IsDigit(c)
  {
    if s == "" then 0 else DecimalValue(s[..|s| - 1]) * 10 + DigitValue(s[|s| - 1])
  }

  predicate IsHexDigit(c: char) { '0' <= c <= '9' || 'a' <= c <= 'f' || 'A' <= c <= 'F' }

  function HexDigit(c: char): (d: nat)
    requires IsHexDigit(c)
    ensures d < 16
  {
    if c <= '9' then c as int - '0' as int
    else if c <= 'F' then c as int - 'A' as int + 10
    else c as int - 'a' as int + 10
  }

  /** A group of an IPv6 address: one to four hexadecimal digits. */
  predicate IsGroup(s: string) {
    1 <= |s| <= 4 && forall c :: c in s ==> IsHexDigit(c)
  }

  function HexValue(s: string): nat
    requires forall c :: c in s ==> IsHexDigit(c)
  {
    if s == "" then 0 else HexValue(s[..|s| - 1]) * 16 + HexDigit(s[|s| - 1])
  }

  /** One of the four numbers of a dotted address: no leading zero, at most 255. */
  predicate IsOctet(s: string) {
    IsDecimal(s) && (s[0] == '0' ==> |s| == 1) && DecimalValue(s) <= 255
  }

  function ParseIPv4(s: string): Option<seq<nat>> {
    var fs := Fields(s, '.');
    if |fs| == 4 && IsOctet(fs[0]) && IsOctet(fs[1]) && IsOctet(fs[2]) && IsOctet(fs[3])
    then Some([DecimalValue(fs[0]), DecimalValue(fs[1]), DecimalValue(fs[2]), DecimalValue(fs[3])])
    else None
  }

  function HexGroups(fs: seq<string>): (r: Option<seq<nat>>)
    ensures r.Some? ==> |r.value| == |fs|
    ensures r.Some? <==> forall f :: f in fs ==> IsGroup(f)
  {
    if fs == [] then Some([])
    else
      assert fs == [fs[0]] + fs[1..];
      match HexGroups(fs[1..])
      case None => None
      case Some(gs) => if IsGroup(fs[0]) then Some([HexValue(fs[0])] + gs) else None
  }

  /** Groups of which the last may be a dotted IPv4 address, worth two. */
  function TailGroups(fs: seq<string>): Option<seq<nat>>
    requires fs != []
  {
    var last := fs[|fs| - 1];
    if '.' in last then
      match (HexGroups(fs[..|fs| - 1]), ParseIPv4(last))
      case (Some(gs), Some(o)) => Some(gs + [o[0] * 256 + o[1], o[2] * 256 + o[3]])
      case _ => None
    else HexGroups(fs)
  }

  /** Position of the first `::`, or -1. */
  function IndexPair(s: string): (i: int)
    ensures -1 <= i < |s| - 1 || i == -1
    ensures i >= 0 ==> s[i] == ':' && s[i + 1] == ':'
    ensures forall k :: 0 <= k < (if i < 0 then |s| - 1 else i) ==> !(s[k] == ':' && s[k + 1] == ':')
  {
    if |s| < 2 then -1
    else if s[0] == ':' && s[1] == ':' then 0
    else
      var j := IndexPair(s[1..]);
      assert forall k :: 1 <= k < |s| ==> s[k] == s[1..][k - 1];
      if j < 0 then -1 else j + 1
  }

  /** The forms of section 2.2 of RFC 4291: eight groups, or fewer around one `::`. */
  datatype Parts = Full(groups: seq<nat>) | Compressed(left: seq<nat>, right: seq<nat>)

  function LeftGroups(s: string): Option<seq<nat>> {
    if s == "" then Some([]) else HexGroups(Fields(s, ':'))
  }

  function RightGroups(s: string): Option<seq<nat>> {
    if s == "" then Some([]) else TailGroups(Fields(s, ':'))
  }

  function ParseParts(s: string): (p: Option<Parts>)
    ensures p.Some? && p.value.Full? ==> |p.value.groups| == 8
    ensures p.Some? && p.value.Compressed? ==> |p.value.left| + |p.value.right| <= 7
  {
    var i := IndexPair(s);
    if i < 0 then
      match TailGroups(Fields(s, ':'))
      case None => None
      case Some(gs) => if |gs| == 8 then Some(Full(gs)) else None
    else
      match (LeftGroups(s[..i]), RightGroups(s[i + 2..]))
      case (Some(l), Some(r)) => if |l| + |r| <= 7 then Some(Compressed(l, r)) else None
      case _ => None
  }

  function Zeros(n: nat): (z: seq<nat>)
    ensures |z| == n && forall i :: 0 <= i < n ==> z[i] == 0
  {
    if n == 0 then [] else [0] + Zeros(n - 1)
  }

  function Groups(p: Parts): (gs: seq<nat>)
    requires p.Full? ==> |p.groups| == 8
    requires p.Compressed? ==> |p.left| + |p.right| <= 7
    ensures |gs| == 8
  {
    match p
    case Full(gs) => gs
    case Compressed(l, r) => l + Zeros(8 - |l| - |r|) + r
  }

  datatype IP = V4(octets: seq<nat>) | V6(groups: seq<nat>)

  function ParseIPv6(s: string): (ip: Option<IP>)
    ensures ip.Some? ==> ip.value.V6? && |ip.value.groups| == 8 && ParseParts(s).Some?
  {
    match ParseParts(s) case None => None case Some(p) => Some(V6(Groups(p)))
  }

  /** net.ParseIP: the first `.` or `:` decides the family; no zone. */
  function ParseIP(s: string): (ip: Option<IP>)
    ensures ip.Some? && ip.value.V6? ==> |ip.value.groups| == 8 && ':' in s && ParseParts(s).Some?
  {
    var dot, colon := IndexByte(s, '.'), IndexByte(s, ':');
    if '%' in s then None
    else if dot >= 0 && (colon < 0 || dot < colon) then
      match ParseIPv4(s) case None => None case Some(o) => Some(V4(o))
    else if colon >= 0 then ParseIPv6(s)
    else None
  }

  /** ::ffff:a.b.c.d, which To4 counts as IPv4. */
  predicate IsMapped(gs: seq<nat>)
    requires |gs| == 8
  {
    gs[0] == gs[1] == gs[2] == gs[3] == gs[4] == 0 && gs[5] == 0xffff
  }

  /** net.ParseIP keeps an IPv4-mapped address as the IPv4 address it stands for. */
  function Canonical(ip: IP): IP {
    if ip.V6? && |ip.groups| == 8 && IsMapped(ip.groups)
    then V4([ip.groups[6] / 256, ip.groups[6] % 256, ip.groups[7] / 256, ip.groups[7] % 256])
    else ip
  }

  predicate IsBracketed(s: string) {
    |s| >= 2 && s[0] == '[' && s[|s| - 1] == ']'
  }

  function StripBrackets(s: string): string {
    if IsBracketed(s) then s[1..|s| - 1] else s
  }

  function StripZone(s: string): string {
    var i := IndexByte(s, '%');
    if i != -1 then s[..i] else s
  }

  function CleanIP(s: string): Option<IP> {
    ParseIP(StripZone(StripBrackets(s)))
  }

  predicate IsIPv6(s: string) {
    var ip := CleanIP(s);
    ip.Some? && ip.value.V6? && !IsMapped(ip.value.groups)
  }

  /** fe80::/10. */
  predicate IsLinkLocal(s: string) {
    IsIPv6(s) && 0xfe80 <= CleanIP(s).value.groups[0] <= 0xfebf
  }

  function AttachScopeIfLinkLocal(ip: string, iface: string): string {
    if iface == "" || !IsLinkLocal(ip) then ip
    else if '%' in ip then ip
    else if IsBracketed(ip) then
      "[" + ip[1..|ip| - 1] + "%" + iface + "]"
    else ip + "%" + iface
  }

  // ---- Endpoints -------------------------------------------------------------

  datatype HostPort = HostPort(host: string, port: string)

  /** net.SplitHostPort. */
  function SplitHostPort(s: string): Option<HostPort> {
    var i := LastIndexByte(s, ':');
    if i < 0 then None
    else if s[0] == '[' then
      var end := IndexByte(s, ']');
      if end < 0 || end + 1 != i then None
      else if '[' in s[1..] || ']' in s[end + 1..] then None
      else Some(HostPort(s[1..end], s[i + 1..]))
    else if ':' in s[..i] || '[' in s || ']' in s then None
    else Some(HostPort(s[..i], s[i + 1..]))
  }

  /** strconv.Atoi. */
  function Atoi(s: string): Option<int> {
    if s == "" then None
    else if s[0] == '-' || s[0] == '+' then
      if !IsDecimal(s[1..]) then None
      else Some(if s[0] == '-' then -(DecimalValue(s[1..]) as int) else DecimalValue(s[1..]))
    else if IsDecimal(s) then Some(DecimalValue(s))
    else None
  }

  predicate IsPort(s: string) {
    Atoi(s).Some? && 0 < Atoi(s).value <= 65535
  }

  datatype Normal = Accepted(endpoint: string) | Empty | Unclosed | AfterBracket

  const TCP := "tcp://"

  function Scheme(e: string): string {
    if HasPrefix(e, TCP) then TCP else ""
  }

  function NormalizeEndpoint(raw: string, defaultPort: int): Normal {
    var e := TrimSpace(raw);
    if e == "" then Empty
    else if HasPrefix(e, "vsock://") || HasPrefix(e, "unix://") then Accepted(e)
    else NormalizeRest(e, Scheme(e), e[|Scheme(e)|..], defaultPort)
  }

  function NormalizeRest(e: string, scheme: string, rem: string, defaultPort: int): Normal {
    if HasPrefix(rem, "[") then
      var close := IndexByte(rem, ']');
      if close == -1 then Unclosed
      else
        var hostPart, rest := rem[1..close], rem[close + 1..];
        if rest == "" then Accepted(scheme + "[" + hostPart + "]:" + Itoa(defaultPort))
        else if !HasPrefix(rest, ":") then AfterBracket
        else Accepted(e)
    else
      var split := SplitHostPort(rem);
      if split.Some? then
        if IsIPv6(split.value.host)
        then Accepted(scheme + "[" + split.value.host + "]:" + split.value.port)
        else Accepted(e)
      else
        var last := LastIndexByte(rem, ':');
        if last != -1 && IsPort(rem[last + 1..]) && IsIPv6(rem[..last]) then
          Accepted(scheme + "[" + rem[..last] + "]:" + Itoa(Atoi(rem[last + 1..]).value))
        else if IsIPv6(rem) then Accepted(scheme + "[" + rem + "]:" + Itoa(defaultPort))
        else Accepted(scheme + rem + ":" + Itoa(defaultPort))
  }
}
