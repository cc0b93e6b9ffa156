/** Reading a guest's address off a virsh table (internal/pkg/discovery/libvirt/libvirt.go),
    and the endpoint made from it. */
module Libvirt {
  import opened Text
  import opened Netutil
  import opened Endpoints
  import opened Addresses

  // ---- Words ---------------------------------------------------------------------

  function WordEnd(s: string): (k: nat)
    ensures k <= |s|
    ensures forall j :: 0 <= j < k ==> SpaceAtStart(s[j..]) == 0
    ensures s != "" && SpaceAtStart(s) == 0 ==> k > 0
  {
    if s == "" || SpaceAtStart(s) > 0 then 0
    else
      var k := WordEnd(s[1..]);
      assert forall j :: 1 <= j < k + 1 ==> s[j..] == s[1..][j - 1..];
      assert s[0..] == s;
      k + 1
  }

  /** strings.Fields. */
  function Words(s: string): (ws: seq<string>)
    ensures forall w :: w in ws ==> w != "" && SpaceAtEnd(w) == 0
    decreases |s|
  {
    if s == "" then []
    else if SpaceAtStart(s) > 0 then Words(s[SpaceAtStart(s)..])
    else
      var k := WordEnd(s);
      WordTrimmed(s, k);
      [s[..k]] + Words(s[k..])
  }

  lemma WordTrimmed(s: string, k: nat)
    requires k <= |s| && forall j :: 0 <= j < k ==> SpaceAtStart(s[j..]) == 0
    ensures SpaceAtEnd(s[..k]) == 0
  {
    var w := s[..k];
    var n := SpaceAtEnd(w);
    if n > 0 {
      var t := s[k - n..];
      assert t[0] == w[k - n];
      assert n > 1 ==> t[1] == w[k - n + 1];
      assert n > 2 ==> t[2] == w[k - n + 2];
      assert SpaceAtStart(t) == 0;
    }
  }

  // ---- Rows ----------------------------------------------------------------------

  datatype Entry = Entry(iface: string, proto: string, addr: string)

  /** A word that strings.ToLower turns into ipv4 or ipv6; U+0130 lowers to i. */
  function Proto(word: string): Option<string> {
    var rest :=
      if HasPrefix(word, "\U{C4}\U{B0}") then word[2..]
      else if word != "" && (word[0] == 'i' || word[0] == 'I') then word[1..]
      else "";
    if |rest| == 3 && (rest[0] == 'p' || rest[0] == 'P') && (rest[1] == 'v' || rest[1] == 'V') then
      if rest[2] == '4' then Some("ipv4") else if rest[2] == '6' then Some("ipv6") else None
    else None
  }

  /** Equal to a lower-case ASCII text but for the case of its letters. */
  predicate FoldsTo(s: string, lower: string) {
    |s| == |lower| && forall i :: 0 <= i < |s| ==>
      s[i] == lower[i] || ('a' <= lower[i] <= 'z' && s[i] == (lower[i] as int - 32) as char)
  }

  /** strings.EqualFold with "loopback"; the Kelvin sign U+212A folds to k. */
  predicate FoldsToLoopback(s: string) {
    || FoldsTo(s, "loopback")
    || (HasSuffix(s, "\U{E2}\U{84}\U{AA}") && FoldsTo(s[..|s| - 3], "loopbac"))
  }

  predicate IsLoopback(ip: IP) {
    match Canonical(ip)
    case V4(o) => |o| == 4 && o[0] == 127
    case V6(gs) => gs == [0, 0, 0, 0, 0, 0, 0, 1]
  }

  predicate IsUnspecified(ip: IP) {
    match Canonical(ip)
    case V4(o) => o == [0, 0, 0, 0]
    case V6(gs) => gs == [0, 0, 0, 0, 0, 0, 0, 0]
  }

  predicate IsIgnored(iface: string, addr: string) {
    || iface == "lo" || HasPrefix(iface, "lo:") || FoldsToLoopback(iface)
    || (ParseIP(addr).Some? && (IsLoopback(ParseIP(addr).value) || IsUnspecified(ParseIP(addr).value)))
    || HasPrefix(addr, "127.") || addr == "::1" || addr == "0.0.0.0" || addr == "::"
  }

  /** Neither blank nor part of the table's head. */
  predicate IsRow(line: string) {
    var l := TrimSpace(line);
    l != "" && !HasPrefix(l, "Name") && !HasPrefix(l, "---") && Words(l) != []
  }

  /** A row of `-` continues the interface above it. */
  predicate NamesIface(line: string) {
    IsRow(line) && Words(TrimSpace(line))[0] != "-"
  }

  /** The interface of the nearest of the first n lines that names one. */
  function NearestIface(lines: seq<string>, n: nat): (iface: string)
    requires n <= |lines|
    ensures SpaceAtEnd(iface) == 0
  {
    if n == 0 then ""
    else if NamesIface(lines[n - 1]) then Words(TrimSpace(lines[n - 1]))[0]
    else NearestIface(lines, n - 1)
  }

  /** That is the last of them with a first word other than `-`. */
  lemma {:induction false} NearestIfaceIs(lines: seq<string>, n: nat, i: nat)
    requires i < n <= |lines| && NamesIface(lines[i])
    requires forall k :: i < k < n ==> !NamesIface(lines[k])
    ensures NearestIface(lines, n) == Words(TrimSpace(lines[i]))[0]
    decreases n
  {
    hide NamesIface, Words, TrimSpace;
    if i < n - 1 { NearestIfaceIs(lines, n - 1, i); }
  }

  /** The first protocol word that has a word behind it, with that word. */
  function ProtoAndMask(words: seq<string>): Option<(string, string)> {
    if |words| < 2 then None
    else if Proto(words[0]).Some? then Some((Proto(words[0]).value, words[1]))
    else ProtoAndMask(words[1..])
  }

  /** The address a line gives to an interface, unless it is to be ignored. */
  function LineEntry(line: string, iface: string): Option<Entry> {
    if !IsRow(line) then None
    else
      match ProtoAndMask(Words(TrimSpace(line)))
      case None => None
      case Some((proto, masked)) =>
        var addr := Fields(masked, '/')[0];
        if IsIgnored(iface, addr) then None else Some(Entry(iface, proto, addr))
  }

  function RowEntry(lines: seq<string>, i: nat): Option<Entry>
    requires i < |lines|
  {
    LineEntry(lines[i], NearestIface(lines, i + 1))
  }

  function Entries(lines: seq<string>, n: nat): seq<Entry>
    requires n <= |lines|
  {
    if n == 0 then []
    else Entries(lines, n - 1) + match RowEntry(lines, n - 1) case None => [] case Some(e) => [e]
  }

  /** A row counts exactly if it has a protocol with an address behind it, and neither its
      interface nor its address is a loopback one or the unspecified one. */
  lemma RowCountsExactlyWhen(lines: seq<string>, i: nat)
    requires i < |lines|
    ensures var iface, found := NearestIface(lines, i + 1), ProtoAndMask(Words(TrimSpace(lines[i])));
      if !IsRow(lines[i]) || found.None? then RowEntry(lines, i).None?
      else
        var (proto, addr) := (found.value.0, Fields(found.value.1, '/')[0]);
        var loopback := iface == "lo" || (|iface| > 2 && iface[..3] == "lo:") || FoldsToLoopback(iface);
        var ip := ParseIP(addr);
        var useless := || addr in {"::1", "0.0.0.0", "::"} || (|addr| > 3 && addr[..4] == "127.")
                       || (ip.Some? && (IsLoopback(ip.value) || IsUnspecified(ip.value)));
        RowEntry(lines, i) == if loopback || useless then None else Some(Entry(iface, proto, addr))
  {
    hide IsRow, ProtoAndMask, Words, TrimSpace, NearestIface, ParseIP;
    hide FoldsToLoopback, IsLoopback, IsUnspecified, Fields;
  }

  /** What rows the choice is made from, by mode. */
  lemma RowKinds(lines: seq<string>, i: nat)
    requires i < |lines|
    ensures forall e :: RowEntry(lines, i) == Some(e) ==>
      && (Fits(lines, i, IsV4) <==> e.proto == "ipv4" || CountDots(e.addr) == 3)
      && (Fits(lines, i, IsGlobal) <==> (e.proto == "ipv6" || IsIPv6(e.addr)) && !IsLinkLocal(e.addr))
      && (Fits(lines, i, IsLocal) <==> (e.proto == "ipv6" || IsIPv6(e.addr)) && IsLinkLocal(e.addr))
  {
    hide RowEntry, IsIPv6, IsLinkLocal, CountDots;
  }

  // ---- The choice ------------------------------------------------------------------

  function CountDots(s: string): nat {
    if s == "" then 0 else (if s[0] == '.' then 1 else 0) + CountDots(s[1..])
  }

  predicate IsV4(e: Entry) { e.proto == "ipv4" || CountDots(e.addr) == 3 }

  predicate IsV6(e: Entry) { e.proto == "ipv6" || IsIPv6(e.addr) }

  predicate IsGlobal(e: Entry) { IsV6(e) && !IsLinkLocal(e.addr) }

  predicate IsLocal(e: Entry) { IsV6(e) && IsLinkLocal(e.addr) }

  function First(es: seq<Entry>, fits: Entry -> bool): Option<Entry> {
    if es == [] then None else if fits(es[0]) then Some(es[0]) else First(es[1..], fits)
  }

  function FindIPv4(es: seq<Entry>): string {
    match First(es, IsV4) case Some(e) => e.addr case None => ""
  }

  function FindIPv6(es: seq<Entry>): string {
    match First(es, IsGlobal)
    case Some(e) => e.addr
    case None => (
      match First(es, IsLocal)
      case Some(e) => AttachScopeIfLinkLocal(e.addr, e.iface)
      case None => "")
  }

  function Select(es: seq<Entry>, ipVersion: string): string {
    if ipVersion == "ipv6" then FindIPv6(es)
    else if ipVersion == "auto" then if FindIPv4(es) != "" then FindIPv4(es) else FindIPv6(es)
    else FindIPv4(es)
  }

  function Lines(out: string): seq<string> { Fields(out, '\n') }

  function Selected(out: string, ipVersion: string): string {
    Select(Entries(Lines(out), |Lines(out)|), ipVersion)
  }

  /** The scan carries the current interface along; what it collects is what looking
      back from each row would give. */
  method ParseAndSelectIP(out: string, ipVersion: string) returns (ip: string)
    ensures ip == Selected(out, ipVersion)
  {
    hide Words, TrimSpace, IsIgnored, Fields, IsV4, IsGlobal, IsLocal, First, ProtoAndMask;
    var entries: seq<Entry> := [];
    var currentIface := "";
    var lines := Fields(out, '\n');
    for i := 0 to |lines|
      invariant currentIface == NearestIface(lines, i)
      invariant entries == Entries(lines, i)
    {
      var l := TrimSpace(lines[i]);
      if l == "" || HasPrefix(l, "Name") || HasPrefix(l, "---") {
        continue;
      }
      var words := Words(l);
      if |words| == 0 {
        continue;
      }
      if words[0] != "-" {
        currentIface := words[0];
      }
      var iface := currentIface;
      var found := FindProto(words);
      if found.None? {
        continue;
      }
      var addr := Fields(found.value.1, '/')[0];
      if IsIgnored(iface, addr) {
        continue;
      }
      entries := entries + [Entry(iface, found.value.0, addr)];
    }
    ip := Select(entries, if ipVersion == "" then "ipv4" else ipVersion);
  }

  method FindProto(words: seq<string>) returns (found: Option<(string, string)>)
    ensures found == ProtoAndMask(words)
  {
    for i := 0 to |words|
      invariant ProtoAndMask(words) == ProtoAndMask(words[i..])
    {
      var proto := Proto(words[i]);
      if proto.Some? && i + 1 < |words| {
        return Some((proto.value, words[i + 1]));
      }
      assert words[i..][1..] == words[i + 1..];
    }
    return None;
  }

  // ---- What is chosen, row by row -----------------------------------------------------

  predicate Fits(lines: seq<string>, i: nat, fits: Entry -> bool)
    requires i < |lines|
  {
    RowEntry(lines, i).Some? && fits(RowEntry(lines, i).value)
  }

  ghost predicate IsFirst(lines: seq<string>, i: nat, fits: Entry -> bool)
    requires i < |lines|
  {
    Fits(lines, i, fits) && forall k :: 0 <= k < i ==> !Fits(lines, k, fits)
  }

  lemma {:induction false} FirstSnoc(es: seq<Entry>, e: Entry, fits: Entry -> bool)
    ensures First(es + [e], fits)
         == if First(es, fits).Some? then First(es, fits) else if fits(e) then Some(e) else None
  {
    if es == [] {
      assert [] + [e] == [e] && [e][1..] == [];
      assert First([e][1..], fits) == None;
    } else {
      assert (es + [e])[1..] == es[1..] + [e];
      FirstSnoc(es[1..], e, fits);
    }
  }

  lemma {:induction false} FirstOfRows(lines: seq<string>, n: nat, fits: Entry -> bool)
    requires n <= |lines|
    ensures First(Entries(lines, n), fits).None? <==> forall i :: 0 <= i < n ==> !Fits(lines, i, fits)
    ensures forall i :: 0 <= i < n && IsFirst(lines, i, fits) ==> First(Entries(lines, n), fits) == RowEntry(lines, i)
    decreases n
  {
    hide RowEntry;
    if n > 0 {
      FirstOfRows(lines, n - 1, fits);
      var es := Entries(lines, n - 1);
      match RowEntry(lines, n - 1)
      case None =>
        assert Entries(lines, n) == es;
      case Some(e) =>
        assert Entries(lines, n) == es + [e];
        FirstSnoc(es, e, fits);
        assert Fits(lines, n - 1, fits) == fits(e);
    }
  }

  ghost predicate NoRow(lines: seq<string>, fits: Entry -> bool) {
    forall i :: 0 <= i < |lines| ==> !Fits(lines, i, fits)
  }

  /** In ipv6 mode the choice is the first row with a global address; failing that
      the first with a link-local one, scoped with the nearest interface named at or
      above that row; failing both nothing. */
  lemma IPv6Choice(out: string)
    ensures var lines := Lines(out); var ip := Selected(out, "ipv6");
      && (forall i :: 0 <= i < |lines| && IsFirst(lines, i, IsGlobal) ==> ip == RowEntry(lines, i).value.addr)
      && (NoRow(lines, IsGlobal) ==>
            forall i :: 0 <= i < |lines| && IsFirst(lines, i, IsLocal) ==>
              ip == AttachScopeIfLinkLocal(RowEntry(lines, i).value.addr, NearestIface(lines, i + 1)))
      && (NoRow(lines, IsGlobal) && NoRow(lines, IsLocal) ==> ip == "")
  {
    hide NearestIface, IsRow, ProtoAndMask, IsIgnored, IsGlobal, IsLocal, First, Entries, Lines, AttachScopeIfLinkLocal;
    var lines := Lines(out);
    FirstOfRows(lines, |lines|, IsGlobal);
    FirstOfRows(lines, |lines|, IsLocal);
  }

  function NoIPv4(out: string, ipVersion: string): string {
    if ipVersion == "auto" then Selected(out, "ipv6") else ""
  }

  /** In auto mode the first IPv4 row wins over every IPv6 row, unless its address is
      empty; in every other mode but ipv6 there is nothing else to choose from. */
  lemma IPv4Choice(out: string, ipVersion: string)
    requires ipVersion != "ipv6"
    ensures var lines := Lines(out); var ip := Selected(out, ipVersion);
      && (forall i :: 0 <= i < |lines| && IsFirst(lines, i, IsV4) && RowEntry(lines, i).value.addr != "" ==>
            ip == RowEntry(lines, i).value.addr)
      && (forall i :: 0 <= i < |lines| && IsFirst(lines, i, IsV4) && RowEntry(lines, i).value.addr == "" ==>
            ip == NoIPv4(out, ipVersion))
      && (NoRow(lines, IsV4) ==> ip == NoIPv4(out, ipVersion))
  {
    hide NearestIface, IsRow, ProtoAndMask, IsIgnored, IsV4, First, Entries, Lines, FindIPv6;
    var lines := Lines(out);
    FirstOfRows(lines, |lines|, IsV4);
  }

  lemma {:induction false} FirstIsOneOf(es: seq<Entry>, fits: Entry -> bool)
    ensures First(es, fits).Some? ==> First(es, fits).value in es
  {
    if es != [] { FirstIsOneOf(es[1..], fits); }
  }

  lemma {:induction false} NoneIgnored(lines: seq<string>, n: nat)
    requires n <= |lines|
    ensures forall e :: e in Entries(lines, n) ==> !IsIgnored(e.iface, e.addr)
    decreases n
  {
    hide IsIgnored, RowEntry;
    if n > 0 {
      NoneIgnored(lines, n - 1);
      RowNotIgnored(lines, n - 1);
    }
  }

  lemma RowNotIgnored(lines: seq<string>, i: nat)
    requires i < |lines|
    ensures RowEntry(lines, i).Some? ==> !IsIgnored(RowEntry(lines, i).value.iface, RowEntry(lines, i).value.addr)
  {
    hide IsIgnored, IsRow, ProtoAndMask, NearestIface;
  }

  /** A loopback or unspecified address, in whatever brackets and with whatever zone. */
  predicate IsUseless(addr: string) {
    CleanIP(addr).Some? && (IsLoopback(CleanIP(addr).value) || IsUnspecified(CleanIP(addr).value))
  }

  /** Brackets or a zone around it keep an address from being recognised as one that
      is to be ignored. */
  predicate IsDisguised(addr: string) {
    ('%' in addr || IsBracketed(addr)) && IsUseless(addr)
  }

  /** The row that is chosen. */
  function Chosen(es: seq<Entry>, ipVersion: string): Option<Entry> {
    var v4 := First(es, IsV4);
    var v6 := if First(es, IsGlobal).Some? then First(es, IsGlobal) else First(es, IsLocal);
    if ipVersion == "ipv6" then v6
    else if ipVersion == "auto" && (v4.None? || v4.value.addr == "") then v6
    else v4
  }

  /** A loopback or unspecified address is chosen exactly if the chosen row writes one
      with brackets or a zone. */
  lemma UselessExactlyWhen(out: string, ipVersion: string)
    ensures var chosen := Chosen(Entries(Lines(out), |Lines(out)|), ipVersion);
      IsUseless(Selected(out, ipVersion)) <==> chosen.Some? && IsDisguised(chosen.value.addr)
  {
    hide Entries, Lines, IsV4, IsGlobal, IsLocal, IsUseless, IsIgnored, AttachScopeIfLinkLocal, First;
    var es := Entries(Lines(out), |Lines(out)|);
    NoneIgnored(Lines(out), |Lines(out)|);
    var chosen := Chosen(es, ipVersion);
    ChosenText(es, ipVersion);
    NothingIsFine();
    if chosen.Some? {
      ChosenIsOneOf(es, ipVersion);
      DisguisedIfNotIgnored(chosen.value.iface, chosen.value.addr);
      ScopeKeepsAddress(chosen.value.addr, chosen.value.iface);
    }
  }

  lemma ChosenText(es: seq<Entry>, ipVersion: string)
    ensures var chosen := Chosen(es, ipVersion);
      if chosen.None? then Select(es, ipVersion) == ""
      else || Select(es, ipVersion) == chosen.value.addr
           || Select(es, ipVersion) == AttachScopeIfLinkLocal(chosen.value.addr, chosen.value.iface)
  {
    hide IsLinkLocal, IsV4, IsGlobal, IsLocal, AttachScopeIfLinkLocal, First;
  }

  lemma ChosenIsOneOf(es: seq<Entry>, ipVersion: string)
    ensures Chosen(es, ipVersion).Some? ==> Chosen(es, ipVersion).value in es
  {
    hide First, IsV4, IsGlobal, IsLocal;
    FirstIsOneOf(es, IsV4);
    FirstIsOneOf(es, IsGlobal);
    FirstIsOneOf(es, IsLocal);
  }

  lemma NothingIsFine()
    ensures !IsUseless("")
  {
  }

  lemma DisguisedIfNotIgnored(iface: string, addr: string)
    requires !IsIgnored(iface, addr)
    ensures IsUseless(addr) <==> IsDisguised(addr)
  {
    hide ParseIP, IsLoopback, IsUnspecified, FoldsToLoopback;
  }

  /** Scoping an address changes nothing about the address itself. */
  lemma ScopeKeepsAddress(addr: string, iface: string)
    ensures IsUseless(AttachScopeIfLinkLocal(addr, iface)) <==> IsUseless(addr)
  {
    hide ParseIP, IsLinkLocal, IsLoopback, IsUnspecified;
    if iface != "" && IsLinkLocal(addr) && '%' !in addr {
      var inner := StripBrackets(addr);
      var scoped := inner + "%" + iface;
      assert '%' !in inner by { assert forall c :: c in inner ==> c in addr; }
      assert scoped[..|inner|] == inner;
      IndexByteAt(scoped, '%', |inner|);
      if IsBracketed(addr) {
        var text := "[" + addr[1..|addr| - 1] + "%" + iface + "]";
        assert text[1..|text| - 1] == scoped;
      } else {
        LocalIsIPv6(addr);
        NoOpenBracket(addr);
      }
    }
  }

  lemma LocalIsIPv6(addr: string)
    requires IsLinkLocal(addr)
    ensures IsIPv6(addr)
  {
    hide IsIPv6;
  }

  lemma NoOpenBracket(addr: string)
    requires IsIPv6(addr) && !IsBracketed(addr) && '%' !in addr
    ensures addr != "" && addr[0] != '['
  {
    hide ParseParts, IsMapped;
    assert StripZone(StripBrackets(addr)) == addr;
    AddressChars(addr);
    assert addr[0] in addr && !IsAddressChar('[');
  }

  /** Whatever the table and the mode, no loopback and no unspecified address is
      chosen, in any spelling net.ParseIP reads. */
  lemma NeverLoopback(out: string, ipVersion: string)
    ensures var ip := ParseIP(Selected(out, ipVersion));
      ip.Some? ==> !IsLoopback(ip.value) && !IsUnspecified(ip.value)
  {
    hide Entries, First, IsV4, IsGlobal, IsLocal, IsLoopback, IsUnspecified, IsLinkLocal, ParseIP;
    var es := Entries(Lines(out), |Lines(out)|);
    NoneIgnored(Lines(out), |Lines(out)|);
    FirstIsOneOf(es, IsV4);
    FirstIsOneOf(es, IsGlobal);
    FirstIsOneOf(es, IsLocal);
    if First(es, IsLocal).Some? {
      ScopedOrSame(First(es, IsLocal).value);
    }
    NoAddressInNothing();
  }

  lemma ScopedOrSame(e: Entry)
    ensures AttachScopeIfLinkLocal(e.addr, e.iface) == e.addr || ParseIP(AttachScopeIfLinkLocal(e.addr, e.iface)).None?
  {
    hide IsLinkLocal;
    var a := AttachScopeIfLinkLocal(e.addr, e.iface);
    if a != e.addr { assert '%' in a; }
  }

  lemma NoAddressInNothing()
    ensures ParseIP("").None?
  {
  }

  // ---- The endpoint --------------------------------------------------------------------

  datatype Source = Source(connectionMode: string, ipVersion: string, defaultPort: int)

  function FromTable(table: Option<string>, cfg: Source): Option<string> {
    match table
    case None => None
    case Some(out) =>
      var ip := Selected(out, cfg.ipVersion);
      if ip == "" then None
      else
        match NormalizeEndpoint(TCP + ip, cfg.defaultPort)
        case Accepted(e) => Some(e)
        case _ => None
  }

  /** The tables of the guest agent and of the DHCP leases, None where virsh failed. */
  function ResolveEndpoint(cfg: Source, vsockCID: string, virsh: bool, agent: Option<string>,
                           lease: Option<string>): string {
    if (cfg.connectionMode == "vsock" || cfg.connectionMode == "auto") && vsockCID != "" then
      "vsock://" + vsockCID + ":" + Itoa(cfg.defaultPort)
    else if (cfg.connectionMode == "ip" || cfg.connectionMode == "auto") && virsh then
      if FromTable(agent, cfg).Some? then FromTable(agent, cfg).value
      else if FromTable(lease, cfg).Some? then FromTable(lease, cfg).value
      else ""
    else ""
  }

  lemma ScopeAttached(addr: string, iface: string)
    requires iface != "" && IsLinkLocal(addr) && IsPlain(addr)
    ensures AttachScopeIfLinkLocal(addr, iface) == addr + "%" + iface
  {
    hide IsLinkLocal;
    PrefixChar('[', addr);
  }

  /** A table whose first usable address is link-local: the endpoint names that
      address, whole, in the scope of its interface -- exactly when that interface
      is no alias whose last part reads as a port. */
  lemma LinkLocalEndpoint(out: string, cfg: Source, i: nat)
    requires cfg.ipVersion == "ipv6" && i < |Lines(out)|
    requires NoRow(Lines(out), IsGlobal) && IsFirst(Lines(out), i, IsLocal)
    requires IsPlain(RowEntry(Lines(out), i).value.addr) && NearestIface(Lines(out), i + 1) != ""
    ensures var scoped := RowEntry(Lines(out), i).value.addr + "%" + NearestIface(Lines(out), i + 1);
      FromTable(Some(out), cfg) == Some(Bracketed(TCP, scoped, Itoa(cfg.defaultPort)))
      <==> !AliasPort(NearestIface(Lines(out), i + 1))
  {
    IPv6Choice(out);
    var addr, iface := RowEntry(Lines(out), i).value.addr, NearestIface(Lines(out), i + 1);
    LocalEntry(Lines(out), i);
    hide *;
    ScopeAttached(addr, iface);
    ScopedStaysWhole(addr, iface, cfg.defaultPort);
    TableAccepted(out, cfg, addr + "%" + iface, Bracketed(TCP, addr + "%" + iface, Itoa(cfg.defaultPort)));
  }

  lemma LocalEntry(lines: seq<string>, i: nat)
    requires i < |lines| && Fits(lines, i, IsLocal)
    ensures IsLinkLocal(RowEntry(lines, i).value.addr) && IsIPv6(RowEntry(lines, i).value.addr)
  {
    hide RowEntry, IsIPv6;
  }

  /** A table whose first global address is not scoped: the endpoint names the whole
      address exactly when its last group cannot be taken for a port. */
  lemma GlobalEndpoint(out: string, cfg: Source, i: nat)
    requires cfg.ipVersion == "ipv6" && i < |Lines(out)| && IsFirst(Lines(out), i, IsGlobal)
    requires var addr := RowEntry(Lines(out), i).value.addr; IsIPv6(addr) && IsPlain(addr)
    ensures var addr := RowEntry(Lines(out), i).value.addr;
      && ':' in addr && ParseParts(addr).Some?
      && (FromTable(Some(out), cfg) == Some(Bracketed(TCP, addr, Itoa(cfg.defaultPort))) <==> !MisreadAsPort(addr))
  {
    IPv6Choice(out);
    var addr := RowEntry(Lines(out), i).value.addr;
    hide *;
    UnscopedStaysWhole(addr, cfg.defaultPort);
    PlainAddress(addr);
    TableAccepted(out, cfg, addr, Bracketed(TCP, addr, Itoa(cfg.defaultPort)));
  }

  lemma TableAccepted(out: string, cfg: Source, ip: string, e: string)
    requires ip != "" && Selected(out, cfg.ipVersion) == ip
    ensures FromTable(Some(out), cfg) == Some(e) <==> NormalizeEndpoint(TCP + ip, cfg.defaultPort) == Accepted(e)
  {
    hide Selected, NormalizeEndpoint;
  }

  /** A vsock address comes first where the mode allows it, and NewInstance leaves it as it
      is; else the guest agent's table, then that of the leases, if virsh may be asked. */
  lemma EndpointSources(cfg: Source, cid: string, virsh: bool, agent: Option<string>, lease: Option<string>, p: int)
    ensures var e := ResolveEndpoint(cfg, cid, virsh, agent, lease);
      if cfg.connectionMode in {"vsock", "auto"} && cid != "" then
        e == "vsock://" + cid + ":" + Itoa(cfg.defaultPort) && NormalizeEndpoint(e, p) == Accepted(e)
      else if cfg.connectionMode in {"ip", "auto"} && virsh then
        && (forall a :: FromTable(agent, cfg) == Some(a) ==> e == a)
        && (FromTable(agent, cfg).None? ==> forall a :: FromTable(lease, cfg) == Some(a) ==> e == a)
        && (FromTable(agent, cfg).None? && FromTable(lease, cfg).None? ==> e == "")
      else e == ""
  {
    VsockKept(cid, Itoa(cfg.defaultPort), p);
    ItoaEnds(cfg.defaultPort);
    hide FromTable, NormalizeEndpoint;
  }

  lemma VsockKept(cid: string, d: string, p: int)
    ensures d != "" && IsSolid(d[|d| - 1]) ==>
      NormalizeEndpoint("vsock://" + cid + ":" + d, p) == Accepted("vsock://" + cid + ":" + d)
  {
    if d != "" && IsSolid(d[|d| - 1]) {
      var e := "vsock://" + cid + ":" + d;
      assert e[0] == 'v' && e[|e| - 1] == d[|d| - 1] && e[..8] == "vsock://";
      TrimSpaceFixed(e);
    }
  }

  /** What the guest agent's table leads to is the endpoint, whatever the leases say;
      made of a scoped link-local address, NewInstance leaves it as it is, so that the
      next Reconcile finds nothing changed, exactly if the interface has no `]` or
      one followed by a colon. */
  lemma AgentEndpointSettles(out: string, lease: Option<string>, cfg: Source, i: nat, p: int)
    requires cfg.connectionMode == "ip" && cfg.ipVersion == "ipv6" && i < |Lines(out)|
    requires NoRow(Lines(out), IsGlobal) && IsFirst(Lines(out), i, IsLocal)
    requires IsPlain(RowEntry(Lines(out), i).value.addr)
    requires NearestIface(Lines(out), i + 1) != "" && !AliasPort(NearestIface(Lines(out), i + 1))
    ensures var scoped := RowEntry(Lines(out), i).value.addr + "%" + NearestIface(Lines(out), i + 1);
      var e := ResolveEndpoint(cfg, "", true, Some(out), lease);
      && e == Bracketed(TCP, scoped, Itoa(cfg.defaultPort))
      && (NormalizeEndpoint(e, p) == Accepted(e) <==> BracketSafe(scoped))
  {
    LinkLocalEndpoint(out, cfg, i);
    hide Lines, RowEntry, NearestIface, IsFirst, NoRow, FromTable, NormalizeEndpoint, BracketSafe, AliasPort, IsPlain;
    ItoaEnds(cfg.defaultPort);
    NormalizeBracketed(TCP, RowEntry(Lines(out), i).value.addr + "%" + NearestIface(Lines(out), i + 1),
                       Itoa(cfg.defaultPort), p);
  }
}
