/** Choosing a network namespace for a target (internal/pkg/netns/resolver.go). */
module Resolver {
  import opened Text
  import opened Netutil
  import opened Config

  datatype Item = Item(name: string, tenants: seq<string>, subnets: seq<string>)

  datatype NetNSConfig = NetNSConfig(items: seq<Item>, template: string, autoDetectRoute: bool, defaultNetNS: string)

  /** The library calls and the route check, as fixed functions: net.ParseCIDR with
      Contains, the host of url.Parse when there is one, strings.EqualFold, and the
      checker. */
  datatype Env = Env(
    parseCIDR: string -> Option<IP -> bool>,
    urlHost: string -> Option<string>,
    equalFold: (string, string) -> bool,
    routeChecker: Option<(string, IP) -> bool>)

  // ---- The address of an endpoint ------------------------------------------------

  /** Position of the first `://`, or -1. */
  function IndexScheme(s: string): (i: int)
    ensures i == -1 || 0 <= i <= |s| - 3
    ensures i >= 0 ==> s[i] == ':' && s[i + 1] == '/'
  {
    if |s| < 3 then -1
    else if s[0] == ':' && s[1] == '/' && s[2] == '/' then 0
    else var i := IndexScheme(s[1..]); if i < 0 then -1 else i + 1
  }

  function Unwrapped(h: string): string {
    var a := if HasPrefix(h, "[") then h[1..] else h;
    if HasSuffix(a, "]") then a[..|a| - 1] else a
  }

  function HostText(e: string, env: Env): string {
    var i := IndexScheme(e);
    var host := if i < 0 then e else (match env.urlHost(e) case Some(h) => h case None => e[i + 3..]);
    match SplitHostPort(host) case Some(hp) => hp.host case None => host
  }

  function ExtractIP(endpoint: string, env: Env): Option<IP> {
    var e := TrimSpace(endpoint);
    if e == "" then None
    else
      match ParseIP(StripZone(Unwrapped(HostText(e, env))))
      case None => None
      case Some(ip) => Some(Canonical(ip))
  }

  lemma {:induction false} NoScheme(s: string)
    requires '/' !in s
    ensures IndexScheme(s) < 0
  {
    if |s| >= 3 { NoScheme(s[1..]); }
  }

  lemma SplitBracketed(h: string, d: string)
    requires '[' !in h && ']' !in h && ':' !in d && '[' !in d && ']' !in d
    ensures SplitHostPort("[" + h + "]:" + d) == Some(HostPort(h, d))
  {
    var e := "[" + h + "]:" + d;
    assert e[..|h| + 1] == "[" + h;
    IndexByteAt(e, ']', |h| + 1);
    assert e[|h| + 3..] == d;
    LastIndexByteAt(e, ':', |h| + 2);
    assert e[1..] == h + "]:" + d;
    assert e[|h| + 2..] == ":" + d;
    assert e[1..|h| + 1] == h;
  }

  lemma UnwrappedPlain(h: string)
    requires '[' !in h && ']' !in h
    ensures Unwrapped(h) == h
  {
    PrefixChar('[', h);
    if h != "" { assert h[|h| - 1..] == [h[|h| - 1]]; }
  }

  lemma BracketedTrimmed(h: string, d: string)
    requires d != "" && IsSolid(d[|d| - 1])
    ensures TrimSpace("[" + h + "]:" + d) == "[" + h + "]:" + d
  {
    var e := "[" + h + "]:" + d;
    assert e[|e| - 1] == d[|d| - 1];
    TrimSpaceFixed(e);
  }

  /** Of a bracketed endpoint with a port, the address is what is in the brackets
      up to its zone. */
  lemma ExtractBracketed(h: string, d: string, env: Env)
    requires '/' !in h && '/' !in d && '[' !in h && ']' !in h && ':' !in d && '[' !in d && ']' !in d
    requires d != "" && IsSolid(d[|d| - 1])
    ensures ExtractIP("[" + h + "]:" + d, env)
         == match ParseIP(StripZone(h)) case None => None case Some(ip) => Some(Canonical(ip))
  {
    hide SplitHostPort, TrimSpace, ParseIP, StripZone, Canonical, Unwrapped, IndexScheme;
    BracketedTrimmed(h, d);
    NoScheme("[" + h + "]:" + d);
    SplitBracketed(h, d);
    UnwrappedPlain(h);
  }

  /** Without brackets it is what is before the port, or all of it. */
  lemma ExtractPlain(h: string, d: string, env: Env)
    requires TrimSpace(h) == h && h != "" && TrimSpace(h + ":" + d) == h + ":" + d
    requires '/' !in h && '/' !in d && ':' !in h && ':' !in d
    requires '[' !in h && ']' !in h && '[' !in d && ']' !in d
    ensures var ip := match ParseIP(StripZone(h)) case None => None case Some(ip) => Some(Canonical(ip));
      ExtractIP(h, env) == ip && ExtractIP(h + ":" + d, env) == ip
  {
    hide TrimSpace, ParseIP, StripZone, Canonical, Unwrapped, IndexScheme;
    NoScheme(h);
    NoScheme(h + ":" + d);
    UnwrappedPlain(h);
    PortSplit(h, d);
  }

  lemma PortSplit(h: string, d: string)
    requires ':' !in h && ':' !in d && '[' !in h && ']' !in h && '[' !in d && ']' !in d
    ensures SplitHostPort(h).None? && SplitHostPort(h + ":" + d) == Some(HostPort(h, d))
  {
    var e := h + ":" + d;
    LastIndexByteAt(e, ':', |h|);
    assert e[..|h|] == h && e[|h| + 1..] == d;
  }

  /** With a scheme in front, it is that of the host that url.Parse finds, or else of
      what follows the scheme: the form in which discovered endpoints arrive. */
  lemma ExtractWithScheme(h: string, d: string, env: Env)
    requires '[' !in h && ']' !in h && ':' !in d && '[' !in d && ']' !in d
    requires d != "" && IsSolid(d[|d| - 1])
    requires env.urlHost(TCP + ("[" + h + "]:" + d)).Some? ==>
      env.urlHost(TCP + ("[" + h + "]:" + d)).value == "[" + h + "]:" + d
    ensures ExtractIP(TCP + ("[" + h + "]:" + d), env)
         == match ParseIP(StripZone(h)) case None => None case Some(ip) => Some(Canonical(ip))
  {
    hide SplitHostPort, TrimSpace, ParseIP, StripZone, Canonical, Unwrapped, IndexScheme;
    var host := "[" + h + "]:" + d;
    SchemeTrimmed(host);
    SchemeFirst(host);
    SplitBracketed(h, d);
    UnwrappedPlain(h);
  }

  lemma SchemeFirst(host: string)
    ensures IndexScheme(TCP + host) == 3 && (TCP + host)[6..] == host
  {
    var e := TCP + host;
    assert e[1..] == "cp://" + host;
    assert ("cp://" + host)[1..] == "p://" + host;
    assert ("p://" + host)[1..] == "://" + host;
    assert IndexScheme("://" + host) == 0;
    assert IndexScheme("p://" + host) == 1;
    assert IndexScheme("cp://" + host) == 2;
  }

  lemma SchemeTrimmed(host: string)
    requires host != "" && IsSolid(host[|host| - 1])
    ensures TrimSpace(TCP + host) == TCP + host
  {
    var e := TCP + host;
    assert e[0] == 't' && e[|e| - 1] == host[|host| - 1];
    TrimSpaceFixed(e);
  }

  // ---- The search, read straight off the configuration ------------------------------

  function TenantOf(t: Target): string {
    if t.tenant != "" then t.tenant
    else if "project_id" in t.labels && t.labels["project_id"] != "" then t.labels["project_id"]
    else if "tenant" in t.labels then t.labels["tenant"]
    else ""
  }

  ghost predicate Lists(item: Item, tenant: string, env: Env) {
    exists x ::
      x in item.tenants && env.equalFold(x, tenant)
  }

  /** The first item that lists the tenant. */
  ghost function ItemFor(items: seq<Item>, tenant: string, env: Env): Option<string> {
    if items == [] then None
    else if Lists(items[0], tenant, env) then Some(items[0].name)
    else ItemFor(items[1..], tenant, env)
  }

  function Parsed(subnet: string, env: Env): Option<IP -> bool> {
    if TrimSpace(subnet) == "" then None else env.parseCIDR(TrimSpace(subnet))
  }

  ghost predicate Covers(item: Item, ip: IP, env: Env) {
    exists s ::
      s in item.subnets && Parsed(s, env).Some? && Parsed(s, env).value(ip)
  }

  /** The first named item with a subnet around the address. */
  ghost function SubnetFor(items: seq<Item>, ip: IP, env: Env): Option<string> {
    if items == [] then None
    else if items[0].name != "" && Covers(items[0], ip, env) then Some(items[0].name)
    else SubnetFor(items[1..], ip, env)
  }

  /** The first named item whose namespace has a route to the address. */
  function RouteFor(items: seq<Item>, ip: IP, check: (string, IP) -> bool): Option<string> {
    if items == [] then None
    else if items[0].name != "" && check(items[0].name, ip) then Some(items[0].name)
    else RouteFor(items[1..], ip, check)
  }

  const TENANT := "{{.Tenant}}"
  const TENANT_ID := "{{.TenantID}}"

  function Render(template: string, tenant: string): string {
    ReplaceAll(ReplaceAll(template, TENANT, tenant), TENANT_ID, tenant)
  }

  ghost function ByTenant(cfg: NetNSConfig, tenant: string, env: Env): Option<string> {
    if tenant == "" then None
    else if ItemFor(cfg.items, tenant, env).Some? then ItemFor(cfg.items, tenant, env)
    else if Render(cfg.template, tenant) != "" then Some(Render(cfg.template, tenant))
    else None
  }

  ghost function ByAddress(cfg: NetNSConfig, ip: IP, env: Env): Option<string> {
    if SubnetFor(cfg.items, ip, env).Some? then SubnetFor(cfg.items, ip, env)
    else if cfg.autoDetectRoute && env.routeChecker.Some? then RouteFor(cfg.items, ip, env.routeChecker.value)
    else None
  }

  /** The namespace of a target: its own, else its tenant's, else its address's,
      else the default. No cache, no deduplicated list. */
  ghost function Resolved(cfg: NetNSConfig, t: Target, env: Env): string {
    if t.netns != "" then t.netns
    else if ByTenant(cfg, TenantOf(t), env).Some? then ByTenant(cfg, TenantOf(t), env).value
    else
      match ExtractIP(t.endpoint, env)
      case Some(ip) =>
        if ByAddress(cfg, ip, env).Some? then ByAddress(cfg, ip, env).value else cfg.defaultNetNS
      case None => cfg.defaultNetNS
  }

  // ---- The order of the search ---------------------------------------------------------

  ghost predicate HasTenant(item: Item, tenant: string, env: Env) {
    exists k ::
      0 <= k < |item.tenants| && env.equalFold(item.tenants[k], tenant)
  }

  /** Named, and with a subnet around the address. */
  ghost predicate HasSubnet(item: Item, ip: IP, env: Env) {
    item.name != "" &&
    exists k ::
      && 0 <= k < |item.subnets| && TrimSpace(item.subnets[k]) != ""
      && env.parseCIDR(TrimSpace(item.subnets[k])).Some? && env.parseCIDR(TrimSpace(item.subnets[k])).value(ip)
  }

  /** Named, and with a route to the address, if routes are looked for at all. */
  ghost predicate HasRoute(item: Item, ip: IP, auto: bool, env: Env) {
    auto && item.name != "" && env.routeChecker.Some? && env.routeChecker.value(item.name, ip)
  }

  ghost function WithTenant(tenant: string, env: Env): Item -> bool { x => HasTenant(x, tenant, env) }

  ghost function WithSubnet(ip: IP, env: Env): Item -> bool { x => HasSubnet(x, ip, env) }

  ghost function WithRoute(ip: IP, auto: bool, env: Env): Item -> bool { x => HasRoute(x, ip, auto, env) }

  ghost predicate IsFirst(items: seq<Item>, i: nat, fits: Item -> bool) {
    i < |items| && fits(items[i]) && forall j :: 0 <= j < i ==> !fits(items[j])
  }

  ghost predicate NoItem(items: seq<Item>, fits: Item -> bool) {
    forall j :: 0 <= j < |items| ==> !fits(items[j])
  }

  /** The tenant that is searched for: the target's own, else its project, else the one
      its labels name. */
  ghost predicate SearchedFor(t: Target, tenant: string) {
    var project := if "project_id" in t.labels then t.labels["project_id"] else "";
    var named := if "tenant" in t.labels then t.labels["tenant"] else "";
    && (t.tenant != "" ==> tenant == t.tenant)
    && (t.tenant == "" && project != "" ==> tenant == project)
    && (t.tenant == "" && project == "" ==> tenant == named)
  }

  /** The namespace for a tenant, whatever the subnets and routes: that of the first item
      that lists it, whatever the template; or else the rendered template. */
  ghost predicate TenantAnswers(cfg: NetNSConfig, tenant: string, env: Env, netns: string) {
    var lists := WithTenant(tenant, env);
    (forall i: nat :: IsFirst(cfg.items, i, lists) ==> netns == cfg.items[i].name)
    && (NoItem(cfg.items, lists) ==> Render(cfg.template, tenant) != "" && netns == Render(cfg.template, tenant))
  }

  /** No item lists the tenant, and there is no template to render, or no tenant. */
  ghost predicate TenantSilent(cfg: NetNSConfig, tenant: string, env: Env) {
    tenant == "" ||
    (NoItem(cfg.items, WithTenant(tenant, env)) && Render(cfg.template, tenant) == "")
  }

  /** The namespace for an address: that of the first item with a subnet around it, else
      of the first with a route to it, if these are looked for, else the default. */
  ghost predicate AddressAnswers(cfg: NetNSConfig, ip: IP, env: Env, netns: string) {
    var around, routed := WithSubnet(ip, env), WithRoute(ip, cfg.autoDetectRoute, env);
    (forall i: nat :: IsFirst(cfg.items, i, around) ==> netns == cfg.items[i].name)
    && (NoItem(cfg.items, around) ==> forall i: nat :: IsFirst(cfg.items, i, routed) ==> netns == cfg.items[i].name)
    && (NoItem(cfg.items, around) && NoItem(cfg.items, routed) ==> netns == cfg.defaultNetNS)
  }

  /** A namespace of the target's own comes first, then its tenant, then its address, then
      the default. */
  ghost predicate InOrder(cfg: NetNSConfig, t: Target, env: Env, netns: string) {
    && (t.netns != "" ==> netns == t.netns)
    && (t.netns == "" ==> forall tenant :: SearchedFor(t, tenant) ==>
          if !TenantSilent(cfg, tenant, env) then TenantAnswers(cfg, tenant, env, netns)
          else
            match ExtractIP(t.endpoint, env)
            case Some(ip) => AddressAnswers(cfg, ip, env, netns)
            case None => netns == cfg.defaultNetNS)
  }

  lemma {:induction false} ItemForIs(items: seq<Item>, tenant: string, env: Env)
    ensures var lists := WithTenant(tenant, env);
      && (forall i: nat :: IsFirst(items, i, lists) ==> ItemFor(items, tenant, env) == Some(items[i].name))
      && (NoItem(items, lists) <==> ItemFor(items, tenant, env).None?)
  {
    if items != [] {
      ItemForIs(items[1..], tenant, env);
      ListsIs(items[0], tenant, env);
      hide HasTenant, Lists;
      FirstOfRest(items, WithTenant(tenant, env));
    }
  }

  lemma ListsIs(item: Item, tenant: string, env: Env)
    ensures Lists(item, tenant, env) <==> HasTenant(item, tenant, env)
  {
    if Lists(item, tenant, env) {
      var x :| x in item.tenants && env.equalFold(x, tenant);
      var k :| 0 <= k < |item.tenants| && item.tenants[k] == x;
    }
  }

  lemma CoversIs(item: Item, ip: IP, env: Env)
    ensures item.name != "" && Covers(item, ip, env) <==> HasSubnet(item, ip, env)
  {
    if item.name != "" && Covers(item, ip, env) {
      var s :| s in item.subnets && Parsed(s, env).Some? && Parsed(s, env).value(ip);
      var k :| 0 <= k < |item.subnets| && item.subnets[k] == s;
    }
    if HasSubnet(item, ip, env) {
      var k :| 0 <= k < |item.subnets| && TrimSpace(item.subnets[k]) != ""
            && env.parseCIDR(TrimSpace(item.subnets[k])).Some? && env.parseCIDR(TrimSpace(item.subnets[k])).value(ip);
      assert item.subnets[k] in item.subnets;
    }
  }

  /** The first item that fits is the head, or it is first in the rest. */
  lemma FirstOfRest(items: seq<Item>, fits: Item -> bool)
    requires items != []
    ensures NoItem(items, fits) <==> !fits(items[0]) && NoItem(items[1..], fits)
    ensures fits(items[0]) ==> forall i: nat :: IsFirst(items, i, fits) ==> i == 0
    ensures !fits(items[0]) ==> forall i: nat :: IsFirst(items, i, fits) ==> i > 0 && IsFirst(items[1..], i - 1, fits)
  {
    if NoItem(items[1..], fits) && !fits(items[0]) {
      forall j | 0 <= j < |items| ensures !fits(items[j]) { if j > 0 { assert items[j] == items[1..][j - 1]; } }
    }
    forall i: nat | IsFirst(items, i, fits) && i > 0 ensures !fits(items[0]) && IsFirst(items[1..], i - 1, fits) {
      forall j | 0 <= j < i - 1 ensures !fits(items[1..][j]) { assert items[1..][j] == items[j + 1]; }
    }
  }

  lemma {:induction false} SubnetForIs(items: seq<Item>, ip: IP, env: Env)
    ensures var around := WithSubnet(ip, env);
      && (forall i: nat :: IsFirst(items, i, around) ==> SubnetFor(items, ip, env) == Some(items[i].name))
      && (NoItem(items, around) <==> SubnetFor(items, ip, env).None?)
  {
    if items != [] {
      SubnetForIs(items[1..], ip, env);
      CoversIs(items[0], ip, env);
      hide HasSubnet, Covers;
      FirstOfRest(items, WithSubnet(ip, env));
    }
  }

  lemma {:induction false} RouteForIs(items: seq<Item>, ip: IP, env: Env)
    requires env.routeChecker.Some?
    ensures var routed := WithRoute(ip, true, env);
      && (forall i: nat :: IsFirst(items, i, routed) ==>
            RouteFor(items, ip, env.routeChecker.value) == Some(items[i].name))
      && (NoItem(items, routed) <==> RouteFor(items, ip, env.routeChecker.value).None?)
  {
    if items != [] {
      RouteForIs(items[1..], ip, env);
      FirstOfRest(items, WithRoute(ip, true, env));
    }
  }

  /** The search keeps this order. */
  lemma ResolvedInOrder(cfg: NetNSConfig, t: Target, env: Env)
    ensures InOrder(cfg, t, env, Resolved(cfg, t, env))
  {
    SearchedForTenant(t);
    hide TenantOf, SearchedFor, ExtractIP, Render, ByAddress, HasTenant, ItemFor;
    var tenant, r := TenantOf(t), Resolved(cfg, t, env);
    ItemForIs(cfg.items, tenant, env);
    if t.netns == "" && TenantSilent(cfg, tenant, env) && ExtractIP(t.endpoint, env).Some? {
      ByAddressInOrder(cfg, ExtractIP(t.endpoint, env).value, env);
      hide AddressAnswers;
    }
  }

  lemma SearchedForTenant(t: Target)
    ensures forall tenant :: SearchedFor(t, tenant) <==> tenant == TenantOf(t)
  {
  }

  lemma ByAddressInOrder(cfg: NetNSConfig, ip: IP, env: Env)
    ensures var found := ByAddress(cfg, ip, env);
      AddressAnswers(cfg, ip, env, if found.Some? then found.value else cfg.defaultNetNS)
  {
    hide HasSubnet, SubnetFor, RouteFor;
    SubnetForIs(cfg.items, ip, env);
    if env.routeChecker.Some? { RouteForIs(cfg.items, ip, env); }
  }

  // ---- The lists the resolver searches instead ---------------------------------------

  datatype SubnetEntry = SubnetEntry(cidr: IP -> bool, netns: string)

  /** Names in order of first appearance. */
  function Candidates(items: seq<Item>): (names: seq<string>)
    ensures forall n :: n in names <==> n != "" && exists i :: 0 <= i < |items| && items[i].name == n
    ensures forall i, j :: 0 <= i < j < |names| ==> names[i] != names[j]
  {
    if items == [] then []
    else
      var last := items[|items| - 1].name;
      var names := Candidates(items[..|items| - 1]);
      assert items == items[..|items| - 1] + [items[|items| - 1]];
      if last == "" || last in names then names else names + [last]
  }

  function FirstAccepted(names: seq<string>, ip: IP, check: (string, IP) -> bool): Option<string> {
    if names == [] then None
    else if check(names[0], ip) then Some(names[0])
    else FirstAccepted(names[1..], ip, check)
  }

  lemma {:induction false} FirstAcceptedSnoc(names: seq<string>, n: string, ip: IP, check: (string, IP) -> bool)
    ensures FirstAccepted(names + [n], ip, check)
         == if FirstAccepted(names, ip, check).Some? then FirstAccepted(names, ip, check)
            else if check(n, ip) then Some(n) else None
  {
    if names == [] {
      assert [] + [n] == [n] && [n][1..] == [];
      assert FirstAccepted([n][1..], ip, check) == None;
    } else {
      assert (names + [n])[1..] == names[1..] + [n];
      FirstAcceptedSnoc(names[1..], n, ip, check);
    }
  }

  lemma {:induction false} FirstAcceptedNone(names: seq<string>, ip: IP, check: (string, IP) -> bool)
    ensures FirstAccepted(names, ip, check).None? ==> forall n :: n in names ==> !check(n, ip)
  {
    if names != [] {
      assert names == [names[0]] + names[1..];
      FirstAcceptedNone(names[1..], ip, check);
    }
  }

  lemma {:induction false} RouteSnoc(items: seq<Item>, x: Item, ip: IP, check: (string, IP) -> bool)
    ensures RouteFor(items + [x], ip, check)
         == if RouteFor(items, ip, check).Some? then RouteFor(items, ip, check)
            else if x.name != "" && check(x.name, ip) then Some(x.name) else None
  {
    if items == [] {
      assert [] + [x] == [x] && [x][1..] == [];
      assert RouteFor([x][1..], ip, check) == None;
    } else {
      assert (items + [x])[1..] == items[1..] + [x];
      RouteSnoc(items[1..], x, ip, check);
    }
  }

  /** Dropping repeated names never changes which one is chosen. */
  lemma {:induction false} DedupeKeepsChoice(items: seq<Item>, ip: IP, check: (string, IP) -> bool)
    ensures FirstAccepted(Candidates(items), ip, check) == RouteFor(items, ip, check)
  {
    if items != [] {
      var rest, x := items[..|items| - 1], items[|items| - 1];
      assert items == rest + [x];
      DedupeKeepsChoice(rest, ip, check);
      RouteSnoc(rest, x, ip, check);
      FirstAcceptedSnoc(Candidates(rest), x.name, ip, check);
      FirstAcceptedNone(Candidates(rest), ip, check);
    }
  }

  /** The first entry around the address. */
  function Entered(entries: seq<SubnetEntry>, ip: IP): Option<string> {
    if entries == [] then None
    else if entries[0].cidr(ip) then Some(entries[0].netns)
    else Entered(entries[1..], ip)
  }

  lemma {:induction false} EnteredAppend(a: seq<SubnetEntry>, b: seq<SubnetEntry>, ip: IP)
    ensures Entered(a + b, ip) == if Entered(a, ip).Some? then Entered(a, ip) else Entered(b, ip)
  {
    if a == [] {
      assert [] + b == b;
    } else {
      assert (a + b)[1..] == a[1..] + b;
      EnteredAppend(a[1..], b, ip);
    }
  }

  function EntriesOf(subnets: seq<string>, netns: string, env: Env): seq<SubnetEntry> {
    if subnets == [] then []
    else
      EntriesOf(subnets[..|subnets| - 1], netns, env)
      + match Parsed(subnets[|subnets| - 1], env) case None => [] case Some(cidr) => [SubnetEntry(cidr, netns)]
  }

  function Entries(items: seq<Item>, env: Env): seq<SubnetEntry> {
    if items == [] then []
    else
      var x := items[|items| - 1];
      Entries(items[..|items| - 1], env) + if x.name == "" then [] else EntriesOf(x.subnets, x.name, env)
  }

  lemma {:induction false} EntriesOfCover(item: Item, n: nat, ip: IP, env: Env)
    requires n <= |item.subnets|
    ensures Entered(EntriesOf(item.subnets[..n], item.name, env), ip)
         == if Covers(item.(subnets := item.subnets[..n]), ip, env) then Some(item.name) else None
    decreases n
  {
    if n > 0 {
      var init, last := item.subnets[..n - 1], item.subnets[n - 1];
      assert item.subnets[..n] == init + [last];
      assert item.subnets[..n][..n - 1] == init;
      EntriesOfCover(item, n - 1, ip, env);
      var tail := match Parsed(last, env) case None => [] case Some(cidr) => [SubnetEntry(cidr, item.name)];
      EnteredAppend(EntriesOf(init, item.name, env), tail, ip);
      SingleEntry(last, item.name, ip, env);
      CoversSnoc(item, init, last, ip, env);
    }
  }

  lemma SingleEntry(subnet: string, netns: string, ip: IP, env: Env)
    ensures Entered(match Parsed(subnet, env) case None => [] case Some(cidr) => [SubnetEntry(cidr, netns)], ip)
         == if Parsed(subnet, env).Some? && Parsed(subnet, env).value(ip) then Some(netns) else None
  {
    if Parsed(subnet, env).Some? {
      var es := [SubnetEntry(Parsed(subnet, env).value, netns)];
      assert es[1..] == [];
      assert Entered(es[1..], ip) == None;
    }
  }

  lemma CoversSnoc(item: Item, init: seq<string>, last: string, ip: IP, env: Env)
    ensures Covers(item.(subnets := init + [last]), ip, env)
       <==> Covers(item.(subnets := init), ip, env) || (Parsed(last, env).Some? && Parsed(last, env).value(ip))
  {
    hide Parsed;
    var both, some := item.(subnets := init + [last]), item.(subnets := init);
    if Covers(some, ip, env) {
      var s :| s in some.subnets && Parsed(s, env).Some? && Parsed(s, env).value(ip);
      assert s in both.subnets;
    }
    if Parsed(last, env).Some? && Parsed(last, env).value(ip) { assert last in both.subnets; }
    if Covers(both, ip, env) {
      var s :| s in both.subnets && Parsed(s, env).Some? && Parsed(s, env).value(ip);
      assert s == last || s in some.subnets;
    }
  }

  lemma {:induction false} SubnetSnoc(items: seq<Item>, x: Item, ip: IP, env: Env)
    ensures SubnetFor(items + [x], ip, env)
         == if SubnetFor(items, ip, env).Some? then SubnetFor(items, ip, env)
            else if x.name != "" && Covers(x, ip, env) then Some(x.name) else None
  {
    hide Covers;
    if items == [] {
      assert [] + [x] == [x] && [x][1..] == [];
      assert SubnetFor([x][1..], ip, env) == None;
    } else {
      assert (items + [x])[1..] == items[1..] + [x];
      SubnetSnoc(items[1..], x, ip, env);
    }
  }

  /** Searching the parsed entries is searching the configuration. */
  lemma {:induction false} EntriesKeepChoice(items: seq<Item>, ip: IP, env: Env)
    ensures Entered(Entries(items, env), ip) == SubnetFor(items, ip, env)
  {
    hide Covers, EntriesOf;
    if items != [] {
      var rest, x := items[..|items| - 1], items[|items| - 1];
      assert items == rest + [x];
      EntriesKeepChoice(rest, ip, env);
      SubnetSnoc(rest, x, ip, env);
      EntriesOfCover(x, |x.subnets|, ip, env);
      assert x.subnets[..|x.subnets|] == x.subnets && x.(subnets := x.subnets) == x;
      EnteredAppend(Entries(rest, env), if x.name == "" then [] else EntriesOf(x.subnets, x.name, env), ip);
    }
  }

  lemma EmptyLists(env: Env)
    ensures Candidates([]) == [] && Entries([], env) == []
  {
  }

  /** What one more item adds to the two lists. */
  lemma ListsSnoc(items: seq<Item>, x: Item, env: Env)
    ensures Candidates(items + [x])
         == if x.name == "" || x.name in Candidates(items) then Candidates(items) else Candidates(items) + [x.name]
    ensures Entries(items + [x], env)
         == Entries(items, env) + if x.name == "" then [] else EntriesOf(x.subnets, x.name, env)
  {
    assert (items + [x])[..|items|] == items;
  }

  // ---- The resolver with its cache -----------------------------------------------------

  class Resolver {
    const cfg: NetNSConfig
    const env: Env
    var subnets: seq<SubnetEntry>
    var candidates: seq<string>
    var routeCache: map<IP, string>

    /** Each cached namespace is the first candidate the checker accepts. */
    ghost predicate Valid()
      reads this
    {
      && candidates == Candidates(cfg.items)
      && subnets == Entries(cfg.items, env)
      && (routeCache != map[] ==> env.routeChecker.Some?)
      && forall ip :: ip in routeCache ==> FirstAccepted(candidates, ip, env.routeChecker.value) == Some(routeCache[ip])
    }

    constructor (cfg: NetNSConfig, env: Env)
      ensures Valid() && this.cfg == cfg && this.env == env && routeCache == map[]
    {
      this.cfg, this.env := cfg, env;
      subnets, candidates, routeCache := [], [], map[];
      new;
      hide Candidates, Entries, EntriesOf;
      EmptyLists(env);
      var seenCandidates: set<string> := {};
      for i := 0 to |cfg.items|
        invariant this.cfg == cfg && this.env == env && routeCache == map[]
        invariant candidates == Candidates(cfg.items[..i]) && subnets == Entries(cfg.items[..i], env)
        invariant seenCandidates == set n | n in candidates
      {
        var item := cfg.items[i];
        assert cfg.items[..i + 1] == cfg.items[..i] + [item];
        ListsSnoc(cfg.items[..i], item, env);
        if item.name == "" {
          continue;
        }
        if item.name !in seenCandidates {
          seenCandidates := seenCandidates + {item.name};
          candidates := candidates + [item.name];
        }
        AddSubnets(item);
      }
      assert cfg.items[..|cfg.items|] == cfg.items;
    }

    method AddSubnets(item: Item)
      modifies this`subnets
      ensures subnets == old(subnets) + EntriesOf(item.subnets, item.name, env)
    {
      for k := 0 to |item.subnets|
        invariant subnets == old(subnets) + EntriesOf(item.subnets[..k], item.name, env)
      {
        var s := TrimSpace(item.subnets[k]);
        assert item.subnets[..k + 1][..k] == item.subnets[..k];
        if s == "" {
          continue;
        }
        var parsed := env.parseCIDR(s);
        if parsed.Some? {
          subnets := subnets + [SubnetEntry(parsed.value, item.name)];
        }
      }
      assert item.subnets[..|item.subnets|] == item.subnets;
    }

    /** Whatever was resolved before, the result is that of the search that uses
        neither the cache nor the deduplicated list. */
    method Resolve(target: Option<Target>) returns (netns: string)
      requires Valid()
      modifies this`routeCache
      ensures Valid()
      ensures netns == match target case None => "" case Some(t) => Resolved(cfg, t, env)
      ensures target.Some? ==> InOrder(cfg, target.value, env, netns)
      ensures forall ip :: ip in old(routeCache) ==> ip in routeCache && routeCache[ip] == old(routeCache)[ip]
    {
      hide Candidates, Entries, FirstAccepted, RouteFor, SubnetFor, ExtractIP, Render, ItemFor, TenantOf, InOrder;
      if target.None? {
        return "";
      }
      var t := target.value;
      ResolvedInOrder(cfg, t, env);
      if t.netns != "" {
        return t.netns;
      }
      var tenant := TenantOf(t);
      if tenant != "" {
        var item := FindItem(tenant);
        if item.Some? {
          return item.value;
        }
        RenderEmpty(tenant);
        if cfg.template != "" {
          var ns := Render(cfg.template, tenant);
          if ns != "" {
            return ns;
          }
        }
      }
      var ip := ExtractIP(t.endpoint, env);
      if ip.Some? {
        EntriesKeepChoice(cfg.items, ip.value, env);
        var entry := FindSubnet(ip.value);
        if entry.Some? {
          return entry.value;
        }
        var route := DetectRoute(ip.value);
        if route.Some? {
          return route.value;
        }
      }
      return cfg.defaultNetNS;
    }

    method FindItem(tenant: string) returns (name: Option<string>)
      ensures name == ItemFor(cfg.items, tenant, env)
    {
      for i := 0 to |cfg.items|
        invariant ItemFor(cfg.items, tenant, env) == ItemFor(cfg.items[i..], tenant, env)
      {
        var item := cfg.items[i];
        for j := 0 to |item.tenants|
          invariant forall k :: 0 <= k < j ==> !env.equalFold(item.tenants[k], tenant)
        {
          if env.equalFold(item.tenants[j], tenant) {
            assert item.tenants[j] in item.tenants;
            return Some(item.name);
          }
        }
        assert cfg.items[i..][1..] == cfg.items[i + 1..];
      }
      return None;
    }

    method FindSubnet(ip: IP) returns (netns: Option<string>)
      ensures netns == Entered(subnets, ip)
    {
      for i := 0 to |subnets|
        invariant Entered(subnets, ip) == Entered(subnets[i..], ip)
      {
        if subnets[i].cidr(ip) {
          return Some(subnets[i].netns);
        }
        assert subnets[i..][1..] == subnets[i + 1..];
      }
      return None;
    }

    /** The cached answer if there is one, else the first candidate accepted. */
    method DetectRoute(ip: IP) returns (netns: Option<string>)
      requires Valid()
      modifies this`routeCache
      ensures Valid()
      ensures netns == if cfg.autoDetectRoute && env.routeChecker.Some?
                       then RouteFor(cfg.items, ip, env.routeChecker.value) else None
      ensures routeCache == if netns.Some? then old(routeCache)[ip := netns.value] else old(routeCache)
      ensures ip in old(routeCache) && netns.Some? ==> netns.value == old(routeCache)[ip]
    {
      hide Candidates, Entries, RouteFor;
      if !cfg.autoDetectRoute || env.routeChecker.None? {
        return None;
      }
      var check := env.routeChecker.value;
      DedupeKeepsChoice(cfg.items, ip, check);
      if |candidates| == 0 {
        return None;
      }
      if ip in routeCache {
        assert routeCache == routeCache[ip := routeCache[ip]];
        return Some(routeCache[ip]);
      }
      for i := 0 to |candidates|
        invariant FirstAccepted(candidates, ip, check) == FirstAccepted(candidates[i..], ip, check)
        invariant routeCache == old(routeCache)
      {
        var candidate := candidates[i];
        if check(candidate, ip) {
          routeCache := routeCache[ip := candidate];
          return Some(candidate);
        }
        assert candidates[i..][1..] == candidates[i + 1..];
      }
      return None;
    }

    lemma RenderEmpty(tenant: string)
      ensures cfg.template == "" ==> Render(cfg.template, tenant) == ""
    {
    }
  }

  // ---- Templates keep tenants apart -------------------------------------------------

  datatype Piece = Literal(text: string) | Tenant | TenantID

  function Mark(p: Piece): (s: string)
    ensures p.Tenant? || p.TenantID? ==> s != ""
  {
    match p case Literal(text) => text case Tenant => TENANT case TenantID => TENANT_ID
  }

  /** A template as the text of its pieces. */
  function TemplateText(ps: seq<Piece>): string {
    if ps == [] then "" else Mark(ps[0]) + TemplateText(ps[1..])
  }

  predicate BraceFree(s: string) { '{' !in s && '}' !in s }

  predicate BraceFreeLiterals(ps: seq<Piece>) {
    forall i :: 0 <= i < |ps| && ps[i].Literal? ==> BraceFree(ps[i].text)
  }

  function Fill(ps: seq<Piece>, what: Piece, with: string): (qs: seq<Piece>)
    ensures |qs| == |ps| && forall i :: 0 <= i < |ps| ==> qs[i] == if ps[i] == what then Literal(with) else ps[i]
  {
    if ps == [] then [] else [if ps[0] == what then Literal(with) else ps[0]] + Fill(ps[1..], what, with)
  }

  lemma {:induction false} SkipLiteral(l: string, s: string, what: string, with: string)
    requires what != "" && what[0] !in l
    ensures ReplaceAll(l + s, what, with) == l + ReplaceAll(s, what, with)
    decreases |l|
  {
    if l == "" {
      assert l + s == s;
    } else {
      assert (l + s)[1..] == l[1..] + s;
      SkipLiteral(l[1..], s, what, with);
      assert l == [l[0]] + l[1..];
    }
  }

  lemma SkipMark(m: string, s: string, w: string, with: string)
    requires |m| > 9 && |w| > 9 && m[9] != w[9]
    requires w[0] == '{' && w[1] == '{' && '{' !in m[2..]
    ensures ReplaceAll(m + s, w, with) == m + ReplaceAll(s, w, with)
  {
    var t := m + s;
    assert t[9] == m[9] && t[2] == m[2..][0];
    assert t[1..][1] == t[2];
    assert t[1..][1..] == m[2..] + s;
    SkipLiteral(m[2..], s, w, with);
    assert ReplaceAll(t, w, with) == [m[0]] + ([m[1]] + (m[2..] + ReplaceAll(s, w, with)));
    assert m == [m[0]] + ([m[1]] + m[2..]);
  }

  /** Neither placeholder is found inside the other one. */
  lemma SkipOther(other: Piece, s: string, what: Piece, with: string)
    requires !other.Literal? && !what.Literal? && other != what
    ensures ReplaceAll(Mark(other) + s, Mark(what), with) == Mark(other) + ReplaceAll(s, Mark(what), with)
  {
    SkipMark(Mark(other), s, Mark(what), with);
  }

  /** One pass fills exactly its own placeholder. */
  lemma {:induction false} OnePassFills(ps: seq<Piece>, what: Piece, with: string)
    requires BraceFreeLiterals(ps) && !what.Literal?
    ensures ReplaceAll(TemplateText(ps), Mark(what), with) == TemplateText(Fill(ps, what, with))
    decreases |ps|
  {
    if ps != [] {
      var rest := TemplateText(ps[1..]);
      OnePassFills(ps[1..], what, with);
      assert Fill(ps, what, with)[1..] == Fill(ps[1..], what, with);
      if ps[0].Literal? {
        SkipLiteral(ps[0].text, rest, Mark(what), with);
      } else if ps[0] == what {
        assert (Mark(what) + rest)[|Mark(what)|..] == rest;
      } else {
        SkipOther(ps[0], rest, what, with);
      }
    }
  }

  /** Every placeholder replaced by the tenant. */
  function Filled(ps: seq<Piece>, tenant: string): string {
    if ps == [] then "" else (if ps[0].Literal? then ps[0].text else tenant) + Filled(ps[1..], tenant)
  }

  lemma {:induction false} FilledText(ps: seq<Piece>, tenant: string)
    ensures TemplateText(Fill(Fill(ps, Tenant, tenant), TenantID, tenant)) == Filled(ps, tenant)
  {
    if ps != [] {
      var qs := Fill(Fill(ps, Tenant, tenant), TenantID, tenant);
      assert qs[1..] == Fill(Fill(ps[1..], Tenant, tenant), TenantID, tenant);
      FilledText(ps[1..], tenant);
    }
  }

  /** The two passes render what a template means, when no brace is in the way. */
  lemma RenderMeaning(ps: seq<Piece>, tenant: string)
    requires BraceFreeLiterals(ps) && BraceFree(tenant)
    ensures Render(TemplateText(ps), tenant) == Filled(ps, tenant)
  {
    OnePassFills(ps, Tenant, tenant);
    OnePassFills(Fill(ps, Tenant, tenant), TenantID, tenant);
    FilledText(ps, tenant);
  }

  function Placeholders(ps: seq<Piece>): nat {
    if ps == [] then 0 else (if ps[0].Literal? then 0 else 1) + Placeholders(ps[1..])
  }

  /** Longer tenants render longer. */
  lemma {:induction false} FilledLonger(ps: seq<Piece>, a: string, b: string)
    requires |a| <= |b|
    ensures |Filled(ps, b)| - |Filled(ps, a)| >= if Placeholders(ps) > 0 then |b| - |a| else 0
  {
    if ps != [] { FilledLonger(ps[1..], a, b); }
  }

  lemma {:induction false} FilledInjective(ps: seq<Piece>, a: string, b: string)
    requires Placeholders(ps) > 0 && |a| == |b| && Filled(ps, a) == Filled(ps, b)
    ensures a == b
  {
    var x, y := Filled(ps[1..], a), Filled(ps[1..], b);
    if ps[0].Literal? {
      CutAt(ps[0].text, x);
      CutAt(ps[0].text, y);
      FilledInjective(ps[1..], a, b);
    } else {
      CutAt(a, x);
      CutAt(b, y);
    }
  }

  lemma {:induction false} FilledNonempty(ps: seq<Piece>, a: string)
    requires Placeholders(ps) > 0 && a != ""
    ensures Filled(ps, a) != ""
  {
    if ps[0].Literal? { FilledNonempty(ps[1..], a); }
  }

  /** Two tenants that no item lists never share a namespace, when the template has
      a placeholder and no brace stands elsewhere. */
  lemma TenantsStayApart(cfg: NetNSConfig, env: Env, ps: seq<Piece>, s: Target, t: Target)
    requires cfg.template == TemplateText(ps) && BraceFreeLiterals(ps) && Placeholders(ps) > 0
    requires s.netns == "" && t.netns == ""
    requires TenantOf(s) != "" && BraceFree(TenantOf(s)) && ItemFor(cfg.items, TenantOf(s), env).None?
    requires TenantOf(t) != "" && BraceFree(TenantOf(t)) && ItemFor(cfg.items, TenantOf(t), env).None?
    ensures Resolved(cfg, s, env) == Resolved(cfg, t, env) <==> TenantOf(s) == TenantOf(t)
  {
    hide *;
    var a, b := TenantOf(s), TenantOf(t);
    TenantRenders(cfg, env, ps, s);
    TenantRenders(cfg, env, ps, t);
    if |a| <= |b| { FilledLonger(ps, a, b); } else { FilledLonger(ps, b, a); }
    if Filled(ps, a) == Filled(ps, b) { FilledInjective(ps, a, b); }
  }

  lemma TenantRenders(cfg: NetNSConfig, env: Env, ps: seq<Piece>, t: Target)
    requires cfg.template == TemplateText(ps) && BraceFreeLiterals(ps) && Placeholders(ps) > 0
    requires t.netns == "" && TenantOf(t) != "" && BraceFree(TenantOf(t))
    requires ItemFor(cfg.items, TenantOf(t), env).None?
    ensures Resolved(cfg, t, env) == Filled(ps, TenantOf(t))
  {
    hide Render, ItemFor, TenantOf;
    RenderMeaning(ps, TenantOf(t));
    FilledNonempty(ps, TenantOf(t));
  }
}
