/** What NormalizeEndpoint does to endpoints, and where it stops doing it. */
module Endpoints {
  import opened Text
  import opened Netutil

  // ---- The shape of an IPv6 literal --------------------------------------------

  lemma IPv6HasColon(h: string)
    requires IsIPv6(h) && !HasPrefix(h, "[")
    ensures ':' in h
  {
    PrefixChar('[', h);
    assert forall c :: c in StripZone(h) ==> c in h;
  }

  /** The branch that would bracket a host split off by SplitHostPort never runs:
      such a host has no colon, so it is no IPv6 address. */
  lemma SplitHostIsNotIPv6(rem: string)
    requires !HasPrefix(rem, "[") && SplitHostPort(rem).Some?
    ensures !IsIPv6(SplitHostPort(rem).value.host)
  {
    var i := LastIndexByte(rem, ':');
    PrefixChar('[', rem);
    var host := rem[..i];
    PrefixChar('[', host);
    assert ':' !in host;
    if IsIPv6(host) { IPv6HasColon(host); }
  }

  // ---- Ports ---------------------------------------------------------------------

  lemma {:induction false} ItoaValue(n: nat)
    ensures IsDecimal(Itoa(n)) && DecimalValue(Itoa(n)) == n
  {
    var s := Itoa(n);
    forall c | c in s ensures IsDigit(c) { }
    if n >= 10 {
      ItoaValue(n / 10);
      assert s[..|s| - 1] == Itoa(n / 10);
    }
  }

  lemma AtoiDigits(s: string)
    requires IsDecimal(s)
    ensures Atoi(s) == Some(DecimalValue(s)) && Atoi("-" + s) == Some(-(DecimalValue(s) as int))
  {
    hide DecimalValue;
    assert s[0] in s;
    assert ("-" + s)[1..] == s;
  }

  /** strconv.Atoi reads what strconv.Itoa writes. */
  lemma AtoiItoa(k: int)
    ensures Atoi(Itoa(k)) == Some(k)
  {
    var n: nat := if k < 0 then -k else k;
    ItoaValue(n);
    AtoiDigits(Itoa(n));
    hide Atoi, IsDecimal, DecimalValue;
  }

  /** Written out, exactly the numbers from 1 to 65535 are ports. */
  lemma PortsAre(k: int)
    ensures IsPort(Itoa(k)) <==> 1 <= k <= 65535
  {
    AtoiItoa(k);
    hide Atoi, Itoa;
  }

  // ---- What becomes of an endpoint -----------------------------------------------

  predicate OtherScheme(e: string) { HasPrefix(e, "vsock://") || HasPrefix(e, "unix://") }

  /** A name or an IPv4 address gets the default port unless it has a port; other schemes
      are left alone. */
  lemma NormalizePlain(raw: string, p: int)
    requires var e := TrimSpace(raw); OtherScheme(e) || (Unbracketed(Remainder(e)) && AtMostOneColon(Remainder(e)))
    ensures var e, r := TrimSpace(raw), NormalizeEndpoint(raw, p);
      r == if e == "" then Empty
           else if OtherScheme(e) || ':' in Remainder(e) then Accepted(e) else Accepted(e + ":" + Itoa(p))
  {
    var e := TrimSpace(raw);
    var rem := Remainder(e);
    if e != "" && !OtherScheme(e) {
      PrefixChar('[', rem);
      SchemeText(e);
      OneColonSplits(rem);
      if ':' in rem { SplitHostIsNotIPv6(rem); } else if IsIPv6(rem) { IPv6HasColon(rem); }
    }
  }

  /** A bracketed host gets the default port if nothing follows it, and is left alone if a
      colon does. */
  lemma NormalizeClosed(raw: string, p: int)
    requires var e := TrimSpace(raw); !OtherScheme(e) && HasPrefix(Remainder(e), "[") && ']' in Remainder(e)
    ensures var e, r := TrimSpace(raw), NormalizeEndpoint(raw, p);
      var rest := Remainder(e)[IndexByte(Remainder(e), ']') + 1..];
      r == if rest == "" then Accepted(e + ":" + Itoa(p)) else if rest[0] == ':' then Accepted(e) else AfterBracket
  {
    var e := TrimSpace(raw);
    var rem := Remainder(e);
    SchemeText(e);
    PrefixFirst("[", rem);
    ClosedRest(e, Scheme(e), rem, p);
    assert |e| >= |rem| > 0;
    WithoutOtherScheme(raw, p);
    hide *;
  }

  lemma WithoutOtherScheme(raw: string, p: int)
    requires TrimSpace(raw) != "" && !OtherScheme(TrimSpace(raw))
    ensures var e := TrimSpace(raw); NormalizeEndpoint(raw, p) == NormalizeRest(e, Scheme(e), Remainder(e), p)
  {
    hide TrimSpace, NormalizeRest;
  }

  lemma ClosedRest(e: string, scheme: string, rem: string, p: int)
    requires e == scheme + rem && HasPrefix(rem, "[") && ']' in rem
    ensures var rest := rem[IndexByte(rem, ']') + 1..];
      NormalizeRest(e, scheme, rem, p)
      == if rest == "" then Accepted(e + ":" + Itoa(p)) else if rest[0] == ':' then Accepted(e) else AfterBracket
  {
    hide Itoa, SplitHostPort, IsIPv6;
    PrefixChar('[', rem);
    var close := IndexByte(rem, ']');
    PrefixChar(':', rem[close + 1..]);
    if rem[close + 1..] == "" {
      var h := rem[1..close];
      assert rem == "[" + h + "]";
      ClosedText(scheme, h, Itoa(p));
    }
  }

  lemma ClosedText(scheme: string, h: string, d: string)
    ensures scheme + "[" + h + "]:" + d == scheme + ("[" + h + "]") + ":" + d
  {
    assert scheme + "[" + h + "]:" == scheme + ("[" + h + "]") + ":";
  }

  /** What is refused: nothing at all, a bracket that is not closed, and one that is
      followed by anything but a colon. */
  lemma RefusedExactlyWhen(raw: string, p: int)
    ensures var e := TrimSpace(raw); var rem := Remainder(e);
      NormalizeEndpoint(raw, p).Accepted? <==>
        || OtherScheme(e)
        || (e != "" && (rem == "" || rem[0] != '['))
        || (rem != "" && rem[0] == '[' && ']' in rem
            && (IndexByte(rem, ']') == |rem| - 1 || rem[IndexByte(rem, ']') + 1] == ':'))
  {
    var e := TrimSpace(raw);
    PrefixChar('[', Remainder(e));
    if !OtherScheme(e) && HasPrefix(Remainder(e), "[") && ']' in Remainder(e) { NormalizeClosed(raw, p); }
  }

  // ---- When normalising twice is normalising once --------------------------------

  function Remainder(e: string): string {
    e[|Scheme(e)|..]
  }

  /** The IPv6 address an unbracketed endpoint is read as, with or without a port. */
  function V6Host(rem: string): Option<string> {
    var last := LastIndexByte(rem, ':');
    if last != -1 && IsPort(rem[last + 1..]) && IsIPv6(rem[..last]) then Some(rem[..last])
    else if IsIPv6(rem) then Some(rem)
    else None
  }

  /** No `]`, or the first one is followed by a colon; a zone may hold anything. */
  predicate BracketSafe(h: string) {
    var c := IndexByte(h, ']');
    c < 0 || (c + 1 < |h| && h[c + 1] == ':')
  }

  predicate AtMostOneColon(s: string) {
    ':' in s ==> IndexByte(s, ':') == LastIndexByte(s, ':')
  }

  predicate Unbracketed(s: string) { '[' !in s && ']' !in s }

  /** vsock or unix; or starts with a bracket; or has no bracket and at most one
      colon; or is an IPv6 literal, with or without port, safe to bracket. */
  predicate Stable(raw: string) {
    var e := TrimSpace(raw);
    var rem := Remainder(e);
    || HasPrefix(e, "vsock://") || HasPrefix(e, "unix://")
    || HasPrefix(rem, "[")
    || (Unbracketed(rem) && AtMostOneColon(rem))
    || (V6Host(rem).Some? && BracketSafe(V6Host(rem).value))
  }

  lemma SchemeText(e: string)
    ensures e == Scheme(e) + Remainder(e)
  {
  }

  function Bracketed(scheme: string, h: string, d: string): string {
    scheme + "[" + h + "]:" + d
  }

  lemma FirstClose(h: string, d: string)
    ensures IndexByte("[" + h + "]:" + d, ']') == 1 + if ']' in h then IndexByte(h, ']') else |h|
  {
    var s := "[" + h + "]:" + d;
    var c := if ']' in h then IndexByte(h, ']') else |h|;
    assert s[..1 + c] == "[" + h[..c];
    assert h[..|h|] == h;
    IndexByteAt(s, ']', 1 + c);
  }

  lemma CloseFollowed(h: string, d: string)
    requires ']' in h
    ensures var s := "[" + h + "]:" + d;
      s[1 + IndexByte(h, ']') + 1..] == h[IndexByte(h, ']') + 1..] + "]:" + d
  {
  }

  /** A bracketed form with a port is accepted unchanged, or refused for what
      follows the first `]` of its host. */
  lemma BracketedAgain(h: string, d: string, scheme: string, p: int)
    requires d != "" && IsSolid(d[|d| - 1])
    ensures var rem := "[" + h + "]:" + d;
      NormalizeRest(scheme + rem, scheme, rem, p) == if BracketSafe(h) then Accepted(scheme + rem) else AfterBracket
  {
    var rem := "[" + h + "]:" + d;
    PrefixChar('[', rem);
    FirstClose(h, d);
    if ']' in h {
      CloseFollowed(h, d);
      var rest := h[IndexByte(h, ']') + 1..] + "]:" + d;
      PrefixChar(':', rest);
    } else {
      var rest := rem[1 + |h| + 1..];
      assert rest == ":" + d;
      PrefixChar(':', rest);
    }
  }

  lemma PrefixFirst(p: string, s: string)
    requires p != "" && HasPrefix(s, p)
    ensures s != "" && s[0] == p[0]
  {
  }

  lemma BracketedText(scheme: string, h: string, d: string)
    ensures Bracketed(scheme, h, d) == scheme + ("[" + h + "]:" + d)
  {
    Assoc5(scheme, "[", h, "]:", d);
    Assoc4("[", h, "]:", d);
  }

  lemma NormalizeBracketed(scheme: string, h: string, d: string, p: int)
    requires scheme == "" || scheme == TCP
    requires d != "" && IsSolid(d[|d| - 1])
    ensures NormalizeEndpoint(Bracketed(scheme, h, d), p)
         == if BracketSafe(h) then Accepted(Bracketed(scheme, h, d)) else AfterBracket
  {
    var o := Bracketed(scheme, h, d);
    var rem := "[" + h + "]:" + d;
    BracketedText(scheme, h, d);
    assert o[|o| - 1] == d[|d| - 1];
    assert o[0] == if scheme == "" then '[' else 't';
    TrimSpaceFixed(o);
    if HasPrefix(o, "vsock://") { PrefixFirst("vsock://", o); }
    if HasPrefix(o, "unix://") { PrefixFirst("unix://", o); }
    if scheme == "" {
      if HasPrefix(o, TCP) { PrefixFirst(TCP, o); }
    } else {
      assert HasPrefix(o, TCP) by { CutAt(scheme, rem); }
    }
    CutAt(scheme, rem);
    BracketedAgain(h, d, scheme, p);
  }

  lemma ItoaEnds(k: int)
    ensures Itoa(k) != "" && IsSolid(Itoa(k)[|Itoa(k)| - 1]) && IsSolid(Itoa(k)[0]) && Itoa(k)[0] != '/'
    ensures ':' !in Itoa(k) && '[' !in Itoa(k) && ']' !in Itoa(k)
  {
    assert Itoa(k)[0] in Itoa(k);
  }

  /** A prefix of an extended text is a prefix of the text itself, when the
      extension starts with a colon not followed by a slash. */
  lemma PrefixSurvives(e: string, d: string, p: string, n: nat)
    requires d != "" && d[0] != '/'
    requires n + 2 < |p| && p[n] == ':' && p[n + 1] == '/' && p[n + 2] == '/' && |p| == n + 3
    requires ':' !in p[..n]
    requires HasPrefix(e + ":" + d, p)
    ensures HasPrefix(e, p)
  {
    var s := e + ":" + d;
    assert forall k :: 0 <= k < |p| ==> s[k] == p[k];
    assert forall k :: 0 <= k < n ==> p[..n][k] == p[k];
    assert s[|e|] == ':' && s[|e| + 1] == d[0];
    assert |e| >= |p|;
    assert e[..|p|] == s[..|p|];
  }

  lemma PrefixExtends(e: string, x: string, p: string)
    requires HasPrefix(e, p)
    ensures HasPrefix(e + x, p)
  {
    assert (e + x)[..|p|] == e[..|p|];
  }

  lemma SameScheme(e: string, d: string)
    requires d != "" && d[0] != '/'
    ensures Scheme(e + ":" + d) == Scheme(e)
    ensures HasPrefix(e + ":" + d, "vsock://") == HasPrefix(e, "vsock://")
    ensures HasPrefix(e + ":" + d, "unix://") == HasPrefix(e, "unix://")
    ensures Remainder(e + ":" + d) == Remainder(e) + ":" + d
  {
    Survives(e, d, TCP, 3);
    Survives(e, d, "vsock://", 5);
    Survives(e, d, "unix://", 4);
    SchemeText(e);
    CutAt(Scheme(e), Remainder(e) + ":" + d);
    Assoc4(Scheme(e), Remainder(e), ":", d);
    Assoc3(Remainder(e), ":", d);
  }

  lemma Survives(e: string, d: string, p: string, n: nat)
    requires d != "" && d[0] != '/'
    requires n + 2 < |p| && p[n] == ':' && p[n + 1] == '/' && p[n + 2] == '/' && |p| == n + 3
    requires ':' !in p[..n]
    ensures HasPrefix(e + ":" + d, p) == HasPrefix(e, p)
  {
    if HasPrefix(e + ":" + d, p) { PrefixSurvives(e, d, p, n); }
    if HasPrefix(e, p) {
      PrefixExtends(e, ":" + d, p);
      Assoc3(e, ":", d);
    }
  }

  /** An endpoint read as a plain host, once its port has been appended: a second
      pass leaves it exactly when it holds no colon and no bracket. */
  lemma PlainAgain(e: string, scheme: string, rem: string, d: string, p: int)
    requires d != "" && ':' !in d && '[' !in d && ']' !in d
    requires !HasPrefix(rem, "[") && SplitHostPort(rem).None? && V6Host(rem).None?
    requires e == scheme + (rem + ":" + d)
    ensures NormalizeRest(e, scheme, rem + ":" + d, p) == Accepted(e)
       <==> ':' !in rem && Unbracketed(rem)
  {
    var r := rem + ":" + d;
    PrefixChar('[', rem);
    PrefixChar('[', r);
    assert r[|rem| + 1..] == d && r[..|rem|] == rem;
    LastIndexByteAt(r, ':', |rem|);
    assert r[0] != '[';
    if ':' !in rem && Unbracketed(rem) {
      assert '[' !in r && ']' !in r;
      assert SplitHostPort(r) == Some(HostPort(rem, d));
      SplitHostIsNotIPv6(r);
    } else {
      assert !('[' !in r && ']' !in r) || ':' in rem by {
        assert forall c :: c in rem ==> c in r;
      }
      assert SplitHostPort(r).None?;
      LongerResult(e, scheme, r, p);
    }
  }

  lemma LongerResult(e: string, scheme: string, r: string, p: int)
    requires e == scheme + r
    requires !HasPrefix(r, "[") && SplitHostPort(r).None?
    requires var last := LastIndexByte(r, ':'); last != -1 && !IsIPv6(r[..last])
    ensures NormalizeRest(e, scheme, r, p) != Accepted(e)
  {
    assert |scheme + "[" + r + "]:" + Itoa(p)| > |e|;
    assert |scheme + r + ":" + Itoa(p)| > |e|;
  }

  /** The result of one pass, by the kind of endpoint. */
  lemma OnePass(rem: string, scheme: string, e: string, p: int)
    requires !HasPrefix(rem, "[") && SplitHostPort(rem).None?
    ensures V6Host(rem).Some? ==>
      exists k :: NormalizeRest(e, scheme, rem, p) == Accepted(Bracketed(scheme, V6Host(rem).value, Itoa(k)))
    ensures V6Host(rem).None? ==> NormalizeRest(e, scheme, rem, p) == Accepted(scheme + rem + ":" + Itoa(p))
  {
    var last := LastIndexByte(rem, ':');
    if last != -1 && IsPort(rem[last + 1..]) && IsIPv6(rem[..last]) {
      assert NormalizeRest(e, scheme, rem, p)
          == Accepted(Bracketed(scheme, V6Host(rem).value, Itoa(Atoi(rem[last + 1..]).value)));
    } else if IsIPv6(rem) {
      assert NormalizeRest(e, scheme, rem, p) == Accepted(Bracketed(scheme, V6Host(rem).value, Itoa(p)));
    }
  }

  lemma HostInRemainder(rem: string)
    requires V6Host(rem).Some? && Unbracketed(rem)
    ensures BracketSafe(V6Host(rem).value)
  {
    assert forall c :: c in V6Host(rem).value ==> c in rem;
  }

  /** Without brackets, one colon is what SplitHostPort splits at. */
  lemma OneColonSplits(rem: string)
    requires !HasPrefix(rem, "[")
    ensures SplitHostPort(rem).Some? <==> ':' in rem && AtMostOneColon(rem) && Unbracketed(rem)
  {
    PrefixChar('[', rem);
    var i, j := IndexByte(rem, ':'), LastIndexByte(rem, ':');
    if i >= 0 {
      if i < j { assert rem[..j][i] == ':'; }
      if i == j { assert ':' !in rem[..j]; }
    }
  }

  lemma AppendedTrimmed(e: string, d: string)
    requires IsTrimmed(e) && e != "" && d != "" && IsSolid(d[|d| - 1]) && IsSolid(d[0])
    ensures IsTrimmed(e + ":" + d)
  {
    var s := e + ":" + d;
    assert forall i :: 0 <= i < |e| ==> s[i] == e[i];
    assert s[|e|] == ':' && s[|s| - 1] == d[|d| - 1];
  }

  /** The plain case: bracketing nothing, a port appended. */
  lemma PlainCase(raw: string, p: int)
    requires var e := TrimSpace(raw); var rem := Remainder(e);
      && e != "" && !HasPrefix(e, "vsock://") && !HasPrefix(e, "unix://")
      && !HasPrefix(rem, "[") && SplitHostPort(rem).None? && V6Host(rem).None?
    ensures NormalizeEndpoint(raw, p).Accepted?
    ensures NormalizeEndpoint(NormalizeEndpoint(raw, p).endpoint, p) == NormalizeEndpoint(raw, p) <==> Stable(raw)
  {
    var e := TrimSpace(raw);
    var rem, d := Remainder(e), Itoa(p);
    TrimSpaceTrims(raw);
    ItoaEnds(p);
    SchemeText(e);
    OnePass(rem, Scheme(e), e, p);
    var o := e + ":" + d;
    assert NormalizeEndpoint(raw, p) == Accepted(o);
    AppendedTrimmed(e, d);
    TrimSpaceFixed(o);
    SameScheme(e, d);
    SchemeText(o);
    PlainAgain(o, Scheme(e), rem, d, p);
    OneColonSplits(rem);
  }

  /** The IPv6 case: the address bracketed, a port kept or appended. */
  lemma IPv6Case(raw: string, p: int)
    requires var e := TrimSpace(raw); var rem := Remainder(e);
      && e != "" && !HasPrefix(e, "vsock://") && !HasPrefix(e, "unix://")
      && !HasPrefix(rem, "[") && SplitHostPort(rem).None? && V6Host(rem).Some?
    ensures NormalizeEndpoint(raw, p).Accepted?
    ensures NormalizeEndpoint(NormalizeEndpoint(raw, p).endpoint, p) == NormalizeEndpoint(raw, p) <==> Stable(raw)
  {
    var e := TrimSpace(raw);
    var rem := Remainder(e);
    OnePass(rem, Scheme(e), e, p);
    var h := V6Host(rem).value;
    var k :| NormalizeRest(e, Scheme(e), rem, p) == Accepted(Bracketed(Scheme(e), h, Itoa(k)));
    ItoaEnds(k);
    NormalizeBracketed(Scheme(e), h, Itoa(k), p);
    if Unbracketed(rem) { HostInRemainder(rem); }
  }

  /** The bracketed case: complete already, or a port appended. */
  lemma BracketCase(raw: string, p: int)
    requires var e := TrimSpace(raw); var rem := Remainder(e);
      && e != "" && !HasPrefix(e, "vsock://") && !HasPrefix(e, "unix://") && HasPrefix(rem, "[")
    requires NormalizeEndpoint(raw, p).Accepted?
    ensures NormalizeEndpoint(NormalizeEndpoint(raw, p).endpoint, p) == NormalizeEndpoint(raw, p)
  {
    var e := TrimSpace(raw);
    var rem := Remainder(e);
    TrimSpaceTrims(raw);
    var close := IndexByte(rem, ']');
    if rem[close + 1..] == "" {
      ItoaEnds(p);
      assert ']' !in rem[1..close] by { assert forall c :: c in rem[1..close] ==> c in rem[..close]; }
      NormalizeBracketed(Scheme(e), rem[1..close], Itoa(p), p);
    } else {
      TrimSpaceFixed(e);
    }
  }

  /** Normalising an accepted endpoint's result again gives it back, exactly for the
      endpoints that are Stable, which can be told before the call. */
  lemma NormalizeTwice(raw: string, p: int)
    requires NormalizeEndpoint(raw, p).Accepted?
    ensures NormalizeEndpoint(NormalizeEndpoint(raw, p).endpoint, p) == NormalizeEndpoint(raw, p) <==> Stable(raw)
  {
    var e := TrimSpace(raw);
    var rem := Remainder(e);
    TrimSpaceTrims(raw);
    TrimSpaceFixed(e);
    if HasPrefix(e, "vsock://") || HasPrefix(e, "unix://") {
    } else if HasPrefix(rem, "[") {
      BracketCase(raw, p);
    } else if SplitHostPort(rem).Some? {
      SplitHostIsNotIPv6(rem);
      OneColonSplits(rem);
    } else if V6Host(rem).Some? {
      IPv6Case(raw, p);
    } else {
      PlainCase(raw, p);
    }
  }
}
