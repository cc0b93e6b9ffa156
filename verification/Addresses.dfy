/** IPv6 addresses handed to NormalizeEndpoint without brackets: when the whole
    address becomes the host, and when its last group is taken for a port. */
module Addresses {
  import opened Text
  import opened Netutil
  import opened Endpoints

  // ---- Fields ------------------------------------------------------------------

  /** A last field without separators is the last of the fields. */
  lemma {:induction false} FieldsSnoc(s: string, sep: char, q: string)
    requires sep !in q
    ensures Fields(s + [sep] + q, sep) == Fields(s, sep) + [q]
    decreases |s|
  {
    var t := s + [sep] + q;
    if sep in s {
      var i := IndexByte(s, sep);
      assert t[..i] == s[..i];
      IndexByteAt(t, sep, i);
      assert t[i + 1..] == s[i + 1..] + [sep] + q;
      FieldsSnoc(s[i + 1..], sep, q);
      assert Fields(t, sep) == [s[..i]] + (Fields(s[i + 1..], sep) + [q]);
    } else {
      assert t[..|s|] == s;
      IndexByteAt(t, sep, |s|);
      assert t[|s| + 1..] == q;
    }
  }

  lemma LastField(s: string, sep: char)
    requires sep in s
    ensures var j := LastIndexByte(s, sep); Fields(s, sep) == Fields(s[..j], sep) + [s[j + 1..]]
  {
    hide *;
    var j := LastIndexByte(s, sep);
    assert s == s[..j] + [sep] + s[j + 1..];
    FieldsSnoc(s[..j], sep, s[j + 1..]);
  }

  ghost predicate AllOf(s: string, ok: char -> bool) {
    forall c :: c in s ==> ok(c)
  }

  lemma {:induction false} FieldsChars(s: string, sep: char, ok: char -> bool)
    requires forall f :: f in Fields(s, sep) ==> AllOf(f, ok)
    ensures forall c :: c in s ==> c == sep || ok(c)
    decreases |s|
  {
    var i := IndexByte(s, sep);
    if i < 0 {
      assert s in Fields(s, sep);
    } else {
      assert AllOf(s[..i], ok) by { assert s[..i] in Fields(s, sep); }
      forall f | f in Fields(s[i + 1..], sep) ensures AllOf(f, ok) { assert f in Fields(s, sep); }
      FieldsChars(s[i + 1..], sep, ok);
      assert s == s[..i] + [sep] + s[i + 1..];
    }
  }

  // ---- The characters of an address ------------------------------------------------

  predicate IsAddressChar(c: char) { IsHexDigit(c) || c == ':' || c == '.' }

  lemma IPv4Chars(s: string)
    requires ParseIPv4(s).Some?
    ensures forall c :: c in s ==> IsHexDigit(c) || c == '.'
  {
    FieldsChars(s, '.', c => IsHexDigit(c));
  }

  lemma GroupChars(s: string)
    requires TailGroups(Fields(s, ':')).Some?
    ensures forall c :: c in s ==> IsAddressChar(c)
  {
    var fs := Fields(s, ':');
    var last := fs[|fs| - 1];
    assert fs == fs[..|fs| - 1] + [last];
    assert last in fs;
    if '.' in last { IPv4Chars(last); }
    forall f | f in fs ensures AllOf(f, c => IsHexDigit(c) || c == '.') {
      assert f == last || f in fs[..|fs| - 1];
    }
    FieldsChars(s, ':', c => IsHexDigit(c) || c == '.');
  }

  lemma HexChars(s: string)
    requires HexGroups(Fields(s, ':')).Some?
    ensures forall c :: c in s ==> IsHexDigit(c) || c == ':'
  {
    FieldsChars(s, ':', c => IsHexDigit(c));
  }

  lemma AddressChars(s: string)
    requires ParseParts(s).Some?
    ensures forall c :: c in s ==> IsAddressChar(c)
  {
    hide HexGroups, TailGroups, Fields;
    var i := IndexPair(s);
    if i < 0 {
      GroupChars(s);
    } else {
      if i > 0 { HexChars(s[..i]); }
      if i + 2 < |s| { GroupChars(s[i + 2..]); }
      assert s == s[..i] + "::" + s[i + 2..];
    }
  }

  /** An address proper: no zone, no brackets. */
  predicate IsPlain(addr: string) {
    '%' !in addr && !HasPrefix(addr, "[")
  }

  lemma PlainAddress(addr: string)
    requires IsIPv6(addr) && IsPlain(addr)
    ensures CleanIP(addr) == ParseIP(addr) && ParseParts(addr).Some?
    ensures addr != "" && IsAddressChar(addr[|addr| - 1])
    ensures ':' in addr && IndexByte(addr, ':') < LastIndexByte(addr, ':')
    ensures ']' !in addr && '[' !in addr
  {
    hide ParseParts, ParseIPv4, Groups, IsMapped, IsLinkLocal;
    PrefixChar('[', addr);
    AddressChars(addr);
    assert addr[|addr| - 1] in addr;
    TwoColons(addr);
  }

  lemma TwoColons(s: string)
    requires ParseParts(s).Some? && ':' in s
    ensures IndexByte(s, ':') < LastIndexByte(s, ':')
  {
    hide ParseParts, Fields;
    var i := IndexPair(s);
    if i >= 0 {
      IndexBounds(s, ':', i);
      IndexBounds(s, ':', i + 1);
    } else {
      var b := LastIndexByte(s, ':');
      ManyFields(s);
      LastField(s, ':');
      SeveralFields(s[..b]);
      var k :| 0 <= k < b && s[..b][k] == ':';
      IndexBounds(s, ':', k);
    }
  }

  lemma ManyFields(s: string)
    requires ParseParts(s).Some? && IndexPair(s) < 0
    ensures |Fields(s, ':')| >= 7
  {
    hide Fields, HexGroups, ParseIPv4;
  }

  lemma SeveralFields(s: string)
    ensures |Fields(s, ':')| > 1 <==> ':' in s
  {
  }

  // ---- A zone behind the address ---------------------------------------------------

  lemma TcpText(rem: string)
    requires rem != "" && SpaceAtEnd(rem) == 0
    ensures var e := TCP + rem;
      && TrimSpace(e) == e && e != "" && Scheme(e) == TCP && Remainder(e) == rem
      && !HasPrefix(e, "vsock://") && !HasPrefix(e, "unix://")
  {
    var e := TCP + rem;
    assert e[0] == 't' && e[|e| - 1] == rem[|rem| - 1];
    assert |rem| >= 2 ==> e[|e| - 2] == rem[|rem| - 2];
    assert |rem| >= 3 ==> e[|e| - 3] == rem[|rem| - 3];
    assert e[|TCP| - 1] == '/';
    assert |rem| == 1 ==> e[|e| - 2] == '/';
    assert |rem| == 2 ==> e[|e| - 3] == '/';
    TrimSpaceFixed(e);
    CutAt(TCP, rem);
    if HasPrefix(e, "vsock://") { PrefixFirst("vsock://", e); }
    if HasPrefix(e, "unix://") { PrefixFirst("unix://", e); }
  }

  lemma ZoneIsNoPort(a: string, z: string)
    ensures !IsPort(a + "%" + z)
  {
    var s := a + "%" + z;
    assert s[|a|] == '%' && '%' in s && !IsDigit('%');
    assert !IsDecimal(s);
    if |a| > 0 {
      assert s[1..][|a| - 1] == '%';
      assert !IsDecimal(s[1..]);
    }
  }

  lemma ScopedIsIPv6(addr: string, iface: string)
    requires IsIPv6(addr) && IsPlain(addr)
    ensures !HasPrefix(addr + "%" + iface, "[") && IsIPv6(addr + "%" + iface)
  {
    hide ParseIP, IsMapped;
    var rem := addr + "%" + iface;
    PlainAddress(addr);
    PrefixChar('[', addr);
    PrefixChar('[', rem);
    assert rem[0] == addr[0];
    assert rem[..|addr|] == addr;
    IndexByteAt(rem, '%', |addr|);
    assert StripZone(StripBrackets(rem)) == addr;
  }

  lemma ScopedParts(addr: string, iface: string)
    requires ':' in addr && IndexByte(addr, ':') < LastIndexByte(addr, ':') && ':' !in iface
    requires !HasPrefix(addr, "[")
    ensures var rem := addr + "%" + iface; var j := LastIndexByte(addr, ':');
      && LastIndexByte(rem, ':') == j
      && rem[j + 1..] == addr[j + 1..] + "%" + iface
      && SplitHostPort(rem).None?
  {
    var rem := addr + "%" + iface;
    var i, j := IndexByte(addr, ':'), LastIndexByte(addr, ':');
    PrefixChar('[', addr);
    assert rem[0] == addr[0];
    assert rem[j + 1..] == addr[j + 1..] + "%" + iface;
    LastIndexByteAt(rem, ':', j);
    assert rem[..j][i] == ':';
  }

  lemma ScopedTrimmed(addr: string, iface: string)
    requires iface != "" && SpaceAtEnd(iface) == 0
    ensures SpaceAtEnd(addr + "%" + iface) == 0
  {
    var rem := addr + "%" + iface;
    assert rem[|rem| - 1] == iface[|iface| - 1];
    assert |iface| >= 2 ==> rem[|rem| - 2] == iface[|iface| - 2];
    assert |iface| >= 3 ==> rem[|rem| - 3] == iface[|iface| - 3];
    assert rem[|addr|] == '%';
  }

  /** An unbracketed address that SplitHostPort refuses. */
  lemma AddressRest(rem: string, p: int)
    requires !HasPrefix(rem, "[") && SplitHostPort(rem).None? && IsIPv6(rem)
    ensures var j := LastIndexByte(rem, ':');
      NormalizeRest(TCP + rem, TCP, rem, p) ==
      if j != -1 && IsPort(rem[j + 1..]) && IsIPv6(rem[..j])
      then Accepted(Bracketed(TCP, rem[..j], Itoa(Atoi(rem[j + 1..]).value)))
      else Accepted(Bracketed(TCP, rem, Itoa(p)))
  {
  }

  lemma NormalizeTcp(rem: string, p: int)
    requires rem != "" && SpaceAtEnd(rem) == 0
    ensures NormalizeEndpoint(TCP + rem, p) == NormalizeRest(TCP + rem, TCP, rem, p)
  {
    TcpText(rem);
  }

  lemma WholeRest(rem: string, p: int)
    requires !HasPrefix(rem, "[") && SplitHostPort(rem).None? && IsIPv6(rem)
    requires !IsPort(rem[LastIndexByte(rem, ':') + 1..])
    ensures NormalizeRest(TCP + rem, TCP, rem, p) == Accepted(Bracketed(TCP, rem, Itoa(p)))
  {
    AddressRest(rem, p);
  }

  /** An interface alias such as `eth0:1`, whose last part reads as a port. */
  predicate AliasPort(iface: string) {
    ':' in iface && IsPort(iface[LastIndexByte(iface, ':') + 1..])
  }

  lemma PlainScope(addr: string, iface: string, p: int)
    requires IsIPv6(addr) && IsPlain(addr) && ':' !in iface
    ensures NormalizeRest(TCP + (addr + "%" + iface), TCP, addr + "%" + iface, p)
         == Accepted(Bracketed(TCP, addr + "%" + iface, Itoa(p)))
  {
    hide *;
    PlainAddress(addr);
    PlainUnbracketed(addr);
    ScopedIsIPv6(addr, iface);
    ScopedParts(addr, iface);
    ZoneIsNoPort(addr[LastIndexByte(addr, ':') + 1..], iface);
    WholeRest(addr + "%" + iface, p);
  }

  lemma AliasParts(addr: string, iface: string)
    requires ':' in addr && !HasPrefix(addr, "[") && ':' in iface
    ensures var rem := addr + "%" + iface; var k := LastIndexByte(iface, ':');
      && LastIndexByte(rem, ':') == |addr| + 1 + k
      && rem[|addr| + 1 + k + 1..] == iface[k + 1..]
      && rem[..|addr| + 1 + k] == addr + "%" + iface[..k]
      && SplitHostPort(rem).None?
  {
    var rem := addr + "%" + iface;
    var i, k := IndexByte(addr, ':'), LastIndexByte(iface, ':');
    PrefixChar('[', addr);
    assert rem[0] == addr[0];
    assert rem[|addr| + 1 + k + 1..] == iface[k + 1..];
    LastIndexByteAt(rem, ':', |addr| + 1 + k);
    assert rem[..|addr| + 1 + k][i] == ':';
  }

  lemma AliasScope(addr: string, iface: string, p: int)
    requires IsIPv6(addr) && IsPlain(addr) && ':' in iface
    ensures NormalizeRest(TCP + (addr + "%" + iface), TCP, addr + "%" + iface, p)
         == Accepted(Bracketed(TCP, addr + "%" + iface, Itoa(p)))
       <==> !IsPort(iface[LastIndexByte(iface, ':') + 1..])
  {
    var rem, k := addr + "%" + iface, LastIndexByte(iface, ':');
    hide *;
    PlainAddress(addr);
    PlainUnbracketed(addr);
    AliasParts(addr, iface);
    ScopedIsIPv6(addr, iface);
    ScopedIsIPv6(addr, iface[..k]);
    AliasRest(rem, p);
  }

  lemma AliasRest(rem: string, p: int)
    requires ':' in rem && !HasPrefix(rem, "[") && SplitHostPort(rem).None? && IsIPv6(rem)
    requires IsIPv6(rem[..LastIndexByte(rem, ':')])
    ensures NormalizeRest(TCP + rem, TCP, rem, p) == Accepted(Bracketed(TCP, rem, Itoa(p)))
       <==> !IsPort(rem[LastIndexByte(rem, ':') + 1..])
  {
    hide IsPort;
    var j := LastIndexByte(rem, ':');
    if IsPort(rem[j + 1..]) {
      PortRest(rem, p);
    } else {
      WholeRest(rem, p);
    }
  }

  /** A scoped address keeps its zone: the whole of `addr%iface` becomes the host,
      exactly when the interface is no alias whose last part reads as a port. */
  lemma ScopedStaysWhole(addr: string, iface: string, p: int)
    requires IsIPv6(addr) && IsPlain(addr)
    requires iface != "" && SpaceAtEnd(iface) == 0
    ensures NormalizeEndpoint(TCP + (addr + "%" + iface), p) == Accepted(Bracketed(TCP, addr + "%" + iface, Itoa(p)))
       <==> !AliasPort(iface)
  {
    ScopedTrimmed(addr, iface);
    NormalizeTcp(addr + "%" + iface, p);
    if ':' in iface { AliasScope(addr, iface, p); } else { PlainScope(addr, iface, p); }
    hide NormalizeEndpoint, NormalizeRest, IsPort, IsIPv6, SpaceAtEnd;
  }

  // ---- No zone ---------------------------------------------------------------------

  /** The last group reads as a port, and what is before it is still an address:
      only a compressed address can lose a group and remain one. */
  predicate MisreadAsPort(addr: string)
    requires ParseParts(addr).Some? && ':' in addr
  {
    var i, j := IndexPair(addr), LastIndexByte(addr, ':');
    && i >= 0 && j > i + 1
    && IsPort(addr[j + 1..])
    && var parts := ParseParts(addr).value;
    && |parts.right| > 0
    && !IsMapped(Groups(Compressed(parts.left, parts.right[..|parts.right| - 1])))
  }

  lemma {:induction false} HexGroupsSnoc(fs: seq<string>, f: string)
    ensures HexGroups(fs + [f]) == if HexGroups(fs).Some? && IsGroup(f)
                                   then Some(HexGroups(fs).value + [HexValue(f)]) else None
  {
    if fs == [] {
      assert [] + [f] == [f];
      assert [f][1..] == [];
      assert HexGroups([f][1..]) == HexGroups([]) == Some([]);
      if IsGroup(f) {
        assert [HexValue(f)] + [] == [] + [HexValue(f)];
      }
    } else {
      assert (fs + [f])[1..] == fs[1..] + [f] && (fs + [f])[0] == fs[0];
      HexGroupsSnoc(fs[1..], f);
      if HexGroups(fs).Some? && IsGroup(f) {
        var rest := HexGroups(fs[1..]).value;
        assert [HexValue(fs[0])] + (rest + [HexValue(f)]) == [HexValue(fs[0])] + rest + [HexValue(f)];
      }
    }
  }

  lemma PortIsNoIPv4(q: string)
    requires IsPort(q)
    ensures '.' !in q
  {
    assert forall c :: c in q ==> c == q[0] || c in q[1..];
  }

  lemma GroupsHaveNoDot(fs: seq<string>)
    requires fs != [] && HexGroups(fs).Some?
    ensures TailGroups(fs) == HexGroups(fs)
  {
    assert fs[|fs| - 1] in fs;
  }

  /** Cutting the last group off a full address leaves no address. */
  lemma FullCut(addr: string, h: string, q: string)
    requires addr == h + ":" + q && ':' !in q && IsPort(q)
    requires IndexPair(addr) < 0 && ParseParts(addr).Some?
    ensures ParseParts(h).None?
  {
    FieldsSnoc(h, ':', q);
    PortIsNoIPv4(q);
    HexGroupsSnoc(Fields(h, ':'), q);
    assert TailGroups(Fields(addr, ':')) == HexGroups(Fields(addr, ':'));
    GroupsHaveNoDot(Fields(h, ':'));
    Assoc3(h, ":", q);
    NoPairInPrefix(h, ":" + q);
  }

  lemma PairBound(s: string, k: nat)
    requires k + 1 < |s| && s[k] == ':' && s[k + 1] == ':'
    ensures 0 <= IndexPair(s) <= k
  {
  }

  lemma NoPairInPrefix(h: string, x: string)
    requires IndexPair(h + x) < 0 || IndexPair(h + x) + 1 >= |h|
    ensures IndexPair(h) < 0
  {
    var k := IndexPair(h);
    if k >= 0 {
      PairBound(h + x, k);
    }
  }

  lemma PairInPrefix(h: string, x: string)
    requires 0 <= IndexPair(h + x) && IndexPair(h + x) + 1 < |h|
    ensures IndexPair(h) == IndexPair(h + x)
  {
    var s := h + x;
    var i := IndexPair(s);
    assert h[i] == s[i] && h[i + 1] == s[i + 1];
    PairBound(h, i);
    PairBound(s, IndexPair(h));
  }

  /** A lone group right behind the `::` is no port. */
  lemma PairCut(a: string, x: string)
    requires IndexPair(a + ":" + x) == |a|
    ensures ParseParts(a + ":").None?
  {
    NoPairInPrefix(a + ":", x);
    assert a + ":" == a + [':'] + "";
    FieldsSnoc(a, ':', "");
    HexGroupsSnoc(Fields(a, ':'), "");
    assert TailGroups(Fields(a, ':') + [""]).None?;
  }

  lemma CompressedParts(left: string, right: string)
    requires IndexPair(left + "::" + right) == |left|
    ensures ParseParts(left + "::" + right)
         == match (LeftGroups(left), RightGroups(right))
            case (Some(l), Some(r)) => if |l| + |r| <= 7 then Some(Compressed(l, r)) else None
            case _ => None
  {
    var s := left + "::" + right;
    assert s[..|left|] == left && s[|left| + 2..] == right;
  }

  lemma RightCut(cut: string, q: string)
    requires ':' !in q && IsPort(q) && RightGroups(cut + ":" + q).Some?
    ensures var r := RightGroups(cut + ":" + q).value;
      |r| > 0 && RightGroups(cut) == Some(r[..|r| - 1])
    ensures HexGroups(Fields(cut, ':')).Some?
  {
    PortIsNoIPv4(q);
    FieldsSnoc(cut, ':', q);
    HexGroupsSnoc(Fields(cut, ':'), q);
    assert TailGroups(Fields(cut + ":" + q, ':')) == HexGroups(Fields(cut, ':') + [q]);
    GroupsHaveNoDot(Fields(cut, ':'));
    EmptyFields();
    var r := RightGroups(cut + ":" + q).value;
    assert r[..|r| - 1] == HexGroups(Fields(cut, ':')).value;
  }

  /** Cutting the last group off a compressed address leaves a compressed address. */
  lemma CompressedCut(left: string, cut: string, q: string)
    requires var addr := left + "::" + (cut + ":" + q);
      && ParseParts(addr).Some? && IndexPair(addr) == |left|
    requires ':' !in q && IsPort(q)
    ensures var parts := ParseParts(left + "::" + (cut + ":" + q)).value;
      && parts.Compressed? && |parts.right| > 0
      && ParseParts(left + "::" + cut) == Some(Compressed(parts.left, parts.right[..|parts.right| - 1]))
    ensures LeftGroups(left).Some? && HexGroups(Fields(cut, ':')).Some?
  {
    var h := left + "::" + cut;
    assert left + "::" + (cut + ":" + q) == h + (":" + q);
    PairInPrefix(h, ":" + q);
    CompressedParts(left, cut + ":" + q);
    RightCut(cut, q);
    CompressedParts(left, cut);
  }

  lemma EmptyFields()
    ensures HexGroups(Fields("", ':')).None?
  {
    assert "" in Fields("", ':');
  }

  lemma NoDots(left: string, cut: string)
    requires LeftGroups(left).Some? && HexGroups(Fields(cut, ':')).Some?
    ensures '.' !in left + "::" + cut
  {
    HexChars(cut);
    if left != "" { HexChars(left); }
  }

  /** The text before the last colon of a compressed address. */
  lemma CompressedHead(addr: string, left: string, cut: string, q: string)
    requires addr == left + "::" + (cut + ":" + q)
    requires ParseParts(addr).Some? && IndexPair(addr) == |left| && '%' !in addr
    requires ':' !in q && IsPort(q)
    ensures var parts := ParseParts(addr).value;
      && parts.Compressed? && |parts.right| > 0
      && ParseIP(left + "::" + cut) == Some(V6(Groups(Compressed(parts.left, parts.right[..|parts.right| - 1]))))
  {
    var h := left + "::" + cut;
    CompressedCut(left, cut, q);
    NoDots(left, cut);
    assert h[|left|] == ':';
    assert forall c :: c in h ==> c in addr;
    NoDotFamily(h);
  }

  lemma NoAddress(h: string)
    requires CleanIP(h) == ParseIP(h) && ParseParts(h).None?
    ensures !IsIPv6(h)
  {
  }

  lemma NotMisread(addr: string)
    requires ParseParts(addr).Some? && ':' in addr
    requires IndexPair(addr) < 0 || LastIndexByte(addr, ':') == IndexPair(addr) + 1
    ensures !MisreadAsPort(addr)
  {
    hide ParseParts, IsPort, IsMapped, Groups;
  }

  lemma CompressedMisread(addr: string, left: string, cut: string, q: string)
    requires addr == left + "::" + (cut + ":" + q)
    requires ParseParts(addr).Some? && IndexPair(addr) == |left| && '%' !in addr
    requires ':' !in q && IsPort(q)
    requires ':' in addr && LastIndexByte(addr, ':') == |left + "::" + cut| && addr[|left + "::" + cut| + 1..] == q
    requires CleanIP(left + "::" + cut) == ParseIP(left + "::" + cut)
    ensures IsIPv6(left + "::" + cut) <==> MisreadAsPort(addr)
  {
    hide *;
    CompressedHead(addr, left, cut, q);
    MisreadMeaning(addr, left + "::" + cut, q);
  }

  lemma MisreadMeaning(addr: string, h: string, q: string)
    requires ParseParts(addr).Some? && ParseParts(addr).value.Compressed? && |ParseParts(addr).value.right| > 0
    requires ':' in addr && LastIndexByte(addr, ':') == |h| && addr[|h| + 1..] == q && IsPort(q)
    requires 0 <= IndexPair(addr) && IndexPair(addr) + 1 < |h|
    requires var parts := ParseParts(addr).value;
      CleanIP(h) == Some(V6(Groups(Compressed(parts.left, parts.right[..|parts.right| - 1]))))
    ensures IsIPv6(h) <==> MisreadAsPort(addr)
  {
    hide ParseParts, IsPort, IsMapped, Groups, ParseIP, CleanIP, LastIndexByte, IndexPair;
  }

  lemma LastColonAt(addr: string, h: string, q: string)
    requires addr == h + ":" + q && ':' !in q
    ensures ':' in addr && LastIndexByte(addr, ':') == |h| && addr[|h| + 1..] == q && addr[..|h|] == h
  {
    Assoc3(h, ":", q);
    assert addr[|h|] == ':' && addr[|h| + 1..] == q;
    LastIndexByteAt(addr, ':', |h|);
  }

  /** The text before the last colon is an address again exactly in the misread case. */
  lemma HeadIsAddress(addr: string, h: string, q: string)
    requires addr == h + ":" + q && ':' !in q && IsPort(q)
    requires ParseParts(addr).Some? && IsPlain(addr)
    ensures ':' in addr && LastIndexByte(addr, ':') == |h|
    ensures IsIPv6(h) <==> MisreadAsPort(addr)
  {
    hide *;
    LastColonAt(addr, h, q);
    PlainHead(addr, |h|);
    var i := IndexPair(addr);
    if i < 0 {
      FullCut(addr, h, q);
      NoAddress(h);
      NotMisread(addr);
    } else {
      IndexBounds(addr, ':', i + 1);
      if |h| == i + 1 {
        LoneGroup(addr, h, q);
        NoAddress(h);
        NotMisread(addr);
      } else {
        var left, cut := addr[..i], addr[i + 2..|h|];
        PairText(addr, i, |h|);
        CompressedMisread(addr, left, cut, q);
      }
    }
  }

  lemma PairText(addr: string, i: nat, j: nat)
    requires i + 1 < j < |addr| && addr[i] == ':' && addr[i + 1] == ':' && addr[j] == ':'
    ensures addr[..j] == addr[..i] + "::" + addr[i + 2..j]
    ensures addr == addr[..i] + "::" + (addr[i + 2..j] + ":" + addr[j + 1..])
  {
  }

  lemma LoneGroup(addr: string, h: string, q: string)
    requires addr == h + ":" + q && IndexPair(addr) >= 0 && |h| == IndexPair(addr) + 1
    ensures ParseParts(h).None?
  {
    var i := IndexPair(addr);
    var a := addr[..i];
    assert h == a + ":";
    assert addr == a + ":" + (":" + q);
    PairCut(a, ":" + q);
  }

  lemma NoDotFamily(h: string)
    requires '.' !in h && '%' !in h && ':' in h
    ensures ParseIP(h) == match ParseParts(h) case None => None case Some(p) => Some(V6(Groups(p)))
  {
  }

  lemma PlainHead(addr: string, j: nat)
    requires j <= |addr| && IsPlain(addr)
    ensures CleanIP(addr[..j]) == ParseIP(addr[..j])
    ensures '%' !in addr
  {
    PrefixChar('[', addr);
    assert '%' !in addr[..j];
  }

  /** An unscoped address becomes the host as a whole, exactly when its last group
      cannot be taken for a port; in particular every uncompressed address does,
      see NotMisread. */
  lemma UnscopedStaysWhole(addr: string, p: int)
    requires IsIPv6(addr) && IsPlain(addr)
    ensures ':' in addr && ParseParts(addr).Some?
    ensures NormalizeEndpoint(TCP + addr, p) == Accepted(Bracketed(TCP, addr, Itoa(p))) <==> !MisreadAsPort(addr)
  {
    hide *;
    var j := LastIndexByte(addr, ':');
    PlainAddress(addr);
    AddressTrimmed(addr);
    NormalizeTcp(addr, p);
    PlainUnbracketed(addr);
    UnsplitAddress(addr);
    if IsPort(addr[j + 1..]) {
      SplitAt(addr, j);
      HeadIsAddress(addr, addr[..j], addr[j + 1..]);
      PortRest(addr, p);
    } else {
      NoPortNoMisread(addr);
      WholeRest(addr, p);
    }
  }

  lemma SplitAt(addr: string, j: nat)
    requires j == LastIndexByte(addr, ':')
    ensures addr == addr[..j] + ":" + addr[j + 1..] && ':' !in addr[j + 1..]
  {
  }

  lemma NoPortNoMisread(addr: string)
    requires ParseParts(addr).Some? && ':' in addr && !IsPort(addr[LastIndexByte(addr, ':') + 1..])
    ensures !MisreadAsPort(addr)
  {
    hide ParseParts, IsPort, IsMapped, Groups;
  }

  /** With a last group that reads as a port, the whole address is the host unless
      the text before that group is an address. */
  lemma PortRest(addr: string, p: int)
    requires ':' in addr && !HasPrefix(addr, "[") && SplitHostPort(addr).None? && IsIPv6(addr)
    requires IsPort(addr[LastIndexByte(addr, ':') + 1..])
    ensures NormalizeRest(TCP + addr, TCP, addr, p) == Accepted(Bracketed(TCP, addr, Itoa(p)))
       <==> !IsIPv6(addr[..LastIndexByte(addr, ':')])
  {
    hide *;
    AddressRest(addr, p);
    DifferentHosts(addr, LastIndexByte(addr, ':'));
  }

  lemma AddressTrimmed(addr: string)
    requires addr != "" && IsAddressChar(addr[|addr| - 1])
    ensures SpaceAtEnd(addr) == 0
  {
  }

  lemma PlainUnbracketed(addr: string)
    requires IsPlain(addr)
    ensures !HasPrefix(addr, "[")
  {
  }

  lemma UnsplitAddress(addr: string)
    requires ':' in addr && IndexByte(addr, ':') < LastIndexByte(addr, ':') && !HasPrefix(addr, "[")
    ensures SplitHostPort(addr).None?
  {
    var i, j := IndexByte(addr, ':'), LastIndexByte(addr, ':');
    PrefixChar('[', addr);
    assert addr[..j][i] == ':';
  }

  lemma DifferentHosts(addr: string, j: nat)
    requires j < |addr| && addr[j] == ':'
    ensures forall d, d' :: Bracketed(TCP, addr[..j], d) != Bracketed(TCP, addr, d')
  {
    forall d, d' ensures Bracketed(TCP, addr[..j], d) != Bracketed(TCP, addr, d') {
      var s, s' := Bracketed(TCP, addr[..j], d), Bracketed(TCP, addr, d');
      assert s[|TCP| + 1 + j] == ']' && s'[|TCP| + 1 + j] == ':';
    }
  }
}
