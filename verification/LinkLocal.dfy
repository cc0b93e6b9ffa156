/** Which IPv6 addresses are link-local, told by their text. */
module LinkLocal {
  import opened Text
  import opened Netutil
  import opened Addresses

  /** What is before the first colon. */
  function FirstGroup(addr: string): string
    requires ':' in addr
  {
    addr[..IndexByte(addr, ':')]
  }

  lemma FirstField(s: string)
    ensures Fields(s, ':')[0] == if ':' in s then FirstGroup(s) else s
  {
  }

  lemma FirstHexGroup(fs: seq<string>)
    requires fs != [] && HexGroups(fs).Some?
    ensures IsGroup(fs[0]) && HexGroups(fs).value[0] == HexValue(fs[0])
  {
    hide HexValue;
  }

  lemma FirstTailGroup(fs: seq<string>)
    requires |fs| > 1 && TailGroups(fs).Some?
    ensures IsGroup(fs[0]) && TailGroups(fs).value != [] && TailGroups(fs).value[0] == HexValue(fs[0])
  {
    hide HexGroups, HexValue, ParseIPv4, IsGroup;
    FirstHexGroup(if '.' in fs[|fs| - 1] then fs[..|fs| - 1] else fs);
  }

  /** Of a compressed address the first group is zero if there is nothing before `::`. */
  lemma FirstOfLeft(s: string)
    requires IndexPair(s) >= 0 && LeftGroups(s[..IndexPair(s)]).Some? && ':' in s
    ensures var g, l := FirstGroup(s), LeftGroups(s[..IndexPair(s)]).value;
      if g == "" then l == [] else IsGroup(g) && l != [] && l[0] == HexValue(g)
  {
    var i := IndexPair(s);
    var j := IndexByte(s, ':');
    assert s[i] == ':';
    assert forall k :: 0 <= k < j ==> s[..j][k] == s[k];
    assert j <= i;
    if i > 0 {
      NoPairAtStart(s, i);
      FirstField(s[..i]);
      hide HexValue, IndexPair, HexGroups;
      FirstHexGroup(Fields(s[..i], ':'));
      if j < i {
        assert s[..i][..j] == s[..j];
        IndexByteAt(s[..i], ':', j);
      } else {
        assert ':' !in s[..i];
      }
    }
  }

  /** Nothing but `::` at the start of an address has nothing before its first colon. */
  lemma NoPairAtStart(s: string, i: nat)
    requires IndexPair(s) == i && i > 0 && LeftGroups(s[..i]).Some?
    ensures s[0] != ':'
  {
    if s[0] == ':' { EmptyFirst(s[..i]); }
  }

  lemma EmptyFirst(left: string)
    requires left != "" && left[0] == ':'
    ensures HexGroups(Fields(left, ':')).None?
  {
    assert left[..0] == "";
    IndexByteAt(left, ':', 0);
    assert "" in Fields(left, ':');
    hide HexGroups;
  }

  /** The first of the eight groups is the value of the text before the first colon. */
  lemma FirstOfGroups(s: string)
    requires ParseParts(s).Some? && ':' in s
    ensures var g := FirstGroup(s);
      && (forall c :: c in g ==> IsHexDigit(c))
      && |g| <= 4 && Groups(ParseParts(s).value)[0] == HexValue(g)
  {
    hide HexGroups, TailGroups, FirstGroup, Fields, IndexPair, HexValue, LeftGroups, RightGroups;
    FirstField(s);
    if IndexPair(s) < 0 {
      SeveralFields(s);
      FirstTailGroup(Fields(s, ':'));
    } else {
      FirstOfLeft(s);
      NothingIsZero();
    }
  }

  lemma NothingIsZero()
    ensures HexValue("") == 0
  {
  }

  /** Four digits: f, e, and then 8, 9, a or b. */
  predicate IsFe80(g: string) {
    |g| == 4 && g[0] in "fF" && g[1] in "eE" && g[2] in "89abAB"
  }

  lemma {:induction false} HexValueIs(g: string, n: nat)
    requires (forall c :: c in g ==> IsHexDigit(c)) && |g| <= n <= 4
    ensures HexValue(g)
          < if n == 0 then 1 else if n == 1 then 16 else if n == 2 then 256 else if n == 3 then 4096 else 65536
    decreases n
  {
    if g != "" { HexValueIs(g[..|g| - 1], n - 1); }
  }

  lemma FourDigits(g: string)
    requires (forall c :: c in g ==> IsHexDigit(c)) && |g| == 4
    ensures g[0] in g && g[1] in g && g[2] in g && g[3] in g
    ensures HexValue(g) == HexDigit(g[0]) * 4096 + HexDigit(g[1]) * 256 + HexDigit(g[2]) * 16 + HexDigit(g[3])
  {
    assert g[..3][..2] == g[..2] && g[..2][..1] == g[..1] && g[..1][..0] == "";
    assert HexValue(g[..1]) == HexDigit(g[0]);
    assert HexValue(g[..2]) == HexDigit(g[0]) * 16 + HexDigit(g[1]);
    assert HexValue(g[..3]) == HexDigit(g[0]) * 256 + HexDigit(g[1]) * 16 + HexDigit(g[2]);
  }

  lemma DigitTexts(c: char)
    requires IsHexDigit(c)
    ensures HexDigit(c) == 15 <==> c in "fF"
    ensures HexDigit(c) == 14 <==> c in "eE"
    ensures 8 <= HexDigit(c) <= 11 <==> c in "89abAB"
  {
  }

  lemma Fe80ByValue(g: string)
    requires (forall c :: c in g ==> IsHexDigit(c)) && |g| <= 4
    ensures IsFe80(g) <==> 0xfe80 <= HexValue(g) <= 0xfebf
  {
    if |g| < 4 {
      HexValueIs(g, 3);
    } else {
      FourDigits(g);
      DigitTexts(g[0]);
      DigitTexts(g[1]);
      DigitTexts(g[2]);
      hide HexValue, HexDigit;
      var a, b, c, d := HexDigit(g[0]), HexDigit(g[1]), HexDigit(g[2]), HexDigit(g[3]);
      assert 0xfe80 <= a * 4096 + b * 256 + c * 16 + d <= 0xfebf <==> a == 15 && b == 14 && 8 <= c <= 11;
    }
  }

  /** An IPv6 address without brackets and zone is link-local exactly if it starts with
      fe8, fe9, fea or feb, another digit and a colon, in whatever case. */
  lemma LinkLocalByText(addr: string)
    requires IsIPv6(addr) && IsPlain(addr)
    ensures ':' in addr && (IsLinkLocal(addr) <==> IsFe80(FirstGroup(addr)))
  {
    PlainAddress(addr);
    IsParsed(addr);
    FirstOfGroups(addr);
    Fe80ByValue(FirstGroup(addr));
    hide ParseParts, Groups, FirstGroup, IsFe80, HexValue, ParseIP, CleanIP;
  }

  lemma IsParsed(addr: string)
    requires IsIPv6(addr) && ParseParts(addr).Some? && CleanIP(addr) == ParseIP(addr)
    ensures CleanIP(addr) == Some(V6(Groups(ParseParts(addr).value)))
  {
    hide ParseParts, Groups, ParseIPv4, CleanIP, IsMapped;
  }
}
