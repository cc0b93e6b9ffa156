/** Go strings and byte slices: a `string` with one char for each byte. */
module Text {

  datatype Option<+T> = None | Some(value: T)

  /** strings.IndexByte / bytes.IndexByte. */
  function IndexByte(s: string, c: char): (i: int)
    ensures -1 <= i < |s|
    ensures i >= 0 ==> s[i] == c && c !in s[..i]
    ensures i < 0 <==> c !in s
  {
    if c !in s then -1
    else
      FirstOccurrence(s, c);
      assert forall i, j :: 0 <= i < j < |s| && s[i] == c ==> s[..j][i] == c;
      var n :| 0 <= n < |s| && s[n] == c && c !in s[..n];
      n
  }

  lemma {:induction false} FirstOccurrence(s: string, c: char)
    requires c in s
    ensures exists n :: 0 <= n < |s| && s[n] == c && c !in s[..n]
  {
    var k := |s| - 1;
    assert s == s[..k] + [s[k]];
    if c in s[..k] {
      FirstOccurrence(s[..k], c);
      var n :| 0 <= n < k && s[..k][n] == c && c !in s[..k][..n];
      assert s[..k][..n] == s[..n] && s[n] == c;
    }
  }

  /** strings.LastIndexByte / bytes.LastIndexByte. */
  function LastIndexByte(s: string, c: char): (i: int)
    ensures -1 <= i < |s|
    ensures i >= 0 ==> s[i] == c && c !in s[i + 1..]
    ensures i < 0 <==> c !in s
  {
    if c !in s then -1
    else
      LastOccurrence(s, c);
      assert forall i, j :: 0 <= i < j < |s| && s[i] == c && s[j] == c ==> s[i + 1..][j - i - 1] == c;
      var n :| 0 <= n < |s| && s[n] == c && c !in s[n + 1..];
      n
  }

  lemma {:induction false} LastOccurrence(s: string, c: char)
    requires c in s
    ensures exists n :: 0 <= n < |s| && s[n] == c && c !in s[n + 1..]
  {
    assert s == [s[0]] + s[1..];
    if c in s[1..] {
      LastOccurrence(s[1..], c);
      var n :| 0 <= n < |s| - 1 && s[1..][n] == c && c !in s[1..][n + 1..];
      assert s[1..][n + 1..] == s[n + 2..] && s[n + 1] == c;
    }
  }

  /** The first and the last occurrence are unique, so a witness pins the index. */
  lemma IndexByteAt(s: string, c: char, i: nat)
    requires i < |s| && s[i] == c && c !in s[..i]
    ensures IndexByte(s, c) == i
  {
    var j := IndexByte(s, c);
    assert forall k :: 0 <= k < i ==> s[k] == s[..i][k];
    assert forall k :: 0 <= k < j ==> s[k] == s[..j][k];
  }

  lemma LastIndexByteAt(s: string, c: char, i: nat)
    requires i < |s| && s[i] == c && c !in s[i + 1..]
    ensures LastIndexByte(s, c) == i
  {
    var j := LastIndexByte(s, c);
    assert forall k :: i < k < |s| ==> s[k] == s[i + 1..][k - i - 1];
    assert forall k :: j < k < |s| ==> s[k] == s[j + 1..][k - j - 1];
  }

  /** Any occurrence lies between the first and the last. */
  lemma IndexBounds(s: string, c: char, k: nat)
    requires k < |s| && s[k] == c
    ensures 0 <= IndexByte(s, c) <= k <= LastIndexByte(s, c)
  {
    var i, j := IndexByte(s, c), LastIndexByte(s, c);
    assert forall m :: 0 <= m < i ==> s[m] == s[..i][m];
    assert forall m :: j < m < |s| ==> s[m] == s[j + 1..][m - j - 1];
  }

  predicate HasPrefix(s: string, p: string) {
    p <= s
  }

  predicate HasSuffix(s: string, p: string) {
    |p| <= |s| && s[|s| - |p|..] == p
  }

  // Concatenation read from the left and from the right.

  lemma Assoc3(a: string, b: string, c: string)
    ensures a + b + c == a + (b + c)
  {
  }

  lemma Assoc4(a: string, b: string, c: string, d: string)
    ensures a + b + c + d == a + (b + (c + d))
  {
  }

  lemma Assoc5(a: string, b: string, c: string, d: string, e: string)
    ensures a + b + c + d + e == a + (b + (c + (d + e)))
  {
    assert a + b + c + d + e == (a + b) + (c + (d + e));
  }

  lemma CutAt(a: string, b: string)
    ensures (a + b)[..|a|] == a && (a + b)[|a|..] == b
  {
  }

  lemma PrefixChar(c: char, s: string)
    ensures [c] <= s <==> s != "" && s[0] == c
  {
    assert s != "" ==> s[..1] == [s[0]];
    assert [c][0] == c;
  }

  /** strings.ReplaceAll for a nonempty pattern: leftmost, non-overlapping. */
  function ReplaceAll(s: string, what: string, with: string): string
    requires what != ""
  {
    if s == "" then ""
    else if what <= s then with + ReplaceAll(s[|what|..], what, with)
    else [s[0]] + ReplaceAll(s[1..], what, with)
  }

  /** Bytewise order, which is how Go compares strings. */
  predicate Less(a: string, b: string)
  {
    b != "" && (a == "" || a[0] < b[0] || (a[0] == b[0] && Less(a[1..], b[1..])))
  }

  lemma LessIrreflexive(a: string)
    ensures !Less(a, a)
  {
  }

  lemma LessTransitive(a: string, b: string, c: string)
    requires Less(a, b) && Less(b, c)
    ensures Less(a, c)
  {
  }

  lemma LessTotal(a: string, b: string)
    ensures a == b || Less(a, b) || Less(b, a)
  {
    if a != "" && b != "" && a[0] == b[0] {
      LessTotal(a[1..], b[1..]);
      assert a == [a[0]] + a[1..] && b == [b[0]] + b[1..];
    }
  }

  ghost predicate StrictlySorted(ks: seq<string>) {
    forall i, j :: 0 <= i < j < |ks| ==> Less(ks[i], ks[j])
  }

  /** One set of keys has one strictly increasing listing. */
  lemma {:induction false} StrictlySortedUnique(a: seq<string>, b: seq<string>)
    requires StrictlySorted(a) && StrictlySorted(b)
    requires forall k :: k in a <==> k in b
    ensures a == b
  {
    assert a != [] ==> a[0] in b;
    assert b != [] ==> b[0] in a;
    if a != [] && b != [] {
      HeadIsLeast(a, b);
      HeadIsLeast(b, a);
      if a[0] != b[0] {
        LessTransitive(a[0], b[0], a[0]);
        LessIrreflexive(a[0]);
      }
      TailKeys(a);
      TailKeys(b);
      StrictlySortedUnique(a[1..], b[1..]);
      assert a == [a[0]] + a[1..] && b == [b[0]] + b[1..];
    }
  }

  lemma HeadIsLeast(a: seq<string>, b: seq<string>)
    requires StrictlySorted(a) && a != [] && b != [] && b[0] in a
    ensures a[0] == b[0] || Less(a[0], b[0])
  {
  }

  lemma TailKeys(a: seq<string>)
    requires StrictlySorted(a) && a != []
    ensures StrictlySorted(a[1..])
    ensures forall k :: k in a[1..] <==> k in a && k != a[0]
  {
    assert a == [a[0]] + a[1..];
    LessIrreflexive(a[0]);
    forall i | 1 <= i < |a| ensures a[i] != a[0] { assert Less(a[0], a[i]); }
  }

  /** Insertion into an increasing listing; the step of `SortStrings`. */
  function Insert(k: string, ks: seq<string>): (r: seq<string>)
    ensures multiset(r) == multiset(ks) + multiset{k}
    ensures forall x :: x in r <==> x == k || x in ks
    ensures StrictlySorted(ks) && k !in ks ==> StrictlySorted(r)
  {
    if ks == [] then [k]
    else if Less(k, ks[0]) then
      InsertFront(k, ks);
      assert multiset([k] + ks) == multiset(ks) + multiset{k};
      [k] + ks
    else
      assert ks == [ks[0]] + ks[1..];
      var r := [ks[0]] + Insert(k, ks[1..]);
      assert multiset(r) == multiset(ks) + multiset{k};
      assert StrictlySorted(ks) && k !in ks ==> StrictlySorted(r) by {
        if StrictlySorted(ks) && k !in ks {
          LessTotal(k, ks[0]);
          assert StrictlySorted(ks[1..]);
          HeadBefore(ks[0], Insert(k, ks[1..]));
        }
      }
      r
  }

  lemma InsertFront(k: string, ks: seq<string>)
    requires ks != [] && Less(k, ks[0])
    ensures StrictlySorted(ks) ==> StrictlySorted([k] + ks)
    ensures forall x :: x in [k] + ks <==> x == k || x in ks
  {
    if StrictlySorted(ks) {
      forall j | 0 < j < |ks| ensures Less(k, ks[j]) { LessTransitive(k, ks[0], ks[j]); }
    }
  }

  lemma HeadBefore(h: string, r: seq<string>)
    requires forall x :: x in r ==> Less(h, x)
    requires StrictlySorted(r)
    ensures StrictlySorted([h] + r)
  {
    forall j | 0 <= j < |r| ensures Less(h, r[j]) { assert r[j] in r; }
  }

  /** sort.Strings. */
  function SortStrings(ks: seq<string>): (r: seq<string>)
    ensures multiset(r) == multiset(ks)
    ensures forall x :: x in r <==> x in ks
    ensures (forall i, j :: 0 <= i < j < |ks| ==> ks[i] != ks[j]) ==> StrictlySorted(r)
  {
    if ks == [] then []
    else
      assert ks == [ks[0]] + ks[1..];
      Insert(ks[0], SortStrings(ks[1..]))
  }

  predicate IsDigit(c: char) { '0' <= c <= '9' }

  /** strconv.Itoa. */
  function Itoa(n: int): (s: string)
    ensures s != ""
    ensures forall c :: c in s ==> '0' <= c <= '9' || c == '-'
    ensures '0' <= s[|s| - 1] <= '9'
    ensures n >= 0 ==> '-' !in s
    decreases n < 0, if n < 0 then -n else n
  {
    if n < 0 then "-" + Itoa(-n)
    else if n < 10 then [Digit(n)]
    else Itoa(n / 10) + [Digit(n % 10)]
  }

  function Digit(d: int): (c: char)
    requires 0 <= d < 10
    ensures '0' <= c <= '9'
  {
    '0' + d as char
  }

  // ---- White space -------------------------------------------------------

  /** bytes.TrimSpace removes the UTF-8 encodings of the Unicode spaces; this is
      the length of the one a text starts with, or 0. */
  function SpaceAtStart(s: string): (n: nat)
    ensures n <= |s| && n <= 3
  {
    if |s| >= 1 && IsAsciiSpace(s[0]) then 1
    else if |s| >= 2 && IsSpace2(s[0], s[1]) then 2
    else if |s| >= 3 && IsSpace3(s[0], s[1], s[2]) then 3
    else 0
  }

  function SpaceAtEnd(s: string): (n: nat)
    ensures n <= |s| && n <= 3
  {
    var k := |s|;
    if k >= 1 && IsAsciiSpace(s[k - 1]) then 1
    else if k >= 2 && IsSpace2(s[k - 2], s[k - 1]) then 2
    else if k >= 3 && IsSpace3(s[k - 3], s[k - 2], s[k - 1]) then 3
    else 0
  }

  predicate IsAsciiSpace(c: char) {
    c == ' ' || '\t' <= c <= '\r'
  }

  /** U+0085 and U+00A0. */
  predicate IsSpace2(a: char, b: char) {
    a == '\U{C2}' && (b == '\U{85}' || b == '\U{A0}')
  }

  /** U+1680, U+2000 to U+200A, U+2028, U+2029, U+202F, U+205F and U+3000. */
  predicate IsSpace3(a: char, b: char, c: char) {
    || (a == '\U{E1}' && b == '\U{9A}' && c == '\U{80}')
    || (a == '\U{E2}' && b == '\U{80}'
        && ('\U{80}' <= c <= '\U{8A}' || c == '\U{A8}' || c == '\U{A9}' || c == '\U{AF}'))
    || (a == '\U{E2}' && b == '\U{81}' && c == '\U{9F}')
    || (a == '\U{E3}' && b == '\U{80}' && c == '\U{80}')
  }

  function TrimLeftSpace(s: string): (t: string)
    ensures |t| <= |s|
    decreases |s|
  {
    var n := SpaceAtStart(s);
    if n == 0 then s else TrimLeftSpace(s[n..])
  }

  function TrimRightSpace(s: string): (t: string)
    ensures |t| <= |s|
    decreases |s|
  {
    var n := SpaceAtEnd(s);
    if n == 0 then s else TrimRightSpace(s[..|s| - n])
  }

  function TrimSpace(s: string): string {
    TrimRightSpace(TrimLeftSpace(s))
  }

  /** Visible ASCII: no white space, and no part of a multi-byte space. */
  predicate IsSolid(c: char) { '!' <= c <= '~' }

  lemma {:induction false} TrimLeftChars(s: string)
    ensures exists k :: 0 <= k <= |s| && TrimLeftSpace(s) == s[k..]
    decreases |s|
  {
    var n := SpaceAtStart(s);
    if n == 0 {
      assert s == s[0..];
    } else {
      TrimLeftChars(s[n..]);
      var k :| 0 <= k <= |s| - n && TrimLeftSpace(s[n..]) == s[n..][k..];
      assert s[n..][k..] == s[n + k..];
    }
  }

  lemma {:induction false} TrimRightChars(s: string)
    ensures TrimRightSpace(s) <= s
    decreases |s|
  {
    var n := SpaceAtEnd(s);
    if n != 0 { TrimRightChars(s[..|s| - n]); }
  }

  lemma TrimSpaceChars(s: string)
    ensures forall c :: c in TrimSpace(s) ==> c in s
  {
    TrimLeftChars(s);
    var k :| 0 <= k <= |s| && TrimLeftSpace(s) == s[k..];
    TrimRightChars(s[k..]);
  }

  /** No white space at either end. */
  predicate IsTrimmed(s: string) {
    SpaceAtStart(s) == 0 && SpaceAtEnd(s) == 0
  }

  lemma TrimSpaceFixed(s: string)
    requires IsTrimmed(s)
    ensures TrimSpace(s) == s
  {
  }

  lemma {:induction false} TrimLeftStart(s: string)
    ensures SpaceAtStart(TrimLeftSpace(s)) == 0
    decreases |s|
  {
    if SpaceAtStart(s) != 0 { TrimLeftStart(s[SpaceAtStart(s)..]); }
  }

  lemma {:induction false} TrimRightEnd(s: string)
    requires SpaceAtStart(s) == 0
    ensures IsTrimmed(TrimRightSpace(s))
    decreases |s|
  {
    var n := SpaceAtEnd(s);
    if n != 0 { TrimRightEnd(s[..|s| - n]); }
  }

  lemma TrimSpaceTrims(s: string)
    ensures IsTrimmed(TrimSpace(s))
  {
    TrimLeftStart(s);
    TrimRightEnd(TrimLeftSpace(s));
  }
}
