/** Turning an OSC 7 payload (`file://host/path`, percent-encoded or raw) into
    a native absolute path. One `char` stands for one byte of a UTF-8 string. */
module CwdPaths {
  import opened Options
  import opened Search

  // ---- strings.TrimSpace over UTF-8 bytes ----

  function Ord(c: char): int {
    c as int
  }

  /** The bytes of one white-space rune. */
  predicate IsSpaceRune(b: string) {
    if |b| == 1 then 9 <= Ord(b[0]) <= 13 || b[0] == ' '
    else if |b| == 2 then Ord(b[0]) == 0xC2 && (Ord(b[1]) == 0x85 || Ord(b[1]) == 0xA0)
    else if |b| == 3 then
      || (Ord(b[0]) == 0xE1 && Ord(b[1]) == 0x9A && Ord(b[2]) == 0x80)
      || (Ord(b[0]) == 0xE2 && Ord(b[1]) == 0x80
          && (0x80 <= Ord(b[2]) <= 0x8A || 0xA8 <= Ord(b[2]) <= 0xA9 || Ord(b[2]) == 0xAF))
      || (Ord(b[0]) == 0xE2 && Ord(b[1]) == 0x81 && Ord(b[2]) == 0x9F)
      || (Ord(b[0]) == 0xE3 && Ord(b[1]) == 0x80 && Ord(b[2]) == 0x80)
    else false
  }

  predicate EndsInSpace(s: string, n: nat, k: nat) {
    k <= n <= |s| && IsSpaceRune(s[n - k..n])
  }

  predicate StartsInSpace(s: string, n: nat, k: nat) {
    n + k <= |s| && IsSpaceRune(s[n..n + k])
  }

  /** Length of the white-space rune that ends at position `n`, or 0. */
  function SpaceBefore(s: string, n: nat): (k: nat)
    ensures k <= n
  {
    if EndsInSpace(s, n, 1) then 1 else if EndsInSpace(s, n, 2) then 2 else if EndsInSpace(s, n, 3) then 3 else 0
  }

  /** Length of the white-space rune that starts at position `n`, or 0. */
  function SpaceAfter(s: string, n: nat): (k: nat)
    ensures k == 0 || n + k <= |s|
  {
    if StartsInSpace(s, n, 1) then 1 else if StartsInSpace(s, n, 2) then 2 else if StartsInSpace(s, n, 3) then 3 else 0
  }

  function TrailingSpace(s: string): nat {
    SpaceBefore(s, |s|)
  }

  function LeadingSpace(s: string): nat {
    SpaceAfter(s, 0)
  }

  /** For every position up to `n` the length of the white-space rune that ends there. */
  function EndGaps(s: string, n: nat): (gaps: seq<nat>)
    ensures |gaps| == n + 1
  {
    if n == 0 then [0] else EndGaps(s, n - 1) + [SpaceBefore(s, n)]
  }

  /** For every position up to `n` the length of the white-space rune that starts there. */
  function StartGaps(s: string, n: nat): (gaps: seq<nat>)
    ensures |gaps| == n + 1
  {
    if n == 0 then [SpaceAfter(s, 0)] else StartGaps(s, n - 1) + [SpaceAfter(s, n)]
  }

  /** Going back from position `n` over all gaps. */
  function Kept(gaps: seq<nat>, n: nat): (m: nat)
    requires n < |gaps|
    ensures m <= n && (gaps[n] == 0 ==> m == n)
    decreases n
  {
    if 0 < gaps[n] <= n then Kept(gaps, n - gaps[n]) else n
  }

  /** Going on from position `n` over all gaps. */
  function Skipped(gaps: seq<nat>, n: nat): (m: nat)
    requires n < |gaps|
    ensures n <= m < |gaps| && (gaps[n] == 0 ==> m == n)
    decreases |gaps| - n
  {
    if gaps[n] > 0 && n + gaps[n] < |gaps| then Skipped(gaps, n + gaps[n]) else n
  }

  function TrimRight(s: string): string {
    s[..Kept(EndGaps(s, |s|), |s|)]
  }

  function TrimLeft(s: string): string {
    s[Skipped(StartGaps(s, |s|), 0)..]
  }

  function TrimSpace(s: string): string {
    TrimRight(TrimLeft(s))
  }

  // ---- Percent-encoding (RFC 3986, section 2.1) ----

  function HexValue(c: char): (v: int)
    ensures -1 <= v < 16
  {
    if '0' <= c <= '9' then Ord(c) - Ord('0')
    else if 'a' <= c <= 'f' then Ord(c) - Ord('a') + 10
    else if 'A' <= c <= 'F' then Ord(c) - Ord('A') + 10
    else -1
  }

  /** url.PathUnescape: None for a malformed escape anywhere in the string. */
  function Unescape(s: string): Option<string> {
    if s == [] then Some([])
    else if s[0] == '%' then
      if |s| < 3 || HexValue(s[1]) < 0 || HexValue(s[2]) < 0 then None
      else
        match Unescape(s[3..])
        case None => None
        case Some(t) => Some([(16 * HexValue(s[1]) + HexValue(s[2])) as char] + t)
    else
      match Unescape(s[1..])
      case None => None
      case Some(t) => Some([s[0]] + t)
  }

  predicate Unreserved(c: char) {
    'a' <= c <= 'z' || 'A' <= c <= 'Z' || '0' <= c <= '9' || c in {'-', '_', '.', '~'}
  }

  function HexDigit(v: nat): (c: char)
    requires v < 16
    ensures HexValue(c) == v && c != '/' && '0' <= c <= 'F'
  {
    if v < 10 then (Ord('0') + v) as char else (Ord('A') + v - 10) as char
  }

  predicate IsBytes(s: string) {
    forall i :: 0 <= i < |s| ==> Ord(s[i]) < 256
  }

  /** What PowerShell's reporter prints for a path. */
  function Escape(p: string): string
    requires IsBytes(p)
  {
    if p == [] then []
    else
      (if Unreserved(p[0]) then [p[0]] else ['%', HexDigit(Ord(p[0]) / 16), HexDigit(Ord(p[0]) % 16)])
      + Escape(p[1..])
  }

  // ---- The conversion ----

  const FILE: string := "file://"

  function ReplaceSlashes(s: string): (t: string)
    ensures |t| == |s|
  {
    if s == [] then [] else [if s[0] == '/' then '\\' else s[0]] + ReplaceSlashes(s[1..])
  }

  /** The path part of a payload, still percent-encoded. */
  function RawPath(uri: string): string {
    var raw := TrimSpace(uri);
    var bare := if FILE <= raw then raw[|FILE|..] else raw;
    if "/" <= bare then bare
    else
      var i := Index(bare, "/");
      if i >= 0 then bare[i..] else bare
  }

  function Native(raw: string, windows: bool): string {
    if windows then
      var back := ReplaceSlashes(raw);
      var drive := if |back| >= 2 && back[0] == '\\' && back[1] != '\\' then back[1..] else back;
      if |drive| < 3 || drive[1] != ':' then "" else drive
    else if "/" <= raw then raw else ""
  }

  function UriToPath(uri: string, windows: bool): string {
    var raw := RawPath(uri);
    match Unescape(raw)
    case Some(decoded) => Native(decoded, windows)
    case None => Native(raw, windows)
  }

  // ---- POSIX reports: the path is printed raw ----

  lemma {:induction false} UnescapeShrinks(s: string)
    ensures var u := Unescape(s);
      && (u.Some? ==> |u.value| <= |s|)
      && ('%' !in s ==> u == Some(s))
      && (u.Some? && '%' in s ==> |u.value| < |s|)
  {
    if s != [] {
      var k := if s[0] == '%' && |s| >= 3 then 3 else 1;
      UnescapeShrinks(s[k..]);
      assert s == s[..k] + s[k..];
      assert s[0] != '%' ==> s == [s[0]] + s[1..];
    }
  }

  lemma PlainIsNoSpace(b: string, i: nat)
    requires i < |b| && ' ' < b[i] && Ord(b[i]) < 0x80
    ensures !IsSpaceRune(b)
  {
  }

  lemma EndsInside(x: string, s: string, y: string, n: nat, k: nat)
    requires n <= |s| && (x == [] || (n > 0 && s[0] == '/'))
    ensures EndsInSpace(x + (s + y), |x| + n, k) <==> EndsInSpace(s, n, k)
  {
    var t := x + (s + y);
    if k <= n {
      assert t[|x| + n - k..|x| + n] == s[n - k..n];
    } else if k <= |x| + n {
      PlainIsNoSpace(t[|x| + n - k..|x| + n], k - n);
    }
  }

  /** Text behind a position, or in front of a slash, does not change what space ends there. */
  lemma SpaceInside(x: string, s: string, y: string, n: nat)
    requires n <= |s| && (x == [] || (n > 0 && s[0] == '/'))
    ensures SpaceBefore(x + (s + y), |x| + n) == SpaceBefore(s, n)
  {
    EndsInside(x, s, y, n, 1);
    EndsInside(x, s, y, n, 2);
    EndsInside(x, s, y, n, 3);
  }

  lemma {:induction false} KeptShift(g: seq<nat>, h: seq<nat>, d: nat, n: nat)
    requires n < |g| && d + n < |h|
    requires forall i :: 0 < i <= n ==> h[d + i] == g[i]
    requires d == 0 || (n > 0 && forall i :: 0 < i <= n ==> g[i] < i)
    ensures Kept(h, d + n) == d + Kept(g, n)
    decreases n
  {
    if n > 0 && 0 < g[n] <= n {
      KeptShift(g, h, d, n - g[n]);
    }
  }

  lemma SlashIsKept(s: string, n: nat)
    requires 0 < n <= |s| && s[0] == '/'
    ensures SpaceBefore(s, n) < n
  {
    PlainIsNoSpace(s[0..n], 0);
  }

  lemma {:induction false} EndGapAt(s: string, n: nat, i: nat)
    requires i <= n
    ensures EndGaps(s, n)[i] == SpaceBefore(s, i)
  {
    if i < n {
      EndGapAt(s, n - 1, i);
    }
  }

  lemma {:induction false} StartGapAt(s: string, n: nat, i: nat)
    requires i <= n
    ensures StartGaps(s, n)[i] == SpaceAfter(s, i)
  {
    if i < n {
      StartGapAt(s, n - 1, i);
    }
  }

  lemma TrimRightWhole(s: string)
    ensures TrimRight(s) == s <==> TrailingSpace(s) == 0
  {
    assert s[..|s|] == s;
    EndGapAt(s, |s|, |s|);
  }

  lemma {:induction false} SlashStays(g: seq<nat>, n: nat)
    requires 0 < n < |g| && forall i :: 0 < i <= n ==> g[i] < i
    ensures Kept(g, n) > 0
    decreases n
  {
    if g[n] > 0 {
      SlashStays(g, n - g[n]);
    }
  }

  lemma GapBehind(x: string, p: string, i: nat)
    requires |p| > 0 && p[0] == '/' && 0 < i <= |p|
    ensures EndGaps(x + p, |x + p|)[|x| + i] == EndGaps(p, |p|)[i] < i
  {
    EndGapAt(x + p, |x + p|, |x| + i);
    EndGapAt(p, |p|, i);
    NilNeutral(p);
    SpaceInside(x, p, [], i);
    SlashIsKept(p, i);
  }

  /** White space is only trimmed down to a slash. */
  lemma TrimRightAppend(x: string, p: string)
    requires |p| > 0 && p[0] == '/'
    ensures TrimRight(x + p) == x + TrimRight(p)
    ensures |TrimRight(p)| > 0 && TrimRight(p)[0] == '/' && |TrimRight(p)| <= |p|
    ensures TrimRight(p) == p <==> TrailingSpace(p) == 0
  {
    var g, h := EndGaps(p, |p|), EndGaps(x + p, |x + p|);
    forall i | 0 < i <= |p| ensures h[|x| + i] == g[i] < i {
      GapBehind(x, p, i);
    }
    KeptShift(g, h, |x|, |p|);
    SlashStays(g, |p|);
    TrimRightWhole(p);
    TakeBehind(x, p, Kept(g, |p|));
  }

  lemma TakeBehind(x: string, p: string, k: nat)
    requires k <= |p|
    ensures (x + p)[..|x| + k] == x + p[..k]
  {
  }

  lemma EndsAfterSlash(name: string, k: nat)
    requires name != "" && 1 <= k <= 3
    ensures EndsInSpace("/" + name, 1 + |name|, k) <==> EndsInSpace(name, |name|, k)
  {
    var p := "/" + name;
    if k <= |name| {
      assert p[1 + |name| - k..1 + |name|] == name[|name| - k..|name|];
    } else if k == 1 + |name| {
      PlainIsNoSpace(p[0..k], 0);
    }
  }

  lemma SpaceAfterSlash(name: string)
    requires name != ""
    ensures TrailingSpace("/" + name) == TrailingSpace(name)
  {
    EndsAfterSlash(name, 1);
    EndsAfterSlash(name, 2);
    EndsAfterSlash(name, 3);
  }

  lemma PlainFront(s: string)
    requires |s| > 0 && ' ' < s[0] && Ord(s[0]) < 0x80
    ensures TrimLeft(s) == s
  {
    forall k | 1 <= k <= |s| ensures !StartsInSpace(s, 0, k) {
      PlainIsNoSpace(s[0..k], 0);
    }
    StartGapAt(s, |s|, 0);
  }

  lemma PlainBack(s: string)
    requires |s| > 0 && ' ' < s[|s| - 1] && Ord(s[|s| - 1]) < 0x80
    ensures TrimRight(s) == s
  {
    forall k | 1 <= k <= |s| ensures !EndsInSpace(s, |s|, k) {
      PlainIsNoSpace(s[|s| - k..|s|], k - 1);
    }
    TrimRightWhole(s);
  }

  /** The raw path of a report of `p` is `p` without trailing white space. */
  lemma RawPosix(p: string)
    requires "/" <= p
    ensures RawPath(FILE + p) == TrimRight(p) && |TrimRight(p)| <= |p|
  {
    PlainFront(FILE + p);
    TrimRightAppend(FILE, p);
    var t := TrimRight(p);
    assert (FILE + t)[|FILE|..] == t;
  }

  /** A payload with a raw POSIX path comes back unchanged exactly when the path has no
      trailing white space and percent-decoding leaves it alone. */
  lemma PosixRoundTrip(p: string)
    requires "/" <= p
    ensures UriToPath(FILE + p, false) == p <==> TrailingSpace(p) == 0 && ('%' !in p || Unescape(p).None?)
  {
    RawPosix(p);
    TrimRightAppend(FILE, p);
    UnescapeShrinks(TrimRight(p));
  }

  // ---- A path is never longer than its payload ----

  lemma RawShrinks(uri: string)
    ensures |RawPath(uri)| <= |uri|
  {
  }

  lemma PathFits(uri: string)
    ensures |UriToPath(uri, false)| <= |RawPath(uri)| <= |uri|
  {
    RawShrinks(uri);
    UnescapeShrinks(RawPath(uri));
  }

  // ---- Windows reports: the path is printed percent-encoded ----

  lemma {:induction false} EscapeShape(p: string)
    requires IsBytes(p)
    ensures var e := Escape(p);
      && |e| >= |p|
      && forall i :: 0 <= i < |e| ==> ' ' < e[i] && Ord(e[i]) < 0x80 && e[i] != '/'
  {
    if p != [] {
      EscapeShape(p[1..]);
    }
  }

  lemma {:induction false} UnescapeEscape(p: string)
    requires IsBytes(p)
    ensures Unescape(Escape(p)) == Some(p)
  {
    if p != [] {
      UnescapeEscape(p[1..]);
      var e, tail := Escape(p), Escape(p[1..]);
      if Unreserved(p[0]) {
        assert e[1..] == tail;
      } else {
        assert e[3..] == tail;
        assert 16 * (Ord(p[0]) / 16) + Ord(p[0]) % 16 == Ord(p[0]);
      }
      assert p == [p[0]] + p[1..];
    }
  }

  lemma {:induction false} ReplaceSlashesKeeps(s: string)
    ensures ReplaceSlashes(s) == s <==> '/' !in s
    ensures |s| >= 2 && ReplaceSlashes(s) == s ==> s[0] != '/' && s[1] != '/'
  {
    if s != [] {
      ReplaceSlashesKeeps(s[1..]);
      assert s == [s[0]] + s[1..];
      assert ReplaceSlashes(s)[1..] == ReplaceSlashes(s[1..]);
    }
  }

  lemma NativeWindows(p: string)
    requires p != []
    ensures Native(p, true) == p <==> |p| >= 3 && p[1] == ':' && p[0] != '\\' && '/' !in p
  {
    ReplaceSlashesKeeps(p);
  }

  lemma RawEscaped(p: string)
    requires IsBytes(p) && p != []
    ensures RawPath(FILE + Escape(p)) == Escape(p)
  {
    var e := Escape(p);
    EscapeShape(p);
    PlainFront(FILE + e);
    PlainBack(FILE + e);
    assert (FILE + e)[|FILE|..] == e;
    IndexSpec(e, "/");
  }

  /** A percent-encoded Windows path comes back unchanged exactly when it is a
      drive path written without forward slashes. */
  lemma WindowsRoundTrip(p: string)
    requires IsBytes(p) && p != []
    ensures UriToPath(FILE + Escape(p), true) == p <==> |p| >= 3 && p[1] == ':' && p[0] != '\\' && '/' !in p
  {
    RawEscaped(p);
    UnescapeEscape(p);
    NativeWindows(p);
  }

  // ---- Trimming is strings.TrimSpace ----

  /** The UTF-8 bytes of a code point of the Basic Multilingual Plane (RFC 3629, section 3). */
  function Utf8(point: nat): string
    requires point < 0x1_0000
  {
    if point < 0x80 then [point as char]
    else if point < 0x800 then [(0xC0 + point / 64) as char, (0x80 + point % 64) as char]
    else [(0xE0 + point / 4096) as char, (0x80 + point / 64 % 64) as char, (0x80 + point % 64) as char]
  }

  /** Unicode's White_Space property. */
  predicate WhiteSpace(point: nat) {
    || 9 <= point <= 13 || 0x2000 <= point <= 0x200A
    || point in {0x20, 0x85, 0xA0, 0x1680, 0x2028, 0x2029, 0x202F, 0x205F, 0x3000}
  }

  /** The code point a string of up to three bytes would encode. */
  function CodePoint(b: string): int
    requires 1 <= |b| <= 3
  {
    if |b| == 1 then Ord(b[0])
    else if |b| == 2 then (Ord(b[0]) - 0xC0) * 64 + Ord(b[1]) - 0x80
    else (Ord(b[0]) - 0xE0) * 4096 + (Ord(b[1]) - 0x80) * 64 + Ord(b[2]) - 0x80
  }

  lemma SpaceRuneDecodes(b: string)
    requires IsSpaceRune(b)
    ensures CodePoint(b) >= 0 && WhiteSpace(CodePoint(b)) && Utf8(CodePoint(b)) == b
  {
  }

  lemma WhiteSpaceEncodes(point: nat)
    requires WhiteSpace(point)
    ensures IsSpaceRune(Utf8(point))
  {
  }

  /** The bytes that are trimmed are the white-space code points of Unicode, and no others. */
  lemma SpaceRunes(b: string)
    ensures IsSpaceRune(b) <==> exists point :: WhiteSpace(point) && Utf8(point) == b
  {
    if IsSpaceRune(b) {
      SpaceRuneDecodes(b);
    }
    forall point | WhiteSpace(point) ensures IsSpaceRune(Utf8(point)) {
      WhiteSpaceEncodes(point);
    }
  }

  ghost predicate AllSpace(runes: seq<string>) {
    forall r :: r in runes ==> IsSpaceRune(r)
  }

  lemma SpaceIsRune(s: string, n: nat)
    requires n <= |s|
    ensures SpaceBefore(s, n) > 0 ==> IsSpaceRune(s[n - SpaceBefore(s, n)..n])
    ensures SpaceAfter(s, n) > 0 ==> IsSpaceRune(s[n..n + SpaceAfter(s, n)])
  {
  }

  lemma CutBehind(s: string, m: nat, n: nat, k: nat, rest: seq<string>)
    requires k <= n <= |s| && m <= n && s[..n - k] == s[..m] + Concat(rest)
    ensures s[..n] == s[..m] + Concat(rest + [s[n - k..n]])
  {
    ConcatSnoc(rest, s[n - k..n]);
    assert s[..n] == s[..n - k] + s[n - k..n];
    Associative(s[..m], Concat(rest), s[n - k..n]);
  }

  lemma CutInFront(s: string, m: nat, n: nat, k: nat, rest: seq<string>)
    requires n + k <= |s| && m <= |s| && s[n + k..] == Concat(rest) + s[m..]
    ensures s[n..] == Concat([s[n..n + k]] + rest) + s[m..]
  {
    ConcatCons(s[n..n + k], rest);
    assert s[n..] == s[n..n + k] + s[n + k..];
    Associative(s[n..n + k], Concat(rest), s[m..]);
  }

  lemma OneMore(r: string, runes: seq<string>)
    requires IsSpaceRune(r) && AllSpace(runes)
    ensures AllSpace([r] + runes) && AllSpace(runes + [r])
  {
  }

  lemma {:induction false} KeptCuts(s: string, g: seq<nat>, n: nat) returns (back: seq<string>)
    requires n <= |s| && g == EndGaps(s, |s|)
    ensures s[..n] == s[..Kept(g, n)] + Concat(back) && AllSpace(back)
    ensures g[Kept(g, n)] == 0
    decreases n
  {
    var k := g[n];
    back := [];
    EndGapAt(s, |s|, n);
    if k > 0 {
      SpaceIsRune(s, n);
      var rest := KeptCuts(s, g, n - k);
      CutBehind(s, Kept(g, n), n, k, rest);
      OneMore(s[n - k..n], rest);
      back := rest + [s[n - k..n]];
    }
  }

  lemma {:induction false} SkippedCuts(s: string, g: seq<nat>, n: nat) returns (front: seq<string>)
    requires n <= |s| && g == StartGaps(s, |s|)
    ensures s[n..] == Concat(front) + s[Skipped(g, n)..] && AllSpace(front)
    ensures g[Skipped(g, n)] == 0
    decreases |s| - n
  {
    var k := g[n];
    front := [];
    StartGapAt(s, |s|, n);
    if k > 0 {
      SpaceIsRune(s, n);
      var rest := SkippedCuts(s, g, n + k);
      CutInFront(s, Skipped(g, n), n, k, rest);
      OneMore(s[n..n + k], rest);
      front := [s[n..n + k]] + rest;
    }
  }

  lemma StartsInside(r: string, t: string, u: string, n: nat, k: nat)
    requires n + k <= |t|
    ensures StartsInSpace(r + (t + u), |r| + n, k) <==> StartsInSpace(t, n, k)
  {
    assert (r + (t + u))[|r| + n..|r| + n + k] == t[n..n + k];
  }

  lemma SpaceBehind(r: string, t: string, n: nat)
    requires n <= |t|
    ensures SpaceAfter(r + t, |r| + n) == SpaceAfter(t, n)
  {
    NilNeutral(t);
    if n + 1 <= |t| {
      StartsInside(r, t, [], n, 1);
    }
    if n + 2 <= |t| {
      StartsInside(r, t, [], n, 2);
    }
    if n + 3 <= |t| {
      StartsInside(r, t, [], n, 3);
    }
  }

  lemma NoLeadingSpace(t: string, u: string)
    requires LeadingSpace(t + u) == 0
    ensures LeadingSpace(t) == 0
  {
    NilNeutral(t + u);
    if 1 <= |t| {
      StartsInside([], t, u, 0, 1);
    }
    if 2 <= |t| {
      StartsInside([], t, u, 0, 2);
    }
    if 3 <= |t| {
      StartsInside([], t, u, 0, 3);
    }
  }

  /** Only white space is cut off, at both ends, and all of it. */
  lemma TrimSpaceCuts(s: string) returns (front: seq<string>, back: seq<string>)
    ensures s == Concat(front) + (TrimSpace(s) + Concat(back)) && AllSpace(front) && AllSpace(back)
    ensures LeadingSpace(TrimSpace(s)) == 0 && TrailingSpace(TrimSpace(s)) == 0
  {
    var t := TrimLeft(s);
    var g, h := StartGaps(s, |s|), EndGaps(t, |t|);
    var i, j := Skipped(g, 0), Kept(h, |t|);
    front := SkippedCuts(s, g, 0);
    back := KeptCuts(t, h, |t|);
    assert s[0..] == s && t[..|t|] == t;
    StartGapAt(s, |s|, i);
    EndGapAt(t, |t|, j);
    SplitAt(s, i);
    SpaceBehind(s[..i], t, 0);
    NoLeadingSpace(TrimSpace(s), Concat(back));
    SplitAt(t, j);
    SpaceInside([], TrimSpace(s), t[j..], |TrimSpace(s)|);
    NilNeutral(t);
  }

  lemma FirstGap(r: string, t: string)
    requires IsSpaceRune(r)
    ensures StartGaps(r + t, |r + t|)[0] == |r|
  {
    assert (r + t)[0..|r|] == r;
    StartGapAt(r + t, |r + t|, 0);
  }

  lemma LastGap(t: string, r: string)
    requires IsSpaceRune(r)
    ensures EndGaps(t + r, |t + r|)[|t + r|] == |r|
  {
    assert (t + r)[|t|..|t + r|] == r;
    EndGapAt(t + r, |t + r|, |t + r|);
  }

  lemma GapAfter(r: string, t: string, i: nat)
    requires i <= |t|
    ensures StartGaps(r + t, |r + t|)[|r| + i] == StartGaps(t, |t|)[i]
  {
    StartGapAt(t, |t|, i);
    StartGapAt(r + t, |r + t|, |r| + i);
    SpaceBehind(r, t, i);
  }

  lemma GapInFront(t: string, r: string, i: nat)
    requires i <= |t|
    ensures EndGaps(t + r, |t + r|)[i] == EndGaps(t, |t|)[i]
  {
    EndGapAt(t, |t|, i);
    EndGapAt(t + r, |t + r|, i);
    NilNeutral(t + r);
    SpaceInside([], t, r, i);
  }

  lemma {:induction false} SkippedShift(g: seq<nat>, h: seq<nat>, d: nat, n: nat)
    requires n < |g| && d + |g| == |h|
    requires forall i :: 0 <= i < |g| ==> h[d + i] == g[i]
    ensures Skipped(h, d + n) == d + Skipped(g, n)
    decreases |g| - n
  {
    if g[n] > 0 && n + g[n] < |g| {
      SkippedShift(g, h, d, n + g[n]);
    }
  }

  lemma TrimLeftRune(r: string, t: string)
    requires IsSpaceRune(r)
    ensures TrimLeft(r + t) == TrimLeft(t)
  {
    var g, h := StartGaps(t, |t|), StartGaps(r + t, |r + t|);
    forall i | 0 <= i <= |t| ensures h[|r| + i] == g[i] {
      GapAfter(r, t, i);
    }
    FirstGap(r, t);
    SkippedShift(g, h, |r|, 0);
    DropBehind(r, t, Skipped(g, 0));
  }

  lemma DropBehind(r: string, t: string, k: nat)
    requires k <= |t|
    ensures (r + t)[|r| + k..] == t[k..]
  {
  }

  lemma KeptLast(g: seq<nat>, h: seq<nat>, n: nat, k: nat)
    requires |g| == n + 1 && |h| == n + k + 1 && h[n + k] == k > 0
    requires forall i :: 0 <= i <= n ==> h[i] == g[i]
    ensures Kept(h, n + k) == Kept(g, n)
  {
    KeptShift(g, h, 0, n);
  }

  lemma RuneIsNotEmpty(r: string)
    requires IsSpaceRune(r)
    ensures |r| > 0
  {
  }

  lemma TrimRightRune(t: string, r: string)
    requires IsSpaceRune(r)
    ensures TrimRight(t + r) == TrimRight(t)
  {
    var s := t + r;
    var g, h := EndGaps(t, |t|), EndGaps(s, |s|);
    forall i | 0 <= i <= |t| ensures h[i] == g[i] {
      GapInFront(t, r, i);
    }
    LastGap(t, r);
    RuneIsNotEmpty(r);
    KeptLast(g, h, |t|, |r|);
    SliceAppend(t, r, Kept(g, |t|));
  }

  lemma {:induction false} TrimLeftDrops(front: seq<string>, u: string)
    requires AllSpace(front)
    ensures TrimLeft(Concat(front) + u) == TrimLeft(u)
    decreases |front|
  {
    if front == [] {
      NilNeutral(u);
    } else {
      TrimLeftDrops(front[1..], u);
      Associative(front[0], Concat(front[1..]), u);
      TrimLeftRune(front[0], Concat(front[1..]) + u);
    }
  }

  lemma {:induction false} TrimRightDrops(u: string, back: seq<string>)
    requires AllSpace(back)
    ensures TrimRight(u + Concat(back)) == TrimRight(u)
    decreases |back|
  {
    if back == [] {
      NilNeutral(u);
    } else {
      Associative(u, back[0], Concat(back[1..]));
      TrimRightDrops(u + back[0], back[1..]);
      TrimRightRune(u, back[0]);
    }
  }

  /** White space around a payload does not matter. */
  lemma WhiteSpaceAround(front: seq<string>, uri: string, back: seq<string>, windows: bool)
    requires AllSpace(front) && AllSpace(back)
    requires |uri| > 0 && ' ' < uri[0] && Ord(uri[0]) < 0x80
    ensures UriToPath(Concat(front) + (uri + Concat(back)), windows) == UriToPath(uri, windows)
  {
    TrimLeftDrops(front, uri + Concat(back));
    PlainFront(uri + Concat(back));
    PlainFront(uri);
    TrimRightDrops(uri, back);
    SameTrimmed(Concat(front) + (uri + Concat(back)), uri, windows);
  }

  lemma SameTrimmed(a: string, b: string, windows: bool)
    requires TrimSpace(a) == TrimSpace(b)
    ensures UriToPath(a, windows) == UriToPath(b, windows)
  {
  }

  // ---- Percent-decoding in full ----

  const LOWER_HEX: string := "0123456789abcdef"
  const UPPER_HEX: string := "0123456789ABCDEF"

  /** Hexadecimal digits of either case, and nothing else. */
  lemma HexDigits(c: char, v: nat)
    requires v < 16
    ensures HexValue(c) == v <==> c == LOWER_HEX[v] || c == UPPER_HEX[v]
  {
  }

  predicate MalformedAt(s: string, i: nat) {
    i < |s| && s[i] == '%' && (i + 2 >= |s| || HexValue(s[i + 1]) < 0 || HexValue(s[i + 2]) < 0)
  }

  /** Decoding fails exactly when some `%` is not followed by two hexadecimal digits. */
  lemma {:induction false} MalformedEscapes(s: string)
    ensures Unescape(s).None? <==> exists i: nat :: MalformedAt(s, i)
    decreases |s|
  {
    if s != [] && !MalformedAt(s, 0) {
      var k := if s[0] == '%' then 3 else 1;
      MalformedEscapes(s[k..]);
      assert forall i: nat :: MalformedAt(s[k..], i) ==> MalformedAt(s, i + k);
      assert forall i: nat :: k <= i && MalformedAt(s, i) ==> MalformedAt(s[k..], i - k);
      assert forall i: nat :: 0 < i < k ==> !MalformedAt(s, i);
    }
  }

  // ---- Every spelling of a payload ----

  /** The host of `file://host/path` does not matter, whatever it is. */
  lemma HostIsDropped(h: string, p: string, windows: bool)
    requires Index(h, "/") < 0 && "/" <= p
    ensures UriToPath(FILE + (h + p), windows) == UriToPath(FILE + p, windows)
  {
    RawHost(h, p);
    RawPosix(p);
  }

  lemma RawHost(h: string, p: string)
    requires Index(h, "/") < 0 && "/" <= p
    ensures RawPath(FILE + (h + p)) == TrimRight(p)
  {
    var t := TrimRight(p);
    PlainFront(FILE + (h + p));
    Associative(FILE, h, p);
    TrimRightAppend(FILE + h, p);
    Associative(FILE, h, t);
    JoinDrop(FILE, h + t);
    IndexSpec(h, "/");
    FirstSlash(h, t);
    JoinDrop(h, t);
  }

  lemma FirstSlash(h: string, t: string)
    requires Index(h, "/") < 0 && |t| > 0 && t[0] == '/'
    ensures Index(h + t, "/") == |h| && ("/" <= h + t <==> h == [])
  {
    var s := h + t;
    IndexSpec(h, "/");
    IndexAppend(h, t, "/");
    IndexSpec(s, "/");
    assert OccursAt(s, "/", |h|);
    assert h != [] ==> !OccursAt(h, "/", 0);
  }

  lemma NoScheme(h: string, t: string)
    requires Index(h, "/") < 0 && h != "file:" && |t| > 0 && t[0] == '/'
    ensures !(FILE <= h + t)
  {
    FirstSlash(h, t);
    IndexSpec(h + t, "/");
    var s := h + t;
    assert s[|h|] == '/' && s[..|h|] == h;
    assert FILE[..5] == "file:" && FILE[5] == '/';
    assert FILE <= s ==> s[..5] == FILE[..5] && OccursAt(s, "/", 5);
    assert |h| < 5 ==> FILE[|h|] != '/';
  }

  /** The same for a payload without a scheme. */
  lemma HostWithoutScheme(h: string, p: string, windows: bool)
    requires Index(h, "/") < 0 && h != "file:" && "/" <= p
    requires h == "" || (' ' < h[0] && Ord(h[0]) < 0x80)
    ensures UriToPath(h + p, windows) == UriToPath(FILE + p, windows)
  {
    var t := TrimRight(p);
    PlainFront(h + p);
    TrimRightAppend(h, p);
    NoScheme(h, t);
    FirstSlash(h, t);
    JoinDrop(h, t);
    RawPosix(p);
    NilNeutral(t);
  }

  lemma RawBare(p: string)
    requires "/" <= p
    ensures RawPath(p) == TrimRight(p)
  {
    PlainFront(p);
    TrimRightAppend([], p);
    NilNeutral(p);
    NilNeutral(TrimRight(p));
    assert !(FILE <= TrimRight(p)) by {
      assert FILE[0] != '/';
    }
  }

  /** A bare path is read like one behind `file://`. */
  lemma SchemeIsOptional(p: string, windows: bool)
    requires "/" <= p
    ensures UriToPath(p, windows) == UriToPath(FILE + p, windows)
  {
    RawPosix(p);
    RawBare(p);
  }

  lemma {:induction false} NoSlashLeft(s: string)
    ensures '/' !in ReplaceSlashes(s)
  {
    if s != [] {
      NoSlashLeft(s[1..]);
    }
  }

  lemma NativeIsAbsolute(raw: string, windows: bool)
    ensures var p := Native(raw, windows);
      || p == ""
      || (if windows then |p| >= 3 && p[1] == ':' && '/' !in p else "/" <= p)
  {
    NoSlashLeft(raw);
  }

  /** Whatever the payload, the result is empty or a native absolute path. */
  lemma OnlyAbsolutePaths(uri: string, windows: bool)
    ensures var p := UriToPath(uri, windows);
      || p == ""
      || (if windows then |p| >= 3 && p[1] == ':' && '/' !in p else "/" <= p)
  {
    var raw := RawPath(uri);
    NativeIsAbsolute(raw, windows);
    if Unescape(raw).Some? {
      NativeIsAbsolute(Unescape(raw).value, windows);
    }
  }

  // ---- Any encoding of a path ----

  /** `e` is `p` with some of its bytes percent-encoded, in either case; a `%` always is. */
  ghost predicate Encodes(e: string, p: string)
    decreases |p|
  {
    if p == [] then e == []
    else
      || (|e| >= 1 && e[0] == p[0] && p[0] != '%' && Encodes(e[1..], p[1..]))
      || (|e| >= 3 && e[0] == '%' && HexValue(e[1]) >= 0 && HexValue(e[2]) >= 0
          && 16 * HexValue(e[1]) + HexValue(e[2]) == Ord(p[0]) && Encodes(e[3..], p[1..]))
  }

  lemma {:induction false} EncodingDecodes(e: string, p: string)
    requires Encodes(e, p)
    ensures Unescape(e) == Some(p)
    decreases |p|
  {
    if p != [] {
      assert p == [p[0]] + p[1..];
      if e[0] == '%' {
        EncodingDecodes(e[3..], p[1..]);
      } else {
        EncodingDecodes(e[1..], p[1..]);
      }
    }
  }

  /** Decoding succeeds exactly on the encodings of its result. */
  lemma {:induction false} DecodingEncodes(e: string, p: string)
    requires Unescape(e) == Some(p)
    ensures Encodes(e, p)
    decreases |e|
  {
    if e != [] {
      var k := if e[0] == '%' then 3 else 1;
      assert p[1..] == Unescape(e[k..]).value;
      DecodingEncodes(e[k..], p[1..]);
    }
  }

  /** What a report that is not cut by trimming, and has either an absolute path or no
      slash at all after `file://`, says before decoding. */
  lemma RawWhole(e: string)
    requires TrailingSpace(FILE + e) == 0 && ("/" <= e || Index(e, "/") < 0)
    ensures RawPath(FILE + e) == e
  {
    TrimRightWhole(FILE + e);
    PlainFront(FILE + e);
    JoinDrop(FILE, e);
  }

  /** On POSIX any encoding of an absolute path gives the path, and any other text nothing. */
  lemma PosixDecoded(e: string, p: string)
    requires TrailingSpace(FILE + e) == 0 && ("/" <= e || Index(e, "/") < 0)
    requires Encodes(e, p)
    ensures UriToPath(FILE + e, false) == if "/" <= p then p else ""
  {
    RawWhole(e);
    EncodingDecodes(e, p);
  }

  /** A Windows path as a URI spells it. */
  function Slashed(d: string): (t: string)
    ensures |t| == |d|
  {
    if d == [] then [] else [if d[0] == '\\' then '/' else d[0]] + Slashed(d[1..])
  }

  predicate IsDrive(d: string) {
    |d| >= 3 && d[0] != '\\' && d[1] == ':'
  }

  lemma {:induction false} SlashesBack(d: string)
    requires '/' !in d
    ensures ReplaceSlashes(Slashed(d)) == d
  {
    if d != [] {
      assert d == [d[0]] + d[1..];
      SlashesBack(d[1..]);
      assert Slashed(d)[1..] == Slashed(d[1..]);
    }
  }

  lemma NativeBehindSlash(d: string)
    requires '/' !in d
    ensures Native("/" + Slashed(d), true) == if IsDrive(d) then d else ""
  {
    var s := "/" + Slashed(d);
    assert s[1..] == Slashed(d);
    SlashesBack(d);
    assert ReplaceSlashes(s) == "\\" + d;
    assert ("\\" + d)[1..] == d;
  }

  /** On Windows any encoding of `/C:/Users` gives `C:\Users`: the slash in front goes, the
      others become backslashes, and what is not a drive path gives nothing. */
  lemma DriveDecoded(e: string, d: string)
    requires TrailingSpace(FILE + e) == 0 && ("/" <= e || Index(e, "/") < 0)
    requires '/' !in d && Encodes(e, "/" + Slashed(d))
    ensures UriToPath(FILE + e, true) == if IsDrive(d) then d else ""
  {
    RawWhole(e);
    EncodingDecodes(e, "/" + Slashed(d));
    NativeBehindSlash(d);
  }

  lemma {:induction false} PlainEncodesItself(p: string)
    requires '%' !in p
    ensures Encodes(p, p)
  {
    if p != [] {
      PlainEncodesItself(p[1..]);
    }
  }

  /** A drive path behind a slash, printed raw with slashes for its backslashes. */
  lemma RawDrive(d: string)
    requires '/' !in d && '%' !in d && TrailingSpace(FILE + ("/" + Slashed(d))) == 0
    ensures UriToPath(FILE + ("/" + Slashed(d)), true) == if IsDrive(d) then d else ""
  {
    forall i | 0 <= i < |d| ensures Slashed(d)[i] != '%' {
      SlashedAt(d, i);
    }
    PlainEncodesItself("/" + Slashed(d));
    DriveDecoded("/" + Slashed(d), d);
  }

  lemma {:induction false} SlashedAt(d: string, i: nat)
    requires i < |d|
    ensures Slashed(d)[i] == if d[i] == '\\' then '/' else d[i]
  {
    if i > 0 {
      SlashedAt(d[1..], i - 1);
    }
  }
}
