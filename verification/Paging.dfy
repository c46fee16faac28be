/** The cursor-paged directory listing: sort, skip, cut, and hand out a cursor. */
module Paging {
  import CwdPaths
  import opened Decimal
  import opened Options
  import Search

  // ---- Entries and their order ----

  /** `Symlink` tells whether the link leads to a directory. */
  datatype Kind = Directory | Regular | Symlink(toDirectory: bool)

  datatype Entry = Entry(name: string, kind: Kind)

  /** Byte order, as Go compares strings. */
  predicate Before(a: string, b: string) {
    b != [] && (a == [] || a[0] < b[0] || (a[0] == b[0] && Before(a[1..], b[1..])))
  }

  /** Directories first, then by name; a link to a directory sorts with the files. */
  predicate Less(a: Entry, b: Entry) {
    if a.kind.Directory? != b.kind.Directory? then a.kind.Directory? else Before(a.name, b.name)
  }

  lemma {:induction false} BeforeIsTotal(a: string, b: string)
    ensures Before(a, b) || Before(b, a) || a == b
    ensures !(Before(a, b) && Before(b, a))
    decreases |a|
  {
    if a != [] && b != [] {
      BeforeIsTotal(a[1..], b[1..]);
      assert a == [a[0]] + a[1..] && b == [b[0]] + b[1..];
    }
  }

  lemma {:induction false} BeforeIsTransitive(a: string, b: string, c: string)
    requires !Before(b, a) && !Before(c, b)
    ensures !Before(c, a)
    decreases |a|
  {
    if a != [] && b != [] && c != [] && a[0] == b[0] == c[0] {
      BeforeIsTransitive(a[1..], b[1..], c[1..]);
    }
  }

  lemma LessIsOrder(a: Entry, b: Entry, c: Entry)
    ensures !(Less(a, b) && Less(b, a))
    ensures Less(a, b) || Less(b, a) || (a.name == b.name && (a.kind.Directory? <==> b.kind.Directory?))
    ensures !Less(b, a) && !Less(c, b) ==> !Less(c, a)
  {
    BeforeIsTotal(a.name, b.name);
    if !Before(b.name, a.name) && !Before(c.name, b.name) {
      BeforeIsTransitive(a.name, b.name, c.name);
    }
  }

  /** `a` is a proper prefix of `b`, or smaller where they first differ. */
  ghost predicate Smaller(a: string, b: string) {
    exists k: nat :: k < |b| && k <= |a| && a[..k] == b[..k] && (k == |a| || a[k] < b[k])
  }

  lemma {:induction false} BeforeIsSmaller(a: string, b: string)
    ensures Before(a, b) <==> Smaller(a, b)
    decreases |a|
  {
    if a != [] && b != [] && a[0] == b[0] {
      BeforeIsSmaller(a[1..], b[1..]);
      SmallerTail(a, b);
    } else if b != [] && (a == [] || a[0] < b[0]) {
      assert a[..0] == b[..0];
    }
  }

  lemma TailPrefix(a: string, k: nat)
    requires k < |a|
    ensures a[..k + 1] == [a[0]] + a[1..][..k] && a[1..][..k] == a[..k + 1][1..]
  {
  }

  lemma SamePrefixes(a: string, b: string, k: nat)
    requires k < |a| && k < |b| && a[0] == b[0]
    ensures a[1..][..k] == b[1..][..k] <==> a[..k + 1] == b[..k + 1]
  {
    TailPrefix(a, k);
    TailPrefix(b, k);
  }

  lemma SmallerTail(a: string, b: string)
    requires a != [] && b != [] && a[0] == b[0]
    ensures Smaller(a, b) <==> Smaller(a[1..], b[1..])
  {
    if Smaller(a, b) {
      var k: nat :| k < |b| && k <= |a| && a[..k] == b[..k] && (k == |a| || a[k] < b[k]);
      assert k > 0;
      SamePrefixes(a, b, k - 1);
      assert a[1..][..k - 1] == b[1..][..k - 1];
    }
    if Smaller(a[1..], b[1..]) {
      var k: nat :|
        k < |b| - 1 && k <= |a| - 1 && a[1..][..k] == b[1..][..k] && (k == |a| - 1 || a[1..][k] < b[1..][k]);
      SamePrefixes(a, b, k);
      assert a[..k + 1] == b[..k + 1];
    }
  }

  ghost predicate Sorted(s: seq<Entry>) {
    forall i, j :: 0 <= i < j < |s| ==> !Less(s[j], s[i])
  }

  ghost predicate OneEntryPerName(m: multiset<Entry>) {
    forall a, b :: a in m && b in m && a.name == b.name ==> a == b
  }

  function Insert(e: Entry, s: seq<Entry>): seq<Entry> {
    if s == [] || Less(e, s[0]) then [e] + s else [s[0]] + Insert(e, s[1..])
  }

  function Sort(s: seq<Entry>): seq<Entry> {
    if s == [] then [] else Insert(s[0], Sort(s[1..]))
  }

  lemma {:induction false} InsertIsSorted(e: Entry, s: seq<Entry>)
    requires Sorted(s)
    ensures multiset(Insert(e, s)) == multiset(s) + multiset{e} && Sorted(Insert(e, s))
    decreases |s|
  {
    if s == [] {
    } else {
      assert s == [s[0]] + s[1..];
      if Less(e, s[0]) {
        forall k | 0 <= k < |s| ensures !Less(s[k], e) {
          LessIsOrder(e, s[0], s[k]);
        }
      } else {
        InsertIsSorted(e, s[1..]);
        PutFirst(s[0], s[1..], e, Insert(e, s[1..]));
      }
    }
  }

  lemma PutFirst(x: Entry, s: seq<Entry>, e: Entry, r: seq<Entry>)
    requires Sorted([x] + s) && !Less(e, x)
    requires Sorted(r) && multiset(r) == multiset(s) + multiset{e}
    ensures Sorted([x] + r)
  {
    forall k | 0 <= k < |r| ensures !Less(r[k], x) {
      assert r[k] in multiset(r);
      if r[k] != e {
        assert r[k] in s;
        var i :| 0 <= i < |s| && s[i] == r[k];
        assert ([x] + s)[0] == x && ([x] + s)[i + 1] == s[i];
      }
    }
  }

  lemma {:induction false} SortSorts(s: seq<Entry>)
    ensures multiset(Sort(s)) == multiset(s) && Sorted(Sort(s)) && |Sort(s)| == |s|
    decreases |s|
  {
    if s == [] {
    } else {
      SortSorts(s[1..]);
      InsertIsSorted(s[0], Sort(s[1..]));
      assert s == [s[0]] + s[1..];
      assert |multiset(Sort(s))| == |multiset(s)|;
    }
  }

  /** A directory has one sorted listing, whatever order it was read in. */
  lemma {:induction false} SortedIsUnique(s: seq<Entry>, t: seq<Entry>)
    requires Sorted(s) && Sorted(t) && multiset(s) == multiset(t) && OneEntryPerName(multiset(s))
    ensures s == t
    decreases |s|
  {
    assert |multiset(s)| == |s| && |multiset(t)| == |t|;
    if s != [] {
      HeadsAgree(s, t);
      Tail(s);
      Tail(t);
      SortedIsUnique(s[1..], t[1..]);
    }
  }

  lemma Tail(s: seq<Entry>)
    requires s != []
    ensures s == [s[0]] + s[1..] && multiset(s[1..]) == multiset(s) - multiset{s[0]}
    ensures Sorted(s) ==> Sorted(s[1..])
  {
    assert s == [s[0]] + s[1..];
  }

  lemma HeadsAgree(s: seq<Entry>, t: seq<Entry>)
    requires Sorted(s) && Sorted(t) && multiset(s) == multiset(t) && OneEntryPerName(multiset(s)) && s != [] && t != []
    ensures s[0] == t[0]
  {
    assert t[0] in multiset(t) && s[0] in multiset(s);
    assert t[0] in s && s[0] in t;
    LessIsOrder(s[0], t[0], t[0]);
  }

  lemma SameListing(d: seq<Entry>, e: seq<Entry>)
    requires multiset(d) == multiset(e) && OneEntryPerName(multiset(d))
    ensures Sort(e) == Sort(d)
  {
    SortSorts(d);
    SortSorts(e);
    SortedIsUnique(Sort(d), Sort(e));
  }

  // ---- Limits and cursors ----

  const DEFAULT_LIMIT := 100
  const MAX_LIMIT := 500

  /** Conversion of a positive float to a 64-bit integer; out of range, the platform
      decides (`wild`). */
  function Truncate(v: real, wild: int): int {
    if v < 9223372036854775808.0 then v.Floor else wild
  }

  function FsLimit(limit: Option<real>, wild: int): int {
    if limit.Some? && limit.value > 0.0 then
      var n := Truncate(limit.value, wild);
      if n > MAX_LIMIT then MAX_LIMIT else n
    else DEFAULT_LIMIT
  }

  predicate OutOfRange(limit: Option<real>) {
    limit.Some? && limit.value >= 9223372036854775808.0
  }

  /** A page holds at least one entry except for limits strictly between 0 and 1, and for
      limits out of range where the platform's conversion is not positive. */
  lemma LimitIsPositive(limit: Option<real>, wild: int)
    ensures FsLimit(limit, wild) <= MAX_LIMIT
    ensures FsLimit(limit, wild) >= 1 <==>
      !(limit.Some? && 0.0 < limit.value < 1.0) && (OutOfRange(limit) ==> wild >= 1)
    ensures FsLimit(limit, wild) < 0 <==> OutOfRange(limit) && wild < 0
  {
  }

  /** The limit that applies: what was asked for, rounded down, but at most 500; 100 when
      nothing sensible was asked for. */
  lemma LimitInWords(limit: Option<real>, wild: int)
    ensures limit == None || limit.value <= 0.0 ==> FsLimit(limit, wild) == 100
    ensures limit.Some? && 0.0 < limit.value <= 500.0 ==>
      FsLimit(limit, wild) as real <= limit.value < FsLimit(limit, wild) as real + 1.0
    ensures limit.Some? && limit.value >= 500.0 && !OutOfRange(limit) ==> FsLimit(limit, wild) == 500
    ensures OutOfRange(limit) ==> FsLimit(limit, wild) == if wild > 500 then 500 else wild
  {
  }

  /** Signed 64-bit wrap-around. */
  function Wrap(x: int): (w: int)
    ensures -MAX_INT - 1 <= w <= MAX_INT
    ensures w == x <==> -MAX_INT - 1 <= x <= MAX_INT
  {
    (x + 0x8000_0000_0000_0000) % 0x1_0000_0000_0000_0000 - 0x8000_0000_0000_0000
  }

  lemma WrapStep(x: int, d: int)
    ensures Wrap(10 * Wrap(x) + d) == Wrap(10 * x + d)
  {
    var q := (x + 0x8000_0000_0000_0000) / 0x1_0000_0000_0000_0000;
    assert Wrap(x) == x - q * 0x1_0000_0000_0000_0000;
    WrapShift(10 * x + d, -10 * q);
  }

  lemma WrapShift(x: int, k: int)
    ensures Wrap(x + k * 0x1_0000_0000_0000_0000) == Wrap(x)
  {
    var y := x + 0x8000_0000_0000_0000;
    var q, r := y / 0x1_0000_0000_0000_0000, y % 0x1_0000_0000_0000_0000;
    assert y + k * 0x1_0000_0000_0000_0000 == (q + k) * 0x1_0000_0000_0000_0000 + r;
  }

  function TrimPrefix(s: string, p: string): string {
    if p <= s then s[|p|..] else s
  }

  const CURSOR_PREFIX := "skip:"

  function CursorValue(cursor: string): int {
    var digits := TrimPrefix(cursor, CURSOR_PREFIX);
    if AllDigits(digits) then Wrap(Value(digits, 0)) else 0
  }

  method FsCursor(cursor: string) returns (skip: int)
    ensures skip == CursorValue(cursor)
  {
    var digits := TrimPrefix(cursor, CURSOR_PREFIX);
    skip := 0;
    var i := 0;
    while i < |digits|
      invariant i <= |digits| && AllDigits(digits[..i])
      invariant skip == Wrap(Value(digits[..i], 0))
    {
      if !IsDigit(digits[i]) {
        return 0;
      }
      WrapStep(Value(digits[..i], 0), ValueOf(digits[i]));
      ValueAppend(digits[..i], digits[i], 0);
      assert digits[..i + 1] == digits[..i] + [digits[i]];
      skip := Wrap(10 * skip + ValueOf(digits[i]));
      i := i + 1;
    }
    assert digits[..i] == digits;
  }

  function CursorFor(n: nat): string {
    CURSOR_PREFIX + Digits(n)
  }

  /** The cursor survives printing and parsing exactly while it fits 64 bits. */
  lemma CursorRoundTrip(n: nat)
    ensures CursorValue(CursorFor(n)) == Wrap(n)
    ensures CursorValue(CursorFor(n)) == n <==> n <= MAX_INT
  {
    assert TrimPrefix(CURSOR_PREFIX + Digits(n), CURSOR_PREFIX) == Digits(n);
    ValueDigits(n);
  }

  /** A cursor without the prefix is read as well, and one with anything but digits in it
      starts over. */
  lemma OtherCursors(n: nat, cursor: string, i: nat)
    ensures CursorValue(Digits(n)) == Wrap(n)
    ensures i < |cursor| && !IsDigit(cursor[i]) && !(CURSOR_PREFIX <= cursor) ==> CursorValue(cursor) == 0
    ensures i < |cursor| && !IsDigit(cursor[i]) ==> CursorValue(CURSOR_PREFIX + cursor) == 0
  {
    ValueDigits(n);
    assert IsDigit(Digits(n)[0]) && !IsDigit(CURSOR_PREFIX[0]);
    assert TrimPrefix(CURSOR_PREFIX + cursor, CURSOR_PREFIX) == cursor;
  }

  // ---- One page ----

  datatype ItemKind = DirectoryItem | FileItem | SymlinkItem

  datatype Item = Item(name: string, uri: string, kind: ItemKind)

  function ItemOf(remote: string, e: Entry): Item {
    var separator := if remote != [] && remote[|remote| - 1] == '/' then "" else "/";
    var kind := match e.kind
      case Directory => DirectoryItem
      case Regular => FileItem
      case Symlink(toDirectory) => if toDirectory then DirectoryItem else SymlinkItem;
    Item(e.name, "sftp://" + remote + separator + e.name, kind)
  }

  function Items(remote: string, s: seq<Entry>): (r: seq<Item>)
    ensures |r| == |s|
  {
    seq(|s|, i requires 0 <= i < |s| => ItemOf(remote, s[i]))
  }

  /** `Panic`: a slice bound is negative. */
  datatype Reply = Panic | Page(items: seq<Item>, next: Option<string>)

  function PageOf(remote: string, s: seq<Entry>, limit: int, skip: int): Reply {
    if skip >= |s| then Page([], None)
    else if skip < 0 || (limit < 0 && |s| - skip > limit) then Panic
    else if |s| - skip > limit then Page(Items(remote, s[skip..skip + limit]), Some(CursorFor(skip + limit)))
    else Page(Items(remote, s[skip..]), None)
  }

  /** The items of one page. */
  method ListItems(remote: string, entries: seq<Entry>) returns (out: seq<Item>)
    ensures out == Items(remote, entries)
  {
    out := [];
    while |out| < |entries|
      invariant |out| <= |entries|
      invariant forall i :: 0 <= i < |out| ==> out[i] == ItemOf(remote, entries[i])
    {
      out := out + [ItemOf(remote, entries[|out|])];
    }
  }

  method FsList(remote: string, dir: seq<Entry>, limit: Option<real>, wild: int, cursor: string) returns (reply: Reply)
    ensures reply == PageOf(remote, Sort(dir), FsLimit(limit, wild), CursorValue(cursor))
  {
    var entries := Sort(dir);
    var most := FsLimit(limit, wild);
    var skip := FsCursor(cursor);
    reply := CutPage(remote, entries, most, skip);
  }

  method CutPage(remote: string, sorted: seq<Entry>, most: int, skip: int) returns (reply: Reply)
    ensures reply == PageOf(remote, sorted, most, skip)
  {
    if skip >= |sorted| {
      return Page([], None);
    }
    if skip < 0 {
      return Panic;
    }
    var entries := sorted[skip..];
    var truncated := false;
    if |entries| > most {
      if most < 0 {
        return Panic;
      }
      Search.DropThenTake(sorted, skip, most);
      entries := entries[..most];
      truncated := true;
    }
    var out := ListItems(remote, entries);
    reply := Page(out, if truncated then Some(CursorFor(skip + |out|)) else None);
  }

  /** What a page holds: the entries from `skip` on, at most `limit` of them, and a cursor
      for the first one left out exactly when there is one. A position past the end gives
      an empty page, a negative one a panic. */
  lemma PageInWords(remote: string, s: seq<Entry>, limit: int, skip: int, i: nat)
    ensures var page := PageOf(remote, s, limit, skip);
      && (page.Panic? <==> skip < 0 || (limit < 0 && skip < |s|))
      && (skip >= |s| ==> page == Page([], None))
      && (page.Page? && skip < |s| ==>
            && |page.items| == (if limit < |s| - skip then limit else |s| - skip)
            && (i < |page.items| ==> page.items[i] == ItemOf(remote, s[skip + i]))
            && page.next == (if skip + limit < |s| then Some("skip:" + Digits(skip + limit)) else None))
  {
  }

  // ---- Following the cursors ----

  /** Requesting pages until no cursor comes back, one reading of the directory per
      request: all items in order, or None when the readings run out too early or are
      not used up, or when the server panics. */
  function Crawl(remote: string, readings: seq<seq<Entry>>, limit: int, cursor: string): Option<seq<Item>>
    decreases |readings|
  {
    if readings == [] then None
    else
      match PageOf(remote, Sort(readings[0]), limit, CursorValue(cursor))
      case Panic => None
      case Page(page, None) => if |readings| == 1 then Some(page) else None
      case Page(page, Some(next)) => Prepend(page, Crawl(remote, readings[1..], limit, next))
  }

  function Prepend(page: seq<Item>, later: Option<seq<Item>>): Option<seq<Item>> {
    match later
    case None => None
    case Some(items) => Some(page + items)
  }

  function Calls(n: nat, limit: nat): nat
    requires limit >= 1
  {
    if n <= limit then 1 else 1 + Calls(n - limit, limit)
  }

  ghost predicate ReadsOf(readings: seq<seq<Entry>>, d: seq<Entry>) {
    forall i :: 0 <= i < |readings| ==> multiset(d) == multiset(readings[i])
  }

  lemma ItemsSplit(remote: string, s: seq<Entry>, k: nat)
    requires k <= |s|
    ensures Items(remote, s) == Items(remote, s[..k]) + Items(remote, s[k..])
  {
  }

  lemma FullPage(remote: string, s: seq<Entry>, limit: nat, k: nat) returns (page: seq<Item>)
    requires limit >= 1 && k + limit < |s| <= MAX_INT
    ensures PageOf(remote, s, limit, k) == Page(page, Some(CursorFor(k + limit)))
    ensures Items(remote, s[k..]) == page + Items(remote, s[k + limit..])
    ensures CursorValue(CursorFor(k + limit)) == k + limit
  {
    CursorRoundTrip(k + limit);
    assert s[k..][..limit] == s[k..k + limit] && s[k..][limit..] == s[k + limit..];
    ItemsSplit(remote, s[k..], limit);
    page := Items(remote, s[k..k + limit]);
  }

  lemma LastPage(remote: string, s: seq<Entry>, limit: nat, k: nat)
    requires limit >= 1 && k <= |s| <= k + limit
    ensures PageOf(remote, s, limit, k) == Page(Items(remote, s[k..]), None)
  {
    if k == |s| {
      assert Items(remote, s[k..]) == [];
    }
  }

  /** Whatever order a reading has, it sorts to `s`. */
  ghost predicate SortTo(readings: seq<seq<Entry>>, s: seq<Entry>) {
    forall i :: 0 <= i < |readings| ==> Sort(readings[i]) == s
  }

  /** What crawling from position `k` must yield. */
  function Rest(remote: string, s: seq<Entry>, limit: nat, k: nat, requests: nat): Option<seq<Item>>
    requires limit >= 1 && k <= |s|
  {
    if requests == Calls(|s| - k, limit) then Some(Items(remote, s[k..])) else None
  }

  lemma RestOfPage(remote: string, s: seq<Entry>, limit: nat, k: nat, requests: nat) returns (page: seq<Item>)
    requires limit >= 1 && k + limit < |s| <= MAX_INT
    ensures PageOf(remote, s, limit, k) == Page(page, Some(CursorFor(k + limit)))
    ensures CursorValue(CursorFor(k + limit)) == k + limit
    ensures Rest(remote, s, limit, k, requests + 1) == Prepend(page, Rest(remote, s, limit, k + limit, requests))
  {
    page := FullPage(remote, s, limit, k);
    assert Calls(|s| - k, limit) == 1 + Calls(|s| - (k + limit), limit);
  }

  lemma {:induction false} CrawlFrom(remote: string, readings: seq<seq<Entry>>, s: seq<Entry>, limit: nat,
                                     cursor: string, k: nat)
    requires SortTo(readings, s) && limit >= 1
    requires CursorValue(cursor) == k <= |s| <= MAX_INT
    ensures Crawl(remote, readings, limit, cursor) == Rest(remote, s, limit, k, |readings|)
    decreases |readings|
  {
    if readings != [] {
      assert Sort(readings[0]) == s;
      if |s| - k > limit {
        var page := RestOfPage(remote, s, limit, k, |readings| - 1);
        CrawlFrom(remote, readings[1..], s, limit, CursorFor(k + limit), k + limit);
      } else {
        LastPage(remote, s, limit, k);
      }
    }
  }

  /** Following the cursors ends after a fixed number of pages and yields the full
      sorted listing, each entry once, in whatever order the directory is read. */
  lemma CrawlIsComplete(remote: string, readings: seq<seq<Entry>>, d: seq<Entry>, limit: Option<real>, wild: int)
    requires ReadsOf(readings, d) && OneEntryPerName(multiset(d)) && |d| <= MAX_INT
    requires FsLimit(limit, wild) >= 1
    ensures Crawl(remote, readings, FsLimit(limit, wild), "")
         == if |readings| == Calls(|d|, FsLimit(limit, wild)) then Some(Items(remote, Sort(d))) else None
  {
    SortSorts(d);
    assert TrimPrefix("", CURSOR_PREFIX) == "";
    assert Sort(d)[0..] == Sort(d);
    forall i | 0 <= i < |readings| ensures Sort(readings[i]) == Sort(d) {
      SameListing(d, readings[i]);
    }
    CrawlFrom(remote, readings, Sort(d), FsLimit(limit, wild), "", 0);
  }

  /** With a limit that leaves no room on a page, a nonempty directory is never
      listed to the end. */
  lemma {:induction false} CrawlIsStuck(remote: string, readings: seq<seq<Entry>>, d: seq<Entry>, limit: int,
                                        cursor: string)
    requires ReadsOf(readings, d) && OneEntryPerName(multiset(d)) && d != []
    requires limit <= 0 && CursorValue(cursor) == 0
    ensures Crawl(remote, readings, limit, cursor) == None
    decreases |readings|
  {
    if readings != [] {
      SameListing(d, readings[0]);
      SortSorts(d);
      if limit == 0 {
        CursorRoundTrip(0);
        CrawlIsStuck(remote, readings[1..], d, limit, CursorFor(0));
      }
    }
  }

  ghost predicate CanFinish(remote: string, d: seq<Entry>, limit: int) {
    exists readings :: ReadsOf(readings, d) && Crawl(remote, readings, limit, "").Some?
  }

  /** The whole directory can be listed exactly when a page has room for an entry, or
      there is none. */
  lemma FinishesIff(remote: string, d: seq<Entry>, limit: Option<real>, wild: int)
    requires OneEntryPerName(multiset(d)) && |d| <= MAX_INT
    ensures CanFinish(remote, d, FsLimit(limit, wild)) <==> FsLimit(limit, wild) >= 1 || d == []
  {
    var most := FsLimit(limit, wild);
    assert TrimPrefix("", CURSOR_PREFIX) == "";
    if most >= 1 {
      var readings := seq(Calls(|d|, most), _ => d);
      CrawlIsComplete(remote, readings, d, limit, wild);
      assert ReadsOf(readings, d);
    } else if d == [] {
      assert Crawl(remote, [d], most, "") == Some([]);
      assert ReadsOf([d], d);
    } else if CanFinish(remote, d, most) {
      var readings :| ReadsOf(readings, d) && Crawl(remote, readings, most, "").Some?;
      CrawlIsStuck(remote, readings, d, most, "");
    }
  }

  // ---- What the listing says ----

  ghost predicate Describes(item: Item, base: string, e: Entry) {
    && item.name == e.name
    && item.uri == "sftp://" + (base + ("/" + e.name))
    && (item.kind == DirectoryItem <==> e.kind == Directory || e.kind == Symlink(true))
    && (item.kind == SymlinkItem <==> e.kind == Symlink(false))
    && (item.kind == FileItem <==> e.kind == Regular)
  }

  /** The directory's path, written with or without a slash at its end. */
  predicate SpelledAs(remote: string, base: string) {
    remote == base + "/" || (remote == base && (base == "" || base[|base| - 1] != '/'))
  }

  lemma ItemDescribes(remote: string, base: string, e: Entry)
    requires SpelledAs(remote, base)
    ensures Describes(ItemOf(remote, e), base, e)
  {
    Search.Associative("sftp://", base, "/");
    Search.Associative(base, "/", e.name);
    Search.Associative("sftp://", base, "/" + e.name);
    Search.Associative("sftp://" + base, "/", e.name);
    Search.NilNeutral("sftp://" + remote);
  }

  /** A name is what tells the entries of a directory apart. */
  ghost predicate Distinct(d: seq<Entry>) {
    forall i, j :: 0 <= i < j < |d| ==> d[i].name != d[j].name
  }

  lemma DistinctIsSingle(d: seq<Entry>)
    requires Distinct(d)
    ensures OneEntryPerName(multiset(d)) && forall e :: e in multiset(d) ==> multiset(d)[e] == 1
  {
    forall a, b | a in multiset(d) && b in multiset(d) && a.name == b.name ensures a == b {
      assert a in d && b in d;
      var i :| 0 <= i < |d| && d[i] == a;
      var j :| 0 <= j < |d| && d[j] == b;
    }
    CountsAreOne(d);
  }

  lemma {:induction false} CountsAreOne(d: seq<Entry>)
    requires Distinct(d)
    ensures forall e :: e in multiset(d) ==> multiset(d)[e] == 1
    decreases |d|
  {
    if d != [] {
      var e, rest := d[0], d[1..];
      FirstIsNew(d);
      CountsAreOne(rest);
      assert d == [e] + rest;
      assert multiset(d) == multiset{e} + multiset(rest);
    }
  }

  lemma FirstIsNew(d: seq<Entry>)
    requires Distinct(d) && d != []
    ensures Distinct(d[1..]) && d[0] !in d[1..]
  {
    assert forall i :: 0 <= i < |d| - 1 ==> d[1..][i] == d[i + 1];
  }

  lemma NamesDiffer(s: seq<Entry>, i: nat, j: nat)
    requires OneEntryPerName(multiset(s)) && i < j < |s|
    requires forall a :: a in multiset(s) ==> multiset(s)[a] == 1
    ensures s[i].name != s[j].name
  {
    assert s[i] in multiset(s) && s[j] in multiset(s);
    if s[i] == s[j] {
      TwiceIn(s, i, j);
    }
  }

  lemma TwiceIn(s: seq<Entry>, i: nat, j: nat)
    requires i < j < |s| && s[i] == s[j]
    ensures multiset(s)[s[i]] >= 2
  {
    assert s == s[..j] + ([s[j]] + s[j + 1..]);
    assert s[i] in s[..j];
  }

  /** Every path is the spelling of one. */
  lemma HasBase(remote: string) returns (base: string)
    ensures SpelledAs(remote, base)
  {
    base := remote;
    if remote != "" && remote[|remote| - 1] == '/' {
      base := remote[..|remote| - 1];
      assert remote == base + "/";
    }
  }

  /** Following the cursors through an unchanged directory lists every entry exactly once:
      under its name, as what it is, and under the URI of the directory, one slash and the
      name; real directories first, and both groups in byte order of their names. */
  lemma CrawlListsDirectory(remote: string, base: string, readings: seq<seq<Entry>>, d: seq<Entry>,
                            limit: Option<real>, wild: int)
    returns (items: seq<Item>, order: seq<Entry>)
    requires SpelledAs(remote, base) && ReadsOf(readings, d) && |d| <= MAX_INT && Distinct(d)
    requires FsLimit(limit, wild) >= 1 && |readings| == Calls(|d|, FsLimit(limit, wild))
    ensures Crawl(remote, readings, FsLimit(limit, wild), "") == Some(items)
    ensures multiset(order) == multiset(d) && |items| == |order|
    ensures forall i :: 0 <= i < |items| ==> Describes(items[i], base, order[i])
    ensures forall i, j :: 0 <= i < j < |order| ==>
      if order[i].kind.Directory? == order[j].kind.Directory? then Smaller(order[i].name, order[j].name)
      else order[i].kind.Directory?
  {
    DistinctIsSingle(d);
    CrawlIsComplete(remote, readings, d, limit, wild);
    SortSorts(d);
    order := Sort(d);
    items := Items(remote, order);
    forall i | 0 <= i < |items| ensures Describes(items[i], base, order[i]) {
      ItemDescribes(remote, base, order[i]);
    }
    forall i, j | 0 <= i < j < |order|
      ensures if order[i].kind.Directory? == order[j].kind.Directory? then Smaller(order[i].name, order[j].name)
        else order[i].kind.Directory?
    {
      NamesDiffer(order, i, j);
      BeforeIsTotal(order[i].name, order[j].name);
      BeforeIsSmaller(order[i].name, order[j].name);
    }
  }

  /** One request for every `limit` entries begun, and one for an empty directory. */
  lemma {:induction false} CallsCoverPages(n: nat, limit: nat)
    requires limit >= 1
    ensures Calls(n, limit) >= 1 && n <= Calls(n, limit) * limit
    ensures n > 0 ==> (Calls(n, limit) - 1) * limit < n
    ensures n == 0 ==> Calls(n, limit) == 1
    decreases n
  {
    if n > limit {
      CallsCoverPages(n - limit, limit);
      var c := Calls(n - limit, limit);
      assert (c + 1) * limit == c * limit + limit && (c - 1) * limit == c * limit - limit;
    }
  }

  // ---- From a listed URI back to the entry ----

  const SCHEME: string := "sftp://"

  /** The remote path a request's path means; `~` is the remote home. */
  function ResolveRemote(home: string, path: string): string {
    var trimmed := CwdPaths.TrimSpace(path);
    if trimmed == "" || trimmed == "~" then home
    else if "~/" <= trimmed then home + trimmed[1..]
    else trimmed
  }

  /** The path behind a request's URI; None for an error reply. */
  function Target(home: string, uri: string): Option<string> {
    if uri == "" || !(SCHEME <= uri) then None else Some(ResolveRemote(home, TrimPrefix(uri, SCHEME)))
  }

  lemma TargetOfPath(home: string, path: string)
    requires path != "" && path[0] == '/'
    ensures Target(home, SCHEME + path) == Some(CwdPaths.TrimRight(path))
  {
    Search.JoinDrop(SCHEME, path);
    AbsoluteResolves(home, path);
  }

  lemma AbsoluteResolves(home: string, path: string)
    requires path != "" && path[0] == '/'
    ensures ResolveRemote(home, path) == CwdPaths.TrimRight(path)
  {
    CwdPaths.PlainFront(path);
    CwdPaths.TrimRightAppend([], path);
  }

  /** The login directory and paths below it, and what is no SFTP URI. */
  lemma HomeTargets(home: string, uri: string, p: string)
    ensures Target(home, "sftp://") == Some(home) && Target(home, "sftp://" + "~") == Some(home)
    ensures "/" <= p ==> Target(home, "sftp://" + ("~" + p)) == Some(home + CwdPaths.TrimRight(p))
    ensures Target(home, uri) == None <==> !("sftp://" <= uri)
  {
    Search.NilNeutral(SCHEME);
    Search.JoinDrop(SCHEME, []);
    Search.JoinDrop(SCHEME, "~");
    Search.JoinDrop(SCHEME, "~" + p);
    EmptyIsHome(home);
    TildeIsHome(home);
    if "/" <= p {
      BelowHome(home, p);
    }
  }

  lemma EmptyIsHome(home: string)
    ensures ResolveRemote(home, []) == home
  {
  }

  lemma TildeIsHome(home: string)
    ensures ResolveRemote(home, "~") == home
  {
    CwdPaths.PlainFront("~");
    CwdPaths.PlainBack("~");
  }

  lemma BelowHome(home: string, p: string)
    requires "/" <= p
    ensures ResolveRemote(home, "~" + p) == home + CwdPaths.TrimRight(p)
  {
    var t := CwdPaths.TrimRight(p);
    CwdPaths.PlainFront("~" + p);
    CwdPaths.TrimRightAppend("~", p);
    Search.JoinDrop("~", t);
    assert ("~" + t)[1] == '/';
  }

  lemma SameBack(a: string, b: string, c: string)
    ensures a + b == a + c <==> b == c
  {
    Search.JoinDrop(a, b);
    Search.JoinDrop(a, c);
  }

  /** The URI under which an entry of an absolute directory is listed leads back to the
      entry if and only if its name does not end in white space. */
  lemma ListedUriLeadsBack(home: string, remote: string, base: string, e: Entry)
    requires SpelledAs(remote, base) && (base == "" || base[0] == '/') && e.name != ""
    ensures Target(home, ItemOf(remote, e).uri) == Some(base + ("/" + e.name)) <==>
      CwdPaths.TrailingSpace(e.name) == 0
  {
    var p := "/" + e.name;
    ItemDescribes(remote, base, e);
    TargetOfPath(home, base + p);
    CwdPaths.TrimRightAppend(base, p);
    CwdPaths.SpaceAfterSlash(e.name);
    SameBack(base, CwdPaths.TrimRight(p), p);
  }

  /** A name followed by white space is listed under a URI that means the entry without
      it, whether or not there is one. */
  lemma ListedUriCanMeanAnother(home: string, remote: string, base: string, name: string, space: string, kind: Kind)
    requires SpelledAs(remote, base) && (base == "" || base[0] == '/') && CwdPaths.IsSpaceRune(space)
    ensures Target(home, ItemOf(remote, Entry(name + space, kind)).uri)
         == Target(home, ItemOf(remote, Entry(name, kind)).uri)
  {
    ItemDescribes(remote, base, Entry(name + space, kind));
    ItemDescribes(remote, base, Entry(name, kind));
    var path := base + ("/" + name);
    assert base + ("/" + (name + space)) == path + space;
    TargetOfPath(home, path + space);
    TargetOfPath(home, path);
    CwdPaths.TrimRightRune(path, space);
  }
}
