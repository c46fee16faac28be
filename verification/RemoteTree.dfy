/** Recursive delete over SFTP, on any finite file system: links may point anywhere,
    may form cycles, and the server may refuse any operation. */
module RemoteTree {
  import opened Options
  import opened Search

  // ---- File systems ----

  /** A location is its list of names from the root; a path as it is spelled may also
      have empty components, dots and double dots. */
  type Path = seq<string>

  /** A link records the location it leads to. */
  datatype Node = Dir | File | Link(target: Path)

  type Nodes = map<Path, Node>

  function Parent(p: Path): Path
    requires p != []
  {
    p[..|p| - 1]
  }

  function Base(p: Path): string
    requires p != []
  {
    p[|p| - 1]
  }

  predicate Proper(name: string) {
    name != "" && name != "." && name != ".." && '/' !in name
  }

  predicate Tree(n: Nodes) {
    && [] in n && n[[]].Dir?
    && forall p {:trigger Parent(p)} :: p in n && p != [] ==>
        Parent(p) in n && n[Parent(p)].Dir? && Proper(Base(p))
  }

  lemma ProperChild(n: Nodes, r: Path, name: string)
    requires Tree(n) && r + [name] in n
    ensures Proper(name) && r in n && n[r].Dir?
  {
    assert Parent(r + [name]) == r && Base(r + [name]) == name;
  }

  /** Every file system grows from an empty root: under any name without a slash that is
      not a dot or double dot, a directory can get another child. */
  lemma TreeGrows(n: Nodes, r: Path, name: string, x: Node)
    requires Tree(n) && r in n && n[r].Dir? && r + [name] !in n
    ensures Tree(n[r + [name] := x]) <==> name != "" && name != "." && name != ".." && '/' !in name
    ensures Tree(map[[] := Dir])
  {
    var p := r + [name];
    var n' := n[p := x];
    assert Parent(p) == r && Base(p) == name;
    if Proper(name) {
      forall q {:trigger Parent(q)} | q in n' && q != []
        ensures Parent(q) in n' && n'[Parent(q)].Dir? && Proper(Base(q))
      {
        if q != p {
          assert q in n;
        }
      }
      assert Tree(n');
    } else {
      assert p in n' && p != [] && !Proper(Base(p));
      assert !Tree(n');
    }
  }

  predicate Shrinks(n': Nodes, n: Nodes) {
    forall p :: p in n' ==> p in n && n'[p] == n[p]
  }

  /** `n` without everything strictly below `r`. */
  function Pruned(n: Nodes, r: Path): Nodes {
    map p | p in n && !(r < p) :: n[p]
  }

  /** `n` without `r` and everything below it. */
  function Without(n: Nodes, r: Path): Nodes {
    map p | p in n && !(r <= p) :: n[p]
  }

  // ---- How the server resolves a path ----

  function Follow(n: Nodes, p: Path): Option<Path> {
    if p !in n then None
    else match n[p]
      case Link(t) => if t in n && !n[t].Link? then Some(t) else None
      case _ => Some(p)
  }

  /** One component on from location `d`, which must be a directory. */
  function Enter(n: Nodes, d: Path, name: string): Option<Path> {
    if d !in n || !n[d].Dir? then None
    else if name == "" || name == "." then Some(d)
    else if name == ".." then Some(if d == [] then [] else Parent(d))
    else Follow(n, d + [name])
  }

  /** The location a path leads to, following links everywhere. */
  function Where(n: Nodes, path: Path): Option<Path> {
    if path == [] then Some([])
    else match Where(n, Parent(path))
      case None => None
      case Some(d) => Enter(n, d, Base(path))
  }

  /** The location a path names for removal: its last component is not followed, a
      trailing slash does not matter, and a final dot or double dot names nothing. */
  function Spot(n: Nodes, path: Path): Option<Path>
    decreases |path|
  {
    if path == [] then Some([])
    else if Base(path) == "" then Spot(n, Parent(path))
    else if Base(path) == "." || Base(path) == ".." then None
    else match Where(n, Parent(path))
      case None => None
      case Some(d) => if d in n && n[d].Dir? then Some(d + [Base(path)]) else None
  }

  /** The path names the location itself, which is not the root. */
  predicate Named(n: Nodes, path: Path, r: Path) {
    r != [] && Spot(n, path) == Some(r)
  }

  predicate DirAt(n: Nodes, path: Path) {
    match Where(n, path)
    case None => false
    case Some(r) => r in n && n[r].Dir?
  }

  /** A path to directory `r` that resolves the same whatever is deleted inside `r`. */
  predicate Steady(n: Nodes, path: Path, r: Path) {
    Where(Pruned(n, r), path) == Some(r) && r in n && n[r].Dir?
  }

  /** Deleting nodes never makes a path lead somewhere else. */
  lemma {:induction false} WhereShrinks(n': Nodes, n: Nodes, path: Path)
    requires Shrinks(n', n)
    ensures Where(n', path) == None || Where(n', path) == Where(n, path)
    decreases |path|
  {
    if path != [] {
      WhereShrinks(n', n, Parent(path));
    }
  }

  lemma SteadyStays(n: Nodes, n': Nodes, path: Path, r: Path)
    requires Steady(n, path, r) && Shrinks(n', n) && Shrinks(Pruned(n, r), n')
    ensures Where(n', path) == Some(r) && Steady(n', path, r)
  {
    WhereShrinks(Pruned(n, r), n', path);
    assert Shrinks(Pruned(n, r), Pruned(n', r));
    WhereShrinks(Pruned(n, r), Pruned(n', r), path);
    assert !(r < r);
    assert r in Pruned(n, r);
  }

  lemma SteadyChild(n: Nodes, n': Nodes, path: Path, r: Path, name: string)
    requires Steady(n, path, r) && Shrinks(n', n) && Shrinks(Pruned(n, r), n') && Proper(name)
    requires r + [name] in n' && n'[r + [name]].Dir?
    ensures Where(n', path + [name]) == Some(r + [name])
    ensures Steady(n', path + [name], r + [name])
  {
    var c := r + [name];
    Joined(path, name);
    SteadyStays(n, n', path, r);
    var m := Pruned(n', c);
    forall p | p in Pruned(n, r) ensures p in m && m[p] == n[p] {
      assert c < p ==> r < p;
    }
    WhereShrinks(Pruned(n, r), m, path);
    assert c in m && r in Pruned(n, r) && !(r < r);
  }

  lemma Joined(path: Path, name: string)
    ensures Parent(path + [name]) == path && Base(path + [name]) == name
  {
  }

  lemma Rejoin(path: Path)
    requires path != []
    ensures Parent(path) + [Base(path)] == path
  {
  }

  /** A directory under its own name is steady. */
  lemma PlainPath(n: Nodes, path: Path)
    requires Tree(n) && path in n && n[path].Dir?
    ensures Where(n, path) == Spot(n, path) == Some(path)
    ensures Steady(n, path, path)
  {
    var m := Pruned(n, path);
    PlainWhere(n, path);
    forall p | p in m && p != [] ensures Parent(p) in m && Proper(Base(p)) {
      assert path < Parent(p) ==> path < p;
    }
    assert !(path < path);
    PlainWhere(m, path);
    if path != [] {
      PlainWhere(n, Parent(path));
      Rejoin(path);
    }
  }

  lemma {:induction false} PlainWhere(n: Nodes, path: Path)
    requires Tree(n) && path in n && n[path].Dir?
    ensures Where(n, path) == Some(path)
    decreases |path|
  {
    if path != [] {
      PlainWhere(n, Parent(path));
      Rejoin(path);
    }
  }

  /** Everything strictly below `r` lies in or below one of its children. */
  lemma {:induction false} AncestorExists(n: Nodes, p: Path, k: nat)
    requires Tree(n) && p in n && k <= |p|
    ensures p[..k] in n
    decreases |p|
  {
    if k < |p| {
      AncestorExists(n, Parent(p), k);
      assert Parent(p)[..k] == p[..k];
    } else {
      assert p[..k] == p;
    }
  }

  lemma ChildAbove(n: Nodes, r: Path, p: Path) returns (name: string)
    requires Tree(n) && p in n && r < p
    ensures r + [name] in n && r + [name] <= p
  {
    name := p[|r|];
    AncestorExists(n, p, |r| + 1);
    assert p[..|r| + 1] == r + [name];
  }

  // ---- The server ----

  datatype Entry = Entry(name: string, isDir: bool)

  function ChildNames(n: Nodes, r: Path): set<string> {
    set p | p in n && p != [] && Parent(p) == r :: p[|p| - 1]
  }

  lemma ChildNamed(n: Nodes, r: Path, name: string)
    ensures name in ChildNames(n, r) <==> r + [name] in n
  {
    if r + [name] in n {
      assert Parent(r + [name]) == r && (r + [name])[|r|] == name;
    }
    if p :| p in n && p != [] && Parent(p) == r && p[|p| - 1] == name {
      assert p == r + [name];
    }
  }

  /** One entry for each of `names`, in any order, with its kind. */
  ghost predicate Reports(n: Nodes, r: Path, names: set<string>, entries: seq<Entry>) {
    && (forall i :: 0 <= i < |entries| ==> entries[i].name in names && r + [entries[i].name] in n)
    && (forall i :: 0 <= i < |entries| ==> (entries[i].isDir <==> n[r + [entries[i].name]].Dir?))
    && (forall i, j :: 0 <= i < j < |entries| ==> entries[i].name != entries[j].name)
    && (forall name :: name in names ==> exists i :: 0 <= i < |entries| && entries[i].name == name)
  }

  ghost predicate Lists(n: Nodes, r: Path, entries: seq<Entry>) {
    Reports(n, r, ChildNames(n, r), entries)
  }

  lemma ReportsMore(n: Nodes, r: Path, names: set<string>, entries: seq<Entry>, name: string)
    requires Reports(n, r, names, entries) && name !in names && r + [name] in n
    ensures Reports(n, r, names + {name}, entries + [Entry(name, n[r + [name]].Dir?)])
  {
    var more := entries + [Entry(name, n[r + [name]].Dir?)];
    forall x | x in names + {name} ensures exists i :: 0 <= i < |more| && more[i].name == x {
      if x == name {
        assert more[|entries|].name == x;
      } else {
        var i :| 0 <= i < |entries| && entries[i].name == x;
        assert more[i].name == x;
      }
    }
  }

  /** The server's own order, whatever it is. */
  method Enumerate(n: Nodes, r: Path) returns (entries: seq<Entry>)
    ensures Lists(n, r, entries)
  {
    entries := [];
    var all := ChildNames(n, r);
    var rest := all;
    while rest != {}
      invariant rest <= all && Reports(n, r, all - rest, entries)
      decreases |rest|
    {
      var name :| name in rest;
      ChildNamed(n, r, name);
      ReportsMore(n, r, all - rest, entries, name);
      assert all - rest + {name} == all - (rest - {name});
      entries := entries + [Entry(name, n[r + [name]].Dir?)];
      rest := rest - {name};
    }
    assert all - rest == all;
  }

  predicate Childless(n: Nodes, r: Path) {
    forall p {:trigger Parent(p)} :: p in n && p != [] ==> Parent(p) != r
  }

  predicate Unlinkable(n: Nodes, path: Path) {
    path != [] && Base(path) != "" && match Spot(n, path)
      case None => false
      case Some(p) => p in n && !n[p].Dir?
  }

  predicate EmptyDirAt(n: Nodes, path: Path) {
    match Spot(n, path)
    case None => false
    case Some(p) => p != [] && p in n && n[p].Dir? && Childless(n, p)
  }

  // ---- Deleting inside a directory ----

  lemma {:induction false} SpotShrinks(n': Nodes, n: Nodes, path: Path)
    requires Shrinks(n', n)
    ensures Spot(n', path) == None || Spot(n', path) == Spot(n, path)
    decreases |path|
  {
    if path != [] {
      WhereShrinks(n', n, Parent(path));
      SpotShrinks(n', n, Parent(path));
    }
  }

  /** A path that still leads somewhere still names what it named. */
  lemma {:induction false} SpotStays(n': Nodes, n: Nodes, path: Path)
    requires Shrinks(n', n) && Where(n', path).Some? && Spot(n, path).Some?
    ensures Spot(n', path) == Spot(n, path)
    decreases |path|
  {
    if path != [] {
      WhereShrinks(n', n, Parent(path));
      if Base(path) == "" {
        SpotStays(n', n, Parent(path));
      }
    }
  }

  /** A path that names a directory leads to it. */
  lemma {:induction false} SpotLeads(n: Nodes, path: Path)
    requires Spot(n, path).Some? && Spot(n, path).value in n && n[Spot(n, path).value].Dir?
    ensures Where(n, path) == Spot(n, path)
    decreases |path|
  {
    if path != [] && Base(path) == "" {
      SpotLeads(n, Parent(path));
    }
  }

  /** What remains of `start` while the inside of directory `r` is being deleted. */
  ghost predicate Partial(start: Nodes, now: Nodes, r: Path) {
    Tree(now) && Shrinks(now, start) && Shrinks(Pruned(start, r), now)
  }

  lemma CutKeepsTree(n: Nodes, p: Path)
    requires Tree(n) && p in n && p != [] && (n[p].Dir? ==> Childless(n, p))
    ensures Tree(n - {p}) && Shrinks(n - {p}, n) && Shrinks(Without(n, p), n - {p})
  {
    var m := n - {p};
    assert p <= p;
    forall q | q in m && q != [] ensures Parent(q) in m && m[Parent(q)].Dir? && Proper(Base(q)) {
      assert Parent(q) in n && n[Parent(q)].Dir?;
    }
  }

  lemma AfterChild(start: Nodes, now: Nodes, now': Nodes, r: Path, name: string)
    requires Partial(start, now, r)
    requires Tree(now') && Shrinks(now', now) && Shrinks(Without(now, r + [name]), now')
    ensures Partial(start, now', r)
  {
    forall p | p in Pruned(start, r) ensures p in now' && now'[p] == start[p] {
      assert p in now;
      assert r + [name] <= p ==> r < p;
      assert p in Without(now, r + [name]);
    }
  }

  /** Below `r`, only what the entries from `i` on name is left, and all of that is there. */
  ghost predicate Cleared(now: Nodes, r: Path, entries: seq<Entry>, i: nat) {
    && (forall k :: i <= k < |entries| ==> r + [entries[k].name] in now)
    && (forall p :: p in now && r < p ==> exists k :: i <= k < |entries| && r + [entries[k].name] <= p)
  }

  lemma ClearedFirst(n: Nodes, r: Path, entries: seq<Entry>)
    requires Tree(n) && Lists(n, r, entries)
    ensures Cleared(n, r, entries, 0)
  {
    forall p | p in n && r < p ensures exists k :: 0 <= k < |entries| && r + [entries[k].name] <= p {
      var name := ChildAbove(n, r, p);
      ChildNamed(n, r, name);
      var k :| 0 <= k < |entries| && entries[k].name == name;
      assert r + [entries[k].name] <= p;
    }
  }

  lemma OneChildAbove(r: Path, a: string, b: string, p: Path)
    requires r + [a] <= p && r + [b] <= p
    ensures a == b
  {
    assert (r + [a])[|r|] == p[|r|] == (r + [b])[|r|];
  }

  lemma ClearedNext(now: Nodes, now': Nodes, r: Path, entries: seq<Entry>, i: nat)
    requires i < |entries| && Cleared(now, r, entries, i)
    requires forall j, k :: 0 <= j < k < |entries| ==> entries[j].name != entries[k].name
    requires Shrinks(now', now) && Shrinks(Without(now, r + [entries[i].name]), now')
    requires forall p :: p in now' ==> !(r + [entries[i].name] <= p)
    ensures Cleared(now', r, entries, i + 1)
  {
    var c := r + [entries[i].name];
    forall k | i + 1 <= k < |entries| ensures r + [entries[k].name] in now' {
      if c <= r + [entries[k].name] {
        OneChildAbove(r, entries[i].name, entries[k].name, r + [entries[k].name]);
      }
      assert r + [entries[k].name] in Without(now, c);
    }
    forall p | p in now' && r < p ensures exists k :: i + 1 <= k < |entries| && r + [entries[k].name] <= p {
      var k :| i <= k < |entries| && r + [entries[k].name] <= p;
      assert k != i;
    }
  }

  /** The nodes a recursive delete of `path` can reach. */
  ghost function Region(n: Nodes, path: Path): set<Path> {
    match Where(n, path)
    case None => {}
    case Some(r) => set p | p in n && r <= p
  }

  lemma RegionShrinks(start: Nodes, now: Nodes, path: Path, r: Path, name: string)
    requires Tree(start) && Where(start, path) == Some(r) && r in start && Shrinks(now, start)
    requires r + [name] in start && start[r + [name]].Dir?
    ensures Region(now, path + [name]) < Region(start, path)
  {
    var c := r + [name];
    Joined(path, name);
    ProperChild(start, r, name);
    WhereShrinks(now, start, path + [name]);
    assert Where(start, path + [name]) == Some(c);
    forall p | p in Region(now, path + [name]) ensures p in Region(start, path) {
      assert c <= p && p in start;
    }
    assert r in Region(start, path) && !(c <= r);
  }

  lemma NothingBelow(n: Nodes, r: Path, p: Path)
    requires Tree(n) && p in n && (Childless(n, r) || (r in n && !n[r].Dir?))
    ensures !(r < p)
  {
    if r < p {
      assert Parent(p[..|r| + 1]) == r;
      AncestorExists(n, p, |r| + 1);
    }
  }

  /** What deleting the tree at `path`, which leads to directory `r`, does to `n`;
      `smooth` says that no request was refused. */
  ghost predicate TreeRemoval(n: Nodes, n': Nodes, path: Path, r: Path, ok: bool, smooth: bool) {
    && Shrinks(n', n) && Shrinks(if ok then Without(n, r) else Pruned(n, r), n')
    && (ok ==> Named(n, path, r) && Steady(n, path, r) && n' == Without(n, r))
    && (smooth ==> (ok <==> Named(n, path, r) && Steady(n, path, r)))
    && (smooth && Steady(n, path, r) ==> forall p :: p in n' ==> !(r < p))
  }

  /** What becomes of an entry `c` of the directory. */
  ghost predicate ChildRemoval(now: Nodes, now': Nodes, c: Path, ok: bool) {
    && Shrinks(now', now) && Shrinks(Without(now, c), now') && Tree(now')
    && (ok ==> forall p :: p in now' ==> !(c <= p))
  }

  lemma SubtreeRemoved(start: Nodes, now: Nodes, now': Nodes, path: Path, r: Path, name: string, ok: bool, smooth: bool)
    requires Tree(start) && Where(start, path) == Some(r) && Partial(start, now, r) && Tree(now')
    requires r + [name] in start && start[r + [name]].Dir?
    requires !DirAt(now, path + [name]) ==> !ok && now' == now
    requires DirAt(now, path + [name]) ==>
      TreeRemoval(now, now', path + [name], Where(now, path + [name]).value, ok, smooth)
    ensures ChildRemoval(now, now', r + [name], ok)
    ensures Steady(start, path, r) && smooth && r + [name] in now ==> ok
  {
    var child, c := path + [name], r + [name];
    Joined(path, name);
    ProperChild(start, r, name);
    WhereShrinks(now, start, child);
    assert Where(start, child) == Some(c);
    if Steady(start, path, r) && smooth && c in now {
      SteadyChild(start, now, path, r, name);
      SteadyStays(start, now, path, r);
      assert Spot(now, child) == Some(c);
    }
  }

  /** A node with nothing below it is a subtree of its own. */
  lemma OnlyThat(n: Nodes, p: Path)
    requires Tree(n) && p in n && (!n[p].Dir? || Childless(n, p))
    ensures n - {p} == Without(n, p)
  {
    forall q | q in n ensures p <= q <==> q == p {
      NothingBelow(n, p, q);
      if |p| == |q| && p <= q {
        assert p == q;
      }
    }
  }

  /** Removing a node with nothing below it. */
  lemma LeafRemoved(now: Nodes, c: Path)
    requires Tree(now) && c in now && c != [] && !now[c].Dir?
    ensures ChildRemoval(now, now - {c}, c, true)
  {
    CutKeepsTree(now, c);
    OnlyThat(now, c);
  }

  lemma EntrySpot(start: Nodes, now: Nodes, path: Path, r: Path, name: string)
    requires Where(start, path) == Some(r) && Partial(start, now, r) && Proper(name)
    ensures Spot(now, path + [name]) == None || Spot(now, path + [name]) == Some(r + [name])
    ensures Steady(start, path, r) ==> Spot(now, path + [name]) == Some(r + [name])
    ensures Base(path + [name]) != ""
  {
    Joined(path, name);
    WhereShrinks(now, start, path);
    if Steady(start, path, r) {
      SteadyStays(start, now, path, r);
      assert !(r < r) && r in Pruned(start, r);
    }
  }

  lemma EntryUnlinked(start: Nodes, now: Nodes, now': Nodes, path: Path, r: Path, name: string, ok: bool, smooth: bool)
    requires Tree(start) && Where(start, path) == Some(r) && Partial(start, now, r)
    requires r + [name] in start && !start[r + [name]].Dir?
    requires !ok ==> now' == now
    requires ok ==> Unlinkable(now, path + [name]) && now' == now - {Spot(now, path + [name]).value}
    requires smooth && Unlinkable(now, path + [name]) ==> ok
    ensures ChildRemoval(now, now', r + [name], ok)
    ensures Steady(start, path, r) && smooth && r + [name] in now ==> ok
  {
    ProperChild(start, r, name);
    EntrySpot(start, now, path, r, name);
    if ok {
      LeafRemoved(now, r + [name]);
    }
  }

  /** Success of the final removal means that the directory itself, not a link, was named. */
  lemma FinalRemoval(start: Nodes, now: Nodes, path: Path, r: Path)
    requires Where(start, path) == Some(r) && Partial(start, now, r) && EmptyDirAt(now, path)
    ensures Spot(now, path) == Some(r) && Named(start, path, r) && Steady(start, path, r)
    ensures now - {r} == Without(start, r) && Tree(now - {r})
  {
    SpotLeads(now, path);
    WhereShrinks(now, start, path);
    SpotShrinks(now, start, path);
    LastCut(start, now, r);
    StillResolves(start, now, path, r);
  }

  /** Once the directory is empty, cutting it completes the subtree. */
  lemma LastCut(start: Nodes, now: Nodes, r: Path)
    requires Partial(start, now, r) && r != [] && r in now && Childless(now, r)
    ensures now - {r} == Without(start, r) && Tree(now - {r})
    ensures forall p :: p in now ==> !(r < p)
  {
    CutKeepsTree(now, r);
    OnlyThat(now, r);
    forall p | p in now ensures !(r < p) {
      NothingBelow(now, r, p);
    }
  }

  /** A path that leads to `r` when nothing is left inside `r` does not depend on that. */
  lemma StillResolves(start: Nodes, now: Nodes, path: Path, r: Path)
    requires Where(now, path) == Some(r) && r in now && now[r].Dir? && Shrinks(now, start)
    requires forall p :: p in now ==> !(r < p)
    ensures Steady(start, path, r)
  {
    assert Shrinks(now, Pruned(start, r));
    WhereShrinks(now, Pruned(start, r), path);
  }

  lemma FinalRemovalInOrder(start: Nodes, now: Nodes, path: Path, r: Path)
    requires Steady(start, path, r) && Partial(start, now, r) && Named(start, path, r)
    requires forall p :: p in now ==> !(r < p)
    ensures EmptyDirAt(now, path)
  {
    SteadyStays(start, now, path, r);
    SpotStays(now, start, path);
    assert r in Pruned(start, r);
    forall p | p in now && p != [] ensures Parent(p) != r {
      assert Parent(p) < p;
    }
  }

  /** The path leads to a directory that it does not name: its last component is a link
      to it, a dot or a double dot. */
  predicate Indirect(n: Nodes, path: Path) {
    DirAt(n, path) && Spot(n, path) != Where(n, path)
  }

  /** What a delete request for `path` can succeed on: a file, a link to a file, an empty
      directory, or with everything in it a directory other than the root that is named
      directly and through nothing inside itself. */
  predicate Deletable(n: Nodes, path: Path, recursive: bool) {
    match Spot(n, path)
    case None => false
    case Some(p) => p != [] && p in n && match n[p]
      case Dir => if recursive then Steady(n, path, p) else Childless(n, p)
      case File => Base(path) != ""
      case Link(t) => Base(path) != "" && t in n && n[t].File?
  }

  /** What a delete request makes of `n`: exactly the named subtree goes, or nothing, or
      something inside the directory the path leads to, and all of that if the request
      was recursive, no request was refused and the path is steady. */
  ghost predicate Deleted(n: Nodes, n': Nodes, path: Path, recursive: bool, ok: bool, smooth: bool) {
    && Shrinks(n', n)
    && (ok ==> !Indirect(n, path) && Spot(n, path).Some? && n' == Without(n, Spot(n, path).value))
    && (!ok && !(recursive && DirAt(n, path)) ==> n' == n)
    && (!ok && recursive && DirAt(n, path) ==>
        && Shrinks(Pruned(n, Where(n, path).value), n')
        && (smooth && Steady(n, path, Where(n, path).value) ==> n' == Pruned(n, Where(n, path).value)))
    && (smooth ==> (ok <==> Deletable(n, path, recursive)))
  }

  /** Unless the path leads to a directory it does not name, only the named node and what
      is below it can go. */
  lemma OnlyNamedGoes(n: Nodes, n': Nodes, path: Path, recursive: bool, ok: bool, smooth: bool, p: Path)
    requires Deleted(n, n', path, recursive, ok, smooth) && !Indirect(n, path) && p in n && p !in n'
    ensures Spot(n, path).Some? && Spot(n, path).value <= p
  {
    if !ok {
      assert p !in Pruned(n, Where(n, path).value);
    }
  }

  /** Where the node at location `path` is found. */
  lemma OwnLocation(n: Nodes, path: Path)
    requires Tree(n) && path in n
    ensures Spot(n, path) == Some(path) && Where(n, path) == if path == [] then Some(path) else Follow(n, path)
    ensures n[path].Dir? ==> Steady(n, path, path)
  {
    if n[path].Dir? {
      PlainPath(n, path);
    } else {
      LeafLocation(n, path);
    }
  }

  lemma LeafLocation(n: Nodes, path: Path)
    requires Tree(n) && path in n && path != []
    ensures Spot(n, path) == Some(path) && Where(n, path) == Follow(n, path) && Base(path) != ""
  {
    var d := Parent(path);
    PlainWhere(n, d);
    Rejoin(path);
  }

  /** A directory under its own name can always be deleted with everything in it. */
  lemma OwnNameIsDeletable(n: Nodes, path: Path, recursive: bool)
    requires Tree(n) && path in n && path != []
    ensures Deletable(n, path, recursive) <==>
      match n[path]
      case Dir => recursive || Childless(n, path)
      case File => true
      case Link(t) => t in n && n[t].File?
  {
    OwnLocation(n, path);
    LeafLocation(n, path);
  }

  lemma NotFound(n: Nodes, path: Path, recursive: bool, smooth: bool)
    requires Tree(n) && (smooth ==> Where(n, path).None?)
    ensures Deleted(n, n, path, recursive, false, smooth)
  {
    if Spot(n, path).Some? && Spot(n, path).value in n && n[Spot(n, path).value].Dir? {
      SpotLeads(n, path);
    }
  }

  lemma TreeDeleted(n: Nodes, n': Nodes, path: Path, ok: bool, smooth: bool)
    requires Tree(n) && DirAt(n, path)
    requires TreeRemoval(n, n', path, Where(n, path).value, ok, smooth)
    ensures Deleted(n, n', path, true, ok, smooth)
  {
    var r := Where(n, path).value;
    if Spot(n, path).Some? && Spot(n, path).value in n && n[Spot(n, path).value].Dir? {
      SpotLeads(n, path);
    }
    if smooth && Steady(n, path, r) && !ok {
      assert n' == Pruned(n, r);
    }
  }

  lemma DirectoryDeleted(n: Nodes, n': Nodes, path: Path, ok: bool, smooth: bool)
    requires Tree(n) && DirAt(n, path)
    requires ok ==> EmptyDirAt(n, path) && n' == n - {Spot(n, path).value}
    requires !ok ==> n' == n
    requires smooth && EmptyDirAt(n, path) ==> ok
    ensures Tree(n')
    ensures Deleted(n, n', path, false, ok, smooth)
  {
    if Spot(n, path).Some? && Spot(n, path).value in n && n[Spot(n, path).value].Dir? {
      SpotLeads(n, path);
    }
    if ok {
      CutKeepsTree(n, Spot(n, path).value);
      OnlyThat(n, Spot(n, path).value);
    }
  }

  lemma EntryDeleted(n: Nodes, n': Nodes, path: Path, recursive: bool, ok: bool, smooth: bool)
    requires Tree(n) && Where(n, path).Some? && !DirAt(n, path)
    requires ok ==> Unlinkable(n, path) && n' == n - {Spot(n, path).value}
    requires !ok ==> n' == n
    requires smooth && Unlinkable(n, path) ==> ok
    ensures Tree(n')
    ensures Deleted(n, n', path, recursive, ok, smooth)
  {
    if ok {
      CutKeepsTree(n, Spot(n, path).value);
      OnlyThat(n, Spot(n, path).value);
    }
  }

  // ---- Paths as they are spelled ----

  function Components(text: string): (p: Path)
    ensures p != []
  {
    var i := Index(text, "/");
    if i < 0 then [text] else [text[..i]] + Components(text[i + 1..])
  }

  /** Appending a slash and a name appends the name as a component. */
  lemma {:induction false} ChildText(text: string, name: string)
    requires '/' !in name
    ensures Components(text + ("/" + name)) == Components(text) + [name]
    decreases |text|
  {
    var i := Index(text, "/");
    IndexAppend(text, "/" + name, "/");
    if i < 0 {
      SlashAfter(text, name);
    } else {
      SliceAppend(text, "/" + name, i + 1);
      SliceAppend(text, "/" + name, i);
      ChildText(text[i + 1..], name);
      Associative([text[..i]], Components(text[i + 1..]), [name]);
    }
  }

  lemma NoSlash(name: string)
    requires '/' !in name
    ensures Index(name, "/") < 0
  {
    forall i | 0 <= i < |name| ensures !OccursAt(name, "/", i) {
      assert name[i..i + 1] == [name[i]] && name[i] in name;
    }
    IndexSpec(name, "/");
  }

  lemma SlashIndex(text: string, name: string)
    requires Index(text, "/") < 0
    ensures Index(text + ("/" + name), "/") == |text|
  {
    var s := text + ("/" + name);
    IndexAppend(text, "/" + name, "/");
    IndexSpec(s, "/");
    assert s[|text|..|text| + 1] == "/" && OccursAt(s, "/", |text|);
  }

  lemma SlashAfter(text: string, name: string)
    requires Index(text, "/") < 0 && '/' !in name
    ensures Components(text + ("/" + name)) == [text] + [name]
  {
    SlashIndex(text, name);
    NoSlash(name);
    SlashCuts(text, name);
  }

  lemma SlashCuts(text: string, name: string)
    ensures (text + ("/" + name))[..|text|] == text && (text + ("/" + name))[|text| + 1..] == name
  {
  }

  /** A relative path starts in the directory the server logs into. */
  function Resolved(login: Path, text: string): Path {
    if "/" <= text then Components(text) else login + Components(text)
  }

  /** Joining two texts with a slash joins their components. */
  lemma {:induction false} ComponentsJoin(a: string, b: string)
    ensures Components(a + ("/" + b)) == Components(a) + Components(b)
    decreases |a|
  {
    var i := Index(a, "/");
    IndexAppend(a, "/" + b, "/");
    if i < 0 {
      SlashIndex(a, b);
      SlashCuts(a, b);
    } else {
      SliceAppend(a, "/" + b, i + 1);
      SliceAppend(a, "/" + b, i);
      ComponentsJoin(a[i + 1..], b);
      Associative([a[..i]], Components(a[i + 1..]), Components(b));
    }
  }

  /** A relative path means what it means behind the login directory's own path. */
  lemma RelativeToLogin(home: string, text: string, login: Path)
    requires "/" <= home && !("/" <= text)
    ensures Resolved(Components(home), text) == Components(home) + Components(text)
    ensures Resolved(login, home + ("/" + text)) == Components(home) + Components(text)
    ensures Resolved(login, home) == Components(home)
  {
    ComponentsJoin(home, text);
    assert (home + ("/" + text))[0] == home[0];
  }

  predicate Dots(path: Path) {
    forall i :: 0 <= i < |path| ==> path[i] == "" || path[i] == "." || path[i] == ".."
  }

  lemma {:induction false} DotsReachRoot(n: Nodes, path: Path)
    requires [] in n && n[[]].Dir? && Dots(path)
    ensures Where(n, path) == Some([])
    decreases |path|
  {
    if path != [] {
      DotsReachRoot(n, Parent(path));
    }
  }

  /** The guard protects the root from one absolute spelling only: under any other one
      made of slashes and dots, a recursive request without refusals deletes everything
      in the file system and then fails. */
  lemma RootIsEmptied(n: Nodes, n': Nodes, login: Path, text: string, ok: bool)
    requires Tree(n) && "/" <= text && text != "/" && Dots(Components(text))
    requires Deleted(n, n', Resolved(login, text), true, ok, true)
    ensures !ok && n' == map[[] := Dir]
  {
    var path := Components(text);
    DotsReachRoot(n, path);
    DotsReachRoot(Pruned(n, []), path);
    DotsNameNothing(n, path);
    forall p | p in n && p != [] ensures [] < p {
    }
    assert Pruned(n, []) == map[[] := Dir];
  }

  lemma {:induction false} DotsNameNothing(n: Nodes, path: Path)
    requires Dots(path)
    ensures Spot(n, path) == None || Spot(n, path) == Some([])
    decreases |path|
  {
    if path != [] && Base(path) == "" {
      DotsNameNothing(n, Parent(path));
    }
  }

  /** `refusals` counts the requests that were in order but failed all the same. */
  class Server {
    const login: Path
    var nodes: Nodes
    ghost var refusals: nat

    constructor (login: Path, nodes: Nodes)
      ensures this.login == login && this.nodes == nodes && refusals == 0
    {
      this.login, this.nodes, refusals := login, nodes, 0;
    }

    method ReadDir(path: Path) returns (ok: bool, entries: seq<Entry>)
      modifies this`refusals
      ensures refusals == old(refusals) + if !ok && DirAt(nodes, path) then 1 else 0
      ensures ok ==> DirAt(nodes, path) && Lists(nodes, Where(nodes, path).value, entries)
    {
      entries := [];
      ok := *;
      if !DirAt(nodes, path) {
        ok := false;
      } else if ok {
        entries := Enumerate(nodes, Where(nodes, path).value);
      } else {
        refusals := refusals + 1;
      }
    }

    method Stat(path: Path) returns (ok: bool, isDir: bool)
      modifies this`refusals
      ensures refusals == old(refusals) + if !ok && Where(nodes, path).Some? then 1 else 0
      ensures ok ==> Where(nodes, path).Some? && (isDir <==> DirAt(nodes, path))
    {
      ok, isDir := *, DirAt(nodes, path);
      if Where(nodes, path).None? {
        ok := false;
      } else if !ok {
        refusals := refusals + 1;
      }
    }

    method Remove(path: Path) returns (ok: bool)
      modifies this
      ensures refusals == old(refusals) + if !ok && Unlinkable(old(nodes), path) then 1 else 0
      ensures ok ==> Unlinkable(old(nodes), path) && nodes == old(nodes) - {Spot(old(nodes), path).value}
      ensures !ok ==> nodes == old(nodes)
    {
      ok := *;
      if !Unlinkable(nodes, path) {
        ok := false;
      } else if ok {
        nodes := nodes - {Spot(nodes, path).value};
      } else {
        refusals := refusals + 1;
      }
    }

    method RemoveDirectory(path: Path) returns (ok: bool)
      modifies this
      ensures refusals == old(refusals) + if !ok && EmptyDirAt(old(nodes), path) then 1 else 0
      ensures ok ==> EmptyDirAt(old(nodes), path) && nodes == old(nodes) - {Spot(old(nodes), path).value}
      ensures !ok ==> nodes == old(nodes)
    {
      ok := *;
      if !EmptyDirAt(nodes, path) {
        ok := false;
      } else if ok {
        nodes := nodes - {Spot(nodes, path).value};
      } else {
        refusals := refusals + 1;
      }
    }

    /** Safety: only what lies under the directory the path leads to can go, and
        success means exactly that subtree is gone. Completeness: when no request is
        refused, the call succeeds exactly when the path names the directory, not a
        link to it, and does not run through anything inside it. A steady path to a
        link still empties the directory. */
    method RemoveTree(path: Path) returns (ok: bool)
      requires Tree(nodes)
      modifies this
      ensures Tree(nodes) && refusals >= old(refusals)
      ensures !DirAt(old(nodes), path) ==> !ok && nodes == old(nodes)
      ensures DirAt(old(nodes), path) ==>
        TreeRemoval(old(nodes), nodes, path, Where(old(nodes), path).value, ok, refusals == old(refusals))
      decreases Region(nodes, path)
    {
      var entries;
      ok, entries := ReadDir(path);
      if !ok {
        return;
      }
      ghost var r := Where(nodes, path).value;
      ghost var start := nodes;
      ClearedFirst(start, r, entries);
      var i := 0;
      while i < |entries|
        invariant i <= |entries| && Partial(start, nodes, r) && refusals >= old(refusals)
        invariant Steady(start, path, r) && refusals == old(refusals) ==> Cleared(nodes, r, entries, i)
      {
        var name := entries[i].name;
        ghost var now, refused := nodes, refusals;
        if entries[i].isDir {
          RegionShrinks(start, now, path, r, name);
          ok := RemoveTree(path + [name]);
          SubtreeRemoved(start, now, nodes, path, r, name, ok, refusals == refused);
        } else {
          ok := Remove(path + [name]);
          EntryUnlinked(start, now, nodes, path, r, name, ok, refusals == refused);
        }
        AfterChild(start, now, nodes, r, name);
        if !ok {
          return;
        }
        if Cleared(now, r, entries, i) {
          ClearedNext(now, nodes, r, entries, i);
        }
        i := i + 1;
      }
      if EmptyDirAt(nodes, path) {
        FinalRemoval(start, nodes, path, r);
      }
      if Steady(start, path, r) && refusals == old(refusals) && Named(start, path, r) {
        FinalRemovalInOrder(start, nodes, path, r);
      }
      ok := RemoveDirectory(path);
    }

    /** The delete request for a path as it is spelled. */
    method Delete(text: string, recursive: bool) returns (ok: bool)
      requires Tree(nodes)
      modifies this
      ensures Tree(nodes) && refusals >= old(refusals)
      ensures text == "" || text == "/" ==> !ok && nodes == old(nodes) && refusals == old(refusals)
      ensures text != "" && text != "/" ==>
        Deleted(old(nodes), nodes, Resolved(login, text), recursive, ok, refusals == old(refusals))
    {
      if text == "" || text == "/" {
        return false;
      }
      var path := Resolved(login, text);
      ghost var start := nodes;
      var isDir;
      ok, isDir := Stat(path);
      if !ok {
        NotFound(start, path, recursive, refusals == old(refusals));
        return;
      }
      if isDir && recursive {
        ok := RemoveTree(path);
        TreeDeleted(start, nodes, path, ok, refusals == old(refusals));
      } else if isDir {
        ok := RemoveDirectory(path);
        DirectoryDeleted(start, nodes, path, ok, refusals == old(refusals));
      } else {
        ok := Remove(path);
        EntryDeleted(start, nodes, path, recursive, ok, refusals == old(refusals));
      }
    }
  }
}
