/** The session directory that follows a terminal: the read loop feeds the
    scanner, turns the reported URI into a path and announces every change. */
module CwdFollow {
  import opened Search
  import opened Osc7
  import opened CwdPaths

  /** How the session directory was set: by a report, announced to the UI as
      `shell/cwd-changed`, or by a finished command. */
  datatype Entry = Changed(dir: string) | Adopted(dir: string)

  datatype Cwd = Cwd(dir: string, log: seq<Entry>)

  function OnReport(c: Cwd, uri: string, windows: bool): Cwd {
    var dir := UriToPath(uri, windows);
    if dir == "" || dir == c.dir then c else Cwd(dir, c.log + [Changed(dir)])
  }

  function OnExit(c: Cwd, dir: string): Cwd {
    if dir == "" then c else Cwd(dir, c.log + [Adopted(dir)])
  }

  /** The read loop on a list of reads; an empty scanner result reports nothing. */
  function Follow(carry: string, c: Cwd, chunks: seq<string>, windows: bool): Cwd
    decreases |chunks|
  {
    if chunks == [] then c
    else
      var scan := Parse(carry + chunks[0]);
      var uri := LastOf(scan.payloads);
      Follow(Trim(scan.carry), if uri == "" then c else OnReport(c, uri, windows), chunks[1..], windows)
  }

  class Terminal {
    const windows: bool
    const scanner: Osc7Scanner
    var cwd: string
    ghost var log: seq<Entry>

    constructor (windows: bool, cwd: string)
      ensures this.windows == windows && this.cwd == cwd && log == []
      ensures fresh(scanner) && scanner.pending == "" && scanner.extracted == []
    {
      this.windows, this.cwd, log := windows, cwd, [];
      scanner := new Osc7Scanner();
    }

    ghost function State(): Cwd
      reads this
    {
      Cwd(cwd, log)
    }

    method EmitCwd(uri: string)
      modifies this
      ensures State() == OnReport(old(State()), uri, windows)
      ensures cwd == if UriToPath(uri, windows) == "" then old(cwd) else UriToPath(uri, windows)
      ensures log == if cwd == old(cwd) then old(log) else old(log) + [Changed(cwd)]
    {
      var dir := UriToPath(uri, windows);
      if dir == "" {
        return;
      }
      var changed := dir != cwd;
      if changed {
        cwd := dir;
        log := log + [Changed(dir)];
      }
    }

    method AdoptExitDirectory(dir: string)
      modifies this
      ensures State() == OnExit(old(State()), dir)
      ensures dir == "" ==> cwd == old(cwd) && log == old(log)
      ensures dir != "" ==> cwd == dir && log == old(log) + [Adopted(dir)]
    {
      if dir != "" {
        cwd := dir;
        log := log + [Adopted(dir)];
      }
    }

    method ReadLoop(pieces: seq<string>)
      modifies this, scanner
      ensures State() == Follow(old(scanner.pending), old(State()), pieces, windows)
    {
      var i := 0;
      while i < |pieces|
        invariant 0 <= i <= |pieces|
        invariant Follow(old(scanner.pending), old(State()), pieces, windows)
               == Follow(scanner.pending, State(), pieces[i..], windows)
      {
        assert pieces[i..][1..] == pieces[i + 1..];
        var uri := scanner.Feed(pieces[i]);
        if uri != "" {
          EmitCwd(uri);
        }
        i := i + 1;
      }
    }
  }

  // ---- Events ----

  function DirAfter(init: string, log: seq<Entry>): string {
    if log == [] then init else log[|log| - 1].dir
  }

  /** The directory is the last one logged, and no announcement repeats the
      directory that held just before it. */
  ghost predicate Coherent(init: string, c: Cwd) {
    && c.dir == DirAfter(init, c.log)
    && forall i :: 0 <= i < |c.log| && c.log[i].Changed? ==> c.log[i].dir != DirAfter(init, c.log[..i])
  }

  lemma ReportCoherent(init: string, c: Cwd, uri: string, windows: bool)
    requires Coherent(init, c)
    ensures Coherent(init, OnReport(c, uri, windows))
  {
    LogCoherent(init, c, Changed(UriToPath(uri, windows)));
  }

  lemma ExitCoherent(init: string, c: Cwd, dir: string)
    requires Coherent(init, c)
    ensures Coherent(init, OnExit(c, dir))
  {
    LogCoherent(init, c, Adopted(dir));
  }

  lemma LogCoherent(init: string, c: Cwd, e: Entry)
    requires Coherent(init, c)
    ensures (e.Changed? && e.dir == c.dir) || Coherent(init, Cwd(e.dir, c.log + [e]))
  {
    var log := c.log + [e];
    assert log[..|c.log|] == c.log;
    assert forall i :: 0 <= i < |c.log| ==> log[..i] == c.log[..i];
  }

  /** Whatever arrives, in whatever pieces, announcements stay coherent. */
  lemma {:induction false} FollowCoherent(init: string, carry: string, c: Cwd, chunks: seq<string>, windows: bool)
    requires Coherent(init, c)
    ensures Coherent(init, Follow(carry, c, chunks, windows))
    decreases |chunks|
  {
    if chunks != [] {
      var scan := Parse(carry + chunks[0]);
      var uri := LastOf(scan.payloads);
      ReportCoherent(init, c, uri, windows);
      FollowCoherent(init, Trim(scan.carry), if uri == "" then c else OnReport(c, uri, windows), chunks[1..], windows);
    }
  }

  lemma EmptyNamesNothing(windows: bool)
    ensures UriToPath("", windows) == ""
  {
    IndexSpec("", "/");
  }

  /** Where each read leaves the session, read by read. */
  function Path(carry: string, dir: string, chunks: seq<string>, windows: bool): (path: seq<string>)
    ensures |path| == |chunks|
    decreases |chunks|
  {
    if chunks == [] then []
    else
      var scan := Parse(carry + chunks[0]);
      var named := UriToPath(LastOf(scan.payloads), windows);
      var next := if named == "" then dir else named;
      [next] + Path(Trim(scan.carry), next, chunks[1..], windows)
  }

  /** The directories one read moves through. */
  function Moved(dir: string, next: string): seq<string> {
    if next == dir then [] else [next]
  }

  /** The directories of a path that differ from the one before. */
  function Moves(dir: string, path: seq<string>): seq<string>
    decreases |path|
  {
    if path == [] then []
    else Moved(dir, path[0]) + Moves(path[0], path[1..])
  }

  function Announced(dirs: seq<string>): (log: seq<Entry>)
    ensures |log| == |dirs| && forall i :: 0 <= i < |dirs| ==> log[i] == Changed(dirs[i])
  {
    if dirs == [] then [] else [Changed(dirs[0])] + Announced(dirs[1..])
  }

  lemma AnnouncedJoin(a: seq<string>, b: seq<string>)
    ensures Announced(a + b) == Announced(a) + Announced(b)
  {
  }

  lemma ReadAnnounces(c: Cwd, uri: string, windows: bool)
    ensures var next := if uri == "" then c else OnReport(c, uri, windows);
      && next.dir == (if UriToPath(uri, windows) == "" then c.dir else UriToPath(uri, windows))
      && next.log == c.log + Announced(Moved(c.dir, next.dir))
  {
    EmptyNamesNothing(windows);
    NilNeutral(c.log);
  }

  lemma MovesFirst(c: Cwd, next: Cwd, path: seq<string>, log: seq<Entry>)
    requires path != [] && path[0] == next.dir && next.log == c.log + Announced(Moved(c.dir, next.dir))
    requires log == next.log + Announced(Moves(next.dir, path[1..]))
    ensures log == c.log + Announced(Moves(c.dir, path))
  {
    var first, rest := Moved(c.dir, next.dir), Moves(next.dir, path[1..]);
    AnnouncedJoin(first, rest);
    Associative(c.log, Announced(first), Announced(rest));
  }

  /** What the reads add to the log is one announcement for every read that moves the
      session, in order. */
  lemma {:induction false} FollowAnnounces(carry: string, c: Cwd, chunks: seq<string>, windows: bool)
    ensures Follow(carry, c, chunks, windows).log
         == c.log + Announced(Moves(c.dir, Path(carry, c.dir, chunks, windows)))
    decreases |chunks|
  {
    if chunks == [] {
      NilNeutral(c.log);
    } else {
      var scan := Parse(carry + chunks[0]);
      var uri := LastOf(scan.payloads);
      var path := Path(carry, c.dir, chunks, windows);
      var next := if uri == "" then c else OnReport(c, uri, windows);
      ReadAnnounces(c, uri, windows);
      assert path[1..] == Path(Trim(scan.carry), next.dir, chunks[1..], windows);
      FollowAnnounces(Trim(scan.carry), next, chunks[1..], windows);
      MovesFirst(c, next, path, Follow(carry, c, chunks, windows).log);
    }
  }

  /** Nothing is taken back from the log, and the reads add nothing but announcements. */
  lemma FollowKeepsLog(carry: string, c: Cwd, chunks: seq<string>, windows: bool)
    ensures var log := Follow(carry, c, chunks, windows).log;
      c.log <= log && forall e :: e in log[|c.log|..] ==> e.Changed?
  {
    FollowAnnounces(carry, c, chunks, windows);
    JoinDrop(c.log, Announced(Moves(c.dir, Path(carry, c.dir, chunks, windows))));
  }

  // ---- End to end ----

  /** The last payload names a directory; an empty one never does. */
  predicate EndsNamed(payloads: seq<string>, windows: bool) {
    payloads != [] && UriToPath(LastOf(payloads), windows) != ""
  }

  lemma LastOfJoin(a: seq<string>, b: seq<string>)
    ensures LastOf(a + b) == if b == [] then LastOf(a) else LastOf(b)
  {
    if b == [] {
      NilNeutral(a);
    } else {
      assert (a + b)[|a| + |b| - 1] == b[|b| - 1];
    }
  }

  /** What one read makes of the directory, given the payloads completed in it. */
  function OnPayloads(c: Cwd, payloads: seq<string>, windows: bool): Cwd {
    if LastOf(payloads) == "" then c else OnReport(c, LastOf(payloads), windows)
  }

  lemma OnPayloadsDir(c: Cwd, payloads: seq<string>, windows: bool)
    ensures OnPayloads(c, payloads, windows).dir
         == if EndsNamed(payloads, windows) then UriToPath(LastOf(payloads), windows) else c.dir
  {
    if LastOf(payloads) == "" {
      EmptyNamesNothing(windows);
    }
  }

  /** Reports before the last one do not matter, whether they name a directory or not. */
  lemma {:induction false} FollowsLast(carry: string, c: Cwd, chunks: seq<string>, windows: bool)
    requires EndsNamed(FeedAll(carry, chunks), windows) || FeedAll(carry, chunks) == []
    ensures var payloads := FeedAll(carry, chunks);
      Follow(carry, c, chunks, windows).dir == if payloads == [] then c.dir else UriToPath(LastOf(payloads), windows)
    decreases |chunks|
  {
    if chunks != [] {
      var scan := Parse(carry + chunks[0]);
      var rest := FeedAll(Trim(scan.carry), chunks[1..]);
      LastOfJoin(scan.payloads, rest);
      NilNeutral(scan.payloads);
      OnPayloadsDir(c, scan.payloads, windows);
      FollowsLast(Trim(scan.carry), OnPayloads(c, scan.payloads, windows), chunks[1..], windows);
    }
  }

  /** On a tame stream whose last report names a directory, the session ends there
      under every chunking; without any report it stays where it is. */
  lemma EndToEnd(s: string, chunks: seq<string>, c: Cwd, windows: bool)
    requires Tame(s) && Concat(chunks) == s
    requires EndsNamed(Parse(s).payloads, windows) || Parse(s).payloads == []
    ensures Follow("", c, chunks, windows).dir
         == if Parse(s).payloads == [] then c.dir else UriToPath(LastOf(Parse(s).payloads), windows)
  {
    ChunkIndependence(s);
    assert Faithful(chunks, s);
    FollowsLast("", c, chunks, windows);
  }

  // ---- When the last report names nothing ----

  /** No report names a directory other than `dir`. */
  ghost predicate Idle(payloads: seq<string>, dir: string, windows: bool) {
    forall p :: p in payloads ==> UriToPath(p, windows) == "" || UriToPath(p, windows) == dir
  }

  lemma {:induction false} IdleStays(carry: string, c: Cwd, chunks: seq<string>, windows: bool)
    requires Idle(FeedAll(carry, chunks), c.dir, windows)
    ensures Follow(carry, c, chunks, windows).dir == c.dir
    decreases |chunks|
  {
    if chunks != [] {
      var scan := Parse(carry + chunks[0]);
      OnPayloadsDir(c, scan.payloads, windows);
      assert scan.payloads != [] ==> LastOf(scan.payloads) in FeedAll(carry, chunks);
      IdleStays(Trim(scan.carry), OnPayloads(c, scan.payloads, windows), chunks[1..], windows);
    }
  }

  lemma FollowOne(c: Cwd, b: string, windows: bool)
    ensures Follow([], c, [b], windows) == OnPayloads(c, Parse(b).payloads, windows)
  {
    NilNeutral(b);
    assert [b][1..] == [];
  }

  lemma FollowTwo(c: Cwd, a: string, b: string, windows: bool)
    requires Parse(a).carry == []
    ensures Follow([], c, [a, b], windows)
         == OnPayloads(OnPayloads(c, Parse(a).payloads, windows), Parse(b).payloads, windows)
  {
    NilNeutral(a);
    assert [a, b][1..] == [b];
    assert Trim([]) == [];
    FollowOne(OnPayloads(c, Parse(a).payloads, windows), b, windows);
  }

  /** The session stops at report `j` when the stream is cut right after it. */
  lemma CutAfterReport(s: string, c: Cwd, j: nat, windows: bool) returns (chunks: seq<string>)
    requires j < |Parse(s).payloads| && UriToPath(Parse(s).payloads[j], windows) != ""
    requires !EndsNamed(Parse(s).payloads, windows)
    ensures Concat(chunks) == s
    ensures Follow("", c, chunks, windows).dir == UriToPath(Parse(s).payloads[j], windows)
  {
    var payloads := Parse(s).payloads;
    var a, b := SplitAfter(s, j);
    FollowTwo(c, a, b, windows);
    ConcatTwo(a, b);
    OnPayloadsDir(c, Parse(a).payloads, windows);
    OnPayloadsDir(OnPayloads(c, Parse(a).payloads, windows), Parse(b).payloads, windows);
    LastOfJoin(Parse(a).payloads, Parse(b).payloads);
    chunks := [a, b];
  }

  ghost predicate EndsIn(s: string, c: Cwd, windows: bool, dir: string) {
    forall chunks :: Concat(chunks) == s ==> Follow("", c, chunks, windows).dir == dir
  }

  /** On a tame stream the directory the session ends in is the same for every chunking if
      and only if the last report names a directory, or none names another one than the
      session is in already. */
  lemma DirectoryIsIndependent(s: string, c: Cwd, windows: bool)
    requires Tame(s)
    ensures (exists dir :: EndsIn(s, c, windows, dir))
      <==> EndsNamed(Parse(s).payloads, windows) || Idle(Parse(s).payloads, c.dir, windows)
  {
    var payloads := Parse(s).payloads;
    if EndsNamed(payloads, windows) {
      forall chunks | Concat(chunks) == s
        ensures Follow("", c, chunks, windows).dir == UriToPath(LastOf(payloads), windows)
      {
        EndToEnd(s, chunks, c, windows);
      }
      assert EndsIn(s, c, windows, UriToPath(LastOf(payloads), windows));
    } else if Idle(payloads, c.dir, windows) {
      IdleEnds(s, c, windows);
    } else {
      var p :| p in payloads && UriToPath(p, windows) != "" && UriToPath(p, windows) != c.dir;
      var j :| 0 <= j < |payloads| && payloads[j] == p;
      var late := CutAfterReport(s, c, j, windows);
      WholeStream(s, c, windows);
      forall dir ensures !EndsIn(s, c, windows, dir) {
        assert Concat([s]) == s && Concat(late) == s;
      }
    }
  }

  lemma IdleEnds(s: string, c: Cwd, windows: bool)
    requires Tame(s) && Idle(Parse(s).payloads, c.dir, windows)
    ensures EndsIn(s, c, windows, c.dir)
  {
    forall chunks | Concat(chunks) == s ensures Follow("", c, chunks, windows).dir == c.dir {
      ChunkIndependence(s);
      assert Faithful(chunks, s);
      IdleStays("", c, chunks, windows);
    }
  }

  /** Read at once, a stream whose last report names nothing changes nothing. */
  lemma WholeStream(s: string, c: Cwd, windows: bool)
    requires !EndsNamed(Parse(s).payloads, windows)
    ensures Concat([s]) == s && Follow("", c, [s], windows).dir == c.dir
  {
    NilNeutral(s);
    FollowOne(c, s, windows);
    OnPayloadsDir(c, Parse(s).payloads, windows);
  }
}
