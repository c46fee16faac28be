/** Shell prompts that report their directory: the streams they produce are
    tame, and the session follows them end to end. */
module CwdReports {
  import opened Search
  import opened Osc7
  import opened CwdPaths
  import opened CwdFollow

  /** The two ways to end a report. */
  datatype Ending = Bell | StringTerminator

  function Ends(e: Ending): string {
    if e.Bell? then [BEL] else [ESC, '\\']
  }

  /** Ordinary output followed by one report of `dir`. */
  datatype Prompt = Prompt(noise: string, payload: string, ending: Ending, dir: string)

  /** What the prompts print: the reporters here end a report with a bell, other shells
      with `ESC \`. */
  function Emit(prompts: seq<Prompt>, tail: string): string {
    if prompts == [] then tail
    else prompts[0].noise + (MARKER + (prompts[0].payload + (Ends(prompts[0].ending) + Emit(prompts[1..], tail))))
  }

  /** No byte of the payload ends it early. */
  predicate Unbroken(payload: string) {
    && BEL !in payload
    && forall i :: 0 < i < |payload| ==> !(payload[i - 1] == ESC && payload[i] == '\\')
  }

  /** A report the scanner can cut out, whatever it says. */
  predicate Framed(p: Prompt) {
    Index(p.noise, MARKER) < 0 && Unbroken(p.payload) && |p.payload| + |Ends(p.ending)| <= MAX_PAYLOAD + 1
  }

  /** And one that names its directory. */
  predicate WellFormed(p: Prompt, windows: bool) {
    Framed(p) && p.dir != "" && UriToPath(p.payload, windows) == p.dir
  }

  lemma {:induction false} FindsEnding(payload: string, e: Ending, t: string, from: nat)
    requires Unbroken(payload) && from <= |payload|
    ensures FindEnd(payload + (Ends(e) + t), from) == End(|payload|, |payload| + |Ends(e)|)
    decreases |payload| - from
  {
    if from < |payload| {
      assert payload[from] in payload;
      FindsEnding(payload, e, t, from + 1);
    }
  }

  /** The marker has no self-overlap, so clean output cannot hide its start. */
  lemma FindsMarker(noise: string, t: string)
    requires Index(noise, MARKER) < 0
    ensures Index(noise + (MARKER + t), MARKER) == |noise|
  {
    var s := noise + (MARKER + t);
    IndexAppend(noise, MARKER + t, MARKER);
    IndexSpec(s, MARKER);
    var i := Index(s, MARKER);
    assert s[|noise|..|noise| + 4] == MARKER;
    assert OccursAt(s, MARKER, |noise|);
    assert s[|noise|] == ESC;
    assert MARKER[1] != ESC && MARKER[2] != ESC && MARKER[3] != ESC;
  }

  lemma FirstPrompt(p: Prompt, t: string)
    requires Index(p.noise, MARKER) < 0 && Unbroken(p.payload)
    ensures FirstReport(p.noise + (MARKER + (p.payload + (Ends(p.ending) + t))))
         == Report(p.payload, |p.payload| + |Ends(p.ending)|, t)
  {
    var rest := p.payload + (Ends(p.ending) + t);
    var s := p.noise + (MARKER + rest);
    FindsMarker(p.noise, rest);
    assert s[|p.noise| + 4..] == rest;
    FindsEnding(p.payload, p.ending, t, 0);
    assert rest[..|p.payload|] == p.payload && rest[|p.payload| + |Ends(p.ending)|..] == t;
  }

  ghost predicate AllFramed(prompts: seq<Prompt>) {
    forall i :: 0 <= i < |prompts| ==> Framed(prompts[i])
  }

  function PayloadsOf(prompts: seq<Prompt>): seq<string> {
    if prompts == [] then [] else [prompts[0].payload] + PayloadsOf(prompts[1..])
  }

  lemma {:induction false} ParsesPrompts(prompts: seq<Prompt>, tail: string)
    requires AllFramed(prompts)
    requires Index(tail, MARKER) < 0
    ensures Tame(Emit(prompts, tail)) && Parse(Emit(prompts, tail)).payloads == PayloadsOf(prompts)
    decreases |prompts|
  {
    if prompts != [] {
      assert Framed(prompts[0]);
      FirstPrompt(prompts[0], Emit(prompts[1..], tail));
      ParsesPrompts(prompts[1..], tail);
    }
  }

  lemma {:induction false} LastPayload(prompts: seq<Prompt>)
    requires prompts != []
    ensures PayloadsOf(prompts) != [] && LastOf(PayloadsOf(prompts)) == prompts[|prompts| - 1].payload
    decreases |prompts|
  {
    if |prompts| > 1 {
      LastPayload(prompts[1..]);
    }
  }

  /** After a stream of reports, cut into reads in any way, the session directory is the
      one the last report names. What the reports before it say does not matter. */
  lemma SessionFollowsPrompts(prompts: seq<Prompt>, tail: string, chunks: seq<string>, c: Cwd, windows: bool)
    requires AllFramed(prompts) && (prompts != [] ==> WellFormed(prompts[|prompts| - 1], windows))
    requires Index(tail, MARKER) < 0
    requires Concat(chunks) == Emit(prompts, tail)
    ensures Follow("", c, chunks, windows).dir == if prompts == [] then c.dir else prompts[|prompts| - 1].dir
  {
    ParsesPrompts(prompts, tail);
    if prompts != [] {
      LastPayload(prompts);
    }
    EndToEnd(Emit(prompts, tail), chunks, c, windows);
  }

  lemma FilePrefixUnbroken(p: string)
    requires Unbroken(p)
    ensures Unbroken(FILE + p)
  {
    var f := FILE + p;
    forall i | 0 < i < |f| ensures !(f[i - 1] == ESC && f[i] == '\\') {
      if i > 7 {
        assert f[i - 1] == p[i - 8] && f[i] == p[i - 7];
      }
    }
  }

  /** The POSIX reporter prints the path raw. */
  lemma PosixPromptWellFormed(noise: string, path: string)
    requires Index(noise, MARKER) < 0
    requires "/" <= path && |path| <= MAX_PAYLOAD - 7 && Unbroken(path)
    requires TrailingSpace(path) == 0 && ('%' !in path || Unescape(path).None?)
    ensures WellFormed(Prompt(noise, FILE + path, Bell, path), false)
  {
    PosixRoundTrip(path);
    FilePrefixUnbroken(path);
  }

  /** The PowerShell reporter prints the path percent-encoded. */
  lemma WindowsPromptWellFormed(noise: string, path: string)
    requires Index(noise, MARKER) < 0
    requires IsBytes(path) && |path| >= 3 && path[1] == ':' && path[0] != '\\' && '/' !in path
    requires |Escape(path)| <= MAX_PAYLOAD - 7
    ensures WellFormed(Prompt(noise, FILE + Escape(path), Bell, path), true)
  {
    WindowsRoundTrip(path);
    EscapeShape(path);
    FilePrefixUnbroken(Escape(path));
  }

  // ---- Which directories survive their own report ----

  /** One report, as a reporter prints it. */
  function Printed(payload: string): string {
    MARKER + (payload + [BEL])
  }

  /** However the report is cut into reads and wherever the session was, it ends in `dir`. */
  ghost predicate Arrives(payload: string, dir: string, windows: bool) {
    forall chunks, c :: Concat(chunks) == Printed(payload) ==> Follow("", c, chunks, windows).dir == dir
  }

  const NOWHERE := Cwd("", [])

  lemma ParsesReport(payload: string)
    requires Unbroken(payload)
    ensures FirstReport(Printed(payload)) == Report(payload, |payload| + 1, [])
    ensures Parse(Printed(payload)).payloads == [payload]
    ensures Tame(Printed(payload)) <==> |payload| <= MAX_PAYLOAD
  {
    assert Index([], MARKER) < 0;
    NilNeutral(Printed(payload));
    NilNeutral([BEL]);
    FirstPrompt(Prompt([], payload, Bell, []), []);
    assert Parse([]).payloads == [];
  }

  /** Read at once, the session ends where the last payload says, or does not move. */
  lemma ReadAtOnce(s: string, windows: bool)
    ensures Concat([s]) == s
    ensures Follow("", NOWHERE, [s], windows).dir
         == if EndsNamed(Parse(s).payloads, windows) then UriToPath(LastOf(Parse(s).payloads), windows) else ""
  {
    NilNeutral(s);
    assert [s][1..] == [];
    FollowOne(NOWHERE, s, windows);
    OnPayloadsDir(NOWHERE, Parse(s).payloads, windows);
  }

  /** A payload without a terminator inside arrives exactly when it fits the cap and
      names the directory. */
  lemma UnbrokenArrives(payload: string, dir: string, windows: bool)
    requires Unbroken(payload) && dir != ""
    ensures Arrives(payload, dir, windows) <==> |payload| <= MAX_PAYLOAD && UriToPath(payload, windows) == dir
  {
    var s := Printed(payload);
    ParsesReport(payload);
    if |payload| > MAX_PAYLOAD {
      LostWhenLong(payload, dir, windows);
    } else if UriToPath(payload, windows) == dir {
      forall chunks, c | Concat(chunks) == s ensures Follow("", c, chunks, windows).dir == dir {
        EndToEnd(s, chunks, c, windows);
      }
    } else {
      ReadAtOnce(s, windows);
      assert Concat([s]) == s && Follow("", NOWHERE, [s], windows).dir != dir;
    }
  }

  /** An over-long report is lost when it is cut just before its last byte. */
  lemma SilentSplit(payload: string) returns (chunks: seq<string>)
    requires Unbroken(payload) && |payload| > MAX_PAYLOAD
    ensures Concat(chunks) == Printed(payload) && FeedAll("", chunks) == []
  {
    ParsesReport(payload);
    var a, b := LosingSplit(Printed(payload));
    ConcatTwo(a, b);
    chunks := [a, b];
  }

  lemma LostWhenLong(payload: string, dir: string, windows: bool)
    requires Unbroken(payload) && |payload| > MAX_PAYLOAD && dir != ""
    ensures !Arrives(payload, dir, windows)
  {
    var chunks := SilentSplit(payload);
    FollowsLast("", NOWHERE, chunks, windows);
    assert Concat(chunks) == Printed(payload) && Follow("", NOWHERE, chunks, windows).dir == "";
  }

  /** Where a broken payload is cut: after the first slash and before its end. */
  lemma BrokenEnd(p: string) returns (k: nat)
    requires "/" <= p && !Unbroken(p)
    ensures 0 < k < |p|
    ensures FindEnd(FILE + (p + [BEL]), 0).End? && FindEnd(FILE + (p + [BEL]), 0).at == |FILE| + k
  {
    var rest := FILE + (p + [BEL]);
    var i: nat;
    if BEL in p {
      i :| i < |p| && p[i] == BEL;
    } else {
      var j :| 0 < j < |p| && p[j - 1] == ESC && p[j] == '\\';
      i := j - 1;
    }
    assert rest[|FILE| + i] == p[i] && (i + 1 < |p| ==> rest[|FILE| + i + 1] == p[i + 1]);
    FindEndFirst(rest, 0, |FILE| + i);
    var at := FindEnd(rest, 0).at;
    assert forall x :: 0 <= x < |FILE| ==> rest[x] == FILE[x];
    assert rest[|FILE|] == '/';
    k := at - |FILE|;
  }

  lemma ReportStarts(rest: string)
    ensures Index(MARKER + rest, MARKER) == 0 && (MARKER + rest)[4..] == rest
  {
    NilNeutral(MARKER + rest);
    assert Index([], MARKER) < 0;
    FindsMarker([], rest);
    JoinDrop(MARKER, rest);
  }

  /** What the scanner makes of the report of a broken path: a shorter path, and the rest. */
  lemma BrokenReport(p: string, k: nat)
    requires "/" <= p && 0 < k < |p|
    requires var e := FindEnd(FILE + (p + [BEL]), 0); e.End? && e.at == |FILE| + k
    ensures var c := FirstReport(Printed(FILE + p));
      c.Report? && c.payload == FILE + p[..k] && |c.next| < |p|
  {
    var rest := FILE + (p + [BEL]);
    Associative(FILE, p, [BEL]);
    ReportStarts(rest);
    CutInside(p, k);
  }

  lemma CutInside(p: string, k: nat)
    requires k <= |p|
    ensures (FILE + (p + [BEL]))[..|FILE| + k] == FILE + p[..k]
  {
  }

  lemma BrokenIsShorter(p: string)
    requires "/" <= p && !Unbroken(p)
    ensures |UriToPath(LastOf(Parse(Printed(FILE + p)).payloads), false)| < |p|
  {
    var k := BrokenEnd(p);
    BrokenReport(p, k);
    var c := FirstReport(Printed(FILE + p));
    var later := Parse(c.next).payloads;
    LastOfJoin([c.payload], later);
    if later == [] {
      assert "/" <= p[..k];
      RawPosix(p[..k]);
      PathFits(FILE + p[..k]);
    } else {
      PayloadsFit(c.next);
      PathFits(LastOf(later));
    }
  }

  /** A POSIX directory survives its own report exactly when no byte of it ends the
      report early, the report fits the cap, and the path has no trailing white space
      and nothing that decoding changes. */
  lemma PosixReportArrives(p: string)
    requires "/" <= p
    ensures Arrives(FILE + p, p, false) <==>
      && Unbroken(p) && |p| <= MAX_PAYLOAD - |FILE|
      && TrailingSpace(p) == 0 && ('%' !in p || Unescape(p).None?)
  {
    if Unbroken(p) {
      FilePrefixUnbroken(p);
      UnbrokenArrives(FILE + p, p, false);
      PosixRoundTrip(p);
    } else {
      var s := Printed(FILE + p);
      BrokenIsShorter(p);
      ReadAtOnce(s, false);
      assert Concat([s]) == s && Follow("", NOWHERE, [s], false).dir != p;
    }
  }

  /** A Windows directory survives its own report exactly when it is a drive path
      without forward slashes and its encoding fits the cap. */
  lemma WindowsReportArrives(p: string)
    requires IsBytes(p) && p != []
    ensures Arrives(FILE + Escape(p), p, true) <==>
      && |Escape(p)| <= MAX_PAYLOAD - |FILE|
      && |p| >= 3 && p[1] == ':' && p[0] != '\\' && '/' !in p
  {
    EscapeShape(p);
    FilePrefixUnbroken(Escape(p));
    UnbrokenArrives(FILE + Escape(p), p, true);
    WindowsRoundTrip(p);
  }
}
