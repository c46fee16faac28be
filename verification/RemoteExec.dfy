/** A remote command from end to end: the script prints the output and a trailer,
    the stream writer forwards a capped prefix and keeps the ring, and the view
    hides the trailer. */
module RemoteExec {
  import Decimal
  import opened Options
  import opened RingMeta
  import opened Search
  import opened StreamWriter
  import UiFilter

  function First(s: string, n: int): string {
    s[..Min(|s|, Max(n, 0))]
  }

  /** Output, directory and late output do not contain the session's tag themselves. */
  predicate TagFree(out: string, sid: string, dir: string, late: string) {
    Index(out, Tag(sid)) < 0 && Index(dir, Tag(sid)) < 0 && Index(late, Tag(sid)) < 0
  }

  /** Positions of the tag that would need a newline inside it do not exist. */
  lemma NoTagAcross(s: string, sid: string, i: nat, nl: nat)
    requires IsSalt(sid) && i <= nl < i + |Tag(sid)| && nl < |s| && s[nl] == '\n'
    ensures !OccursAt(s, Tag(sid), i)
  {
    TagShape(sid);
    var window := if i + |Tag(sid)| <= |s| then s[i..i + |Tag(sid)|] else [];
    assert window != [] ==> window[nl - i] == s[nl];
  }

  /** What follows the output: the trailer, and what comes late. */
  function Trailer(sid: string, code: nat, dir: string, late: string): string {
    Line(sid, code, dir) + ("\n" + late)
  }

  lemma HeadAndTrailer(out: string, sid: string, code: nat, dir: string, late: string)
    ensures Stream(out, sid, code, dir, late) == (out + "\n") + Trailer(sid, code, dir, late)
  {
    StreamParts(out, sid, code, dir, late);
    Associative(out + "\n", Line(sid, code, dir), "\n" + late);
  }

  /** No tag reaches over a newline: it lies in what comes before or after. */
  lemma TagOnOneSide(a: string, b: string, sid: string, i: nat)
    requires IsSalt(sid) && OccursAt(a + ("\n" + b), Tag(sid), i)
    ensures OccursAt(a, Tag(sid), i) || (i > |a| && OccursAt(b, Tag(sid), i - |a| - 1))
  {
    var s := a + ("\n" + b);
    if i + |Tag(sid)| <= |a| {
      OccursInPrefix(a, "\n" + b, Tag(sid), i);
    } else if i <= |a| {
      NoTagAcross(s, sid, i, |a|);
    } else {
      assert s[|a| + 1..] == b;
      OccursInSuffix(s, |a| + 1, Tag(sid), i - |a| - 1);
    }
  }

  /** The tag sits at the start of the trailer and nowhere else. */
  lemma TagPosition(out: string, sid: string, code: nat, dir: string, late: string, i: nat)
    requires IsSalt(sid) && TagFree(out, sid, dir, late)
    requires OccursAt(Stream(out, sid, code, dir, late), Tag(sid), i)
    ensures i == |out| + 1
  {
    var line, trailer := Line(sid, code, dir), Trailer(sid, code, dir, late);
    HeadAndTrailer(out, sid, code, dir, late);
    Associative(out, "\n", trailer);
    IndexSpec(out, Tag(sid));
    TagOnOneSide(out, trailer, sid, i);
    var j := i - |out| - 1;
    IndexSpec(late, Tag(sid));
    TagOnOneSide(line, late, sid, j);
    if j > 0 {
      NoLaterTag(sid, code, dir, j);
    }
  }

  // ---- What the filter leaves ----

  lemma NoMarkerFirst(x: string, m: string, k: nat)
    requires k <= |x| && Index(x, m) < 0
    ensures !UiFilter.Hidden(x[..k], m)
  {
    IndexSpec(x, m);
    assert UiFilter.Hidden(x[..k], m) ==> OccursAt(x, m, 0);
  }

  lemma {:induction false} LinesStay(x: string, z: string, m: string)
    requires Index(x, m) < 0 && (x == [] || x[|x| - 1] == '\n')
    ensures UiFilter.Filter(x + z, m) == x + UiFilter.Filter(z, m)
    decreases |x|
  {
    if x == [] {
      NilNeutral(z);
      NilNeutral(UiFilter.Filter(z, m));
    } else {
      UiFilter.NoNewline(x);
      var k := Index(x, "\n") + 1;
      IndexAppend(x, z, "\n");
      SliceAppend(x, z, k);
      NoMarkerFirst(x, m, k);
      IndexDrop(x, m, k);
      LinesStay(x[k..], z, m);
      Associative(x[..k], x[k..], UiFilter.Filter(z, m));
      SplitAt(x, k);
    }
  }

  lemma {:induction false} AllStays(x: string, m: string)
    requires Index(x, m) < 0
    ensures UiFilter.Filter(x, m) == x
    decreases |x|
  {
    if x != [] {
      var k := Index(x, "\n") + 1;
      if k == 0 {
        NoMarkerFirst(x, m, |x|);
        assert x[..|x|] == x;
      } else {
        NoMarkerFirst(x, m, k);
        IndexDrop(x, m, k);
        AllStays(x[k..], m);
        SplitAt(x, k);
      }
    }
  }

  lemma PartOfLine(first: string, m: string, k: nat)
    requires '\n' !in first && m != "" && m <= first && k <= |first|
    ensures UiFilter.Filter(first[..k], m) == if k < |m| then m[..k] else []
  {
    var z := first[..k];
    UiFilter.NoNewline(z);
    assert k < |m| ==> z == m[..k];
    assert k >= |m| ==> m <= z;
  }

  lemma CutInFirst(first: string, more: string, k: nat)
    requires k <= |first|
    ensures ((first + "\n") + more)[..k] == first[..k]
  {
  }

  /** What the filter leaves of a line that starts with the marker and of what follows,
      cut off after `k` bytes: the start of a marker that is not complete, or the lines
      after it. */
  lemma FirstLineGoes(z: string, first: string, more: string, m: string, k: nat)
    requires '\n' !in first && m != "" && m <= first && Index(more, m) < 0
    requires k <= |first| + 1 + |more| && z == ((first + "\n") + more)[..k]
    ensures UiFilter.Filter(z, m) == if k < |m| then m[..k] else First(more, k - |first| - 1)
  {
    if k <= |first| {
      CutInFirst(first, more, k);
      PartOfLine(first, m, k);
    } else {
      LineThenRest(z, first, more, m, k);
      AfterLine(more, m, k - |first| - 1);
    }
  }

  lemma AfterLine(more: string, m: string, k: nat)
    requires k <= |more| && Index(more, m) < 0
    ensures [] + UiFilter.Filter(more[..k], m) == First(more, k)
  {
    PrefixIsTagFree(more, m, k);
    AllStays(more[..k], m);
    NilNeutral(more[..k]);
  }

  lemma LineThenRest(z: string, first: string, more: string, m: string, k: nat)
    requires '\n' !in first && m != "" && m <= first
    requires |first| < k <= |first| + 1 + |more| && z == ((first + "\n") + more)[..k]
    ensures UiFilter.Filter(z, m) == [] + UiFilter.Filter(more[..k - |first| - 1], m)
  {
    var line, rest := first + "\n", more[..k - |first| - 1];
    assert z == line + rest;
    NewlineEnds(first);
    IndexAppend(line, rest, "\n");
    SliceAppend(line, rest, |line|);
    HiddenLine(z, line, rest, m);
  }

  lemma HiddenLine(z: string, line: string, rest: string, m: string)
    requires line != [] && Index(z, "\n") == |line| - 1 && z == line + rest && m != "" && m <= line
    ensures UiFilter.Filter(z, m) == [] + UiFilter.Filter(rest, m)
  {
    assert z[..|line|] == line && z[|line|..] == rest;
  }

  lemma NewlineEnds(first: string)
    requires '\n' !in first
    ensures Index(first + "\n", "\n") == |first|
  {
    UiFilter.NoNewline(first);
    UiFilter.NoNewline(first + "\n");
    assert (first + "\n")[|first|] == '\n';
  }

  /** The lines of the directory after its first one. */
  function LaterLines(dir: string): string {
    var nl := Index(dir, "\n");
    if nl < 0 then "" else dir[nl + 1..] + "\n"
  }

  /** The trailer is its first line, which starts with the tag, and visible text. */
  lemma TrailerParts(sid: string, code: nat, dir: string, late: string) returns (first: string)
    requires IsSalt(sid) && Index(dir, Tag(sid)) < 0
    ensures '\n' !in first && Tag(sid) <= first
    ensures Trailer(sid, code, dir, late) == (first + "\n") + (LaterLines(dir) + late)
  {
    var nl := Index(dir, "\n");
    UiFilter.NoNewline(dir);
    if nl < 0 {
      first := Line(sid, code, dir);
      LineShape(sid, code, dir);
      NilNeutral(late);
      Associative(first, "\n", late);
    } else {
      var a, b := dir[..nl], dir[nl + 1..];
      first := Line(sid, code, a);
      LineShape(sid, code, a);
      SplitAround(dir, nl);
      LineSplits(sid, code, a, b);
      Associative(first + "\n", b, "\n" + late);
      Associative(b, "\n", late);
    }
  }

  lemma LineSplits(sid: string, code: nat, a: string, b: string)
    ensures Line(sid, code, a + ("\n" + b)) == (Line(sid, code, a) + "\n") + b
  {
  }

  lemma VisibleIsTagFree(sid: string, dir: string, late: string)
    requires IsSalt(sid) && Index(dir, Tag(sid)) < 0 && Index(late, Tag(sid)) < 0
    ensures Index(LaterLines(dir) + late, Tag(sid)) < 0
  {
    var nl, tag := Index(dir, "\n"), Tag(sid);
    NilNeutral(late);
    if nl >= 0 {
      var b := dir[nl + 1..];
      IndexDrop(dir, tag, nl + 1);
      Associative(b, "\n", late);
      IndexSpec(b, tag);
      IndexSpec(late, tag);
      IndexSpec(b + ("\n" + late), tag);
      var i := Index(b + ("\n" + late), tag);
      if i >= 0 {
        TagOnOneSide(b, late, sid, i);
      }
    }
  }

  /** What the view shows when the first `limit` bytes reach it: the output, then the
      start of the tag if the cap falls inside it, or else what the cap leaves of the
      directory's later lines and the late output. */
  function Shown(out: string, sid: string, code: nat, dir: string, late: string, limit: int): string {
    var head, more := out + "\n", LaterLines(dir) + late;
    var hidden := |Trailer(sid, code, dir, late)| - |more|;
    First(head, limit) +
    if |head| < limit < |head| + |Tag(sid)| then Tag(sid)[..limit - |head|] else First(more, limit - |head| - hidden)
  }

  lemma FilterOfPrefix(out: string, sid: string, code: nat, dir: string, late: string, limit: int)
    requires IsSalt(sid) && TagFree(out, sid, dir, late)
    ensures UiFilter.Filter(First(Stream(out, sid, code, dir, late), limit), Tag(sid))
         == Shown(out, sid, code, dir, late, limit)
  {
    var head, trailer, more := out + "\n", Trailer(sid, code, dir, late), LaterLines(dir) + late;
    HeadAndTrailer(out, sid, code, dir, late);
    HeadIsTagFree(out, sid);
    var first := TrailerParts(sid, code, dir, late);
    VisibleIsTagFree(sid, dir, late);
    TagShape(sid);
    if limit <= |head| {
      FilterOfHead(head, trailer, Tag(sid), limit);
      NilNeutral(First(head, limit));
    } else {
      FilterOfTrailer(head, trailer, first, more, Tag(sid), limit);
    }
  }

  lemma FilterOfHead(head: string, trailer: string, m: string, limit: int)
    requires Index(head, m) < 0 && limit <= |head|
    ensures UiFilter.Filter(First(head + trailer, limit), m) == First(head, limit)
  {
    var k := Max(limit, 0);
    SliceAppend(head, trailer, k);
    PrefixIsTagFree(head, m, k);
    AllStays(head[..k], m);
  }

  lemma FilterOfTrailer(head: string, trailer: string, first: string, more: string, m: string, limit: int)
    requires Index(head, m) < 0 && head != [] && head[|head| - 1] == '\n' && limit > |head|
    requires trailer == (first + "\n") + more && '\n' !in first && m != "" && m <= first && Index(more, m) < 0
    ensures UiFilter.Filter(First(head + trailer, limit), m)
         == First(head, limit) + if limit - |head| < |m| then m[..limit - |head|]
                                 else First(more, limit - |head| - |first| - 1)
  {
    var k := Min(|trailer|, limit - |head|);
    HeadThenPart(head, trailer, limit);
    LinesStay(head, trailer[..k], m);
    FirstLineGoes(trailer[..k], first, more, m, k);
    SameFirst(more, k - |first| - 1, limit - |head| - |first| - 1);
  }

  lemma SameFirst(s: string, a: int, b: int)
    requires a == b || (a <= b && |s| <= a)
    ensures First(s, a) == First(s, b)
  {
  }

  lemma HeadThenPart(head: string, trailer: string, limit: int)
    requires limit > |head|
    ensures First(head + trailer, limit) == head + trailer[..Min(|trailer|, limit - |head|)]
    ensures First(head, limit) == head
  {
  }

  lemma HeadIsTagFree(out: string, sid: string)
    requires IsSalt(sid) && Index(out, Tag(sid)) < 0
    ensures Index(out + "\n", Tag(sid)) < 0
  {
    var i := Index(out + "\n", Tag(sid));
    IndexSpec(out + "\n", Tag(sid));
    IndexAppend(out, "\n", Tag(sid));
    if i >= 0 {
      NoTagAcross(out + "\n", sid, i, |out|);
    }
  }

  lemma PrefixIsTagFree(x: string, m: string, k: nat)
    requires k <= |x| && Index(x, m) < 0
    ensures Index(x[..k], m) < 0
  {
    SplitAt(x, k);
    IndexAppend(x[..k], x[k..], m);
  }

  lemma SentIsTame(out: string, sid: string, code: nat, dir: string, late: string, limit: int)
    requires IsSalt(sid) && TagFree(out, sid, dir, late)
    ensures UiFilter.Tame("", First(Stream(out, sid, code, dir, late), limit), Tag(sid))
  {
    var s := Stream(out, sid, code, dir, late);
    var x := First(s, limit);
    forall i | 0 < i <= |x| && OccursAt(x, Tag(sid), i) ensures x[i - 1] == '\n' {
      SplitAt(s, |x|);
      OccursInPrefix(x, s[|x|..], Tag(sid), i);
      TagPosition(out, sid, code, dir, late, i);
      assert s[|out|] == '\n';
    }
    UiFilter.LineStartsAreTame(x, Tag(sid));
  }

  /** However the remote host cuts its writes and however the forwarded bytes are cut
      into chunks, the user sees `Shown`, and at the same time the session gets the
      printed exit code and directory exactly when the directory survives the trip. */
  lemma EndToEnd(writes: seq<string>, chunks: seq<string>, limit: int,
                 out: string, sid: string, code: nat, dir: string, late: string)
    requires IsSalt(sid) && code <= Decimal.MAX_INT && TagFree(out, sid, dir, late)
    requires Concat(writes) == Stream(out, sid, code, dir, late)
    requires Concat(chunks) == WriteAll(NOTHING, writes, limit, RING).sent
    ensures UiFilter.Display("", chunks, Tag(sid)) == Shown(out, sid, code, dir, late, limit)
    ensures ParseRingMeta(WriteAll(NOTHING, writes, limit, RING).tail, sid) == Some(Meta(code, dir))
        <==> Survives(sid, code, dir, late)
  {
    var sent := First(Stream(out, sid, code, dir, late), limit);
    StreamWriterTheorem(writes, limit, RING);
    TagShape(sid);
    SentIsTame(out, sid, code, dir, late, limit);
    UiFilter.ChunkIndependence(sent, Tag(sid));
    assert UiFilter.Faithful(chunks, sent, Tag(sid));
    FilterOfPrefix(out, sid, code, dir, late, limit);
    TrailerRoundTrip(writes, limit, out, sid, code, dir, late);
  }

  // ---- When the trailer stays out of sight ----

  lemma ShownWhole(out: string, sid: string, code: nat, dir: string, late: string, limit: int)
    requires IsSalt(sid) && Index(dir, Tag(sid)) < 0 && |Stream(out, sid, code, dir, late)| <= limit
    ensures Shown(out, sid, code, dir, late, limit) == (out + "\n") + (LaterLines(dir) + late)
  {
    HeadAndTrailer(out, sid, code, dir, late);
    var first := TrailerParts(sid, code, dir, late);
    var more := LaterLines(dir) + late;
    assert First(more, limit - |out + "\n"| - |first| - 1) == more;
    assert First(out + "\n", limit) == out + "\n";
  }

  /** Below the cap the user sees the output, a newline and late output, and nothing of
      the trailer, if and only if the directory has no newline. */
  lemma TrailerHidden(writes: seq<string>, chunks: seq<string>, limit: int,
                      out: string, sid: string, code: nat, dir: string, late: string)
    requires IsSalt(sid) && code <= Decimal.MAX_INT && TagFree(out, sid, dir, late)
    requires Concat(writes) == Stream(out, sid, code, dir, late) && |Concat(writes)| <= limit
    requires Concat(chunks) == WriteAll(NOTHING, writes, limit, RING).sent
    ensures UiFilter.Display("", chunks, Tag(sid)) == (out + "\n") + late <==> '\n' !in dir
  {
    EndToEnd(writes, chunks, limit, out, sid, code, dir, late);
    ShownWhole(out, sid, code, dir, late, limit);
    UiFilter.NoNewline(dir);
    NilNeutral(late);
  }

  /** In a directory named a, newline, b, the user sees the b. */
  lemma NewlineShows(chunks: seq<string>, sid: string, code: nat)
    requires IsSalt(sid) && code <= Decimal.MAX_INT
    requires Concat(chunks) == ScriptOutput("", sid, code, "/a\nb")
    ensures UiFilter.Display("", chunks, Tag(sid)) == "\nb\n"
  {
    var dir := "/a\nb";
    ShortIsTagFree(sid, dir);
    ShownAtOnce(chunks, "", sid, code, dir);
    SecondLine(dir);
  }

  lemma ShownAtOnce(chunks: seq<string>, out: string, sid: string, code: nat, dir: string)
    requires IsSalt(sid) && code <= Decimal.MAX_INT && TagFree(out, sid, dir, "")
    requires Concat(chunks) == ScriptOutput(out, sid, code, dir)
    ensures UiFilter.Display("", chunks, Tag(sid)) == (out + "\n") + LaterLines(dir)
  {
    var s := ScriptOutput(out, sid, code, dir);
    NilNeutral(s);
    ConcatOne(s);
    StreamWriterTheorem([s], |s|, RING);
    assert s[..|s|] == s;
    EndToEnd([s], chunks, |s|, out, sid, code, dir, "");
    ShownWhole(out, sid, code, dir, "", |s|);
    NilNeutral(LaterLines(dir));
  }

  lemma SecondLine(dir: string)
    requires dir == "/a\nb"
    ensures LaterLines(dir) == "b\n"
  {
    UiFilter.NoNewline(dir);
    assert dir[2] == '\n' && dir[3..] == "b";
  }

  lemma ConcatOne(s: string)
    ensures Concat([s]) == s
  {
    assert [s][1..] == [];
    NilNeutral(s);
  }

  lemma ShortIsTagFree(sid: string, dir: string)
    requires |dir| < |Tag("")|
    ensures TagFree("", sid, dir, "")
  {
  }
}
