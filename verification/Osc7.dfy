/** The OSC 7 working-directory scanner of a terminal read loop: reports
    `ESC ] 7 ; payload BEL` or `ESC ] 7 ; payload ESC \` are cut out of a byte
    stream that arrives in arbitrary pieces. One `char` stands for one byte. */
module Osc7 {
  import opened Search

  const ESC: char := '\U{1b}'
  const BEL: char := '\U{7}'
  const MARKER: string := [ESC, ']', '7', ';']
  const MAX_PAYLOAD: nat := 8192
  const KEEP: nat := 64

  // ---- The one-shot specification ----

  /** A terminator: where it starts and where the stream continues. */
  datatype End = Unended | End(at: nat, next: nat)

  function FindEnd(rest: string, from: nat): (e: End)
    ensures e.End? ==> from <= e.at < e.next <= |rest|
    decreases |rest| - from
  {
    if from >= |rest| then Unended
    else if rest[from] == BEL then End(from, from + 1)
    else if rest[from] == ESC && from + 1 < |rest| && rest[from + 1] == '\\' then End(from, from + 2)
    else FindEnd(rest, from + 1)
  }

  /** The first report of a stream. `span` counts payload and terminator. */
  datatype Cut = Clear | Open(tail: string) | Report(payload: string, span: nat, next: string)

  function FirstReport(s: string): (c: Cut)
    ensures c.Report? ==> |c.next| < |s|
  {
    var start := Index(s, MARKER);
    if start < 0 then Clear
    else
      var rest := s[start + 4..];
      var end := FindEnd(rest, 0);
      if end.Unended? then Open(s[start..])
      else Report(rest[..end.at], end.next, rest[end.next..])
  }

  datatype Scan = Scan(payloads: seq<string>, carry: string)

  /** Cuts a whole stream left to right; `carry` is what no complete report consumed. */
  function Parse(s: string): Scan
    decreases |s|
  {
    match FirstReport(s)
    case Clear => Scan([], s)
    case Open(tail) => Scan([], tail)
    case Report(payload, _, next) =>
      var later := Parse(next);
      Scan([payload] + later.payloads, later.carry)
  }

  /** Every completed report stayed within the cap until its last byte arrived. */
  predicate Tame(s: string)
    decreases |s|
  {
    match FirstReport(s)
    case Clear => true
    case Open(_) => true
    case Report(_, span, next) => span - 1 <= MAX_PAYLOAD && Tame(next)
  }

  /** What one call keeps of its residue. */
  function Trim(residue: string): string {
    if Index(residue, MARKER) < 0 then
      if |residue| > KEEP then residue[|residue| - KEEP..] else residue
    else if |residue| - 4 > MAX_PAYLOAD then []
    else residue
  }

  function FeedAll(carry: string, chunks: seq<string>): seq<string>
    decreases |chunks|
  {
    if chunks == [] then []
    else
      var scan := Parse(carry + chunks[0]);
      scan.payloads + FeedAll(Trim(scan.carry), chunks[1..])
  }

  function LastOf(payloads: seq<string>): string {
    if payloads == [] then "" else payloads[|payloads| - 1]
  }

  // ---- The scanner object ----

  /** What a scanner may hold between two calls. */
  ghost predicate Bounded(pending: string) {
    && |pending| <= 4 + MAX_PAYLOAD
    && ((FirstReport(pending).Clear? && |pending| <= KEEP) || FirstReport(pending) == Open(pending))
  }

  method FindTerminator(rest: string) returns (end: End)
    ensures end == FindEnd(rest, 0)
  {
    var i := 0;
    while i < |rest|
      invariant 0 <= i <= |rest|
      invariant FindEnd(rest, 0) == FindEnd(rest, i)
    {
      if rest[i] == BEL {
        return End(i, i + 1);
      }
      if rest[i] == ESC && i + 1 < |rest| && rest[i + 1] == '\\' {
        return End(i, i + 2);
      }
      i := i + 1;
    }
    end := Unended;
  }

  /** One round of the scanner's loop, up to what it keeps. */
  method CutReport(s: string) returns (cut: Cut)
    ensures cut == FirstReport(s)
  {
    var start := Index(s, MARKER);
    if start < 0 {
      return Clear;
    }
    var rest := s[start + 4..];
    var end := FindTerminator(rest);
    cut := if end.Unended? then Open(s[start..]) else Report(rest[..end.at], end.next, rest[end.next..]);
  }

  /** What a call keeps when no complete report is left. */
  method Remainder(s: string, cut: Cut) returns (kept: string)
    requires cut == FirstReport(s) && !cut.Report?
    ensures kept == Trim(Parse(s).carry)
  {
    if cut.Clear? {
      // a short tail is enough for a marker split across two chunks
      kept := if |s| > KEEP then s[|s| - KEEP..] else s;
    } else {
      OpenTail(s);
      kept := if |cut.tail| - 4 > MAX_PAYLOAD then [] else cut.tail;
    }
  }

  class Osc7Scanner {
    var pending: string
    ghost var extracted: seq<string>  // every payload completed so far

    constructor ()
      ensures pending == "" && extracted == []
    {
      pending, extracted := "", [];
    }

    method Feed(chunk: string) returns (last: string)
      modifies this
      ensures extracted == old(extracted) + Parse(old(pending) + chunk).payloads
      ensures pending == Trim(Parse(old(pending) + chunk).carry)
      ensures last == LastOf(Parse(old(pending) + chunk).payloads)
      ensures Bounded(pending)
    {
      pending := pending + chunk;
      last := "";
      ghost var all := pending;
      ghost var found: seq<string> := [];
      NilNeutral(Parse(all).payloads);
      while true
        invariant After(found, pending) == Parse(all)
        invariant extracted == old(extracted)
        invariant last == LastOf(found)
        decreases |pending|
      {
        var cut := CutReport(pending);
        if !cut.Report? {
          pending := Remainder(pending, cut);
          NilNeutral(found);
          TrimIsBounded(all);
          extracted := extracted + found;
          return;
        }
        NextFound(found, pending);
        last := cut.payload;
        found := found + [last];
        pending := cut.next;
      }
    }
  }

  lemma NextFound(found: seq<string>, s: string)
    requires FirstReport(s).Report?
    ensures After(found + [FirstReport(s).payload], FirstReport(s).next) == After(found, s)
    ensures LastOf(found + [FirstReport(s).payload]) == FirstReport(s).payload
  {
    Associative(found, [FirstReport(s).payload], Parse(FirstReport(s).next).payloads);
  }

  /** The outcome of a parse that has already produced `found` and has `s` left. */
  ghost function After(found: seq<string>, s: string): Scan {
    Scan(found + Parse(s).payloads, Parse(s).carry)
  }

  lemma OpenTail(s: string)
    requires FirstReport(s).Open?
    ensures Index(FirstReport(s).tail, MARKER) == 0
  {
    IndexDrop(s, MARKER, Index(s, MARKER));
  }

  /** The residue of a parse holds no complete report. */
  lemma {:induction false} CarryShape(s: string)
    ensures var c := Parse(s).carry; FirstReport(c).Clear? || FirstReport(c) == Open(c)
    decreases |s|
  {
    match FirstReport(s)
    case Clear =>
    case Open(_) =>
      DropFront(s, Index(s, MARKER));
    case Report(_, _, next) =>
      CarryShape(next);
  }

  /** Whatever was fed, the scanner holds at most 8196 bytes: a short tail
      without a marker, or one unterminated report. */
  lemma TrimIsBounded(s: string)
    ensures Bounded(Trim(Parse(s).carry))
  {
    CarryShape(s);
    var c := Parse(s).carry;
    if Index(c, MARKER) < 0 && |c| > KEEP {
      IndexDrop(c, MARKER, |c| - KEEP);
    }
  }

  /** What is kept, in numbers: without a marker the last 64 bytes, with an unterminated
      report all of it up to 8196 bytes, and nothing beyond. */
  lemma KeptInNumbers(s: string)
    ensures var c := Parse(s).carry;
      if Index(c, MARKER) < 0 then Trim(c) == if |c| > 64 then c[|c| - 64..] else c
      else MARKER <= c && FirstReport(c) == Open(c) && Trim(c) == if |c| > 8196 then [] else c
  {
    CarryShape(s);
    IndexSpec(Parse(s).carry, MARKER);
  }

  // ---- One cut at a time ----

  /** Bytes before the first marker never matter. */
  lemma DropFront(s: string, k: nat)
    requires k <= |s|
    requires Index(s, MARKER) < 0 || k <= Index(s, MARKER)
    ensures FirstReport(s[k..]) == FirstReport(s)
  {
    IndexDrop(s, MARKER, k);
    var i := Index(s, MARKER);
    if i >= 0 {
      SliceSlice(s, k, i - k);
      SliceSlice(s, k, i - k + 4);
      CutsAgree(s, s[k..], i, i - k);
    }
  }

  lemma CutsAgree(s: string, t: string, i: nat, j: nat)
    requires Index(s, MARKER) == i && Index(t, MARKER) == j
    requires s[i..] == t[j..] && s[i + 4..] == t[j + 4..]
    ensures FirstReport(s) == FirstReport(t)
  {
  }

  lemma SameReport(s: string, t: string)
    requires FirstReport(s) == FirstReport(t)
    ensures Parse(s).payloads == Parse(t).payloads
    ensures Tame(s) == Tame(t)
  {
  }

  lemma {:induction false} FindEndAppend(rest: string, t: string, from: nat)
    ensures var e, f := FindEnd(rest, from), FindEnd(rest + t, from);
      if e.End? then f == e else f.Unended? || f.next > |rest|
    decreases |rest| - from
  {
    if from < |rest| && !(rest[from] == BEL) && !(rest[from] == ESC && from + 1 < |rest| && rest[from + 1] == '\\') {
      FindEndAppend(rest, t, from + 1);
    }
  }

  lemma ReportAppend(s: string, t: string)
    requires FirstReport(s).Report?
    ensures var c := FirstReport(s); FirstReport(s + t) == Report(c.payload, c.span, c.next + t)
  {
    var start := Index(s, MARKER);
    var rest := s[start + 4..];
    var end := FindEnd(rest, 0);
    IndexAppend(s, t, MARKER);
    FindEndAppend(rest, t, 0);
    SliceAppend(s, t, start + 4);
    SliceAppend(rest, t, end.at);
    SliceAppend(rest, t, end.next);
  }

  lemma OpenAppend(s: string, t: string)
    requires FirstReport(s).Open?
    ensures var c := FirstReport(s);
      && FirstReport(s + t) == FirstReport(c.tail + t)
      && (FirstReport(s + t).Report? ==> FirstReport(s + t).span > |c.tail| - 4)
  {
    var start := Index(s, MARKER);
    IndexAppend(s, t, MARKER);
    DropFront(s + t, start);
    SliceAppend(s, t, start);
    SliceAppend(s, t, start + 4);
    FindEndAppend(s[start + 4..], t, 0);
  }

  // ---- Chunk independence ----

  /** Parsing in two steps: the second step starts from the residue of the first. */
  lemma {:induction false} ParseAppend(s: string, t: string)
    ensures Parse(s + t).payloads == Parse(s).payloads + Parse(Parse(s).carry + t).payloads
    ensures Tame(s + t) <==> Tame(s) && Tame(Parse(s).carry + t)
    decreases |s|
  {
    var later := Parse(Parse(s).carry + t).payloads;
    NilNeutral(later);
    match FirstReport(s)
    case Clear =>
    case Open(tail) =>
      OpenAppend(s, t);
      SameReport(s + t, tail + t);
    case Report(payload, _, next) =>
      ReportAppend(s, t);
      ParseAppend(next, t);
      Associative([payload], Parse(next).payloads, later);
  }

  lemma {:induction false} FindEndShift(front: string, t: string, from: nat)
    ensures FindEnd(t, from).End? <==> FindEnd(front + t, |front| + from).End?
    decreases |t| - from
  {
    if from < |t| {
      FindEndShift(front, t, from + 1);
    }
  }

  lemma {:induction false} FindEndLater(s: string, from: nat, k: nat)
    requires from <= k && FindEnd(s, from).Unended?
    ensures FindEnd(s, k).Unended?
    decreases k - from
  {
    if from < k && from < |s| {
      FindEndLater(s, from + 1, k);
    }
  }

  lemma NoTerminatorAfter(front: string, t: string, k: nat)
    requires FindEnd(front + t, 0).Unended? && k <= |t|
    ensures FindEnd(t[k..], 0).Unended?
  {
    SplitAt(t, k);
    Associative(front, t[..k], t[k..]);
    FindEndShift(front + t[..k], t[k..], 0);
    FindEndLater(front + t, 0, |front| + k);
  }

  /** Without a terminator nothing is reported. */
  lemma NoTerminatorNoReport(front: string, t: string)
    requires FindEnd(front + t, 0).Unended?
    ensures !FirstReport(t).Report?
  {
    var i := Index(t, MARKER);
    if i >= 0 {
      NoTerminatorAfter(front, t, i + 4);
    }
  }

  lemma TailSound(r: string, t: string, k: nat, tail: string)
    requires FirstReport(r).Clear? && k + KEEP <= |r| && tail == r[k..]
    ensures FirstReport(tail + t) == FirstReport(r + t)
  {
    IndexAppend(r, t, MARKER);
    SliceAppend(r, t, k);
    DropFront(r + t, k);
  }

  lemma TrimTailSound(r: string, t: string)
    requires FirstReport(r).Clear?
    ensures Parse(Trim(r) + t).payloads == Parse(r + t).payloads
    ensures Tame(Trim(r) + t) == Tame(r + t)
  {
    var tail := Trim(r);
    if |r| > KEEP {
      TailSound(r, t, |r| - KEEP, tail);
    }
    SameReport(tail + t, r + t);
  }

  /** A runaway dropped from a tame stream can never be completed. */
  lemma RunawaySound(r: string, t: string)
    requires FirstReport(r) == Open(r) && |r| - 4 > MAX_PAYLOAD
    requires Tame(r + t)
    ensures !FirstReport(r + t).Report? && !FirstReport(t).Report?
  {
    OpenAppend(r, t);
    StillOpen(r, t);
  }

  lemma OpenAtFront(r: string)
    requires FirstReport(r) == Open(r)
    ensures Index(r, MARKER) == 0
  {
    assert |r[Index(r, MARKER)..]| == |r| - Index(r, MARKER);
  }

  lemma UnendedRest(s: string)
    requires Index(s, MARKER) == 0 && !FirstReport(s).Report?
    ensures FindEnd(s[4..], 0).Unended?
  {
  }

  lemma StillOpen(r: string, t: string)
    requires FirstReport(r) == Open(r) && !FirstReport(r + t).Report?
    ensures !FirstReport(t).Report?
  {
    OpenAtFront(r);
    IndexAppend(r, t, MARKER);
    UnendedRest(r + t);
    SliceAppend(r, t, 4);
    NoTerminatorNoReport(r[4..], t);
  }

  lemma NothingReported(s: string)
    requires !FirstReport(s).Report?
    ensures Parse(s).payloads == [] && Tame(s)
  {
  }

  /** Trimming loses nothing that a tame stream could still complete. */
  lemma TrimSound(r: string, t: string)
    requires FirstReport(r).Clear? || FirstReport(r) == Open(r)
    requires Tame(r + t)
    ensures Parse(Trim(r) + t).payloads == Parse(r + t).payloads
    ensures Tame(Trim(r) + t)
  {
    if FirstReport(r).Clear? {
      TrimTailSound(r, t);
    } else if |r| - 4 > MAX_PAYLOAD {
      RunawaySound(r, t);
      NilNeutral(t);
      NothingReported(r + t);
      NothingReported(t);
    }
  }

  lemma {:induction false} FeedAllIsParse(carry: string, chunks: seq<string>)
    requires !FirstReport(carry).Report?
    requires Tame(carry + Concat(chunks))
    ensures FeedAll(carry, chunks) == Parse(carry + Concat(chunks)).payloads
    decreases |chunks|
  {
    if chunks == [] {
      NilNeutral(carry);
    } else {
      var now, later := carry + chunks[0], Concat(chunks[1..]);
      Associative(carry, chunks[0], later);
      ParseAppend(now, later);
      CarryShape(now);
      TrimIsBounded(now);
      TrimSound(Parse(now).carry, later);
      FeedAllIsParse(Trim(Parse(now).carry), chunks[1..]);
    }
  }

  // ---- Where terminators are ----

  predicate Terminates(rest: string, i: nat) {
    i < |rest| && (rest[i] == BEL || (rest[i] == ESC && i + 1 < |rest| && rest[i + 1] == '\\'))
  }

  /** The payload ends at the first terminator. */
  lemma {:induction false} FindEndFirst(rest: string, from: nat, i: nat)
    requires from <= i && Terminates(rest, i)
    ensures var e := FindEnd(rest, from); e.End? && e.at <= i && Terminates(rest, e.at)
    decreases |rest| - from
  {
    if !Terminates(rest, from) {
      FindEndFirst(rest, from + 1, i);
    }
  }

  lemma {:induction false} PayloadsFit(s: string)
    ensures |LastOf(Parse(s).payloads)| <= |s|
    decreases |s|
  {
    match FirstReport(s)
    case Clear =>
    case Open(_) =>
    case Report(payload, _, next) =>
      PayloadsFit(next);
      assert |payload| <= |s|;
  }

  // ---- Streams that are not tame ----

  lemma {:induction false} FindEndLast(rest: string, from: nat)
    ensures var e := FindEnd(rest, from); e.End? ==> rest[e.next - 1] == BEL || rest[e.next - 1] == '\\'
    decreases |rest| - from
  {
    if from < |rest| && FindEnd(rest, from) == FindEnd(rest, from + 1) {
      FindEndLast(rest, from + 1);
    }
  }

  /** A prefix of a terminated payload is terminated only if it reaches the end. */
  lemma PrefixEnd(rest: string, k: nat)
    requires FindEnd(rest, 0).End? && k <= FindEnd(rest, 0).next
    ensures FindEnd(rest[..k], 0) == if k == FindEnd(rest, 0).next then FindEnd(rest, 0) else Unended
  {
    SplitAt(rest, k);
    FindEndAppend(rest[..k], rest[k..], 0);
    if k == FindEnd(rest, 0).next {
      PrefixEnds(rest, 0);
    }
  }

  lemma {:induction false} PrefixEnds(rest: string, from: nat)
    requires FindEnd(rest, from).End?
    ensures FindEnd(rest[..FindEnd(rest, from).next], from) == FindEnd(rest, from)
    decreases |rest| - from
  {
    var e := FindEnd(rest, from);
    if e.at > from {
      PrefixEnds(rest, from + 1);
    }
  }

  /** How a prefix that still holds the marker is cut. */
  lemma PrefixReport(s: string, k: nat)
    requires FirstReport(s).Report?
    requires Index(s, MARKER) + 4 <= k <= Index(s, MARKER) + 4 + FirstReport(s).span
    ensures var start, c := Index(s, MARKER), FirstReport(s);
      FirstReport(s[..k]) == if k == start + 4 + c.span then Report(c.payload, c.span, []) else Open(s[start..k])
  {
    var start := Index(s, MARKER);
    var rest := s[start + 4..];
    var m := k - start - 4;
    SplitAt(s, k);
    IndexAppend(s[..k], s[k..], MARKER);
    TakeThenDrop(s, k, start);
    TakeThenDrop(s, k, start + 4);
    DropThenTake(s, start + 4, m);
    PrefixEnd(rest, m);
    if m == FindEnd(rest, 0).next {
      TakeTake(rest, m, FindEnd(rest, 0).at);
    }
  }

  /** A stream cut right after its first report. */
  lemma ReportSplits(s: string) returns (p: string)
    requires FirstReport(s).Report?
    ensures var c := FirstReport(s);
      s == p + c.next && FirstReport(p) == Report(c.payload, c.span, [])
  {
    var c := FirstReport(s);
    var k := |s| - |c.next|;
    SliceSlice(s, Index(s, MARKER) + 4, c.span);
    PrefixReport(s, k);
    p := s[..k];
    SplitAt(s, k);
  }

  /** A stream cut right after report `j`: nothing is carried over the cut. */
  lemma {:induction false} SplitAfter(s: string, j: nat) returns (a: string, b: string)
    requires j < |Parse(s).payloads|
    ensures s == a + b && Parse(a).carry == []
    ensures Parse(s).payloads == Parse(a).payloads + Parse(b).payloads
    ensures |Parse(a).payloads| == j + 1
    decreases |s|
  {
    var c := FirstReport(s);
    var p := ReportSplits(s);
    if j == 0 {
      a, b := p, c.next;
      assert Parse([]) == Scan([], []);
    } else {
      var a';
      a', b := SplitAfter(c.next, j - 1);
      a := p + a';
      ReportAppend(p, a');
      NilNeutral(a');
      Associative(p, a', b);
      Associative([c.payload], Parse(a').payloads, Parse(b).payloads);
    }
  }

  /** A report taken apart at its last byte. */
  lemma ReportEnds(s: string) returns (a: string, x: char)
    requires FirstReport(s).Report?
    ensures var c := FirstReport(s);
      && s == a + ([x] + c.next) && x != ESC
      && FirstReport(a).Open? && |FirstReport(a).tail| - 4 == c.span - 1
  {
    var start := Index(s, MARKER);
    var rest := s[start + 4..];
    var k := start + 4 + FirstReport(s).span - 1;
    FindEndLast(rest, 0);
    PrefixReport(s, k);
    a, x := s[..k], s[k];
    SliceSlice(s, start + 4, FirstReport(s).span);
    SplitAround(s, k);
  }

  /** The last byte of a report starts no marker. */
  lemma AfterLastByte(x: char, next: string)
    requires x != ESC
    ensures FirstReport([x] + next) == FirstReport(next)
  {
    var b := [x] + next;
    NoMarkerAtFront(b);
    DropFront(b, 1);
    assert b[1..] == next;
  }

  lemma NoMarkerAtFront(s: string)
    requires |s| > 0 && s[0] != ESC
    ensures Index(s, MARKER) != 0
  {
    IndexSpec(s, MARKER);
    if |s| >= 4 {
      assert s[0..4][0] == s[0] && MARKER[0] == ESC;
    }
  }

  lemma FeedOne(carry: string, b: string)
    ensures FeedAll(carry, [b]) == Parse(carry + b).payloads
  {
    assert [b][1..] == [];
    NilNeutral(Parse(carry + b).payloads);
  }

  lemma FeedTwo(a: string, b: string)
    ensures FeedAll("", [a, b]) == Parse(a).payloads + Parse(Trim(Parse(a).carry) + b).payloads
  {
    NilNeutral(a);
    assert [a, b][1..] == [b];
    FeedOne(Trim(Parse(a).carry), b);
  }

  /** A report cut while over-long is lost with everything before the cut. */
  lemma LoseReport(a: string, b: string)
    requires FirstReport(a).Open? && |FirstReport(a).tail| - 4 > MAX_PAYLOAD
    ensures |FeedAll("", [a, b])| == |Parse(b).payloads|
  {
    DropFront(a, Index(a, MARKER));
    NilNeutral(b);
    FeedTwo(a, b);
  }

  /** A split after the first report extracts it and then splits the rest. */
  lemma SplitLater(p: string, payload: string, span: nat, a: string, b: string)
    requires FirstReport(p) == Report(payload, span, [])
    ensures FeedAll("", [p + a, b]) == [payload] + FeedAll("", [a, b])
  {
    ReportAppend(p, a);
    NilNeutral(a);
    FeedTwo(p + a, b);
    FeedTwo(a, b);
    Associative([payload], Parse(a).payloads, Parse(Trim(Parse(a).carry) + b).payloads);
  }

  ghost predicate Loses(a: string, b: string, s: string) {
    a + b == s && |FeedAll("", [a, b])| < |Parse(s).payloads|
  }

  /** A stream that is not tame has a two-chunk split on which a report is lost. */
  lemma {:induction false} LosingSplit(s: string) returns (a: string, b: string)
    requires !Tame(s)
    ensures Loses(a, b, s)
    decreases |s|
  {
    var c := FirstReport(s);
    if c.span - 1 > MAX_PAYLOAD {
      var x;
      a, x := ReportEnds(s);
      b := [x] + c.next;
      AfterLastByte(x, c.next);
      LoseReport(a, b);
      SameReport(b, c.next);
    } else {
      var a', b' := LosingSplit(c.next);
      var p := ReportSplits(s);
      a, b := p + a', b';
      Associative(p, a', b');
      SplitLater(p, c.payload, c.span, a', b');
    }
  }

  ghost predicate Faithful(chunks: seq<string>, s: string) {
    FeedAll("", chunks) == Parse(s).payloads
  }

  /** The scanner extracts the reports of a stream under every chunking if and
      only if the stream is tame. */
  lemma ChunkIndependence(s: string)
    ensures Tame(s) <==> forall chunks :: Concat(chunks) == s ==> Faithful(chunks, s)
  {
    if Tame(s) {
      forall chunks | Concat(chunks) == s
        ensures Faithful(chunks, s)
      {
        NilNeutral(s);
        FeedAllIsParse("", chunks);
      }
    } else {
      var a, b := LosingSplit(s);
      ConcatTwo(a, b);
      assert !Faithful([a, b], s);
    }
  }
}
