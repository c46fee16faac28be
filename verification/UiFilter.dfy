/** The terminal view's marker filter: output arrives in decoded chunks, lines
    that start with the session's marker never appear, and partial lines are
    shown as soon as they cannot become a marker line. */
module UiFilter {
  import opened Search

  // ---- What the view should show ----

  /** An absent marker is the empty string. */
  predicate Hidden(line: string, m: string) {
    m != "" && m <= line
  }

  /** The text could still turn into, or already starts, a marker. */
  predicate Held(text: string, m: string) {
    m != "" && (text <= m || m <= text)
  }

  /** The stream without the lines that start with the marker. */
  function Filter(s: string, m: string): string
    decreases |s|
  {
    if s == [] then []
    else
      var nl := Index(s, "\n");
      if nl < 0 then if Hidden(s, m) then [] else s
      else (if Hidden(s[..nl + 1], m) then [] else s[..nl + 1]) + Filter(s[nl + 1..], m)
  }

  // ---- What the view does ----

  datatype Drained = Drained(flush: string, rest: string)

  /** Takes the complete lines off the front. */
  function Drain(p: string, m: string): (d: Drained)
    decreases |p|
  {
    var nl := Index(p, "\n");
    if nl < 0 then Drained([], p)
    else
      var later := Drain(p[nl + 1..], m);
      Drained((if Hidden(p[..nl + 1], m) then [] else p[..nl + 1]) + later.flush, later.rest)
  }

  /** Text appended by one chunk, and the pending line after it. */
  function Step(pending: string, value: string, m: string): Drained {
    if value == "" then Drained([], pending)
    else
      var d := Drain(pending + value, m);
      if d.rest != "" && !Held(d.rest, m) then Drained(d.flush + d.rest, "") else d
  }

  function TailText(pending: string, m: string): string {
    if Hidden(pending, m) then "" else pending
  }

  /** All text appended from here on, up to and including the final flush. */
  function Display(pending: string, chunks: seq<string>, m: string): string
    decreases |chunks|
  {
    if chunks == [] then TailText(pending, m)
    else
      var d := Step(pending, chunks[0], m);
      d.flush + Display(d.rest, chunks[1..], m)
  }

  /** Without a marker every chunk is shown at once. */
  lemma NothingHeld(pending: string, value: string)
    requires value != ""
    ensures Step(pending, value, "") == Drained(pending + value, "")
  {
    DrainsAll(pending + value);
    NilNeutral(pending + value);
  }

  lemma {:induction false} DrainsAll(p: string)
    ensures var d := Drain(p, ""); p == d.flush + d.rest
    decreases |p|
  {
    var nl := Index(p, "\n");
    if nl < 0 {
      NilNeutral(p);
    } else {
      var later := Drain(p[nl + 1..], "");
      DrainsAll(p[nl + 1..]);
      SplitAt(p, nl + 1);
      Associative(p[..nl + 1], later.flush, later.rest);
    }
  }

  class View {
    const marker: string
    var pendingLine: string
    var shown: string

    constructor (marker: string)
      ensures this.marker == marker && pendingLine == "" && shown == ""
    {
      this.marker, pendingLine, shown := marker, "", "";
    }

    method StreamChunk(value: string)
      modifies this
      ensures var d := Step(old(pendingLine), value, marker);
        shown == old(shown) + d.flush && pendingLine == d.rest
      ensures value != "" && pendingLine != "" ==> marker != "" && (pendingLine <= marker || marker <= pendingLine)
      ensures value != "" && marker == "" ==> shown == old(shown) + (old(pendingLine) + value)
    {
      NilNeutral(shown);
      if value == "" {
        return;
      }
      pendingLine := pendingLine + value;
      ghost var all := Drain(pendingLine, marker);
      NothingHeld(old(pendingLine), value);
      var flush := "";
      var nl := Index(pendingLine, "\n");
      NilNeutral(all.flush);
      while nl >= 0
        invariant nl == Index(pendingLine, "\n")
        invariant shown == old(shown)
        invariant all == Drained(flush + Drain(pendingLine, marker).flush, Drain(pendingLine, marker).rest)
        decreases |pendingLine|
      {
        var line := pendingLine[..nl + 1];
        var next := pendingLine[nl + 1..];
        var kept := if marker == "" || !(marker <= line) then line else "";
        Associative(flush, kept, Drain(next, marker).flush);
        pendingLine := next;
        flush := flush + kept;
        nl := Index(pendingLine, "\n");
      }
      NilNeutral(flush);
      var rest := pendingLine;
      if rest != "" && !(marker != "" && (rest <= marker || marker <= rest)) {
        flush := flush + rest;
        pendingLine := "";
      }
      shown := shown + flush;
    }

    method FlushStreamTail()
      modifies this
      ensures shown == old(shown) + TailText(old(pendingLine), marker) && pendingLine == ""
      ensures marker != "" && marker <= old(pendingLine) ==> shown == old(shown)
      ensures marker == "" || !(marker <= old(pendingLine)) ==> shown == old(shown) + old(pendingLine)
    {
      NilNeutral(shown);
      if pendingLine == "" {
        return;
      }
      if !(marker != "" && marker <= pendingLine) {
        shown := shown + pendingLine;
      }
      pendingLine := "";
    }

    method Stream(chunks: seq<string>)
      modifies this
      ensures shown == old(shown) + Display(old(pendingLine), chunks, marker) && pendingLine == ""
    {
      var i := 0;
      assert chunks[0..] == chunks;
      while i < |chunks|
        invariant 0 <= i <= |chunks|
        invariant shown + Display(pendingLine, chunks[i..], marker)
               == old(shown) + Display(old(pendingLine), chunks, marker)
      {
        assert chunks[i..][1..] == chunks[i + 1..];
        var d := Step(pendingLine, chunks[i], marker);
        Associative(shown, d.flush, Display(d.rest, chunks[i + 1..], marker));
        StreamChunk(chunks[i]);
        i := i + 1;
      }
      FlushStreamTail();
    }
  }

  // ---- Where a marker may sit ----

  /** The part of the current line already consumed, after consuming `a` as well. */
  function Fragment(frag: string, a: string): string
    decreases |a|
  {
    if a == [] then frag else Fragment(if a[0] == '\n' then [] else frag + [a[0]], a[1..])
  }

  /** A marker inside a line only follows text the view cannot have shown yet. */
  ghost predicate Tame(frag: string, x: string, m: string) {
    forall i :: 0 <= i <= |x| && OccursAt(x, m, i) ==> Harmless(Fragment(frag, x[..i]), m)
  }

  predicate Harmless(frag: string, m: string) {
    frag == [] || m == [] || Held(frag, m)
  }

  lemma {:induction false} FragmentAppend(frag: string, a: string, b: string)
    ensures Fragment(frag, a + b) == Fragment(Fragment(frag, a), b)
    decreases |a|
  {
    if a == [] {
      NilNeutral(b);
    } else {
      assert (a + b)[1..] == a[1..] + b;
      FragmentAppend(if a[0] == '\n' then [] else frag + [a[0]], a[1..], b);
    }
  }

  lemma {:induction false} FragmentPlain(frag: string, a: string)
    requires '\n' !in a
    ensures Fragment(frag, a) == frag + a
    decreases |a|
  {
    if a == [] {
      NilNeutral(frag);
    } else {
      FragmentPlain(frag + [a[0]], a[1..]);
      Associative(frag, [a[0]], a[1..]);
      assert a == [a[0]] + a[1..];
    }
  }

  lemma TameSuffix(frag: string, a: string, b: string, m: string)
    requires Tame(frag, a + b, m)
    ensures Tame(Fragment(frag, a), b, m)
  {
    forall i | 0 <= i <= |b| && OccursAt(b, m, i) ensures Harmless(Fragment(Fragment(frag, a), b[..i]), m) {
      assert (a + b)[|a|..] == b && (a + b)[..|a| + i] == a + b[..i];
      OccursInSuffix(a + b, |a|, m, i);
      FragmentAppend(frag, a, b[..i]);
    }
  }

  // ---- Lines ----

  lemma NoNewline(a: string)
    ensures Index(a, "\n") < 0 <==> '\n' !in a
    ensures Index(a, "\n") >= 0 ==> a[Index(a, "\n")] == '\n' && '\n' !in a[..Index(a, "\n")]
  {
    IndexSpec(a, "\n");
    var i := Index(a, "\n");
    if i >= 0 {
      assert a[i..i + 1][0] == a[i];
    }
    forall j | 0 <= j < |a| && (i < 0 || j < i) ensures a[j] != '\n' {
      assert !OccursAt(a, "\n", j);
      assert a[j..j + 1] == [a[j]];
    }
  }

  lemma NewlineAfter(rest: string, later: string)
    requires '\n' !in rest
    ensures Index(rest + later, "\n") == if Index(later, "\n") < 0 then -1 else |rest| + Index(later, "\n")
  {
    NoNewline(rest);
    IndexAppend(rest, later, "\n");
    IndexDrop(rest + later, "\n", |rest|);
    SliceAppend(rest, later, |rest|);
    NilNeutral(later);
  }

  lemma {:induction false} DrainFilter(p: string, later: string, m: string)
    ensures var d := Drain(p, m);
      '\n' !in d.rest && Filter(p + later, m) == d.flush + Filter(d.rest + later, m)
    decreases |p|
  {
    NoNewline(p);
    var nl := Index(p, "\n");
    if nl < 0 {
      NilNeutral(Filter(p + later, m));
    } else {
      var line, next := p[..nl + 1], p[nl + 1..];
      DrainFilter(next, later, m);
      IndexAppend(p, later, "\n");
      SliceAppend(p, later, nl + 1);
      Associative(if Hidden(line, m) then [] else line, Drain(next, m).flush, Filter(Drain(next, m).rest + later, m));
    }
  }

  /** Nothing is left of the current line after a newline. */
  lemma {:induction false} FragmentLine(frag: string, line: string)
    requires line != [] && line[|line| - 1] == '\n'
    ensures Fragment(frag, line) == []
    decreases |line|
  {
    if |line| > 1 {
      FragmentLine(if line[0] == '\n' then [] else frag + [line[0]], line[1..]);
    } else {
      assert line[1..] == [];
    }
  }

  /** Draining consumes whole lines `a` and leaves the rest. */
  lemma {:induction false} DrainSplit(frag: string, p: string, m: string) returns (a: string)
    ensures p == a + Drain(p, m).rest
    ensures Fragment(frag, a) == if '\n' in p then [] else frag
    ensures '\n' !in p ==> Drain(p, m) == Drained([], p)
    decreases |p|
  {
    NoNewline(p);
    var nl := Index(p, "\n");
    if nl < 0 {
      a := [];
      NilNeutral(p);
    } else {
      var line, next := p[..nl + 1], p[nl + 1..];
      var a' := DrainSplit([], next, m);
      a := line + a';
      FragmentLine(frag, line);
      FragmentAppend(frag, line, a');
      Associative(line, a', Drain(next, m).rest);
      SplitAt(p, nl + 1);
    }
  }

  // ---- Every chunking shows the filtered stream ----

  /** Text the view shows early is not part of any marker line. */
  lemma FlushSound(frag: string, rest: string, later: string, m: string)
    requires '\n' !in m && '\n' !in rest && rest != [] && !Held(rest, m)
    requires frag == [] || !Held(frag, m)
    requires Tame(frag, rest + later, m)
    ensures !Held(frag + rest, m)
    ensures Tame(frag + rest, later, m)
    ensures Filter(rest + later, m) == rest + Filter(later, m)
  {
    FragmentPlain(frag, rest);
    TameSuffix(frag, rest, later, m);
    assert later[..0] == [];
    assert !Hidden(later, m) by {
      assert Hidden(later, m) ==> OccursAt(later, m, 0);
    }
    LateLine(rest, later, m);
  }

  lemma LateSlices(rest: string, later: string, k: nat)
    requires k <= |later|
    ensures (rest + later)[..|rest| + k] == rest + later[..k]
    ensures (rest + later)[|rest| + k..] == later[k..]
  {
  }

  lemma PrefixesCompare(rest: string, more: string, m: string)
    requires m <= rest + more
    ensures rest <= m || m <= rest
  {
    if |m| >= |rest| {
      assert m[..|rest|] == rest;
    } else {
      assert rest[..|m|] == m;
    }
  }

  lemma PrefixAt(m: string, s: string, k: nat)
    requires m <= s && k < |m|
    ensures m[k] == s[k] && m[k] in m
  {
  }

  /** Text that cannot become a marker line makes its whole line visible. */
  lemma StaysVisible(rest: string, more: string, m: string)
    requires rest != [] && !Held(rest, m)
    ensures !Hidden(rest + more, m)
  {
    if m != "" && m <= rest + more {
      PrefixesCompare(rest, more, m);
    }
  }

  /** The filter on a stream whose first line starts with visible text. */
  lemma VisibleLine(rest: string, later: string, m: string)
    requires '\n' !in rest && rest != [] && !Held(rest, m)
    ensures var nl := Index(later, "\n");
      Filter(rest + later, m) ==
        if nl < 0 then rest + later else (rest + later[..nl + 1]) + Filter(later[nl + 1..], m)
  {
    NewlineAfter(rest, later);
    var nl := Index(later, "\n");
    if nl < 0 {
      StaysVisible(rest, later, m);
    } else {
      StaysVisible(rest, later[..nl + 1], m);
      LateSlices(rest, later, nl + 1);
    }
  }

  lemma HiddenPrefix(s: string, m: string, k: nat)
    requires '\n' !in m && k < |s| && s[k] == '\n'
    ensures Hidden(s[..k + 1], m) <==> Hidden(s, m)
  {
    if m != "" && m <= s && |m| > k {
      PrefixAt(m, s, k);
    }
    assert m <= s[..k + 1] ==> m <= s;
  }

  lemma LateLine(rest: string, later: string, m: string)
    requires '\n' !in m && '\n' !in rest && rest != [] && !Held(rest, m)
    requires !Hidden(later, m)
    ensures Filter(rest + later, m) == rest + Filter(later, m)
  {
    VisibleLine(rest, later, m);
    NoNewline(later);
    var nl := Index(later, "\n");
    if nl >= 0 {
      HiddenPrefix(later, m, nl);
      Associative(rest, later[..nl + 1], Filter(later[nl + 1..], m));
    }
  }

  /** One chunk: what it shows is the front of the filtered stream, and the
      pending line is left where the same holds for the rest. */
  lemma ShowChunk(frag: string, p: string, later: string, m: string) returns (after: string)
    requires '\n' !in m && (frag == [] || !Held(frag, m))
    requires p != [] && Tame(frag, p + later, m)
    ensures var d := Step([], p, m);
      && '\n' !in d.rest && (after == [] || !Held(after, m))
      && Tame(after, d.rest + later, m)
      && Filter(p + later, m) == d.flush + Filter(d.rest + later, m)
  {
    NilNeutral(p);
    var d := Drain(p, m);
    DrainFilter(p, later, m);
    var a := DrainSplit(frag, p, m);
    Associative(a, d.rest, later);
    TameSuffix(frag, a, d.rest + later, m);
    after := Fragment(frag, a);
    if d.rest != [] && !Held(d.rest, m) {
      FlushSound(after, d.rest, later, m);
      after := after + d.rest;
      NilNeutral(later);
      Associative(d.flush, d.rest, Filter(later, m));
    }
  }

  lemma {:induction false} DisplayIsFilter(frag: string, pending: string, chunks: seq<string>, m: string)
    requires '\n' !in m && '\n' !in pending
    requires frag == [] || !Held(frag, m)
    requires Tame(frag, pending + Concat(chunks), m)
    ensures Display(pending, chunks, m) == Filter(pending + Concat(chunks), m)
    decreases |chunks|
  {
    if chunks == [] {
      NilNeutral(pending);
      NoNewline(pending);
    } else {
      var p, later := pending + chunks[0], Concat(chunks[1..]);
      Associative(pending, chunks[0], later);
      if chunks[0] == [] {
        NilNeutral(pending);
        NilNeutral(Display(pending, chunks[1..], m));
        DisplayIsFilter(frag, pending, chunks[1..], m);
      } else {
        NilNeutral(p);
        var after := ShowChunk(frag, p, later, m);
        DisplayIsFilter(after, Step([], p, m).rest, chunks[1..], m);
      }
    }
  }

  // ---- Streams on which some chunking goes wrong ----

  lemma OneChunk(b: string, m: string)
    requires b != []
    ensures Display([], [b], m) == Filter(b, m)
  {
    assert [b][1..] == [];
    NilNeutral(b);
    var d := Drain(b, m);
    DrainFilter(b, [], m);
    NilNeutral(d.rest);
    NoNewline(d.rest);
    NilNeutral(d.flush + d.rest);
  }

  /** A marker line shown after an incomplete line is wrongly dropped with it. */
  lemma LostLine(f: string, b: string, m: string)
    requires '\n' !in m && '\n' !in f && f != [] && !Held(f, m)
    requires Hidden(b, m)
    ensures |Filter(f + b, m)| > |f| + |Filter(b, m)|
  {
    VisibleLine(f, b, m);
    NoNewline(b);
    var nl := Index(b, "\n");
    if nl >= 0 {
      HiddenPrefix(b, m, nl);
    }
  }

  lemma ShownFragment(a: string, m: string)
    requires Fragment([], a) != [] && !Held(Fragment([], a), m)
    ensures var d := Drain(a, m);
      d.rest == Fragment([], a) && Step([], a, m) == Drained(d.flush + d.rest, "")
  {
    NilNeutral(a);
    var d := Drain(a, m);
    var a0 := DrainSplit([], a, m);
    DrainFilter(a, [], m);
    FragmentAppend([], a0, d.rest);
    FragmentPlain([], d.rest);
    NilNeutral(d.rest);
  }

  ghost predicate Faithful(chunks: seq<string>, x: string, m: string) {
    Display("", chunks, m) == Filter(x, m)
  }

  lemma LosingChunks(a: string, b: string, m: string)
    requires '\n' !in m && Hidden(b, m)
    requires !Harmless(Fragment([], a), m)
    ensures !Faithful([a, b], a + b, m)
  {
    var d := Drain(a, m);
    ShownFragment(a, m);
    DrainFilter(a, b, m);
    assert [a, b][1..] == [b];
    OneChunk(b, m);
    LostLine(d.rest, b, m);
  }

  /** For every chunking the text shown after the final flush is exactly the
      stream without its marker lines, if and only if the stream is tame. */
  lemma ChunkIndependence(x: string, m: string)
    requires '\n' !in m
    ensures Tame("", x, m) <==> forall chunks :: Concat(chunks) == x ==> Faithful(chunks, x, m)
  {
    if Tame("", x, m) {
      forall chunks | Concat(chunks) == x ensures Faithful(chunks, x, m) {
        NilNeutral(x);
        DisplayIsFilter("", "", chunks, m);
      }
    } else {
      var i :| 0 <= i <= |x| && OccursAt(x, m, i) && !Harmless(Fragment("", x[..i]), m);
      SplitAt(x, i);
      ConcatTwo(x[..i], x[i..]);
      assert x[i..][..|m|] == m;
      LosingChunks(x[..i], x[i..], m);
    }
  }

  /** Markers that only ever start lines make a stream tame. */
  lemma LineStartsAreTame(x: string, m: string)
    requires forall i :: 0 < i <= |x| && OccursAt(x, m, i) ==> x[i - 1] == '\n'
    ensures Tame("", x, m)
  {
    forall i | 0 <= i <= |x| && OccursAt(x, m, i) ensures Harmless(Fragment("", x[..i]), m) {
      if i > 0 {
        FragmentLine("", x[..i]);
      }
    }
  }

  // ---- What is shown, line by line ----

  /** The lines that do not start with the marker. */
  function Without(lines: seq<string>, m: string): seq<string> {
    if lines == [] then []
    else if m <= lines[0] then Without(lines[1..], m)
    else [lines[0]] + Without(lines[1..], m)
  }

  predicate IsLine(line: string) {
    line != "" && line[|line| - 1] == '\n' && '\n' !in line[..|line| - 1]
  }

  ghost predicate AllLines(lines: seq<string>) {
    forall l :: l in lines ==> IsLine(l)
  }

  lemma LineAt(s: string) returns (line: string, rest: string)
    requires Index(s, "\n") >= 0
    ensures IsLine(line) && s == line + rest && |rest| < |s|
  {
    NoNewline(s);
    var nl := Index(s, "\n");
    line, rest := s[..nl + 1], s[nl + 1..];
    TakeTake(s, nl + 1, nl);
    SplitAt(s, nl + 1);
  }

  lemma MoreLines(line: string, later: seq<string>)
    requires IsLine(line) && AllLines(later)
    ensures AllLines([line] + later)
  {
  }

  /** Every text is a list of lines and an incomplete one. */
  lemma {:induction false} SplitLines(s: string) returns (lines: seq<string>, last: string)
    ensures s == Concat(lines) + last && AllLines(lines) && '\n' !in last
    decreases |s|
  {
    if Index(s, "\n") < 0 {
      NoNewline(s);
      lines, last := [], s;
      NilNeutral(s);
    } else {
      var line, rest := LineAt(s);
      var later, end := SplitLines(rest);
      lines, last := [line] + later, end;
      MoreLines(line, later);
      ConcatCons(line, later);
      Associative(line, Concat(later), end);
    }
  }

  lemma FirstLine(line: string, t: string)
    requires IsLine(line)
    ensures Index(line + t, "\n") == |line| - 1
    ensures (line + t)[..|line|] == line && (line + t)[|line|..] == t
  {
    NoNewline(line);
    IndexAppend(line, t, "\n");
  }

  /** With a marker, the filtered stream is the list of lines that do not start with it;
      without one it is the stream itself. */
  lemma {:induction false} FilterByLine(lines: seq<string>, last: string, m: string)
    requires AllLines(lines) && '\n' !in last
    ensures m != "" ==>
      Filter(Concat(lines) + last, m) == Concat(Without(lines, m)) + if m <= last then "" else last
    ensures m == "" ==> Filter(Concat(lines) + last, m) == Concat(lines) + last
    decreases |lines|
  {
    if lines == [] {
      NilNeutral(last);
      NoNewline(last);
    } else {
      var line, t := lines[0], Concat(lines[1..]) + last;
      FilterByLine(lines[1..], last, m);
      Associative(line, Concat(lines[1..]), last);
      FirstLine(line, t);
      var kept, tail := Without(lines[1..], m), if m <= last then "" else last;
      NilNeutral(Filter(t, m));
      ConcatCons(line, kept);
      Associative(line, Concat(kept), tail);
    }
  }

  /** In a local session without a marker everything is shown, whatever the chunks. */
  lemma NoMarkerShowsAll(chunks: seq<string>)
    ensures Display("", chunks, "") == Concat(chunks)
  {
    var x := Concat(chunks);
    ChunkIndependence(x, "");
    assert Tame("", x, "");
    assert Faithful(chunks, x, "");
    var lines, last := SplitLines(x);
    FilterByLine(lines, last, "");
  }

  /** Otherwise, if the marker only ever starts lines, exactly the lines that start with
      it are missing, whatever the chunks. */
  lemma ShowsOtherLines(lines: seq<string>, last: string, chunks: seq<string>, m: string)
    requires m != "" && '\n' !in m && AllLines(lines) && '\n' !in last
    requires Concat(chunks) == Concat(lines) + last && Tame("", Concat(chunks), m)
    ensures Display("", chunks, m) == Concat(Without(lines, m)) + if m <= last then "" else last
  {
    ChunkIndependence(Concat(chunks), m);
    assert Faithful(chunks, Concat(chunks), m);
    FilterByLine(lines, last, m);
  }
}
