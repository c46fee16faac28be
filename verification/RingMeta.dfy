/** The trailer a remote command prints after its output, and how the ring of
    the last 8192 output bytes gives the exit code and directory back. */
module RingMeta {
  import opened Options
  import opened Search
  import opened Decimal
  import opened StreamWriter

  const META: string := "__DBX_META__"
  const RING: nat := 8192

  function Tag(sid: string): string {
    META + sid + "__ "
  }

  /** The marker line, without the newlines around it. */
  function Line(sid: string, code: nat, dir: string): string {
    Tag(sid) + (Digits(code) + (" " + dir))
  }

  /** Everything a remote script writes: the command's output and the trailer. */
  function ScriptOutput(out: string, sid: string, code: nat, dir: string): string {
    (out + "\n") + (Line(sid, code, dir) + "\n")
  }

  function TrimNewlines(s: string): string {
    if s != [] && s[|s| - 1] in {'\r', '\n'} then TrimNewlines(s[..|s| - 1]) else s
  }

  datatype Meta = Meta(code: int, cwd: string)

  /** `<exit code> <directory>`, after the tag. */
  function ParseBody(body: string): Option<Meta> {
    var space := Index(body, " ");
    if space < 0 then None
    else
      match Atoi(body[..space])
      case None => None
      case Some(code) => Some(Meta(code, body[space + 1..]))
  }

  /** The last tag must start the last line. */
  function ParseLast(trimmed: string, tag: string): Option<Meta> {
    var idx := LastIndex(trimmed, tag);
    if idx < 0 || LastIndex(trimmed, "\n") + 1 != idx then None
    else ParseBody(trimmed[idx + |tag|..])
  }

  function ParseRingMeta(tail: string, sid: string): Option<Meta> {
    ParseLast(TrimNewlines(tail), Tag(sid))
  }

  /** Session salts are random hex digits. */
  predicate IsSalt(sid: string) {
    forall i :: 0 <= i < |sid| ==> IsDigit(sid[i]) || 'a' <= sid[i] <= 'f'
  }

  predicate Blank(s: string) {
    forall i :: 0 <= i < |s| ==> s[i] in {'\r', '\n'}
  }

  predicate Clean(sid: string, dir: string) {
    '\n' !in dir && (dir != [] ==> dir[|dir| - 1] != '\r') && Index(dir, Tag(sid)) < 0
  }

  /** When a directory survives the trip. `late` is what processes the command left
      behind still write before the channel closes. */
  predicate Survives(sid: string, code: nat, dir: string, late: string) {
    Clean(sid, dir) && Blank(late) && |Line(sid, code, dir)| + 1 + |late| <= RING
  }

  /** The trailer's text, and the condition in numbers: 17 bytes of it are fixed. */
  lemma TrailerInNumbers(out: string, sid: string, code: nat, dir: string)
    ensures ScriptOutput(out, sid, code, dir) ==
      (out + "\n") + (("__DBX_META__" + sid + "__ " + (Digits(code) + (" " + dir))) + "\n")
    ensures Survives(sid, code, dir, "") <==>
      Clean(sid, dir) && |sid| + |Digits(code)| + |dir| + 17 <= 8192
  {
  }

  // ---- The tag cannot start anywhere else on its line ----

  lemma TagShape(sid: string)
    requires IsSalt(sid)
    ensures var t := Tag(sid);
      && |t| >= 15 && t[0] == '_' && t[|t| - 1] == ' '
      && forall i :: 0 <= i < |t| - 1 ==> t[i] != ' ' && t[i] != '\n'
  {
  }

  lemma NoLaterTag(sid: string, code: nat, dir: string, j: nat)
    requires IsSalt(sid) && Index(dir, Tag(sid)) < 0 && j > 0
    ensures !OccursAt(Line(sid, code, dir), Tag(sid), j)
  {
    TagShape(sid);
    IndexSpec(dir, Tag(sid));
    var tag, digits, line := Tag(sid), Digits(code), Line(sid, code, dir);
    if j <= |line| - |tag| {
      var window := line[j..j + |tag|];
      if j < |tag| {
        assert window[|tag| - 1 - j] == line[|tag| - 1] == ' ';
      } else if j < |tag| + |digits| {
        assert window[0] == line[j] == digits[j - |tag|];
      } else if j == |tag| + |digits| {
        assert window[0] == ' ';
      } else {
        assert line[|tag| + |digits| + 1..] == dir;
        OccursInSuffix(line, |tag| + |digits| + 1, tag, j - |tag| - |digits| - 1);
      }
    }
  }

  // ---- What the ring holds ----

  lemma {:induction false} TrimNewlinesIs(s: string, nl: string)
    requires s == [] || s[|s| - 1] !in {'\r', '\n'}
    requires Blank(nl)
    ensures TrimNewlines(s + nl) == s
    decreases |nl|
  {
    if nl == [] {
      NilNeutral(s);
    } else {
      assert (s + nl)[..|s + nl| - 1] == s + nl[..|nl| - 1];
      TrimNewlinesIs(s, nl[..|nl| - 1]);
    }
  }

  lemma FirstSpace(word: string, rest: string)
    requires ' ' !in word
    ensures Index(word + (" " + rest), " ") == |word|
  {
    var s := word + (" " + rest);
    IndexSpec(s, " ");
    assert s[|word|..|word| + 1] == " ";
    assert OccursAt(s, " ", |word|);
    var i := Index(s, " ");
    assert s[i..i + 1][0] == s[i];
  }

  lemma SpaceCuts(word: string, rest: string)
    ensures (word + (" " + rest))[..|word|] == word && (word + (" " + rest))[|word| + 1..] == rest
  {
  }

  lemma ParsesBody(code: nat, dir: string)
    requires code <= MAX_INT
    ensures ParseBody(Digits(code) + (" " + dir)) == Some(Meta(code, dir))
  {
    FirstSpace(Digits(code), dir);
    SpaceCuts(Digits(code), dir);
    AtoiDigits(code);
  }

  lemma LastNewline(x: string, line: string)
    requires x == [] || x[|x| - 1] == '\n'
    requires '\n' !in line
    ensures LastIndex(x + line, "\n") == |x| - 1
  {
    var s := x + line;
    LastIndexSpec(s, "\n");
    var nl := LastIndex(s, "\n");
    assert x != [] ==> s[|x| - 1..|x|] == "\n" && OccursAt(s, "\n", |x| - 1);
    if nl >= 0 {
      assert s[nl..nl + 1][0] == s[nl];
    }
  }

  lemma LineShape(sid: string, code: nat, dir: string)
    requires IsSalt(sid) && '\n' !in dir
    ensures var line := Line(sid, code, dir);
      && '\n' !in line
      && line[|line| - 1] == if dir == [] then ' ' else dir[|dir| - 1]
  {
    TagShape(sid);
    var tag, digits := Tag(sid), Digits(code);
    assert forall i :: 0 <= i < |tag| ==> tag[i] != '\n';
    assert forall i :: 0 <= i < |digits| ==> digits[i] != '\n';
  }

  lemma StartsWithTag(sid: string, code: nat, dir: string)
    ensures OccursAt(Line(sid, code, dir), Tag(sid), 0)
  {
  }

  lemma LaterOccurrence(x: string, line: string, tag: string) returns (j: nat)
    requires OccursAt(line, tag, 0) && LastIndex(x + line, tag) != |x|
    ensures j > 0 && OccursAt(line, tag, j)
  {
    JoinDrop(x, line);
    OccursInSuffix(x + line, |x|, tag, 0);
    LastIndexSpec(x + line, tag);
    j := LastIndex(x + line, tag) - |x|;
    OccursInSuffix(x + line, |x|, tag, j);
  }

  lemma LastTag(x: string, sid: string, code: nat, dir: string)
    requires IsSalt(sid) && Index(dir, Tag(sid)) < 0
    ensures LastIndex(x + Line(sid, code, dir), Tag(sid)) == |x|
  {
    var tag, line := Tag(sid), Line(sid, code, dir);
    StartsWithTag(sid, code, dir);
    if LastIndex(x + line, tag) != |x| {
      var j := LaterOccurrence(x, line, tag);
      NoLaterTag(sid, code, dir, j);
    }
  }

  /** A ring whose marker line is intact: `x` is what is left before it, possibly
      nothing, and only line ends follow. */
  lemma ParsesLine(x: string, sid: string, code: nat, dir: string, nl: string)
    requires IsSalt(sid) && code <= MAX_INT && Clean(sid, dir) && Blank(nl)
    requires x == [] || x[|x| - 1] == '\n'
    ensures ParseRingMeta((x + Line(sid, code, dir)) + nl, sid) == Some(Meta(code, dir))
  {
    var line := Line(sid, code, dir);
    var body := Digits(code) + (" " + dir);
    LineShape(sid, code, dir);
    TrimNewlinesIs(x + line, nl);
    LastNewline(x, line);
    LastTag(x, sid, code, dir);
    Associative(x, Tag(sid), body);
    assert ((x + Tag(sid)) + body)[|x + Tag(sid)|..] == body;
    ParsesBody(code, dir);
  }

  lemma LastOfConcat(a: string, b: string, n: nat)
    ensures |b| <= n ==> Last(a + b, n) == Last(a, n - |b|) + b
    ensures |b| >= n ==> Last(a + b, n) == Last(b, n)
  {
  }

  /** All that is written to the command's standard output until the channel closes. */
  function Stream(out: string, sid: string, code: nat, dir: string, late: string): string {
    ScriptOutput(out, sid, code, dir) + late
  }

  lemma StreamParts(out: string, sid: string, code: nat, dir: string, late: string)
    ensures Stream(out, sid, code, dir, late) == ((out + "\n") + Line(sid, code, dir)) + ("\n" + late)
  {
    Associative(out + "\n", Line(sid, code, dir), "\n");
    Associative((out + "\n") + Line(sid, code, dir), "\n", late);
  }

  function Ring(out: string, sid: string, code: nat, dir: string, late: string): string {
    Last(Stream(out, sid, code, dir, late), RING)
  }

  lemma SurvivesIsParsed(out: string, sid: string, code: nat, dir: string, late: string)
    requires IsSalt(sid) && code <= MAX_INT && Survives(sid, code, dir, late)
    ensures ParseRingMeta(Ring(out, sid, code, dir, late), sid) == Some(Meta(code, dir))
  {
    var line, nl := Line(sid, code, dir), "\n" + late;
    StreamParts(out, sid, code, dir, late);
    LastOfConcat((out + "\n") + line, nl, RING);
    LastOfConcat(out + "\n", line, RING - |nl|);
    ParsesLine(Last(out + "\n", RING - |nl| - |line|), sid, code, dir, nl);
  }

  lemma {:induction false} TrimNewlinesShape(s: string)
    ensures var t := TrimNewlines(s); t == [] || t[|t| - 1] !in {'\r', '\n'}
  {
    if s != [] && s[|s| - 1] in {'\r', '\n'} {
      TrimNewlinesShape(s[..|s| - 1]);
    }
  }

  /** The directory a ring yields is the end of what is left after trimming. */
  lemma ParsedIsSuffix(trimmed: string, tag: string, code: int, dir: string) returns (off: nat)
    requires ParseLast(trimmed, tag) == Some(Meta(code, dir))
    ensures off <= |trimmed| && trimmed[off..] == dir
    ensures LastIndex(trimmed, tag) < off && LastIndex(trimmed, "\n") < off
  {
    var start := LastIndex(trimmed, tag) + |tag|;
    var space := Index(trimmed[start..], " ");
    off := start + space + 1;
    SliceSlice(trimmed, start, space + 1);
  }

  lemma NoneInside(s: string, p: string, off: nat)
    requires off <= |s| && LastIndex(s, p) < off && p != []
    ensures Index(s[off..], p) < 0
  {
    LastIndexSpec(s, p);
    IndexSpec(s[off..], p);
    if Index(s[off..], p) >= 0 {
      OccursInSuffix(s, off, p, Index(s[off..], p));
    }
  }

  lemma NoNewlineInside(dir: string)
    requires Index(dir, "\n") < 0
    ensures '\n' !in dir
  {
    IndexSpec(dir, "\n");
    forall i | 0 <= i < |dir| ensures dir[i] != '\n' {
      assert !OccursAt(dir, "\n", i);
      assert dir[i..i + 1] == [dir[i]];
    }
  }

  /** The directory a trimmed ring yields is the end of its last line and tag-free. */
  lemma ParsedIsClean(tail: string, sid: string, code: int, dir: string)
    requires ParseRingMeta(tail, sid) == Some(Meta(code, dir))
    ensures '\n' !in dir && (dir != [] ==> dir[|dir| - 1] != '\r')
    ensures Index(dir, Tag(sid)) < 0
  {
    var trimmed, tag := TrimNewlines(tail), Tag(sid);
    var off := ParsedIsSuffix(trimmed, tag, code, dir);
    TrimNewlinesShape(tail);
    NoneInside(trimmed, "\n", off);
    NoneInside(trimmed, tag, off);
    NoNewlineInside(dir);
  }

  /** What is left of a ring that ends in line ends. */
  lemma TrimmedRing(y: string, nl: string)
    requires y != [] && y[|y| - 1] !in {'\r', '\n'} && Blank(nl)
    ensures TrimNewlines(Last(y + nl, RING)) == Last(y, Max(RING - |nl|, 0))
  {
    LastOfConcat(y, nl, RING);
    if |nl| < RING {
      TrimNewlinesIs(Last(y, RING - |nl|), nl);
    } else {
      NilNeutral(Last(nl, RING));
      TrimNewlinesIs([], Last(nl, RING));
    }
  }

  lemma FoundInCut(line: string, tag: string, k: nat) returns (j: nat)
    requires 0 < k <= |line| && LastIndex(line[k..], tag) >= 0
    ensures j > 0 && OccursAt(line, tag, j)
  {
    var idx := LastIndex(line[k..], tag);
    LastIndexSpec(line[k..], tag);
    OccursInSuffix(line, k, tag, idx);
    j := k + idx;
  }

  /** A line cut at its front by the ring holds no tag any more. */
  lemma CutLineHasNoTag(x: string, sid: string, code: nat, dir: string, n: nat)
    requires IsSalt(sid) && Index(dir, Tag(sid)) < 0
    requires n < |Line(sid, code, dir)|
    ensures LastIndex(Last(x + Line(sid, code, dir), n), Tag(sid)) < 0
  {
    var line, tag := Line(sid, code, dir), Tag(sid);
    LastOfConcat(x, line, n);
    if LastIndex(line[|line| - n..], tag) >= 0 {
      var j := FoundInCut(line, tag, |line| - n);
      NoLaterTag(sid, code, dir, j);
    }
  }

  lemma ParsedFits(out: string, sid: string, code: nat, dir: string, late: string)
    requires IsSalt(sid) && Blank(late)
    requires ParseRingMeta(Ring(out, sid, code, dir, late), sid) == Some(Meta(code, dir))
    ensures |Line(sid, code, dir)| + 1 + |late| <= RING
  {
    var x, line, nl := out + "\n", Line(sid, code, dir), "\n" + late;
    ParsedIsClean(Ring(out, sid, code, dir, late), sid, code, dir);
    LineShape(sid, code, dir);
    StreamParts(out, sid, code, dir, late);
    TrimmedRing(x + line, nl);
    if |line| + |nl| > RING {
      CutLineHasNoTag(x, sid, code, dir, Max(RING - |nl|, 0));
    }
  }

  // ---- Output after the trailer ----

  lemma {:induction false} TrimSplit(s: string) returns (blank: string)
    ensures s == TrimNewlines(s) + blank && Blank(blank)
  {
    if s != [] && s[|s| - 1] in {'\r', '\n'} {
      var front, last := s[..|s| - 1], s[|s| - 1..];
      var b := TrimSplit(front);
      SplitAt(s, |s| - 1);
      Associative(TrimNewlines(front), b, last);
      blank := b + last;
    } else {
      NilNeutral(s);
      blank := [];
    }
  }

  lemma NoTagInTail(l: string, tag: string, n: nat)
    requires n <= |l| && Index(l, tag) < 0
    ensures LastIndex(l[|l| - n..], tag) < 0
  {
    IndexSpec(l, tag);
    LastIndexSpec(l[|l| - n..], tag);
    var idx := LastIndex(l[|l| - n..], tag);
    if idx >= 0 {
      OccursInSuffix(l, |l| - n, tag, idx);
    }
  }

  lemma NewlineIsLate(w: string, l: string)
    requires w != [] && w[|w| - 1] == '\n'
    ensures LastIndex(w + l, "\n") >= |w| - 1
  {
    LastIndexSpec(w + l, "\n");
    assert (w + l)[|w| - 1..|w|] == "\n" && OccursAt(w + l, "\n", |w| - 1);
  }

  lemma TagIsEarly(w: string, l: string, tag: string)
    requires Index(l, tag) < 0
    ensures LastIndex(w + l, tag) < |w| || LastIndex(w + l, tag) < 0
  {
    var idx := LastIndex(w + l, tag);
    LastIndexSpec(w + l, tag);
    IndexSpec(l, tag);
    if idx >= |w| {
      JoinDrop(w, l);
      OccursInSuffix(w + l, |w|, tag, idx - |w|);
    }
  }

  /** The last line starts in `l`, and there is no tag there. */
  lemma NoTagOnLastLine(w: string, l: string, tag: string)
    requires w != [] && w[|w| - 1] == '\n' && Index(l, tag) < 0
    ensures ParseLast(w + l, tag) == None
  {
    NewlineIsLate(w, l);
    TagIsEarly(w, l, tag);
  }

  lemma LateTail(y: string, l: string, tag: string, n: nat)
    requires y != [] && y[|y| - 1] == '\n' && Index(l, tag) < 0
    ensures ParseLast(Last(y + l, n), tag) == None
  {
    LastOfConcat(y, l, n);
    if |l| >= n {
      NoTagInTail(l, tag, n);
    } else {
      NoTagOnLastLine(Last(y, n - |l|), l, tag);
    }
  }

  /** Late output is a visible end `l` and line ends. */
  lemma LateParts(late: string, tag: string) returns (l: string, blank: string)
    requires !Blank(late) && Index(late, tag) < 0
    ensures late == l + blank && Blank(blank) && Index(l, tag) < 0
    ensures l != [] && l[|l| - 1] !in {'\r', '\n'}
  {
    l := TrimNewlines(late);
    blank := TrimSplit(late);
    NilNeutral(blank);
    TrimNewlinesShape(late);
    IndexAppend(l, blank, tag);
  }

  /** A line after the trailer hides it. */
  lemma LateLineHides(y: string, late: string, tag: string)
    requires y != [] && y[|y| - 1] == '\n'
    requires !Blank(late) && Index(late, tag) < 0
    ensures ParseLast(TrimNewlines(Last(y + late, RING)), tag) == None
  {
    var l, blank := LateParts(late, tag);
    Associative(y, l, blank);
    TrimmedRing(y + l, blank);
    LateTail(y, l, tag, Max(RING - |blank|, 0));
  }

  /** Whatever the command printed and in whatever pieces, and whatever tag-free output
      comes late, the ring gives back exactly the printed exit code and directory if
      and only if the directory survives the trip. */
  lemma TrailerRoundTrip(writes: seq<string>, limit: int,
                         out: string, sid: string, code: nat, dir: string, late: string)
    requires IsSalt(sid) && code <= MAX_INT && Index(late, Tag(sid)) < 0
    requires Concat(writes) == Stream(out, sid, code, dir, late)
    ensures ParseRingMeta(WriteAll(NOTHING, writes, limit, RING).tail, sid) == Some(Meta(code, dir))
        <==> Survives(sid, code, dir, late)
  {
    StreamWriterTheorem(writes, limit, RING);
    if Survives(sid, code, dir, late) {
      SurvivesIsParsed(out, sid, code, dir, late);
    } else if !Blank(late) {
      LateLineHides(ScriptOutput(out, sid, code, dir), late, Tag(sid));
    } else if ParseRingMeta(Ring(out, sid, code, dir, late), sid) == Some(Meta(code, dir)) {
      ParsedIsClean(Ring(out, sid, code, dir, late), sid, code, dir);
      ParsedFits(out, sid, code, dir, late);
    }
  }
}
