/** Shell quoting: what a POSIX shell recognises in the lines the plugin
    composes (POSIX.1-2017 Shell Command Language, sections 2.2.1, 2.2.2 and 2.3). */
module Quoting {
  import opened Decimal
  import opened Search

  // ---- Token recognition ----

  /** Operators are reported character by character. */
  datatype Token = Word(text: string) | IoNumber(text: string) | Op(c: char)

  /** `Stuck` marks an unterminated quote, or an unquoted character whose
      meaning (expansion, globbing, comments, double quotes) is not modelled. */
  datatype Lexed = Done(tokens: seq<Token>) | Stuck(tokens: seq<Token>)

  /** The word being read. */
  datatype Part = NoWord | Part(text: string, quoted: bool)

  function Extend(cur: Part, t: string, quoted: bool): Part {
    match cur
    case NoWord => Part(t, quoted)
    case Part(text, q) => Part(text + t, q || quoted)
  }

  predicate IsBlank(c: char) {
    c == ' ' || c == '\t'
  }

  predicate IsOperator(c: char) {
    c in {'\n', ';', '|', '&', '<', '>', '(', ')'}
  }

  predicate IsPlain(c: char) {
    'a' <= c <= 'z' || 'A' <= c <= 'Z' || '0' <= c <= '9' || c == '-' || c == '_' || c == '.' || c == '/'
  }

  predicate AllPlain(w: string) {
    forall i :: 0 <= i < |w| ==> IsPlain(w[i])
  }

  function Finish(cur: Part): seq<Token> {
    match cur
    case NoWord => []
    case Part(text, _) => [Word(text)]
  }

  function FinishBefore(cur: Part, c: char): seq<Token> {
    if cur.Part? && !cur.quoted && AllDigits(cur.text) && (c == '<' || c == '>') then [IoNumber(cur.text)]
    else Finish(cur)
  }

  function Prepend(ts: seq<Token>, l: Lexed): Lexed {
    l.(tokens := ts + l.tokens)
  }

  function Lex(s: string, cur: Part): Lexed
    decreases |s|
  {
    if s == [] then Done(Finish(cur))
    else if s[0] == '\'' then
      var close := Index(s[1..], "'");
      if close < 0 then Stuck([]) else Lex(s[1..][close + 1..], Extend(cur, s[1..][..close], true))
    else if s[0] == '\\' then
      if |s| < 2 then Stuck([])
      else if s[1] == '\n' then Lex(s[2..], cur)
      else Lex(s[2..], Extend(cur, [s[1]], true))
    else if IsBlank(s[0]) then Prepend(Finish(cur), Lex(s[1..], NoWord))
    else if IsOperator(s[0]) then Prepend(FinishBefore(cur, s[0]) + [Op(s[0])], Lex(s[1..], NoWord))
    else if IsPlain(s[0]) then Lex(s[1..], Extend(cur, [s[0]], false))
    else Stuck([])
  }

  // ---- shellQuote ----

  /** strings.ReplaceAll of every quote by `'\''`. */
  function EscapeQuotes(v: string): string
    decreases |v|
  {
    var k := Index(v, "'");
    if k < 0 then v else v[..k] + ("'\\''" + EscapeQuotes(v[k + 1..]))
  }

  function ShellQuote(v: string): string {
    "'" + (EscapeQuotes(v) + "'")
  }

  lemma QuoteAt(a: string, t: string)
    requires Index(a, "'") < 0
    ensures Index(a + ("'" + t), "'") == |a|
  {
    var s := a + ("'" + t);
    IndexAppend(a, "'" + t, "'");
    IndexSpec(s, "'");
    assert s[|a|..|a| + 1] == "'";
    assert OccursAt(s, "'", |a|);
  }

  /** A quote-free stretch in single quotes. */
  lemma LexQuoted(a: string, t: string, cur: Part)
    requires Index(a, "'") < 0
    ensures Lex("'" + (a + ("'" + t)), cur) == Lex(t, Extend(cur, a, true))
  {
    var s := "'" + (a + ("'" + t));
    QuoteAt(a, t);
    assert s[1..] == a + ("'" + t);
    assert s[1..][..|a|] == a && s[1..][|a| + 1..] == t;
  }

  lemma LexEscapedQuote(t: string, cur: Part)
    ensures Lex("\\'" + t, cur) == Lex(t, Extend(cur, "'", true))
  {
    var s := "\\'" + t;
    assert s[2..] == t && [s[1]] == "'";
  }

  lemma ExtendTwice(cur: Part, a: string, b: string, quoted: bool)
    ensures Extend(Extend(cur, a, quoted), b, quoted) == Extend(cur, a + b, quoted)
  {
    if cur.Part? {
      Associative(cur.text, a, b);
    }
  }

  /** Reading a quoted value continues the current word with exactly the value. */
  lemma {:induction false} LexQuote(v: string, rest: string, cur: Part)
    ensures Lex(ShellQuote(v) + rest, cur) == Lex(rest, Extend(cur, v, true))
    decreases |v|
  {
    var k := Index(v, "'");
    if k < 0 {
      assert ShellQuote(v) + rest == "'" + (v + ("'" + rest));
      LexQuoted(v, rest, cur);
    } else {
      var a, b := v[..k], v[k + 1..];
      QuoteSplit(v, k);
      var later := ShellQuote(b) + rest;
      assert ShellQuote(v) + rest == "'" + (a + ("'" + ("\\'" + later)));
      LexQuoted(a, "\\'" + later, cur);
      LexEscapedQuote(later, Extend(cur, a, true));
      LexQuote(b, rest, Extend(cur, a + "'", true));
      ExtendTwice(cur, a, "'", true);
      ExtendTwice(cur, a + "'", b, true);
      Associative(a, "'", b);
    }
  }

  lemma QuoteSplit(v: string, k: nat)
    requires k == Index(v, "'")
    ensures k < |v| && v == v[..k] + ("'" + v[k + 1..]) && Index(v[..k], "'") < 0
  {
    IndexSpec(v, "'");
    assert v[k..k + 1] == "'";
    assert v[k] == '\'';
    SplitAround(v, k);
    SplitAt(v, k);
    IndexAppend(v[..k], v[k..], "'");
  }

  /** Every string survives quoting: the shell sees one word, equal to it. */
  lemma QuoteRoundTrip(v: string)
    ensures Lex(ShellQuote(v), NoWord) == Done([Word(v)])
  {
    NilNeutral(ShellQuote(v));
    LexQuote(v, [], NoWord);
  }

  // ---- The composed command lines ----

  lemma {:induction false} LexPlain(w: string, rest: string, cur: Part)
    requires AllPlain(w) && w != []
    ensures Lex(w + rest, cur) == Lex(rest, Extend(cur, w, false))
    decreases |w|
  {
    assert (w + rest)[1..] == w[1..] + rest;
    if |w| == 1 {
      assert w[1..] + rest == rest;
      assert [w[0]] == w;
    } else {
      LexPlain(w[1..], rest, Extend(cur, [w[0]], false));
      ExtendTwice(cur, [w[0]], w[1..], false);
      assert w == [w[0]] + w[1..];
    }
  }

  lemma LexBlank(cur: Part, rest: string)
    ensures Lex(" " + rest, cur) == Prepend(Finish(cur), Lex(rest, NoWord))
  {
    assert (" " + rest)[1..] == rest;
  }

  lemma LexOp(cur: Part, c: char, rest: string)
    requires IsOperator(c)
    ensures Lex([c] + rest, cur) == Prepend(FinishBefore(cur, c) + [Op(c)], Lex(rest, NoWord))
  {
    assert ([c] + rest)[1..] == rest;
  }

  /** The building blocks of the composed lines: a word or a quoted value,
      followed by a blank or by an operator. */
  datatype Piece =
    | Arg(w: string)
    | Value(v: string)
    | ArgOp(w: string, c: char)
    | ValueOp(v: string, c: char)
    | JustOp(c: char)
    | Gap

  predicate Proper(p: Piece) {
    match p
    case Arg(w) => AllPlain(w) && w != []
    case Value(_) => true
    case ArgOp(w, c) => AllPlain(w) && w != [] && IsOperator(c)
    case ValueOp(_, c) => IsOperator(c)
    case JustOp(c) => IsOperator(c)
    case Gap => true
  }

  function Text(p: Piece): string {
    match p
    case Arg(w) => w + " "
    case Value(v) => ShellQuote(v) + " "
    case ArgOp(w, c) => w + [c]
    case ValueOp(v, c) => ShellQuote(v) + [c]
    case JustOp(c) => [c]
    case Gap => " "
  }

  /** The tokens a piece is meant to produce: values verbatim. */
  function Meaning(p: Piece): seq<Token> {
    match p
    case Arg(w) => [Word(w)]
    case Value(v) => [Word(v)]
    case ArgOp(w, c) => [if AllDigits(w) && (c == '<' || c == '>') then IoNumber(w) else Word(w), Op(c)]
    case ValueOp(v, c) => [Word(v), Op(c)]
    case JustOp(c) => [Op(c)]
    case Gap => []
  }

  function Render(ps: seq<Piece>): string {
    if ps == [] then [] else Text(ps[0]) + Render(ps[1..])
  }

  function Meanings(ps: seq<Piece>): seq<Token> {
    if ps == [] then [] else Meaning(ps[0]) + Meanings(ps[1..])
  }

  ghost predicate AllProper(ps: seq<Piece>) {
    forall i :: 0 <= i < |ps| ==> Proper(ps[i])
  }

  lemma LexWordOp(w: string, c: char, rest: string)
    requires AllPlain(w) && w != [] && IsOperator(c)
    ensures Lex(w + ([c] + rest), NoWord) == Prepend(Meaning(ArgOp(w, c)), Lex(rest, NoWord))
  {
    LexPlain(w, [c] + rest, NoWord);
    LexOp(Part(w, false), c, rest);
  }

  lemma LexValueOp(v: string, c: char, rest: string)
    requires IsOperator(c)
    ensures Lex(ShellQuote(v) + ([c] + rest), NoWord) == Prepend(Meaning(ValueOp(v, c)), Lex(rest, NoWord))
  {
    LexQuote(v, [c] + rest, NoWord);
    LexOp(Part(v, true), c, rest);
  }

  lemma LexPiece(p: Piece, rest: string)
    requires Proper(p)
    ensures Lex(Text(p) + rest, NoWord) == Prepend(Meaning(p), Lex(rest, NoWord))
  {
    match p
    case Arg(w) =>
      Associative(w, " ", rest);
      LexPlain(w, " " + rest, NoWord);
      LexBlank(Part(w, false), rest);
    case Value(v) =>
      Associative(ShellQuote(v), " ", rest);
      LexQuote(v, " " + rest, NoWord);
      LexBlank(Part(v, true), rest);
    case ArgOp(w, c) =>
      Associative(w, [c], rest);
      LexWordOp(w, c, rest);
    case ValueOp(v, c) =>
      Associative(ShellQuote(v), [c], rest);
      LexValueOp(v, c, rest);
    case JustOp(c) =>
      LexOp(NoWord, c, rest);
    case Gap =>
      LexBlank(NoWord, rest);
  }

  /** Any line composed of pieces splits into exactly the intended tokens,
      whatever text follows it. */
  lemma {:induction false} LexPieces(ps: seq<Piece>, rest: string)
    requires AllProper(ps)
    ensures Lex(Render(ps) + rest, NoWord) == Prepend(Meanings(ps), Lex(rest, NoWord))
    decreases |ps|
  {
    var l := Lex(rest, NoWord);
    if ps == [] {
      NilNeutral(rest);
      NilNeutral(l.tokens);
    } else {
      Associative(Text(ps[0]), Render(ps[1..]), rest);
      LexPiece(ps[0], Render(ps[1..]) + rest);
      LexPieces(ps[1..], rest);
      Associative(Meaning(ps[0]), Meanings(ps[1..]), l.tokens);
    }
  }

  /** A line that ends in a quoted value. */
  lemma LexLine(ps: seq<Piece>, v: string)
    requires AllProper(ps)
    ensures Lex(Render(ps) + ShellQuote(v), NoWord) == Done(Meanings(ps) + [Word(v)])
  {
    QuoteRoundTrip(v);
    LexPieces(ps, ShellQuote(v));
  }

  // ---- The lines themselves ----

  /** `stty <mode> -echo 2>/dev/null || true`, ended by `c`. */
  function Stty(mode: string, c: char): seq<Piece> {
    [Arg("stty"), Arg(mode), Arg("-echo")]
    + ([ArgOp("2", '>'), Arg("/dev/null")] + ([JustOp('|'), JustOp('|')] + [Gap, ArgOp("true", c)]))
  }

  /** `printf '<format>' '<marker>'`, ended by `c`. */
  function Printf(format: string, marker: string, c: char): seq<Piece> {
    [Arg("printf"), Value(format), ValueOp(marker, c)]
  }

  /** `exec su - '<user>' -c `, to be followed by the quoted script. */
  function ExecSu(user: string): seq<Piece> {
    [Arg("exec"), Arg("su"), Arg("-"), Value(user), Arg("-c")]
  }

  /** The script root runs: announce readiness, then become the server. */
  function ServerPieces(serverMarker: string): seq<Piece> {
    Stty("raw", '\n') + Printf("%s", serverMarker, '\n') + [Arg("exec")]
  }

  function ServerScript(serverMarker: string, path: string): string {
    Render(ServerPieces(serverMarker)) + ShellQuote(path)
  }

  function AnnouncePieces(authMarker: string): seq<Piece> {
    Stty("icrnl", ';') + [Gap] + (Printf("%s\\n", authMarker, ';') + [Gap])
  }

  /** The line sent to the remote shell: announce, then escalate. */
  function EscalatePieces(authMarker: string, user: string): seq<Piece> {
    AnnouncePieces(authMarker) + ExecSu(user)
  }

  function EscalateCommand(authMarker: string, user: string, script: string): string {
    Render(EscalatePieces(authMarker, user)) + ShellQuote(script)
  }

  lemma SttyIsProper(mode: string, c: char)
    requires AllPlain(mode) && mode != [] && IsOperator(c)
    ensures AllProper(Stty(mode, c))
  {
  }

  lemma ServerIsProper(serverMarker: string)
    ensures AllProper(ServerPieces(serverMarker))
  {
    SttyIsProper("raw", '\n');
  }

  lemma SuIsProper(user: string)
    ensures AllProper(ExecSu(user))
  {
  }

  lemma EscalateIsProper(authMarker: string, user: string)
    ensures AllProper(EscalatePieces(authMarker, user))
  {
    SttyIsProper("icrnl", ';');
    SuIsProper(user);
  }

  lemma {:induction false} MeaningsAppend(a: seq<Piece>, b: seq<Piece>)
    ensures Meanings(a + b) == Meanings(a) + Meanings(b)
    decreases |a|
  {
    if a == [] {
      NilNeutral(b);
      NilNeutral(Meanings(b));
    } else {
      assert (a + b)[1..] == a[1..] + b;
      MeaningsAppend(a[1..], b);
      Associative(Meaning(a[0]), Meanings(a[1..]), Meanings(b));
    }
  }

  /** Blank-separated words and values mean one word each. */
  lemma {:induction false} ArgsMean(ps: seq<Piece>, words: seq<Token>)
    requires |ps| == |words|
    requires forall i :: 0 <= i < |ps| ==> Meaning(ps[i]) == [words[i]]
    ensures Meanings(ps) == words
    decreases |ps|
  {
    if ps != [] {
      ArgsMean(ps[1..], words[1..]);
    }
  }

  lemma PrintfMeans(format: string, marker: string, c: char)
    ensures Meanings(Printf(format, marker, c)) == [Word("printf"), Word(format), Word(marker), Op(c)]
  {
    var front := [Arg("printf"), Value(format)];
    MeaningsAppend(front, [ValueOp(marker, c)]);
    ArgsMean(front, [Word("printf"), Word(format)]);
    assert Printf(format, marker, c) == front + [ValueOp(marker, c)];
  }

  function SttyTokens(mode: string, c: char): seq<Token> {
    [Word("stty"), Word(mode), Word("-echo")]
    + ([IoNumber("2"), Op('>'), Word("/dev/null")] + ([Op('|'), Op('|')] + [Word("true"), Op(c)]))
  }

  lemma SttyMeans(mode: string, c: char)
    requires c == ';' || c == '\n'
    ensures Meanings(Stty(mode, c)) == SttyTokens(mode, c)
  {
    var front, redirect := [Arg("stty"), Arg(mode), Arg("-echo")], [ArgOp("2", '>'), Arg("/dev/null")];
    var bars, end := [JustOp('|'), JustOp('|')], [Gap, ArgOp("true", c)];
    ArgsMean(front, [Word("stty"), Word(mode), Word("-echo")]);
    ArgsMean(bars, [Op('|'), Op('|')]);
    RedirectMeans(end, c);
    MeaningsAppend(bars, end);
    MeaningsAppend(redirect, bars + end);
    MeaningsAppend(front, redirect + (bars + end));
  }

  lemma RedirectMeans(end: seq<Piece>, c: char)
    requires end == [Gap, ArgOp("true", c)] && (c == ';' || c == '\n')
    ensures Meanings([ArgOp("2", '>'), Arg("/dev/null")]) == [IoNumber("2"), Op('>'), Word("/dev/null")]
    ensures Meanings(end) == [Word("true"), Op(c)]
  {
    ArgsMean([Arg("/dev/null")], [Word("/dev/null")]);
    assert [ArgOp("2", '>'), Arg("/dev/null")][1..] == [Arg("/dev/null")];
    assert end[1..] == [ArgOp("true", c)] && [ArgOp("true", c)][1..] == [];
    assert Meanings([ArgOp("true", c)]) == [Word("true"), Op(c)];
  }

  /** `su` is started with exactly five arguments, the last one the script. */
  lemma SuArguments(user: string, script: string)
    ensures Lex(Render(ExecSu(user)) + ShellQuote(script), NoWord)
         == Done([Word("exec"), Word("su"), Word("-"), Word(user), Word("-c"), Word(script)])
  {
    SuIsProper(user);
    LexLine(ExecSu(user), script);
    var words := [Word("exec"), Word("su"), Word("-"), Word(user), Word("-c")];
    ArgsMean(ExecSu(user), words);
    assert words + [Word(script)] == [Word("exec"), Word("su"), Word("-"), Word(user), Word("-c"), Word(script)];
  }

  /** What the two composed lines must say. */
  function ServerTokens(serverMarker: string, path: string): seq<Token> {
    SttyTokens("raw", '\n') + [Word("printf"), Word("%s"), Word(serverMarker), Op('\n')] + [Word("exec"), Word(path)]
  }

  function EscalateTokens(authMarker: string, user: string, script: string): seq<Token> {
    SttyTokens("icrnl", ';') + [Word("printf"), Word("%s\\n"), Word(authMarker), Op(';')]
    + [Word("exec"), Word("su"), Word("-"), Word(user), Word("-c"), Word(script)]
  }

  lemma ServerMeans(serverMarker: string, path: string)
    ensures Meanings(ServerPieces(serverMarker)) + [Word(path)] == ServerTokens(serverMarker, path)
  {
    var stty, printf, exec := Stty("raw", '\n'), Printf("%s", serverMarker, '\n'), [Arg("exec")];
    MeaningsAppend(stty, printf);
    MeaningsAppend(stty + printf, exec);
    SttyMeans("raw", '\n');
    PrintfMeans("%s", serverMarker, '\n');
    ArgsMean(exec, [Word("exec")]);
    Associative(SttyTokens("raw", '\n') + Meanings(printf), [Word("exec")], [Word(path)]);
    assert [Word("exec")] + [Word(path)] == [Word("exec"), Word(path)];
  }

  lemma GapAfter(ps: seq<Piece>)
    ensures Meanings(ps + [Gap]) == Meanings(ps)
  {
    MeaningsAppend(ps, [Gap]);
    assert [Gap][1..] == [] && Meanings([Gap]) == [];
    NilNeutral(Meanings(ps));
  }

  lemma AnnounceMeans(authMarker: string)
    ensures Meanings(AnnouncePieces(authMarker)) ==
      SttyTokens("icrnl", ';') + [Word("printf"), Word("%s\\n"), Word(authMarker), Op(';')]
  {
    var stty, printf := Stty("icrnl", ';'), Printf("%s\\n", authMarker, ';');
    GapAfter(stty);
    GapAfter(printf);
    MeaningsAppend(stty + [Gap], printf + [Gap]);
    SttyMeans("icrnl", ';');
    PrintfMeans("%s\\n", authMarker, ';');
  }

  lemma EscalateMeans(authMarker: string, user: string, script: string)
    ensures Meanings(EscalatePieces(authMarker, user)) + [Word(script)] == EscalateTokens(authMarker, user, script)
  {
    var front, su := AnnouncePieces(authMarker), ExecSu(user);
    var words := [Word("exec"), Word("su"), Word("-"), Word(user), Word("-c")];
    AnnounceMeans(authMarker);
    MeaningsAppend(front, su);
    ArgsMean(su, words);
    Associative(Meanings(front), words, [Word(script)]);
    assert words + [Word(script)] == [Word("exec"), Word("su"), Word("-"), Word(user), Word("-c"), Word(script)];
  }

  /** The outer evaluation hands `su` the inner script verbatim; evaluated
      again, that script prints the server marker and executes the server's
      path, both verbatim. */
  lemma TwoLevels(authMarker: string, user: string, serverMarker: string, path: string)
    ensures var script := ServerScript(serverMarker, path);
      && Lex(EscalateCommand(authMarker, user, script), NoWord) == Done(EscalateTokens(authMarker, user, script))
      && Lex(script, NoWord) == Done(ServerTokens(serverMarker, path))
  {
    var script := ServerScript(serverMarker, path);
    EscalateIsProper(authMarker, user);
    ServerIsProper(serverMarker);
    LexLine(ServerPieces(serverMarker), path);
    LexLine(EscalatePieces(authMarker, user), script);
    ServerMeans(serverMarker, path);
    EscalateMeans(authMarker, user, script);
  }

  /** The first words a remote shell sees before a command: the saved directory,
      verbatim, as the one argument of `cd`. */
  function ChangeDir(cwd: string): seq<Piece> {
    [Arg("cd"), Value(cwd)] + [ArgOp("2", '>'), ArgOp("/dev/null", '\n')]
  }

  function ChangeDirTokens(cwd: string): seq<Token> {
    [Word("cd"), Word(cwd)] + [IoNumber("2"), Op('>'), Word("/dev/null"), Op('\n')]
  }

  lemma ChangeDirMeans(cwd: string, quiet: seq<Piece>)
    requires quiet == [ArgOp("2", '>'), ArgOp("/dev/null", '\n')]
    ensures AllProper(ChangeDir(cwd)) && Meanings(ChangeDir(cwd)) == ChangeDirTokens(cwd)
  {
    var front := [Arg("cd"), Value(cwd)];
    MeaningsAppend(front, quiet);
    ArgsMean(front, [Word("cd"), Word(cwd)]);
    QuietMeans(quiet);
  }

  lemma QuietMeans(quiet: seq<Piece>)
    requires quiet == [ArgOp("2", '>'), ArgOp("/dev/null", '\n')]
    ensures Meanings(quiet) == [IoNumber("2"), Op('>'), Word("/dev/null"), Op('\n')]
  {
    assert quiet[1..] == [quiet[1]] && quiet[1..][1..] == [];
    assert Meanings(quiet[1..]) == [Word("/dev/null"), Op('\n')];
  }

  lemma ChangesToSavedDirectory(cwd: string, rest: string)
    ensures Lex(Render(ChangeDir(cwd)) + rest, NoWord) == Prepend(ChangeDirTokens(cwd), Lex(rest, NoWord))
  {
    ChangeDirMeans(cwd, [ArgOp("2", '>'), ArgOp("/dev/null", '\n')]);
    LexPieces(ChangeDir(cwd), rest);
  }

  /** The end of a root script reports the exit status behind the done marker. */
  function RootEnd(doneMarker: string): string {
    "__dbx_root_rc=$?\n" + (Render(Printf("\\n%s %s\\n", doneMarker, ' '))
      + ("\"$__dbx_root_rc\"\n" + "exit \"$__dbx_root_rc\""))
  }

  /** The script around a command run as root. */
  function RootScript(command: string, readyMarker: string, doneMarker: string): string {
    Render(Printf("%s\\n", readyMarker, '\n')) + (command + ("\n" + RootEnd(doneMarker)))
  }

  /** Whatever the command, the script first prints the ready marker verbatim; the command
      follows on a line of its own. */
  lemma AnnouncesReady(command: string, readyMarker: string, doneMarker: string)
    ensures Lex(RootScript(command, readyMarker, doneMarker), NoWord) == Prepend(
      [Word("printf"), Word("%s\\n"), Word(readyMarker), Op('\n')],
      Lex(command + ("\n" + RootEnd(doneMarker)), NoWord))
  {
    PrintfMeans("%s\\n", readyMarker, '\n');
    LexPieces(Printf("%s\\n", readyMarker, '\n'), command + ("\n" + RootEnd(doneMarker)));
  }

  // ---- The text of the lines ----

  lemma {:induction false} RenderAppend(a: seq<Piece>, b: seq<Piece>)
    ensures Render(a + b) == Render(a) + Render(b)
    decreases |a|
  {
    if a == [] {
      NilNeutral(b);
      NilNeutral(Render(b));
    } else {
      assert (a + b)[1..] == a[1..] + b;
      RenderAppend(a[1..], b);
      Associative(Text(a[0]), Render(a[1..]), Render(b));
    }
  }

  lemma RenderOne(p: Piece)
    ensures Render([p]) == Text(p)
  {
    assert [p][1..] == [];
    NilNeutral(Text(p));
  }

  lemma RenderTwo(p: Piece, q: Piece)
    ensures Render([p, q]) == Text(p) + Text(q)
  {
    assert [p, q] == [p] + [q];
    RenderAppend([p], [q]);
    RenderOne(p);
    RenderOne(q);
  }

  lemma RenderThree(p: Piece, q: Piece, r: Piece)
    ensures Render([p, q, r]) == Text(p) + (Text(q) + Text(r))
  {
    assert [p, q, r] == [p] + [q, r];
    RenderAppend([p], [q, r]);
    RenderOne(p);
    RenderTwo(q, r);
  }

  lemma RenderParts(a: seq<Piece>, b: seq<Piece>, c: seq<Piece>)
    ensures Render(a + b + c) == Render(a) + Render(b) + Render(c)
  {
    RenderAppend(a, b);
    RenderAppend(a + b, c);
  }

  lemma RenderExec()
    ensures Render([Arg("exec")]) == "exec "
  {
    RenderOne(Arg("exec"));
  }

  lemma QuoteHere(v: string, i: nat)
    requires OccursAt(v, "'", i)
    ensures v[i] == '\''
  {
    assert v[i..i + 1][0] == v[i];
  }

  lemma QuoteOfPlain(v: string)
    requires '\'' !in v
    ensures ShellQuote(v) == "'" + (v + "'")
  {
    IndexSpec(v, "'");
    if Index(v, "'") >= 0 {
      QuoteHere(v, Index(v, "'"));
    }
  }

  lemma QuotedFormat(format: string)
    ensures "printf " + (("'" + (format + "'")) + " ") == "printf '" + (format + "' ")
  {
    Associative("'", format + "'", " ");
    Associative(format, "'", " ");
    Associative("printf ", "'", format + "' ");
  }

  lemma PrintfText(format: string, marker: string, c: char)
    requires '\'' !in format
    ensures Render(Printf(format, marker, c)) == ("printf '" + (format + "' ")) + (ShellQuote(marker) + [c])
  {
    RenderThree(Arg("printf"), Value(format), ValueOp(marker, c));
    QuoteOfPlain(format);
    QuotedFormat(format);
    Associative("printf ", ShellQuote(format) + " ", ShellQuote(marker) + [c]);
  }

  lemma SttyText(mode: string, c: char)
    ensures Render(Stty(mode, c)) == ("stty " + (mode + " -echo ")) + ("2>/dev/null " + ("||" + (" true" + [c])))
  {
    var front, redirect := [Arg("stty"), Arg(mode), Arg("-echo")], [ArgOp("2", '>'), Arg("/dev/null")];
    var bars, end := [JustOp('|'), JustOp('|')], [Gap, ArgOp("true", c)];
    RenderAppend(bars, end);
    RenderAppend(redirect, bars + end);
    RenderAppend(front, redirect + (bars + end));
    SttyFront(front, mode);
    SttyBack(redirect, bars, end, c);
  }

  lemma SttyFront(front: seq<Piece>, mode: string)
    requires front == [Arg("stty"), Arg(mode), Arg("-echo")]
    ensures Render(front) == "stty " + (mode + " -echo ")
  {
    RenderThree(Arg("stty"), Arg(mode), Arg("-echo"));
    Associative(mode, " ", "-echo ");
  }

  lemma SttyBack(redirect: seq<Piece>, bars: seq<Piece>, end: seq<Piece>, c: char)
    requires redirect == [ArgOp("2", '>'), Arg("/dev/null")]
    requires bars == [JustOp('|'), JustOp('|')] && end == [Gap, ArgOp("true", c)]
    ensures Render(redirect) == "2>/dev/null " && Render(bars) == "||" && Render(end) == " true" + [c]
  {
    RenderTwo(ArgOp("2", '>'), Arg("/dev/null"));
    RenderTwo(JustOp('|'), JustOp('|'));
    RenderTwo(Gap, ArgOp("true", c));
    Associative(" ", "true", [c]);
  }

  lemma ExecSuText(user: string)
    ensures Render(ExecSu(user)) == "exec su - " + (ShellQuote(user) + " -c ")
  {
    var front, back := [Arg("exec"), Arg("su"), Arg("-")], [Value(user), Arg("-c")];
    assert ExecSu(user) == front + back;
    RenderAppend(front, back);
    RenderThree(Arg("exec"), Arg("su"), Arg("-"));
    RenderTwo(Value(user), Arg("-c"));
    Associative(ShellQuote(user), " ", "-c ");
  }

  /** A root script line by line: the announcement, the command, its status saved, the
      report with the status behind the done marker, and the exit with that status. */
  lemma RootScriptText(command: string, readyMarker: string, doneMarker: string)
    ensures RootScript(command, readyMarker, doneMarker) ==
      (("printf '" + ("%s\\n" + "' ")) + (ShellQuote(readyMarker) + "\n")) + (
      command + ("\n" + (
      "__dbx_root_rc=$?\n" + (
      (("printf '" + ("\\n%s %s\\n" + "' ")) + (ShellQuote(doneMarker) + " ")) + ("\"$__dbx_root_rc\"\n" +
      "exit \"$__dbx_root_rc\"")))))
  {
    PrintfText("%s\\n", readyMarker, '\n');
    PrintfText("\\n%s %s\\n", doneMarker, ' ');
  }

  /** The script that becomes the root SFTP server, */
  lemma ServerScriptText(serverMarker: string, path: string)
    ensures ServerScript(serverMarker, path) ==
      ((("stty " + ("raw" + " -echo ")) + ("2>/dev/null " + ("||" + (" true" + "\n"))))
      + (("printf '" + ("%s" + "' ")) + (ShellQuote(serverMarker) + "\n"))
      + "exec ") + ShellQuote(path)
  {
    SttyText("raw", '\n');
    PrintfText("%s", serverMarker, '\n');
    RenderExec();
    RenderParts(Stty("raw", '\n'), Printf("%s", serverMarker, '\n'), [Arg("exec")]);
  }

  /** and the line that runs a script as another user. */
  lemma EscalateText(authMarker: string, user: string, script: string)
    ensures EscalateCommand(authMarker, user, script) ==
      ((("stty " + ("icrnl" + " -echo ")) + ("2>/dev/null " + ("||" + (" true" + ";")))) + " "
      + ((("printf '" + ("%s\\n" + "' ")) + (ShellQuote(authMarker) + ";")) + " ")
      + ("exec su - " + (ShellQuote(user) + " -c "))) + ShellQuote(script)
  {
    var stty, printf := Stty("icrnl", ';'), Printf("%s\\n", authMarker, ';');
    SttyText("icrnl", ';');
    PrintfText("%s\\n", authMarker, ';');
    RenderOne(Gap);
    ExecSuText(user);
    RenderAppend(stty, [Gap]);
    RenderAppend(printf, [Gap]);
    RenderAppend(stty + [Gap], printf + [Gap]);
    RenderAppend(AnnouncePieces(authMarker), ExecSu(user));
  }
}
