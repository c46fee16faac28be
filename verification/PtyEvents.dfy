/** The event protocol of local pseudo-terminal sessions: the read loop announces
    that the shell is gone, the silent-output watcher switches a connection to
    per-command mode, and shutdown silences both. Locked regions are atomic. */
module PtyEvents {
  import opened Histories

  // ---- The locked regions ----

  class Plugin {
    var fallbacks: set<string>

    constructor ()
      ensures fallbacks == {}
    {
      fallbacks := {};
    }

    /** connectLocal, before a terminal is opened. */
    method KnownBad(id: string) returns (bad: bool)
      ensures bad <==> id in fallbacks
    {
      bad := id in fallbacks;
    }
  }

  /** The flags the session mutex protects; `localPty` tells whether the field is set. */
  datatype Flags = Flags(localPty: bool, ptyClosed: bool, stopping: bool)

  function ReadEnded(f: Flags): Flags {
    if f.stopping then f else f.(ptyClosed := true)
  }

  predicate FallsBack(f: Flags) {
    !f.stopping && f.localPty
  }

  function FallenBack(f: Flags): Flags {
    if FallsBack(f) then f.(localPty := false, stopping := true) else f
  }

  function Stopping(f: Flags): Flags {
    f.(stopping := true)
  }

  /** What becomes of typed text. */
  datatype Typed = NoTerminal | ShellExited | Delivered

  function Typing(f: Flags): Typed {
    if !f.localPty then NoTerminal else if f.ptyClosed then ShellExited else Delivered
  }

  class PtySession {
    const id: string
    var localPty: bool
    var ptyClosed: bool
    var stopping: bool

    constructor (id: string, localPty: bool)
      ensures this.id == id && View() == Flags(localPty, false, false)
    {
      this.id, this.localPty, ptyClosed, stopping := id, localPty, false, false;
    }

    ghost function View(): Flags
      reads this
    {
      Flags(localPty, ptyClosed, stopping)
    }

    /** The read loop, when a read fails. */
    method EndReading() returns (announce: bool)
      modifies this
      ensures announce <==> !old(stopping)
      ensures View() == ReadEnded(old(View()))
    {
      announce := !stopping;
      if announce {
        ptyClosed := true;
      }
    }

    /** fallbackSession, with the plugin mutex nested inside the session's. */
    method FallBack(p: Plugin) returns (announce: bool)
      modifies this, p
      ensures announce <==> FallsBack(old(View()))
      ensures View() == FallenBack(old(View()))
      ensures p.fallbacks == old(p.fallbacks) + if announce then {id} else {}
    {
      if stopping || !localPty {
        return false;
      }
      localPty := false;
      stopping := true;
      p.fallbacks := p.fallbacks + {id};
      announce := true;
    }

    method BeginShutdown()
      modifies this
      ensures View() == Stopping(old(View()))
    {
      stopping := true;
    }

    /** shell/input of a local session, up to the write itself. */
    method Input() returns (typed: Typed)
      ensures typed == Typing(View())
    {
      var closed, hasPty := ptyClosed, localPty;
      if !hasPty {
        return NoTerminal;
      }
      typed := if closed then ShellExited else Delivered;
    }
  }

  // ---- The step machine ----

  datatype Reader = NoReader | Reading | ReadDone
  datatype Watcher = NoWatcher | Asleep | Woken | Falling | WatchDone

  /** A session object and the goroutines around it. */
  datatype Session = Session(
    id: string, knownBad: bool, flags: Flags, outputSeen: bool, reader: Reader, watcher: Watcher)

  /** What happens to session `s`: one event for each step, in order. A wake-up tells
      whether there was no output yet, a look whether the session was stopping. */
  datatype Event =
    | Checked(s: nat, id: string, knownBad: bool)
    | Opened(s: nat)
    | Printed(s: nat)
    | PtyClosed(s: nat)
    | Unannounced(s: nat)
    | Woke(s: nat, silent: bool)
    | Looked(s: nat, stopping: bool)
    | FellBack(s: nat, id: string)
    | GaveUp(s: nat)
    | Stopped(s: nat)

  /** Session objects are numbered in the order connectLocal creates them. */
  datatype System = System(sessions: seq<Session>, fallbacks: set<string>, log: seq<Event>)

  const INITIAL := System([], {}, [])

  datatype Step =
    | Check(id: string)
    | Open(s: nat)
    | Output(s: nat)
    | ReadEnds(s: nat)
    | Wake(s: nat)
    | LookAtStopping(s: nat)
    | Fall(s: nat)
    | Shutdown(s: nat)

  predicate Enabled(y: System, a: Step) {
    a.Check? || (a.s < |y.sessions| &&
      var x := y.sessions[a.s];
      match a
      // no second terminal, and none at all on a connection known to be bad
      case Open(_) => !x.knownBad && x.reader.NoReader?
      case Output(_) => x.reader.Reading?
      case ReadEnds(_) => x.reader.Reading?
      case Wake(_) => x.watcher.Asleep?
      case LookAtStopping(_) => x.watcher.Woken?
      case Fall(_) => x.watcher.Falling?
      case _ => true)
  }

  /** The session a step is about; a check creates it. */
  function Subject(y: System, a: Step): nat {
    if a.Check? then |y.sessions| else a.s
  }

  function Created(y: System, id: string): Session {
    Session(id, id in y.fallbacks, Flags(false, false, false), false, NoReader, NoWatcher)
  }

  /** What a step makes of its session. */
  function Moved(y: System, a: Step): Session
    requires Enabled(y, a)
  {
    if a.Check? then Created(y, a.id)
    else
      var x := y.sessions[a.s];
      match a
      case Open(_) => x.(flags := x.flags.(localPty := true), reader := Reading, watcher := Asleep)
      case Output(_) => x.(outputSeen := true)
      case ReadEnds(_) => x.(flags := ReadEnded(x.flags), reader := ReadDone)
      case Wake(_) => x.(watcher := if x.outputSeen then WatchDone else Woken)
      case LookAtStopping(_) => x.(watcher := if x.flags.stopping then WatchDone else Falling)
      case Fall(_) => x.(flags := FallenBack(x.flags), watcher := WatchDone)
      case _ => x.(flags := Stopping(x.flags))
  }

  /** The event a step records. */
  function Recorded(y: System, a: Step): Event
    requires Enabled(y, a)
  {
    if a.Check? then Checked(|y.sessions|, a.id, a.id in y.fallbacks)
    else
      var x := y.sessions[a.s];
      match a
      case Open(s) => Opened(s)
      case Output(s) => Printed(s)
      case ReadEnds(s) => if x.flags.stopping then Unannounced(s) else PtyClosed(s)
      case Wake(s) => Woke(s, !x.outputSeen)
      case LookAtStopping(s) => Looked(s, x.flags.stopping)
      case Fall(s) => if FallsBack(x.flags) then FellBack(s, x.id) else GaveUp(s)
      case _ => Stopped(a.s)
  }

  function Apply(y: System, a: Step): System
    requires Enabled(y, a)
  {
    var s, e := Subject(y, a), Recorded(y, a);
    System(
      if a.Check? then y.sessions + [Moved(y, a)] else y.sessions[s := Moved(y, a)],
      if e.FellBack? then y.fallbacks + {e.id} else y.fallbacks,
      y.log + [e])
  }

  ghost predicate Runs(y: System, steps: seq<Step>, y': System)
    decreases |steps|
  {
    if steps == [] then y == y' else Enabled(y, steps[0]) && Runs(Apply(y, steps[0]), steps[1..], y')
  }

  // ---- What a history must look like ----

  ghost predicate HasFallenBack(log: seq<Event>, s: nat) {
    exists id :: FellBack(s, id) in log
  }

  ghost predicate KnownBad(log: seq<Event>, id: string) {
    exists s :: FellBack(s, id) in log
  }

  /** Nothing may be announced for the session any more. */
  ghost predicate Silenced(log: seq<Event>, s: nat) {
    Stopped(s) in log || HasFallenBack(log, s)
  }

  predicate HasWoken(log: seq<Event>, s: nat) {
    Woke(s, true) in log || Woke(s, false) in log
  }

  predicate HasLooked(log: seq<Event>, s: nat) {
    Looked(s, true) in log || Looked(s, false) in log
  }

  /** The watcher is done: it saw output, saw the session stopping, or fell back or not. */
  ghost predicate WatchEnded(log: seq<Event>, s: nat) {
    Woke(s, false) in log || Looked(s, true) in log || GaveUp(s) in log || HasFallenBack(log, s)
  }

  ghost predicate Justified(before: seq<Event>, e: Event) {
    match e
    case Checked(s, id, bad) => (bad <==> KnownBad(before, id)) && Opened(s) !in before
    case Opened(s) => Opened(s) !in before && exists id :: Checked(s, id, false) in before
    case Printed(s) => Opened(s) in before && PtyClosed(s) !in before
    case PtyClosed(s) => Opened(s) in before && PtyClosed(s) !in before && !Silenced(before, s)
    case Unannounced(s) => Opened(s) in before && Silenced(before, s)
    case Woke(s, silent) =>
      && Opened(s) in before && !HasWoken(before, s) && !WatchEnded(before, s)
      && (silent <==> Printed(s) !in before)
    case Looked(s, stopping) =>
      && Woke(s, true) in before && !HasLooked(before, s) && !WatchEnded(before, s)
      && (stopping <==> Stopped(s) in before)
    case FellBack(s, id) =>
      && Looked(s, false) in before && !WatchEnded(before, s) && !Silenced(before, s)
      && Opened(s) in before && exists bad :: Checked(s, id, bad) in before
    case GaveUp(s) => Looked(s, false) in before && !WatchEnded(before, s) && Stopped(s) in before
    case Stopped(_) => true
  }

  /** How one session object mirrors the history: who it is, */
  ghost predicate Identity(log: seq<Event>, s: nat, x: Session) {
    && Checked(s, x.id, x.knownBad) in log
    && (forall id, bad :: Checked(s, id, bad) in log ==> id == x.id && bad == x.knownBad)
    && (forall id :: FellBack(s, id) in log ==> id == x.id)
  }

  /** its terminal and flags, */
  ghost predicate Terminal(log: seq<Event>, s: nat, x: Session) {
    && (Opened(s) in log <==> !x.reader.NoReader?)
    && (!x.reader.NoReader? ==> !x.knownBad)
    && (Printed(s) in log <==> x.outputSeen)
    && (PtyClosed(s) in log ==> x.reader.ReadDone?)
    && (x.flags.ptyClosed <==> PtyClosed(s) in log)
    && (x.flags.localPty <==> Opened(s) in log && !HasFallenBack(log, s))
    && (x.flags.stopping <==> Silenced(log, s))
  }

  /** and its watcher. */
  ghost predicate Watching(log: seq<Event>, s: nat, x: Session) {
    && (x.watcher.NoWatcher? <==> x.reader.NoReader?)
    && (HasWoken(log, s) <==> !x.watcher.NoWatcher? && !x.watcher.Asleep?)
    && (HasLooked(log, s) ==> x.watcher.Falling? || x.watcher.WatchDone?)
    && (x.watcher.Woken? ==> Woke(s, true) in log)
    && (x.watcher.Falling? ==> Looked(s, false) in log)
    && (x.watcher.WatchDone? <==> WatchEnded(log, s))
  }

  ghost predicate Reflects(log: seq<Event>, s: nat, x: Session) {
    Identity(log, s, x) && Terminal(log, s, x) && Watching(log, s, x)
  }

  ghost predicate Mirrors(y: System) {
    && (forall s: nat :: s < |y.sessions| ==> Reflects(y.log, s, y.sessions[s]))
    && (forall e :: e in y.log ==> e.s < |y.sessions|)
    && (forall id :: id in y.fallbacks <==> KnownBad(y.log, id))
  }

  // ---- Every step keeps the history lawful ----

  /** Sessions a step does not touch, and events it does not add, are unaffected. */
  lemma OthersReflect(log: seq<Event>, e: Event, s: nat, x: Session)
    requires Reflects(log, s, x) && e.s != s
    ensures Reflects(log + [e], s, x)
  {
    assert forall d: Event :: d.s == s ==> (d in log + [e] <==> d in log);
  }

  lemma KeepsIdentity(y: System, a: Step)
    requires Mirrors(y) && Enabled(y, a)
    ensures Identity(y.log + [Recorded(y, a)], Subject(y, a), Moved(y, a))
  {
  }

  lemma KeepsTerminal(y: System, a: Step)
    requires Mirrors(y) && Enabled(y, a)
    ensures Terminal(y.log + [Recorded(y, a)], Subject(y, a), Moved(y, a))
  {
    var log, s, e := y.log + [Recorded(y, a)], Subject(y, a), Recorded(y, a);
    assert HasFallenBack(log, s) <==> HasFallenBack(y.log, s) || e.FellBack? by {
      if e.FellBack? {
        assert FellBack(s, e.id) in log;
      }
    }
  }

  lemma KeepsWatching(y: System, a: Step)
    requires Mirrors(y) && Enabled(y, a)
    ensures Watching(y.log + [Recorded(y, a)], Subject(y, a), Moved(y, a))
  {
    var log, s, e := y.log + [Recorded(y, a)], Subject(y, a), Recorded(y, a);
    assert HasFallenBack(log, s) <==> HasFallenBack(y.log, s) || e.FellBack? by {
      if e.FellBack? {
        assert FellBack(s, e.id) in log;
      }
    }
  }

  lemma StepReflects(y: System, a: Step, s: nat)
    requires Mirrors(y) && Enabled(y, a) && s < |Apply(y, a).sessions|
    ensures Reflects(Apply(y, a).log, s, Apply(y, a).sessions[s])
  {
    if s == Subject(y, a) {
      KeepsIdentity(y, a);
      KeepsTerminal(y, a);
      KeepsWatching(y, a);
    } else {
      OthersReflect(y.log, Recorded(y, a), s, y.sessions[s]);
    }
  }

  lemma FallbacksReflect(y: System, a: Step)
    requires Mirrors(y) && Enabled(y, a)
    ensures forall id :: id in Apply(y, a).fallbacks <==> KnownBad(Apply(y, a).log, id)
  {
    var y' := Apply(y, a);
    forall id ensures id in y'.fallbacks <==> KnownBad(y'.log, id) {
      if id in y'.fallbacks && id !in y.fallbacks {
        assert FellBack(a.s, id) in y'.log;
      }
    }
  }

  lemma StepIsJustified(y: System, a: Step)
    requires Mirrors(y) && Enabled(y, a)
    ensures Justified(y.log, Recorded(y, a))
  {
    if !a.Check? {
      assert Reflects(y.log, a.s, y.sessions[a.s]);
    }
  }

  lemma StepKeeps(y: System, a: Step)
    requires Mirrors(y) && Lawful(Justified, y.log) && Enabled(y, a)
    ensures Mirrors(Apply(y, a)) && Lawful(Justified, Apply(y, a).log)
  {
    var y' := Apply(y, a);
    forall s: nat | s < |y'.sessions| ensures Reflects(y'.log, s, y'.sessions[s]) {
      StepReflects(y, a, s);
    }
    FallbacksReflect(y, a);
    StepIsJustified(y, a);
    LawfulMore(Justified, y.log, Recorded(y, a));
  }

  lemma {:induction false} RunsKeep(y: System, steps: seq<Step>, y': System)
    requires Mirrors(y) && Lawful(Justified, y.log) && Runs(y, steps, y')
    ensures Mirrors(y') && Lawful(Justified, y'.log)
    decreases |steps|
  {
    if steps != [] {
      StepKeeps(y, steps[0]);
      RunsKeep(Apply(y, steps[0]), steps[1..], y');
    }
  }

  // ---- The protocol, over all runs ----

  /** A decision later in a history that an earlier event rules out. */
  ghost predicate Forbids(earlier: Event, later: Event) {
    && earlier.s == later.s
    && (|| (earlier.PtyClosed? && later.PtyClosed?)
        || (earlier.FellBack? && later.FellBack?)
        || (earlier.FellBack? && later.PtyClosed?)
        || (earlier.Stopped? && (later.PtyClosed? || later.FellBack?))
        || (earlier.Opened? && later.Opened?))
  }

  /** Each session decides at most one `shell/pty-closed` and at most one
      `shell/legacy-fallback`, neither after it was stopped, and no
      `shell/pty-closed` after a fallback. */
  lemma Protocol(steps: seq<Step>, y: System, i: nat, j: nat)
    requires Runs(INITIAL, steps, y) && i < j < |y.log|
    ensures !Forbids(y.log[i], y.log[j])
  {
    RunsKeep(INITIAL, steps, y);
    Before(y.log, i, j);
    LawfulAt(Justified, y.log, j);
    if y.log[i].FellBack? {
      assert y.log[i] == FellBack(y.log[i].s, y.log[i].id);
    }
    assert y.log[i] == Stopped(y.log[i].s) || y.log[i] == PtyClosed(y.log[i].s) || y.log[i] == Opened(y.log[i].s)
        || !(y.log[i].Stopped? || y.log[i].PtyClosed? || y.log[i].Opened?);
  }

  /** Once a connection fell back, every later connect on it runs without a
      terminal, and says so. */
  lemma NoTerminalAfterFallback(steps: seq<Step>, y: System, i: nat, j: nat)
    requires Runs(INITIAL, steps, y) && i < j < |y.log|
    requires y.log[i].FellBack? && y.log[j].Checked? && y.log[j].id == y.log[i].id
    ensures y.log[j].knownBad && Opened(y.log[j].s) !in y.log
  {
    RunsKeep(INITIAL, steps, y);
    var e := y.log[j];
    Before(y.log, i, j);
    assert y.log[i] == FellBack(y.log[i].s, e.id);
    LawfulAt(Justified, y.log, j);
    assert e == Checked(e.s, e.id, e.knownBad) && e in y.log;
    assert Reflects(y.log, e.s, y.sessions[e.s]);
  }

  /** Only a fallback makes a connection known to be bad. */
  lemma KnownBadOnlyByFallback(steps: seq<Step>, y: System, j: nat)
    requires Runs(INITIAL, steps, y) && j < |y.log| && y.log[j].Checked? && y.log[j].knownBad
    ensures exists i, s :: 0 <= i < j && y.log[i] == FellBack(s, y.log[j].id)
  {
    RunsKeep(INITIAL, steps, y);
    LawfulAt(Justified, y.log, j);
    var s :| FellBack(s, y.log[j].id) in y.log[..j];
    var i :| 0 <= i < j && y.log[..j][i] == FellBack(s, y.log[j].id);
    assert y.log[i] == FellBack(s, y.log[j].id);
  }

  /** In every run typed text goes to the terminal exactly while one is open: it was
      opened, its end was not announced and the session did not fall back. Text typed after
      the announced end is answered with an error. */
  lemma TypingIff(steps: seq<Step>, y: System, s: nat)
    requires Runs(INITIAL, steps, y) && s < |y.sessions|
    ensures var typed := Typing(y.sessions[s].flags);
      && (typed.Delivered? <==> Opened(s) in y.log && PtyClosed(s) !in y.log && !HasFallenBack(y.log, s))
      && (typed.ShellExited? <==> PtyClosed(s) in y.log && !HasFallenBack(y.log, s))
  {
    RunsKeep(INITIAL, steps, y);
    assert Reflects(y.log, s, y.sessions[s]);
  }

  // ---- When a silent terminal is replaced ----

  /** The event is the watcher's last. */
  predicate EndsWatch(e: Event, s: nat) {
    e.s == s && (e.FellBack? || e.GaveUp? || e == Woke(s, false) || e == Looked(s, true))
  }

  ghost predicate OutputBeforeWake(log: seq<Event>, s: nat) {
    exists i, j :: 0 <= i < j < |log| && log[i] == Printed(s) && log[j].Woke? && log[j].s == s
  }

  ghost predicate StoppedBeforeEnd(log: seq<Event>, s: nat) {
    exists i, j :: 0 <= i < j < |log| && log[i] == Stopped(s) && EndsWatch(log[j], s)
  }

  /** A watcher ends at most once. */
  lemma OneEnd(log: seq<Event>, s: nat, i: nat, j: nat)
    requires Lawful(Justified, log) && i < j < |log| && EndsWatch(log[i], s)
    ensures !EndsWatch(log[j], s)
  {
    Before(log, i, j);
    LawfulAt(Justified, log, j);
    if log[i].FellBack? {
      assert log[i] == FellBack(s, log[i].id);
    } else {
      assert log[i] == GaveUp(s) || log[i] == Woke(s, false) || log[i] == Looked(s, true);
    }
  }

  lemma OneWake(log: seq<Event>, s: nat, i: nat, j: nat)
    requires Lawful(Justified, log) && i < j < |log|
    requires log[i].Woke? && log[i].s == s
    ensures !(log[j].Woke? && log[j].s == s)
  {
    Before(log, i, j);
    LawfulAt(Justified, log, j);
    assert log[i] == Woke(s, true) || log[i] == Woke(s, false);
  }

  /** A fallback is decided only for a terminal that was silent when the watcher woke
      and a session that was not stopped until then. */
  lemma FallbackWasSilent(log: seq<Event>, s: nat, j: nat)
    requires Lawful(Justified, log) && j < |log| && log[j].FellBack? && log[j].s == s
    ensures !OutputBeforeWake(log, s) && !StoppedBeforeEnd(log, s)
  {
    LawfulAt(Justified, log, j);
    var l :| 0 <= l < j && log[..j][l] == Looked(s, false);
    LawfulAt(Justified, log, l);
    var w :| 0 <= w < l && log[..l][w] == Woke(s, true);
    LawfulAt(Justified, log, w);
    forall i, k | 0 <= i < k < |log| && log[i] == Printed(s) ensures !(log[k].Woke? && log[k].s == s) {
      if k > w {
        OneWake(log, s, w, k);
      }
    }
    forall i, k | 0 <= i < k < |log| && log[i] == Stopped(s) ensures !EndsWatch(log[k], s) {
      if k > j {
        OneEnd(log, s, j, k);
      }
    }
  }

  /** A watcher that ends without a fallback saw output when it woke, or ends after a stop. */
  lemma NoFallbackMeans(log: seq<Event>, s: nat, j: nat)
    requires Lawful(Justified, log) && j < |log| && EndsWatch(log[j], s) && !log[j].FellBack?
    ensures OutputBeforeWake(log, s) || StoppedBeforeEnd(log, s)
  {
    LawfulAt(Justified, log, j);
    if log[j].Woke? {
      var i :| 0 <= i < j && log[..j][i] == Printed(s);
      assert log[i] == Printed(s);
    } else {
      var i :| 0 <= i < j && log[..j][i] == Stopped(s);
      assert log[i] == Stopped(s);
    }
  }

  lemma EndIsLogged(log: seq<Event>, s: nat) returns (j: nat)
    requires WatchEnded(log, s)
    ensures j < |log| && EndsWatch(log[j], s)
    ensures HasFallenBack(log, s) ==> log[j].FellBack?
  {
    if HasFallenBack(log, s) {
      var id :| FellBack(s, id) in log;
      j :| 0 <= j < |log| && log[j] == FellBack(s, id);
    } else {
      var e :| e in log && EndsWatch(e, s);
      j :| 0 <= j < |log| && log[j] == e;
    }
  }

  /** Once the watcher of a session is done, the connection has fallen back if and only
      if the terminal printed nothing before the watcher woke and the session was not
      stopped before the watcher was done. */
  lemma FallbackIff(steps: seq<Step>, y: System, s: nat)
    requires Runs(INITIAL, steps, y) && s < |y.sessions| && y.sessions[s].watcher.WatchDone?
    ensures HasFallenBack(y.log, s) <==> !OutputBeforeWake(y.log, s) && !StoppedBeforeEnd(y.log, s)
  {
    DoneWatching(steps, y, s);
    var j := EndIsLogged(y.log, s);
    if y.log[j].FellBack? {
      FallbackWasSilent(y.log, s, j);
      assert y.log[j] == FellBack(s, y.log[j].id);
    } else {
      NoFallbackMeans(y.log, s, j);
    }
  }

  ghost predicate FallsBackAfter(log: seq<Event>, s: nat, i: nat) {
    exists j :: i < j < |log| && log[j].FellBack? && log[j].s == s
  }

  /** A fallback of a session whose end was announced comes after the announcement. */
  lemma FallsBackLater(steps: seq<Step>, y: System, s: nat, i: nat)
    requires Runs(INITIAL, steps, y) && i < |y.log| && y.log[i] == PtyClosed(s)
    ensures FallsBackAfter(y.log, s, i) <==> HasFallenBack(y.log, s)
  {
    forall j | i < j < |y.log| && y.log[j].FellBack? && y.log[j].s == s ensures HasFallenBack(y.log, s) {
      assert y.log[j] == FellBack(s, y.log[j].id);
    }
    if HasFallenBack(y.log, s) {
      var id :| FellBack(s, id) in y.log;
      var j :| 0 <= j < |y.log| && y.log[j] == FellBack(s, id);
      if j < i {
        Protocol(steps, y, j, i);
      }
    }
  }

  /** When a fallback follows an announced end of the shell. If the shell ended before
      the watcher woke, the terminal must never have printed at all. */
  lemma FallbackAfterCloseIff(steps: seq<Step>, y: System, s: nat, i: nat)
    requires Runs(INITIAL, steps, y) && s < |y.sessions| && y.sessions[s].watcher.WatchDone?
    requires i < |y.log| && y.log[i] == PtyClosed(s)
    ensures FallsBackAfter(y.log, s, i) <==> !OutputBeforeWake(y.log, s) && !StoppedBeforeEnd(y.log, s)
    ensures !HasWoken(y.log[..i], s) ==> (OutputBeforeWake(y.log, s) <==> Printed(s) in y.log)
  {
    FallbackIff(steps, y, s);
    FallsBackLater(steps, y, s, i);
    if !HasWoken(y.log[..i], s) {
      DoneWatching(steps, y, s);
      ClosedBeforeWaking(y.log, s, i);
    }
  }

  lemma DoneWatching(steps: seq<Step>, y: System, s: nat)
    requires Runs(INITIAL, steps, y) && s < |y.sessions| && y.sessions[s].watcher.WatchDone?
    ensures Lawful(Justified, y.log) && WatchEnded(y.log, s)
  {
    RunsKeep(INITIAL, steps, y);
    assert Reflects(y.log, s, y.sessions[s]);
  }

  /** A watcher that is done has woken. */
  lemma WatchWoke(log: seq<Event>, s: nat) returns (w: nat)
    requires Lawful(Justified, log) && WatchEnded(log, s)
    ensures w < |log| && log[w].Woke? && log[w].s == s
  {
    w := EndIsLogged(log, s);
    if !log[w].Woke? {
      LawfulAt(Justified, log, w);
      if !log[w].Looked? {
        w :| 0 <= w < |log| && log[w] == Looked(s, false);
        LawfulAt(Justified, log, w);
      }
      w :| 0 <= w < |log| && log[w] == Woke(s, true);
    }
  }

  lemma ClosedBeforeWaking(log: seq<Event>, s: nat, i: nat)
    requires Lawful(Justified, log) && i < |log| && log[i] == PtyClosed(s) && !HasWoken(log[..i], s)
    requires WatchEnded(log, s)
    ensures OutputBeforeWake(log, s) <==> Printed(s) in log
  {
    var w := WatchWoke(log, s);
    assert log[w] == Woke(s, true) || log[w] == Woke(s, false);
    if Printed(s) in log {
      var p :| 0 <= p < |log| && log[p] == Printed(s);
      NothingPrintedAfter(log, s, i, p);
    }
  }

  lemma NothingPrintedAfter(log: seq<Event>, s: nat, i: nat, p: nat)
    requires Lawful(Justified, log) && i < |log| && p < |log| && log[i] == PtyClosed(s) && log[p] == Printed(s)
    ensures p < i
  {
    LawfulAt(Justified, log, p);
  }

  // ---- A run ----

  lemma RunsCons(y: System, a: Step, rest: seq<Step>, y': System)
    requires Enabled(y, a) && Runs(Apply(y, a), rest, y')
    ensures Runs(y, [a] + rest, y')
  {
    assert ([a] + rest)[1..] == rest;
  }

  /** The other order does happen: a shell that exits without any output is
      announced as closed, and the watcher still falls back afterwards. */
  lemma FallbackAfterClose(id: string) returns (steps: seq<Step>, y: System)
    ensures Runs(INITIAL, steps, y)
    ensures y.log == [Checked(0, id, false), Opened(0), PtyClosed(0), Woke(0, true), Looked(0, false), FellBack(0, id)]
  {
    var y1 := Apply(INITIAL, Check(id));
    var y2 := Apply(y1, Open(0));
    var y3 := Apply(y2, ReadEnds(0));
    var y4 := Apply(y3, Wake(0));
    var y5 := Apply(y4, LookAtStopping(0));
    y := Apply(y5, Fall(0));
    steps := [];
    RunsCons(y5, Fall(0), steps, y);
    steps := [Fall(0)] + steps;
    RunsCons(y4, LookAtStopping(0), steps, y);
    steps := [LookAtStopping(0)] + steps;
    RunsCons(y3, Wake(0), steps, y);
    steps := [Wake(0)] + steps;
    RunsCons(y2, ReadEnds(0), steps, y);
    steps := [ReadEnds(0)] + steps;
    RunsCons(y1, Open(0), steps, y);
    steps := [Open(0)] + steps;
    RunsCons(INITIAL, Check(id), steps, y);
    steps := [Check(id)] + steps;
  }
}
