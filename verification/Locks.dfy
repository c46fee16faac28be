/** Deadlock freedom. Every handler takes its mutexes in one order: the cached
    remote data's, the session's, the plugin's, the terminal's, the SFTP
    client's, the dead flag's. A static check of the nesting is sound for every
    interleaving of any number of handlers. */
module Locks {

  // ---- Mutexes ----

  /** The mutexes of session `s`, and the shared ones. */
  datatype Lock =
    | RemoteData(s: nat) | Session(s: nat) | Plugin | Pty(s: nat) | PtyWrite(s: nat) | Sftp(s: nat) | Dead(s: nat)
    | Uploads | Emitter

  function Rank(l: Lock): (r: nat)
    ensures r <= 8
  {
    match l
    case RemoteData(_) => 0
    case Session(_) => 1
    case Plugin => 2
    case Pty(_) => 3
    case PtyWrite(_) => 4
    case Sftp(_) => 5
    case Dead(_) => 6
    case Uploads => 7
    case Emitter => 8
  }

  // ---- What a handler does with them ----

  /** Code as far as locks are concerned. `With` covers both a deferred unlock and
      an unlock before each return; `shared` is a read lock. */
  datatype Code =
    | Pass
    | With(lock: Lock, shared: bool, body: Code)
    | Then(first: Code, second: Code)
    | Either(left: Code, right: Code)
    | Repeat(body: Code)

  /** Nested acquisitions go strictly up from `floor`. */
  predicate Ascends(c: Code, floor: int) {
    match c
    case Pass => true
    case With(l, _, b) => floor < Rank(l) && Ascends(b, Rank(l))
    case Then(a, b) => Ascends(a, floor) && Ascends(b, floor)
    case Either(a, b) => Ascends(a, floor) && Ascends(b, floor)
    case Repeat(b) => Ascends(b, floor)
  }

  lemma {:induction false} AscendsFromBelow(c: Code, floor: int, lower: int)
    requires Ascends(c, floor) && lower <= floor
    ensures Ascends(c, lower)
  {
    match c
    case Then(a, b) =>
      AscendsFromBelow(a, floor, lower);
      AscendsFromBelow(b, floor, lower);
    case Either(a, b) =>
      AscendsFromBelow(a, floor, lower);
      AscendsFromBelow(b, floor, lower);
    case Repeat(b) =>
      AscendsFromBelow(b, floor, lower);
    case _ =>
  }

  /** `Ascends`, bottom up. */
  lemma AscentRules()
    ensures forall c, f: int, g: int :: Ascends(c, f) && g <= f ==> Ascends(c, g)
    ensures forall f: int :: Ascends(Pass, f)
    ensures forall l, shared, b, f: int :: f < Rank(l) && Ascends(b, Rank(l)) ==> Ascends(With(l, shared, b), f)
    ensures forall a, b, f: int :: Ascends(a, f) && Ascends(b, f) ==> Ascends(Then(a, b), f)
    ensures forall a, b, f: int :: Ascends(a, f) && Ascends(b, f) ==> Ascends(Either(a, b), f)
    ensures forall b, f: int :: Ascends(b, f) ==> Ascends(Repeat(b), f)
  {
    forall c, f: int, g: int | Ascends(c, f) && g <= f ensures Ascends(c, g) {
      AscendsFromBelow(c, f, g);
    }
  }

  function Hold(l: Lock): Code { With(l, false, Pass) }

  function Maybe(a: Code): Code { Either(Pass, a) }

  function IsDead(s: nat): (c: Code)
    ensures Ascends(c, 5)
  {
    AscentRules();
    With(Dead(s), true, Pass)
  }

  function MarkDead(s: nat): Code { Hold(Dead(s)) }

  function Emit(): (c: Code)
    ensures Ascends(c, 7)
  {
    AscentRules();
    Hold(Emitter)
  }

  function SftpClient(s: nat): (c: Code)
    ensures Ascends(c, 4)
  {
    AscentRules();
    With(Sftp(s), false, Maybe(Then(IsDead(s), Maybe(MarkDead(s)))))
  }

  function EnsureRemoteData(s: nat): (c: Code)
    ensures Ascends(c, -1)
  {
    AscentRules();
    With(RemoteData(s), false, Maybe(Then(IsDead(s), Maybe(Either(MarkDead(s), SftpClient(s))))))
  }

  function Shutdown(s: nat): (c: Code)
    ensures Ascends(c, 0)
  {
    AscentRules();
    Then(Hold(Session(s)), Maybe(Then(Hold(Pty(s)), Then(Hold(Sftp(s)), MarkDead(s)))))
  }

  function FallbackSession(s: nat): (c: Code)
    ensures Ascends(c, 0)
  {
    AscentRules();
    Then(With(Session(s), false, Maybe(Hold(Plugin))), Maybe(Emit()))
  }

  function OpenPtyShell(s: nat): (c: Code)
    ensures Ascends(c, 2)
  {
    AscentRules();
    Then(IsDead(s), Either(Maybe(MarkDead(s)), Hold(Pty(s))))
  }

  function StartExec(s: nat): (c: Code)
    ensures Ascends(c, 0)
  {
    AscentRules();
    Maybe(Then(IsDead(s), Maybe(Either(MarkDead(s), Then(Hold(Session(s)), Maybe(MarkDead(s)))))))
  }

  /** What can run at the same time: requests, and the goroutines they start. */
  datatype Handler =
    | ConnectLocal(previous: nat)
    | ConnectSsh(s: nat, previous: nat)
    | Disconnect(s: nat)
    | ExecCommand(s: nat)
    | Wait(s: nat)
    | CancelCommand(s: nat)
    | Escalate(s: nat)
    | WorkingDir(s: nat)
    | Complete(s: nat)
    | ShellConfig(s: nat)
    | InjectOsc7(s: nat)
    | PtyInput(s: nat)
    | PtyResize(s: nat)
    | ReadTerminal(s: nat)
    | WatchSilence(s: nat)
    | Keepalive(s: nat)
    | FileRequest(s: nat)
    | Upload(s: nat)
    | DockerRequest(s: nat)

  /** A request looks its session up, does its work, and sends a response. */
  function Request(work: Code): (c: Code)
    ensures Ascends(work, -1) ==> Ascends(c, -1)
  {
    AscentRules();
    Then(Hold(Plugin), Then(Maybe(work), Emit()))
  }

  /** Every handler ascends. */
  function Body(h: Handler): (c: Code)
    ensures Ascends(c, -1)
  {
    AscentRules();
    match h
    case ConnectLocal(v) => Request(Then(Hold(Plugin), Maybe(Shutdown(v))))
    case ConnectSsh(s, v) => Then(OpenPtyShell(s), Then(Maybe(Hold(Session(s))), Request(Shutdown(v))))
    case Disconnect(s) => Request(Shutdown(s))
    case ExecCommand(s) =>
      Request(Then(Maybe(IsDead(s)), Maybe(Then(Hold(Session(s)), Maybe(Then(StartExec(s), Hold(Session(s))))))))
    case Wait(s) => Then(Repeat(Emit()), Then(Hold(Session(s)), Emit()))
    case CancelCommand(s) => Request(Hold(Session(s)))
    case Escalate(s) => Maybe(Hold(Session(s)))
    case WorkingDir(s) => Request(Then(Maybe(IsDead(s)), Maybe(Hold(Session(s)))))
    case Complete(s) => Request(Either(EnsureRemoteData(s), Then(Maybe(SftpClient(s)), Repeat(Hold(Session(s))))))
    case ShellConfig(s) => Request(Hold(Session(s)))
    case InjectOsc7(s) => Maybe(Hold(PtyWrite(s)))
    case PtyInput(s) =>
      Request(Then(Either(Then(IsDead(s), Maybe(Hold(Pty(s)))), Hold(Session(s))), Maybe(Hold(PtyWrite(s)))))
    case PtyResize(s) => Request(Either(Hold(Session(s)), Hold(Pty(s))))
    case ReadTerminal(s) =>
      Then(Repeat(Then(Maybe(Then(Hold(Session(s)), Maybe(Emit()))), Emit())), Then(Hold(Session(s)), Maybe(Emit())))
    case WatchSilence(s) => Maybe(Then(Hold(Session(s)), Maybe(FallbackSession(s))))
    case Keepalive(s) => Repeat(Then(IsDead(s), Maybe(Then(Hold(Pty(s)), Maybe(MarkDead(s))))))
    case FileRequest(s) => Request(Then(Repeat(Hold(Session(s))), Maybe(Then(SftpClient(s), Repeat(Hold(Session(s)))))))
    case Upload(s) => Then(Repeat(Hold(Uploads)), Request(Then(Maybe(SftpClient(s)), Repeat(Hold(Uploads)))))
    case DockerRequest(s) => Request(Repeat(Then(IsDead(s), Maybe(MarkDead(s)))))
  }

  // ---- Which mutexes a handler takes, and which ones inside which ----

  predicate Takes(c: Code, l: Lock) {
    match c
    case Pass => false
    case With(k, _, b) => k == l || Takes(b, l)
    case Then(a, b) => Takes(a, l) || Takes(b, l)
    case Either(a, b) => Takes(a, l) || Takes(b, l)
    case Repeat(b) => Takes(b, l)
  }

  /** The lock is taken somewhere as a read lock. */
  predicate TakesShared(c: Code, l: Lock) {
    match c
    case Pass => false
    case With(k, shared, b) => (k == l && shared) || TakesShared(b, l)
    case Then(a, b) => TakesShared(a, l) || TakesShared(b, l)
    case Either(a, b) => TakesShared(a, l) || TakesShared(b, l)
    case Repeat(b) => TakesShared(b, l)
  }

  /** Somewhere `inner` is taken while `outer` is held. */
  predicate Nests(c: Code, outer: Lock, inner: Lock) {
    match c
    case Pass => false
    case With(k, _, b) => (k == outer && Takes(b, inner)) || Nests(b, outer, inner)
    case Then(a, b) => Nests(a, outer, inner) || Nests(b, outer, inner)
    case Either(a, b) => Nests(a, outer, inner) || Nests(b, outer, inner)
    case Repeat(b) => Nests(b, outer, inner)
  }

  /** `Takes`, bottom up. */
  lemma TakesRules(l: Lock)
    ensures !Takes(Pass, l)
    ensures forall m, shared, b :: Takes(With(m, shared, b), l) <==> m == l || Takes(b, l)
    ensures forall a, b :: Takes(Then(a, b), l) <==> Takes(a, l) || Takes(b, l)
    ensures forall a, b :: Takes(Either(a, b), l) <==> Takes(a, l) || Takes(b, l)
    ensures forall b :: Takes(Repeat(b), l) <==> Takes(b, l)
  {
  }

  /** `TakesShared`, bottom up. */
  lemma SharedRules(l: Lock)
    ensures !TakesShared(Pass, l)
    ensures forall k, shared, b :: TakesShared(With(k, shared, b), l) <==> (k == l && shared) || TakesShared(b, l)
    ensures forall a, b :: TakesShared(Then(a, b), l) <==> TakesShared(a, l) || TakesShared(b, l)
    ensures forall a, b :: TakesShared(Either(a, b), l) <==> TakesShared(a, l) || TakesShared(b, l)
    ensures forall b :: TakesShared(Repeat(b), l) <==> TakesShared(b, l)
  {
  }

  /** `Nests`, bottom up. */
  lemma NestsRules(l: Lock, k: Lock)
    ensures !Nests(Pass, l, k)
    ensures forall m, shared, b :: Nests(With(m, shared, b), l, k) <==> (m == l && Takes(b, k)) || Nests(b, l, k)
    ensures forall a, b :: Nests(Then(a, b), l, k) <==> Nests(a, l, k) || Nests(b, l, k)
    ensures forall a, b :: Nests(Either(a, b), l, k) <==> Nests(a, l, k) || Nests(b, l, k)
    ensures forall b :: Nests(Repeat(b), l, k) <==> Nests(b, l, k)
  {
  }

  predicate OfSession(l: Lock, s: nat) {
    l == Session(s) || l == Pty(s) || l == Sftp(s) || l == Dead(s)
  }

  /** What every request takes besides. */
  predicate OfRequest(l: Lock) {
    l == Plugin || l == Emitter
  }

  /** The mutexes a handler can take. */
  predicate MayTake(h: Handler, l: Lock) {
    match h
    case ConnectLocal(v) => OfRequest(l) || OfSession(l, v)
    case ConnectSsh(s, v) => OfRequest(l) || OfSession(l, v) || l == Dead(s) || l == Pty(s) || l == Session(s)
    case Disconnect(s) => OfRequest(l) || OfSession(l, s)
    case ExecCommand(s) => OfRequest(l) || l == Session(s) || l == Dead(s)
    case Wait(s) => l == Session(s) || l == Emitter
    case CancelCommand(s) => OfRequest(l) || l == Session(s)
    case Escalate(s) => l == Session(s)
    case WorkingDir(s) => OfRequest(l) || l == Session(s) || l == Dead(s)
    case Complete(s) => OfRequest(l) || l == RemoteData(s) || l == Session(s) || l == Sftp(s) || l == Dead(s)
    case ShellConfig(s) => OfRequest(l) || l == Session(s)
    case InjectOsc7(s) => l == PtyWrite(s)
    case PtyInput(s) => OfRequest(l) || l == Session(s) || l == Dead(s) || l == Pty(s) || l == PtyWrite(s)
    case PtyResize(s) => OfRequest(l) || l == Session(s) || l == Pty(s)
    case ReadTerminal(s) => l == Session(s) || l == Emitter
    case WatchSilence(s) => l == Session(s) || l == Plugin || l == Emitter
    case Keepalive(s) => l == Dead(s) || l == Pty(s)
    case FileRequest(s) => OfRequest(l) || l == Session(s) || l == Sftp(s) || l == Dead(s)
    case Upload(s) => OfRequest(l) || l == Uploads || l == Sftp(s) || l == Dead(s)
    case DockerRequest(s) => OfRequest(l) || l == Dead(s)
  }

  /** The mutexes a handler can take while it holds another one. */
  predicate MayNest(h: Handler, outer: Lock, inner: Lock) {
    match h
    case WatchSilence(s) => outer == Session(s) && inner == Plugin
    case Complete(s) =>
      (outer == RemoteData(s) && (inner == Sftp(s) || inner == Dead(s))) || (outer == Sftp(s) && inner == Dead(s))
    case FileRequest(s) => outer == Sftp(s) && inner == Dead(s)
    case Upload(s) => outer == Sftp(s) && inner == Dead(s)
    case _ => false
  }

  /** Handlers about files and Docker, as against those about commands and terminals. */
  predicate AboutFiles(h: Handler) {
    h.Complete? || h.Keepalive? || h.FileRequest? || h.Upload? || h.DockerRequest?
  }

  predicate AboutSessions(h: Handler) {
    h.ConnectLocal? || h.ConnectSsh? || h.Disconnect?
  }

  /** Handlers that ask whether the session is dead. */
  predicate AsksDead(h: Handler) {
    || h.ConnectSsh? || h.ExecCommand? || h.WorkingDir? || h.PtyInput?
    || h.Complete? || h.Keepalive? || h.FileRequest? || h.Upload? || h.DockerRequest?
  }

  lemma FileHandlersRead(h: Handler, l: Lock)
    requires AboutFiles(h)
    ensures TakesShared(Body(h), l) <==> l == Dead(h.s)
  {
    SharedRules(l);
  }

  lemma OtherHandlersRead(h: Handler, l: Lock)
    requires !AboutFiles(h)
    ensures TakesShared(Body(h), l) <==> AsksDead(h) && l == Dead(h.s)
  {
    SharedRules(l);
  }

  /** Only the dead flag's mutex is ever taken as a read lock, to ask for the flag. */
  lemma HandlersRead(h: Handler, l: Lock)
    ensures TakesShared(Body(h), l) <==> AsksDead(h) && l == Dead(h.s)
  {
    if AboutFiles(h) {
      FileHandlersRead(h, l);
    } else {
      OtherHandlersRead(h, l);
    }
  }

  lemma FileHandlersTake(h: Handler, l: Lock)
    requires AboutFiles(h)
    ensures Takes(Body(h), l) <==> MayTake(h, l)
  {
    TakesRules(l);
  }

  lemma ShutdownTakes(s: nat, l: Lock)
    ensures Takes(Shutdown(s), l) <==> OfSession(l, s)
  {
    TakesRules(l);
  }

  lemma OpeningTakes(s: nat, later: Code, l: Lock)
    ensures Takes(Then(OpenPtyShell(s), Then(Maybe(Hold(Session(s))), later)), l) <==>
      l == Dead(s) || l == Pty(s) || l == Session(s) || Takes(later, l)
  {
    TakesRules(l);
  }

  lemma RequestTakes(work: Code, l: Lock)
    ensures Takes(Request(work), l) <==> OfRequest(l) || Takes(work, l)
  {
    TakesRules(l);
  }

  lemma SessionHandlersTake(h: Handler, l: Lock)
    requires AboutSessions(h)
    ensures Takes(Body(h), l) <==> MayTake(h, l)
  {
    match h
    case ConnectLocal(v) =>
      ShutdownTakes(v, l);
      RequestTakes(Then(Hold(Plugin), Maybe(Shutdown(v))), l);
    case ConnectSsh(s, v) =>
      ShutdownTakes(v, l);
      RequestTakes(Shutdown(v), l);
      OpeningTakes(s, Request(Shutdown(v)), l);
    case Disconnect(s) =>
      ShutdownTakes(s, l);
      RequestTakes(Shutdown(s), l);
  }

  lemma CommandHandlersTake(h: Handler, l: Lock)
    requires !AboutFiles(h) && !AboutSessions(h)
    ensures Takes(Body(h), l) <==> MayTake(h, l)
  {
    TakesRules(l);
  }

  /** No handler takes any other mutex, and none of these is taken in vain. */
  lemma HandlersTake(h: Handler, l: Lock)
    ensures Takes(Body(h), l) <==> MayTake(h, l)
  {
    if AboutFiles(h) {
      FileHandlersTake(h, l);
    } else if AboutSessions(h) {
      SessionHandlersTake(h, l);
    } else {
      CommandHandlersTake(h, l);
    }
  }

  lemma SftpClientNests(s: nat, outer: Lock, inner: Lock)
    ensures Takes(SftpClient(s), inner) <==> inner == Sftp(s) || inner == Dead(s)
    ensures Nests(SftpClient(s), outer, inner) <==> outer == Sftp(s) && inner == Dead(s)
  {
    TakesRules(inner);
    NestsRules(outer, inner);
  }

  lemma RemoteDataNests(s: nat, outer: Lock, inner: Lock)
    ensures Nests(EnsureRemoteData(s), outer, inner) <==> MayNest(Complete(s), outer, inner)
  {
    SftpClientNests(s, outer, inner);
    TakesRules(inner);
    NestsRules(outer, inner);
  }

  lemma FileHandlersNest(h: Handler, outer: Lock, inner: Lock)
    requires AboutFiles(h)
    ensures Nests(Body(h), outer, inner) <==> MayNest(h, outer, inner)
  {
    RemoteDataNests(h.s, outer, inner);
    SftpClientNests(h.s, outer, inner);
    NestsRules(outer, inner);
  }

  lemma OtherHandlersNest(h: Handler, outer: Lock, inner: Lock)
    requires !AboutFiles(h)
    ensures Nests(Body(h), outer, inner) <==> MayNest(h, outer, inner)
  {
    TakesRules(inner);
    NestsRules(outer, inner);
  }

  /** A fallback nests the plugin's mutex in the session's; completion and file access nest
      the remote data's, the SFTP client's and the dead flag's; no other handler ever
      holds two mutexes at once. */
  lemma HandlersNest(h: Handler, outer: Lock, inner: Lock)
    ensures Nests(Body(h), outer, inner) <==> MayNest(h, outer, inner)
  {
    if AboutFiles(h) {
      FileHandlersNest(h, outer, inner);
    } else {
      OtherHandlersNest(h, outer, inner);
    }
  }

  // ---- Threads ----

  /** The locks a thread holds, the one taken last first. */
  datatype Held = Nothing | Taken(lock: Lock, shared: bool, before: Held)

  /** What is left to do; `Release` gives back the lock taken last. */
  datatype Todo = Done | Run(code: Code, next: Todo) | Release(next: Todo)

  datatype Thread = Thread(held: Held, todo: Todo)

  type System = seq<Thread>

  function Start(hs: seq<Handler>): System {
    seq(|hs|, i requires 0 <= i < |hs| => Thread(Nothing, Run(Body(hs[i]), Done)))
  }

  predicate Waiting(t: Thread) {
    t.todo.Run? && t.todo.code.With?
  }

  /** Whether these locks keep another thread from taking `l`. */
  predicate Holds(h: Held, l: Lock, shared: bool) {
    h.Taken? && ((h.lock == l && !(h.shared && shared)) || Holds(h.before, l, shared))
  }

  /** Thread `i` cannot take the lock it wants while thread `j` holds it. */
  predicate HeldBy(y: System, i: nat, j: nat) {
    && i < |y| && j < |y| && Waiting(y[i])
    && Holds(y[j].held, y[i].todo.code.lock, y[i].todo.code.shared)
  }

  /** A reader also waits behind another thread that waits to write. */
  predicate WaitsBehind(y: System, i: nat, j: nat) {
    && i < |y| && j < |y| && Waiting(y[i]) && Waiting(y[j])
    && y[i].todo.code.lock == y[j].todo.code.lock
    && y[i].todo.code.shared && !y[j].todo.code.shared
  }

  /** Enough for a step to happen: whether a waiting writer has already stopped new
      readers is left open. */
  ghost predicate Enabled(y: System, i: nat) {
    i < |y| && !y[i].todo.Done? && forall j: nat :: !HeldBy(y, i, j)
  }

  /** Certain to be able to step: no waiting writer stands in the way either. */
  ghost predicate Unblocked(y: System, i: nat) {
    Enabled(y, i) && forall j: nat :: !WaitsBehind(y, i, j)
  }

  /** `choice` picks a branch, or another round of a loop. */
  function Advance(t: Thread, choice: bool): Thread
    requires !t.todo.Done? && (t.todo.Release? ==> t.held.Taken?)
  {
    var rest := t.todo.next;
    match t.todo
    case Release(_) => Thread(t.held.before, rest)
    case Run(Pass, _) => t.(todo := rest)
    case Run(With(l, shared, b), _) => Thread(Taken(l, shared, t.held), Run(b, Release(rest)))
    case Run(Then(a, b), _) => t.(todo := Run(a, Run(b, rest)))
    case Run(Either(a, b), _) => t.(todo := Run(if choice then a else b, rest))
    case Run(Repeat(b), _) => t.(todo := if choice then Run(b, t.todo) else rest)
  }

  datatype Step = Step(thread: nat, choice: bool)

  ghost predicate Runs(y: System, steps: seq<Step>, y': System)
    decreases |steps|
  {
    if steps == [] then y == y' else
      var i := steps[0].thread;
      && Enabled(y, i) && (y[i].todo.Release? ==> y[i].held.Taken?)
      && Runs(y[i := Advance(y[i], steps[0].choice)], steps[1..], y')
  }

  // ---- The discipline ----

  function Floor(h: Held): int {
    if h.Nothing? then -1 else Rank(h.lock)
  }

  /** Releases match the held locks, and the code between them ascends. */
  predicate Nested(held: Held, todo: Todo) {
    match todo
    case Done => held.Nothing?
    case Release(next) => held.Taken? && Nested(held.before, next)
    case Run(c, next) => Ascends(c, Floor(held)) && Nested(held, next)
  }

  predicate Climbing(h: Held) {
    h.Taken? ==> Floor(h.before) < Rank(h.lock) && Climbing(h.before)
  }

  predicate Disciplined(t: Thread) {
    Climbing(t.held) && Nested(t.held, t.todo)
  }

  lemma AdvanceKeeps(t: Thread, choice: bool)
    requires Disciplined(t) && !t.todo.Done?
    ensures t.todo.Release? ==> t.held.Taken?
    ensures Disciplined(Advance(t, choice))
  {
  }

  lemma {:induction false} RunsKeep(y: System, steps: seq<Step>, y': System)
    requires Runs(y, steps, y')
    requires forall i :: 0 <= i < |y| ==> Disciplined(y[i])
    ensures forall i :: 0 <= i < |y'| ==> Disciplined(y'[i])
    decreases |steps|
  {
    if steps != [] {
      var i := steps[0].thread;
      AdvanceKeeps(y[i], steps[0].choice);
      RunsKeep(y[i := Advance(y[i], steps[0].choice)], steps[1..], y');
    }
  }

  lemma StartDisciplined(hs: seq<Handler>)
    ensures forall i :: 0 <= i < |Start(hs)| ==> Disciplined(Start(hs)[i])
  {
    forall i | 0 <= i < |hs| ensures Disciplined(Start(hs)[i]) {
      assert Ascends(Body(hs[i]), Floor(Nothing));
    }
  }

  // ---- The locks lock ----

  /** Some lock in `a` should have kept a lock in `b` from being taken. */
  predicate Clash(a: Held, b: Held) {
    a.Taken? && (Holds(b, a.lock, a.shared) || Clash(a.before, b))
  }

  lemma {:induction false} ClashWithTaken(a: Held, l: Lock, shared: bool, before: Held)
    ensures Clash(a, Taken(l, shared, before)) <==> Clash(a, before) || Holds(a, l, shared)
  {
    if a.Taken? {
      ClashWithTaken(a.before, l, shared, before);
    }
  }

  lemma {:induction false} ClashAfterRelease(a: Held, b: Held)
    requires b.Taken? && Clash(a, b.before)
    ensures Clash(a, b)
  {
    if !Holds(b.before, a.lock, a.shared) {
      ClashAfterRelease(a.before, b);
    }
  }

  ghost predicate NoClash(y: System) {
    forall i, j :: 0 <= i < |y| && 0 <= j < |y| && i != j ==> !Clash(y[i].held, y[j].held)
  }

  lemma StepKeepsApart(y: System, i: nat, choice: bool)
    requires NoClash(y) && Enabled(y, i) && (y[i].todo.Release? ==> y[i].held.Taken?)
    ensures NoClash(y[i := Advance(y[i], choice)])
  {
    var t := y[i];
    forall j | 0 <= j < |y| && j != i
      ensures !Clash(Advance(t, choice).held, y[j].held) && !Clash(y[j].held, Advance(t, choice).held)
    {
      if Waiting(t) {
        assert !HeldBy(y, i, j);
        ClashWithTaken(y[j].held, t.todo.code.lock, t.todo.code.shared, t.held);
      } else if t.todo.Release? && Clash(y[j].held, t.held.before) {
        ClashAfterRelease(y[j].held, t.held);
      }
    }
  }

  lemma {:induction false} RunsKeepApart(y: System, steps: seq<Step>, y': System)
    requires NoClash(y) && Runs(y, steps, y')
    ensures NoClash(y')
    decreases |steps|
  {
    if steps != [] {
      StepKeepsApart(y, steps[0].thread, steps[0].choice);
      RunsKeepApart(y[steps[0].thread := Advance(y[steps[0].thread], steps[0].choice)], steps[1..], y');
    }
  }

  /** The lock is among those held, taken in this way. */
  predicate Has(h: Held, l: Lock, shared: bool) {
    h.Taken? && ((h.lock == l && h.shared == shared) || Has(h.before, l, shared))
  }

  lemma {:induction false} HasHolds(h: Held, l: Lock, mine: bool, theirs: bool)
    requires Has(h, l, mine) && !(mine && theirs)
    ensures Holds(h, l, theirs)
  {
    if !(h.lock == l && h.shared == mine) {
      HasHolds(h.before, l, mine, theirs);
    }
  }

  lemma {:induction false} BothHaveClash(a: Held, b: Held, l: Lock, mine: bool, theirs: bool)
    requires Has(a, l, mine) && Has(b, l, theirs) && !(mine && theirs)
    ensures Clash(a, b)
  {
    if a.lock == l && a.shared == mine {
      HasHolds(b, l, theirs, mine);
    } else {
      BothHaveClash(a.before, b, l, mine, theirs);
    }
  }

  /** In every run no two threads hold the same mutex, unless both only read. */
  lemma MutualExclusion(hs: seq<Handler>, steps: seq<Step>, y: System, i: nat, j: nat, l: Lock,
                        mine: bool, theirs: bool)
    requires Runs(Start(hs), steps, y) && i < |y| && j < |y| && i != j
    requires Has(y[i].held, l, mine) && Has(y[j].held, l, theirs)
    ensures mine && theirs
  {
    RunsKeepApart(Start(hs), steps, y);
    if !(mine && theirs) {
      BothHaveClash(y[i].held, y[j].held, l, mine, theirs);
    }
  }

  // ---- No deadlock ----

  ghost predicate BlockedIn(y: System, d: set<nat>, i: nat) {
    exists j :: j in d && (HeldBy(y, i, j) || WaitsBehind(y, i, j))
  }

  /** Every member of `d` waits for a lock that another member keeps from it. */
  ghost predicate Deadlocked(y: System, d: set<nat>) {
    d != {} && forall i :: i in d ==> BlockedIn(y, d, i)
  }

  lemma {:induction false} HeldIsBelow(h: Held, l: Lock, shared: bool)
    requires Climbing(h) && Holds(h, l, shared)
    ensures Rank(l) <= Floor(h)
  {
    if h.lock != l || (h.shared && shared) {
      HeldIsBelow(h.before, l, shared);
    }
  }

  /** Following who waits for whom, the wanted ranks rise, and they are bounded. */
  lemma {:induction false} NoCircle(y: System, d: set<nat>, i: nat)
    requires forall k :: 0 <= k < |y| ==> Disciplined(y[k])
    requires i < |y| && Waiting(y[i])
    requires i in d ==> BlockedIn(y, d, i)
    ensures i in d ==> !Deadlocked(y, d)
    decreases 8 - Rank(y[i].todo.code.lock), y[i].todo.code.shared
  {
    if i in d && Deadlocked(y, d) {
      var j :| j in d && (HeldBy(y, i, j) || WaitsBehind(y, i, j));
      assert BlockedIn(y, d, j);
      if HeldBy(y, i, j) {
        HeldIsBelow(y[j].held, y[i].todo.code.lock, y[i].todo.code.shared);
      }
      NoCircle(y, d, j);
    }
  }

  /** No run of any number of handlers deadlocks on the mutexes. */
  lemma NoDeadlock(hs: seq<Handler>, steps: seq<Step>, y: System, d: set<nat>)
    requires Runs(Start(hs), steps, y)
    ensures !Deadlocked(y, d)
  {
    StartDisciplined(hs);
    RunsKeep(Start(hs), steps, y);
    if Deadlocked(y, d) {
      var i :| i in d;
      assert BlockedIn(y, d, i);
      NoCircle(y, d, i);
    }
  }

  /** As long as a handler has something left to do, some handler can step. */
  lemma SomeoneCanStep(hs: seq<Handler>, steps: seq<Step>, y: System, i: nat) returns (k: nat)
    requires Runs(Start(hs), steps, y)
    requires i < |y| && !y[i].todo.Done?
    ensures k < |y| && !y[k].todo.Done? && forall j: nat :: !HeldBy(y, k, j) && !WaitsBehind(y, k, j)
  {
    StartDisciplined(hs);
    RunsKeep(Start(hs), steps, y);
    if forall k: nat :: !Unblocked(y, k) {
      var d := set k: nat | k < |y| && !y[k].todo.Done?;
      forall k | k in d ensures BlockedIn(y, d, k) {
        BlockedByUnfinished(y, d, k);
      }
      assert i in d;
      NoDeadlock(hs, steps, y, d);
    }
    k :| Unblocked(y, k);
  }

  lemma BlockedByUnfinished(y: System, d: set<nat>, i: nat)
    requires forall k :: 0 <= k < |y| ==> Disciplined(y[k])
    requires forall k: nat :: k < |y| && !y[k].todo.Done? ==> k in d
    requires i < |y| && !y[i].todo.Done? && !Unblocked(y, i)
    ensures BlockedIn(y, d, i)
  {
    if !Enabled(y, i) {
      var j: nat :| HeldBy(y, i, j);
      assert Disciplined(y[j]);
      assert j in d;
    } else {
      var j: nat :| WaitsBehind(y, i, j);
      assert j in d;
    }
  }

  /** The order is what prevents it: two threads that nest a session's mutex and
      the plugin's in opposite orders can reach a deadlock. */
  lemma OppositeOrdersDeadlock(s: nat)
    ensures exists steps, y, d :: Deadlocked(y, d) && Runs(
      [Thread(Nothing, Run(With(Session(s), false, Hold(Plugin)), Done)),
       Thread(Nothing, Run(With(Plugin, false, Hold(Session(s))), Done))], steps, y)
  {
    var a, b := With(Session(s), false, Hold(Plugin)), With(Plugin, false, Hold(Session(s)));
    var y0: System := [Thread(Nothing, Run(a, Done)), Thread(Nothing, Run(b, Done))];
    var t0 := Thread(Taken(Session(s), false, Nothing), Run(Hold(Plugin), Release(Done)));
    var t1 := Thread(Taken(Plugin, false, Nothing), Run(Hold(Session(s)), Release(Done)));
    var y1: System := y0[0 := t0];
    var y2: System := y1[1 := t1];
    var s0, s1 := Step(0, false), Step(1, false);
    assert [s0, s1][1..] == [s1] && [s1][1..] == [];
    assert Runs(y2, [], y2);
    assert Advance(y1[1], false) == t1;
    forall j: nat ensures !HeldBy(y1, 1, j) {
      assert !Holds(t0.held, Plugin, false) && !Holds(Nothing, Plugin, false);
      assert j < |y1| ==> y1[j].held == t0.held || y1[j].held == Nothing;
    }
    assert Runs(y1, [s1], y2);
    assert Runs(y0, [s0, s1], y2);
    assert HeldBy(y2, 0, 1) && HeldBy(y2, 1, 0);
    assert BlockedIn(y2, {0, 1}, 0) && BlockedIn(y2, {0, 1}, 1);
    assert Deadlocked(y2, {0, 1});
  }
}
