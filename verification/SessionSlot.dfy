/** The command slot of a shell session under concurrency. Every locked region
    of exec, wait, cancel, the escalation timer and shutdown is one atomic step;
    process results and timers are nondeterministic. */
module SessionSlot {
  import opened Histories
  import opened Options

  // ---- The locked regions ----

  /** The fields the session mutex protects. Commands are numbered in the order
      they are accepted; a cancel function or a done channel is named by its command. */
  datatype Slot = Slot(busy: bool, cancelled: bool, cancelFn: Option<nat>, done: Option<nat>, stopping: bool)

  const FRESH := Slot(false, false, None, None, false)

  function Claim(s: Slot): Slot {
    s.(cancelled := false, busy := true)
  }

  function Abandon(s: Slot): Slot {
    s.(busy := false)
  }

  function Install(s: Slot, c: nat): Slot {
    s.(cancelFn := Some(c), done := Some(c))
  }

  function Release(s: Slot): Slot {
    s.(busy := false, cancelFn := None)
  }

  predicate Cancellable(s: Slot) {
    s.busy && s.cancelFn.Some?
  }

  function AskCancel(s: Slot): Slot {
    s.(cancelled := true)
  }

  function Stop(s: Slot): Slot {
    s.(cancelFn := None, stopping := true)
  }

  class ShellSession {
    var busy: bool
    var cancelled: bool
    var cancelFn: Option<nat>
    var done: Option<nat>
    var stopping: bool

    constructor ()
      ensures View() == FRESH
    {
      busy, cancelled, cancelFn, done, stopping := false, false, None, None, false;
    }

    ghost function View(): Slot
      reads this
    {
      Slot(busy, cancelled, cancelFn, done, stopping)
    }

    /** execCommand, before anything slow happens. */
    method TryClaim() returns (accepted: bool)
      modifies this
      ensures accepted == !old(busy)
      ensures View() == if accepted then Claim(old(View())) else old(View())
      ensures accepted ==> busy && !cancelled
      ensures unchanged(`cancelFn) && unchanged(`done) && unchanged(`stopping)
    {
      if busy {
        return false;
      }
      cancelled := false;
      busy := true;
      accepted := true;
    }

    /** execCommand, when the command did not start. */
    method AbandonStart()
      modifies this
      ensures View() == Abandon(old(View()))
      ensures !busy && unchanged(`cancelled) && unchanged(`cancelFn) && unchanged(`done) && unchanged(`stopping)
    {
      busy := false;
    }

    /** execCommand, once the command runs. */
    method InstallRun(c: nat)
      modifies this
      ensures View() == Install(old(View()), c)
      ensures cancelFn == done == Some(c) && unchanged(`busy) && unchanged(`cancelled) && unchanged(`stopping)
    {
      cancelFn := Some(c);
      done := Some(c);
    }

    /** The wait closure, once the process is gone. */
    method FinishRun(waitFailed: bool) returns (report: bool)
      modifies this
      ensures View() == Release(old(View()))
      ensures !busy && cancelFn == None && unchanged(`cancelled) && unchanged(`done) && unchanged(`stopping)
      ensures report == (old(cancelled) && waitFailed)
    {
      busy := false;
      cancelFn := None;
      report := cancelled && waitFailed;
    }

    /** cancelCommand; the caller then runs the returned cancel function. */
    method TryCancel() returns (target: Option<nat>)
      modifies this
      ensures target == if Cancellable(old(View())) then old(cancelFn) else None
      ensures View() == if target.Some? then AskCancel(old(View())) else old(View())
      ensures target.Some? <==> busy && cancelFn.Some?
      ensures cancelled == (old(cancelled) || target.Some?)
      ensures unchanged(`busy) && unchanged(`cancelFn) && unchanged(`done) && unchanged(`stopping)
    {
      if !busy || cancelFn.None? {
        return None;
      }
      target := cancelFn;
      cancelled := true;
    }

    /** The escalation timer; it then runs whatever cancel function it finds. */
    method ReadCancel() returns (target: Option<nat>)
      ensures target == cancelFn
    {
      target := cancelFn;
    }

    /** The first locked region of shutdown. */
    method BeginShutdown() returns (target: Option<nat>)
      modifies this
      ensures target == old(cancelFn)
      ensures View() == Stop(old(View()))
      ensures cancelFn == None && stopping && unchanged(`busy) && unchanged(`cancelled) && unchanged(`done)
    {
      target := cancelFn;
      cancelFn := None;
      stopping := true;
    }
  }

  // ---- The step machine ----

  /** Where the thread of an accepted command is. Released: the slot is free,
      the exit event is still to be emitted; Emitted: `done` is still to be closed. */
  datatype Phase = Starting | Started | Installed | Released(report: bool) | Emitted

  predicate Active(p: Phase) {
    p.Starting? || p.Started? || p.Installed?
  }

  /** What happened, in order. Armed: the cancel function was installed;
      SlotReleased records how the process ended. */
  datatype Event =
    | Accepted(c: nat)
    | StartFailed(c: nat)
    | Armed(c: nat)
    | CancelAccepted(c: nat)
    | SlotReleased(c: nat, waitFailed: bool, report: bool)
    | Exit(c: nat, cancelled: bool)
    | Escalated(c: nat, target: Option<nat>)
    | ShutDown(target: Option<nat>)

  datatype System = System(slot: Slot, next: nat, threads: map<nat, Phase>, log: seq<Event>)

  const INITIAL := System(FRESH, 0, map[], [])

  datatype Step =
    | DoClaim
    | DoStart(c: nat)
    | DoFail(c: nat)
    | DoInstall(c: nat)
    | DoRelease(c: nat, waitFailed: bool)
    | DoEmit(c: nat)
    | DoClose(c: nat)
    | DoCancel
    | DoEscalate(c: nat)
    | DoShutdown

  predicate At(y: System, c: nat, p: Phase) {
    c in y.threads && y.threads[c] == p
  }

  predicate Enabled(y: System, a: Step) {
    match a
    case DoClaim => !y.slot.busy
    case DoStart(c) => At(y, c, Starting)
    case DoFail(c) => At(y, c, Starting)
    case DoInstall(c) => At(y, c, Started)
    case DoRelease(c, _) => At(y, c, Installed)
    case DoEmit(c) => c in y.threads && y.threads[c].Released?
    case DoClose(c) => At(y, c, Emitted)
    case DoCancel => Cancellable(y.slot)
    // a timer that has fired waits for the mutex, even if `done` is closed meanwhile
    case DoEscalate(c) => CancelAccepted(c) in y.log
    case DoShutdown => true
  }

  function Apply(y: System, a: Step): System
    requires Enabled(y, a)
  {
    match a
    case DoClaim =>
      System(Claim(y.slot), y.next + 1, y.threads[y.next := Starting], y.log + [Accepted(y.next)])
    case DoStart(c) => y.(threads := y.threads[c := Started])
    case DoFail(c) => y.(slot := Abandon(y.slot), threads := y.threads - {c}, log := y.log + [StartFailed(c)])
    case DoInstall(c) =>
      y.(slot := Install(y.slot, c), threads := y.threads[c := Installed], log := y.log + [Armed(c)])
    case DoRelease(c, waitFailed) =>
      var report := y.slot.cancelled && waitFailed;
      y.(slot := Release(y.slot), threads := y.threads[c := Phase.Released(report)],
         log := y.log + [SlotReleased(c, waitFailed, report)])
    case DoEmit(c) => y.(threads := y.threads[c := Emitted], log := y.log + [Exit(c, y.threads[c].report)])
    case DoClose(c) => y.(threads := y.threads - {c})
    case DoCancel => y.(slot := AskCancel(y.slot), log := y.log + [CancelAccepted(y.slot.cancelFn.value)])
    case DoEscalate(c) => y.(log := y.log + [Escalated(c, y.slot.cancelFn)])
    case DoShutdown => y.(slot := Stop(y.slot), log := y.log + [ShutDown(y.slot.cancelFn)])
  }

  /** `y'` is reached from `y` by these steps, each enabled in turn. */
  ghost predicate Runs(y: System, steps: seq<Step>, y': System)
    decreases |steps|
  {
    if steps == [] then y == y' else Enabled(y, steps[0]) && Runs(Apply(y, steps[0]), steps[1..], y')
  }

  // ---- What a history must look like ----

  ghost predicate Ended(log: seq<Event>, c: nat) {
    StartFailed(c) in log || exists w, r :: SlotReleased(c, w, r) in log
  }

  /** The command owns the slot: accepted, and neither failed nor released. */
  ghost predicate Owns(log: seq<Event>, c: nat) {
    Accepted(c) in log && !Ended(log, c)
  }

  /** `e` happened, and no shutdown has since. */
  ghost predicate Undisturbed(log: seq<Event>, e: Event) {
    && log != []
    && (log[|log| - 1] == e || (!log[|log| - 1].ShutDown? && Undisturbed(log[..|log| - 1], e)))
  }

  /** What an event says about the history before it. */
  ghost predicate Justified(before: seq<Event>, e: Event) {
    match e
    case Accepted(c) => Accepted(c) !in before && forall d: nat :: !Owns(before, d)
    case StartFailed(c) => Owns(before, c) && Armed(c) !in before
    case Armed(c) => Owns(before, c) && Armed(c) !in before
    case CancelAccepted(c) => Owns(before, c) && Undisturbed(before, Armed(c))
    case SlotReleased(c, waitFailed, report) =>
      && Owns(before, c) && Armed(c) in before
      && (report <==> waitFailed && CancelAccepted(c) in before)
    case Exit(c, cancelled) =>
      && (exists w :: SlotReleased(c, w, cancelled) in before)
      && (forall b :: Exit(c, b) !in before)
    case Escalated(c, target) =>
      && CancelAccepted(c) in before
      && (forall d: nat :: target == Some(d) <==> Owns(before, d) && Undisturbed(before, Armed(d)))
      && (target == Some(c) <==> Owns(before, c) && Undisturbed(before, CancelAccepted(c)))
    case ShutDown(target) => forall d: nat :: target == Some(d) <==> Owns(before, d) && Undisturbed(before, Armed(d))
  }

  /** Events and threads only speak of accepted commands. */
  ghost predicate Numbered(y: System) {
    && (forall c: nat :: Accepted(c) in y.log ==> c < y.next)
    && (forall c: nat :: Ended(y.log, c) || c in y.threads ==> Accepted(c) in y.log)
    && (forall c: nat :: CancelAccepted(c) in y.log || Armed(c) in y.log ==> Accepted(c) in y.log)
    && (forall c: nat, b :: Exit(c, b) in y.log ==> Accepted(c) in y.log && Ended(y.log, c))
  }

  /** At most one command owns the slot: the one whose thread is active. */
  ghost predicate Exclusive(y: System) {
    && ActiveOwns(y)
    && (forall c: nat, d: nat :: Owns(y.log, c) && Owns(y.log, d) ==> c == d)
    && (y.slot.busy <==> exists c: nat :: Owns(y.log, c))
  }

  ghost predicate ActiveOwns(y: System) {
    forall c: nat :: Owns(y.log, c) <==> c in y.threads && Active(y.threads[c])
  }

  /** The cancelled flag and the done channel belong to the owner. */
  ghost predicate Attributed(y: System) {
    && (forall c: nat :: Owns(y.log, c) ==> (y.slot.cancelled <==> CancelAccepted(c) in y.log))
    && (forall c: nat :: Owns(y.log, c) ==> (At(y, c, Installed) <==> Armed(c) in y.log))
    && (forall c: nat :: Owns(y.log, c) && CancelAccepted(c) in y.log ==> Armed(c) in y.log)
    && (forall c: nat :: Owns(y.log, c) && Armed(c) in y.log ==> y.slot.done == Some(c))
  }

  /** The cancel function is the owner's, from its installation to a shutdown. */
  ghost predicate Targeted(y: System) {
    forall c: nat :: y.slot.cancelFn == Some(c) <==> Owns(y.log, c) && Undisturbed(y.log, Armed(c))
  }

  /** A cancel is only accepted before a shutdown. */
  ghost predicate CancelsArmed(y: System) {
    forall c: nat :: Owns(y.log, c) && CancelAccepted(c) in y.log ==>
      (Undisturbed(y.log, CancelAccepted(c)) <==> Undisturbed(y.log, Armed(c)))
  }

  /** A released command still holds its report or has exited with it, never both. */
  ghost predicate Reporting(y: System) {
    HoldsReports(y) && ReportsKept(y)
  }

  ghost predicate HoldsReports(y: System) {
    forall c: nat :: c in y.threads && y.threads[c].Released? ==>
      (exists w :: SlotReleased(c, w, y.threads[c].report) in y.log) && forall b :: Exit(c, b) !in y.log
  }

  ghost predicate ReportsKept(y: System) {
    forall c: nat, w, r :: SlotReleased(c, w, r) in y.log ==> At(y, c, Phase.Released(r)) || Exit(c, r) in y.log
  }

  ghost predicate Mirrors(y: System) {
    Numbered(y) && Exclusive(y) && Attributed(y) && Targeted(y) && CancelsArmed(y) && Reporting(y)
  }

  // ---- Every step keeps the history lawful ----

  lemma OwnsAfter(log: seq<Event>, e: Event)
    ensures forall c: nat :: Ended(log + [e], c) <==>
      Ended(log, c) || e == StartFailed(c) || (e.SlotReleased? && e.c == c)
    ensures forall c: nat :: Owns(log + [e], c) <==>
      (Accepted(c) in log || e == Accepted(c))
      && !Ended(log, c) && e != StartFailed(c) && !(e.SlotReleased? && e.c == c)
  {
  }

  /** The event a step records, if any. */
  ghost predicate Records(y: System, a: Step, e: Event)
    requires Enabled(y, a)
  {
    Apply(y, a).log == y.log + [e]
  }

  lemma StepIsJustified(y: System, a: Step)
    requires Mirrors(y) && Enabled(y, a)
    ensures Apply(y, a).log == y.log || exists e :: Records(y, a, e) && Justified(y.log, e)
  {
    TargetIsArmed(y);
    var log := Apply(y, a).log;
    if log != y.log {
      assert Records(y, a, log[|y.log|]);
    }
  }

  lemma KeepsNumbered(y: System, a: Step)
    requires Mirrors(y) && Enabled(y, a)
    ensures Numbered(Apply(y, a))
  {
    var log := Apply(y, a).log;
    if |log| > |y.log| {
      OwnsAfter(y.log, log[|y.log|]);
    }
  }

  lemma KeepsActiveOwns(y: System, a: Step)
    requires Mirrors(y) && Enabled(y, a)
    ensures ActiveOwns(Apply(y, a))
  {
    var log := Apply(y, a).log;
    if |log| > |y.log| {
      OwnsAfter(y.log, log[|y.log|]);
    }
  }

  /** Given whose threads are active, there is one owner, and the flag says so. */
  lemma KeepsExclusive(y: System, a: Step)
    requires Mirrors(y) && Enabled(y, a) && ActiveOwns(Apply(y, a))
    ensures Exclusive(Apply(y, a))
  {
    var y' := Apply(y, a);
    forall c: nat, d: nat | Owns(y'.log, c) && Owns(y'.log, d) ensures c == d {
      assert a.DoClaim? || (Owns(y.log, c) && Owns(y.log, d));
    }
    if a.DoClaim? {
      assert Owns(y'.log, y.next);
    } else if y.slot.busy {
      var c: nat :| Owns(y.log, c);
      assert y'.slot.busy ==> Owns(y'.log, c);
    }
  }

  lemma KeepsAttributed(y: System, a: Step)
    requires Mirrors(y) && Enabled(y, a)
    ensures Attributed(Apply(y, a))
  {
    var y' := Apply(y, a);
    var log := y'.log;
    assert CancelAccepted(y.next) !in y.log && Armed(y.next) !in y.log;
    if |log| > |y.log| {
      OwnsAfter(y.log, log[|y.log|]);
    }
    forall c: nat | Owns(log, c)
      ensures y'.slot.cancelled <==> CancelAccepted(c) in log
      ensures At(y', c, Installed) <==> Armed(c) in log
      ensures CancelAccepted(c) in log ==> Armed(c) in log
      ensures Armed(c) in log ==> y'.slot.done == Some(c)
    {
      assert Owns(y.log, c) || a.DoClaim?;
      if a.DoCancel? {
        TargetIsArmed(y);
      } else {
        assert CancelAccepted(c) in log <==> CancelAccepted(c) in y.log;
      }
    }
  }

  lemma {:induction false} UndisturbedHappened(log: seq<Event>, e: Event)
    requires Undisturbed(log, e)
    ensures e in log
    decreases |log|
  {
    if log[|log| - 1] != e {
      UndisturbedHappened(log[..|log| - 1], e);
    }
  }

  /** A cancel function belongs to the owner, which has installed it. */
  lemma TargetIsArmed(y: System)
    requires Mirrors(y)
    ensures y.slot.cancelFn.Some? ==>
      Owns(y.log, y.slot.cancelFn.value) && Armed(y.slot.cancelFn.value) in y.log && y.slot.done == y.slot.cancelFn
  {
    if y.slot.cancelFn.Some? {
      assert y.slot.cancelFn == Some(y.slot.cancelFn.value);
      UndisturbedHappened(y.log, Armed(y.slot.cancelFn.value));
    }
  }

  lemma UndisturbedAfter(log: seq<Event>, last: Event, e: Event)
    ensures Undisturbed(log + [last], e) <==> last == e || (!last.ShutDown? && Undisturbed(log, e))
  {
    assert (log + [last])[..|log + [last]| - 1] == log;
  }

  lemma KeepsTargeted(y: System, a: Step)
    requires Mirrors(y) && Enabled(y, a)
    ensures Targeted(Apply(y, a))
  {
    var y' := Apply(y, a);
    if |y'.log| > |y.log| {
      var last := y'.log[|y.log|];
      OwnsAfter(y.log, last);
      TargetIsArmed(y);
      forall c: nat ensures y'.slot.cancelFn == Some(c) <==> Owns(y'.log, c) && Undisturbed(y'.log, Armed(c)) {
        UndisturbedAfter(y.log, last, Armed(c));
        if Undisturbed(y.log, Armed(c)) {
          UndisturbedHappened(y.log, Armed(c));
        }
      }
    }
  }

  lemma KeepsCancelsArmed(y: System, a: Step)
    requires Mirrors(y) && Enabled(y, a)
    ensures CancelsArmed(Apply(y, a))
  {
    var y' := Apply(y, a);
    if |y'.log| > |y.log| {
      var last := y'.log[|y.log|];
      OwnsAfter(y.log, last);
      TargetIsArmed(y);
      forall c: nat | Owns(y'.log, c) && CancelAccepted(c) in y'.log
        ensures Undisturbed(y'.log, CancelAccepted(c)) <==> Undisturbed(y'.log, Armed(c))
      {
        UndisturbedAfter(y.log, last, Armed(c));
        UndisturbedAfter(y.log, last, CancelAccepted(c));
      }
    }
  }

  lemma KeepsReports(y: System, a: Step)
    requires Mirrors(y) && Enabled(y, a)
    ensures HoldsReports(Apply(y, a))
  {
  }

  lemma ReportsStay(y: System, a: Step)
    requires Mirrors(y) && Enabled(y, a)
    ensures ReportsKept(Apply(y, a))
  {
  }

  lemma StepKeeps(y: System, a: Step)
    requires Mirrors(y) && Lawful(Justified, y.log) && Enabled(y, a)
    ensures Mirrors(Apply(y, a)) && Lawful(Justified, Apply(y, a).log)
  {
    KeepsNumbered(y, a);
    KeepsActiveOwns(y, a);
    KeepsExclusive(y, a);
    KeepsAttributed(y, a);
    KeepsTargeted(y, a);
    KeepsCancelsArmed(y, a);
    KeepsReports(y, a);
    ReportsStay(y, a);
    StepIsJustified(y, a);
    if Apply(y, a).log != y.log {
      var e :| Records(y, a, e) && Justified(y.log, e);
      LawfulMore(Justified, y.log, e);
    }
  }

  lemma {:induction false} RunsKeep(y: System, steps: seq<Step>, y': System)
    requires Mirrors(y) && Lawful(Justified, y.log) && Runs(y, steps, y')
    ensures Mirrors(y') && Lawful(Justified, y'.log)
    decreases |steps|
  {
    if steps != [] {
      StepKeeps(y, steps[0]);
      RunsKeep(Apply(y, steps[0]), steps[1..], y');
    }
  }

  /** In every interleaving the history is lawful and the fields mirror it:
      `busy` holds exactly when one command owns the slot, a cancel function
      always belongs to that command, and every cancel accepted, release and
      exit concerns the right command. */
  lemma EveryRunIsLawful(steps: seq<Step>, y: System)
    requires Runs(INITIAL, steps, y)
    ensures Mirrors(y) && Lawful(Justified, y.log)
  {
    RunsKeep(INITIAL, steps, y);
  }

  // ---- Reading the history ----

  /** A command is accepted only while none owns the slot, under a new number. */
  lemma AcceptedWhenFree(steps: seq<Step>, y: System, i: nat, d: nat)
    requires Runs(INITIAL, steps, y) && i < |y.log| && y.log[i].Accepted?
    ensures !Owns(y.log[..i], d) && Accepted(y.log[i].c) !in y.log[..i]
  {
    EveryRunIsLawful(steps, y);
    LawfulAt(Justified, y.log, i);
  }

  /** A cancel function is installed once, for the owner of the slot. */
  lemma ArmedByOwner(steps: seq<Step>, y: System, i: nat)
    requires Runs(INITIAL, steps, y) && i < |y.log| && y.log[i].Armed?
    ensures Owns(y.log[..i], y.log[i].c) && y.log[i] !in y.log[..i]
  {
    EveryRunIsLawful(steps, y);
    LawfulAt(Justified, y.log, i);
  }

  /** A `shell/exit` reports `cancelled` exactly when a cancel was accepted while
      that very command owned the slot and its process then ended in an error. */
  lemma CancelledExits(steps: seq<Step>, y: System, i: nat)
    requires Runs(INITIAL, steps, y) && i < |y.log| && y.log[i].Exit?
    ensures var c := y.log[i].c;
      exists k, w :: 0 <= k < i && y.log[k] == SlotReleased(c, w, y.log[i].cancelled) && Owns(y.log[..k], c)
        && (y.log[i].cancelled <==> w && exists j :: 0 <= j < k && y.log[j] == CancelAccepted(c) && Owns(y.log[..j], c))
  {
    var log, c := y.log, y.log[i].c;
    EveryRunIsLawful(steps, y);
    LawfulAt(Justified, log, i);
    var w :| SlotReleased(c, w, log[i].cancelled) in log[..i];
    var k :| 0 <= k < i && log[..i][k] == SlotReleased(c, w, log[i].cancelled);
    LawfulAt(Justified, log, k);
    if CancelAccepted(c) in log[..k] {
      var j :| 0 <= j < k && log[..k][j] == CancelAccepted(c);
      LawfulAt(Justified, log, j);
      assert log[j] == CancelAccepted(c);
    } else {
      assert forall j :: 0 <= j < k ==> log[..k][j] == log[j];
    }
    assert log[k] == SlotReleased(c, w, log[i].cancelled);
  }

  /** Accepted commands, start failures and releases in a history. */
  datatype Tally = Tally(accepted: nat, failed: nat, released: nat)

  function Tallied(t: Tally, e: Event): Tally {
    match e
    case Accepted(_) => t.(accepted := t.accepted + 1)
    case StartFailed(_) => t.(failed := t.failed + 1)
    case SlotReleased(_, _, _) => t.(released := t.released + 1)
    case _ => t
  }

  function Count(log: seq<Event>): Tally {
    if log == [] then Tally(0, 0, 0) else Tallied(Count(log[..|log| - 1]), log[|log| - 1])
  }

  lemma CountMore(log: seq<Event>, e: Event)
    ensures Count(log + [e]) == Tallied(Count(log), e)
  {
    assert (log + [e])[..|log + [e]| - 1] == log;
  }

  ghost predicate Balanced(y: System) {
    var t := Count(y.log);
    t.accepted == y.next == t.failed + t.released + if y.slot.busy then 1 else 0
  }

  /** Only the owner of the slot can fail to start, or release it. */
  lemma FreedWhileBusy(y: System, a: Step)
    requires Mirrors(y) && Enabled(y, a)
    ensures a.DoFail? || a.DoRelease? ==> y.slot.busy
  {
    if a.DoFail? || a.DoRelease? {
      assert Owns(y.log, a.c);
    }
  }

  /** What a step adds to the tally, */
  lemma StepTallies(y: System, a: Step)
    requires Enabled(y, a) && (a.DoClaim? || a.DoFail? || a.DoRelease?)
    ensures Count(Apply(y, a).log) == Tallied(Count(y.log),
      if a.DoClaim? then Accepted(y.next) else if a.DoFail? then StartFailed(a.c)
      else SlotReleased(a.c, a.waitFailed, y.slot.cancelled && a.waitFailed))
  {
    CountMore(y.log, if a.DoClaim? then Accepted(y.next) else if a.DoFail? then StartFailed(a.c)
      else SlotReleased(a.c, a.waitFailed, y.slot.cancelled && a.waitFailed));
  }

  predicate Uncounted(e: Event) {
    !e.Accepted? && !e.StartFailed? && !e.SlotReleased?
  }

  lemma CountSame(log: seq<Event>, e: Event)
    requires Uncounted(e)
    ensures Count(log + [e]) == Count(log)
  {
    CountMore(log, e);
  }

  /** and which steps add nothing. */
  lemma QuietStep(y: System, a: Step)
    requires Enabled(y, a) && !a.DoClaim? && !a.DoFail? && !a.DoRelease?
    ensures Count(Apply(y, a).log) == Count(y.log)
  {
    var log := Apply(y, a).log;
    if log != y.log {
      var e := log[|y.log|];
      assert log == y.log + [e] && Uncounted(e);
      CountSame(y.log, e);
    }
  }

  lemma StepBalances(y: System, a: Step)
    requires Balanced(y) && Enabled(y, a)
    requires a.DoFail? || a.DoRelease? ==> y.slot.busy
    ensures Balanced(Apply(y, a))
  {
    if a.DoClaim? || a.DoFail? || a.DoRelease? {
      StepTallies(y, a);
    } else {
      QuietStep(y, a);
    }
  }

  lemma {:induction false} RunsBalance(y: System, steps: seq<Step>, y': System)
    requires Mirrors(y) && Lawful(Justified, y.log) && Balanced(y) && Runs(y, steps, y')
    ensures Balanced(y')
    decreases |steps|
  {
    if steps != [] {
      StepKeeps(y, steps[0]);
      FreedWhileBusy(y, steps[0]);
      StepBalances(y, steps[0]);
      RunsBalance(Apply(y, steps[0]), steps[1..], y');
    }
  }

  /** In every interleaving: accepted commands = start failures + finished waits
      + one if the slot is busy. */
  lemma CommandsAreConserved(steps: seq<Step>, y: System)
    requires Runs(INITIAL, steps, y)
    ensures var t := Count(y.log); t.accepted == t.failed + t.released + if y.slot.busy then 1 else 0
  {
    RunsBalance(INITIAL, steps, y);
  }

  ghost predicate ExitsAt(log: seq<Event>, c: nat, i: int) {
    0 <= i < |log| && log[i].Exit? && log[i].c == c
  }

  /** No command exits twice, one that failed to start never exits, and once all
      threads are done every other accepted command has exited. */
  lemma OneExitPerCommand(steps: seq<Step>, y: System, c: nat)
    requires Runs(INITIAL, steps, y)
    ensures forall i, j :: ExitsAt(y.log, c, i) && ExitsAt(y.log, c, j) ==> i == j
    ensures StartFailed(c) in y.log ==> forall i :: !ExitsAt(y.log, c, i)
    ensures y.threads == map[] && Accepted(c) in y.log && StartFailed(c) !in y.log ==> exists i :: ExitsAt(y.log, c, i)
  {
    var log := y.log;
    EveryRunIsLawful(steps, y);
    forall i, j | ExitsAt(log, c, i) && ExitsAt(log, c, j) && i < j ensures false {
      Before(log, i, j);
      assert log[i] == Exit(c, log[i].cancelled);
      LawfulAt(Justified, log, j);
    }
    forall i | ExitsAt(log, c, i) ensures StartFailed(c) !in log {
      LawfulAt(Justified, log, i);
      var w :| SlotReleased(c, w, log[i].cancelled) in log[..i];
      NotBothEnds(log, c, SlotReleased(c, w, log[i].cancelled));
    }
    if y.threads == map[] && Accepted(c) in log && StartFailed(c) !in log {
      assert !Owns(log, c);
      var w, r :| SlotReleased(c, w, r) in log;
      var i :| 0 <= i < |log| && log[i] == Exit(c, r);
      assert ExitsAt(log, c, i);
    }
  }

  lemma NotBothEnds(log: seq<Event>, c: nat, e: Event)
    requires Lawful(Justified, log) && e in log && e.SlotReleased? && e.c == c
    ensures StartFailed(c) !in log
  {
    var i :| 0 <= i < |log| && log[i] == e;
    forall j | 0 <= j < |log| ensures log[j] != StartFailed(c) {
      OneEnd(log, c, i, j);
    }
  }

  lemma OneEnd(log: seq<Event>, c: nat, i: nat, j: nat)
    requires Lawful(Justified, log) && i < |log| && j < |log| && log[i].SlotReleased? && log[i].c == c
    ensures log[j] != StartFailed(c)
  {
    if j < i {
      Before(log, j, i);
      LawfulAt(Justified, log, i);
    } else if i < j {
      Before(log, i, j);
      LawfulAt(Justified, log, j);
      assert log[i] == SlotReleased(c, log[i].waitFailed, log[i].report);
    }
  }

  // ---- The escalation timer ----

  /** Whom an escalation signals, in terms of what happened before it: the owner of
      the slot, if it has installed its cancel function and no shutdown came since, and
      otherwise nobody. That is its own command exactly when the command still owns the
      slot and no shutdown followed the accepted cancel. */
  lemma EscalationTarget(steps: seq<Step>, y: System, i: nat, d: nat)
    requires Runs(INITIAL, steps, y) && i < |y.log| && y.log[i].Escalated?
    ensures var before, c, target := y.log[..i], y.log[i].c, y.log[i].target;
      && (target == Some(d) <==> Owns(before, d) && Undisturbed(before, Armed(d)))
      && (target == Some(c) <==> Owns(before, c) && Undisturbed(before, CancelAccepted(c)))
  {
    EveryRunIsLawful(steps, y);
    LawfulAt(Justified, y.log, i);
  }

  /** The same as a test of the fields, for a timer about to read them: it signals its
      own command exactly when there is a cancel function and the session's done channel
      is the one it waited for. */
  lemma EscalationTest(steps: seq<Step>, y: System, c: nat)
    requires Runs(INITIAL, steps, y) && Enabled(y, DoEscalate(c))
    ensures y.slot.cancelFn == Some(c) <==> y.slot.cancelFn.Some? && y.slot.done == Some(c)
    ensures y.slot.cancelFn == Some(c) <==> Owns(y.log, c) && Undisturbed(y.log, CancelAccepted(c))
    ensures y.slot.cancelFn.Some? ==> y.slot.busy
  {
    EveryRunIsLawful(steps, y);
    TargetIsArmed(y);
  }

  lemma {:induction false} RunsSnoc(y: System, steps: seq<Step>, y': System, a: Step)
    requires Runs(y, steps, y') && Enabled(y', a)
    ensures Runs(y, steps + [a], Apply(y', a))
    decreases |steps|
  {
    assert (steps + [a])[0] == if steps == [] then a else steps[0];
    if steps == [] {
      assert (steps + [a])[1..] == [];
    } else {
      RunsSnoc(Apply(y, steps[0]), steps[1..], y', a);
      assert (steps + [a])[1..] == steps[1..] + [a];
    }
  }

  /** From a free slot, the next command can be accepted, started and installed. */
  lemma ClaimAndInstall(steps: seq<Step>, y: System) returns (steps': seq<Step>, y': System)
    requires Runs(INITIAL, steps, y) && !y.slot.busy
    ensures Runs(INITIAL, steps', y')
    ensures y' == System(Install(Claim(y.slot), y.next), y.next + 1, y.threads[y.next := Installed],
                         y.log + [Accepted(y.next)] + [Armed(y.next)])
  {
    var c := y.next;
    var a1, a2, a3 := DoClaim, DoStart(c), DoInstall(c);
    var y1 := Apply(y, a1);
    RunsSnoc(INITIAL, steps, y, a1);
    var y2 := Apply(y1, a2);
    RunsSnoc(INITIAL, steps + [a1], y1, a2);
    y' := Apply(y2, a3);
    RunsSnoc(INITIAL, steps + [a1] + [a2], y2, a3);
    steps' := steps + [a1] + [a2] + [a3];
    assert y'.threads == y.threads[c := Installed];
  }

  /** Such a run: a command is cancelled and releases the slot, the next one is
      accepted and runs before the first one's done channel is closed, and the
      first one's timer then signals the next command. */
  lemma EscalationCanReachTheNextCommand() returns (steps: seq<Step>, y: System)
    ensures Runs(INITIAL, steps, y) && Escalated(0, Some(1)) in y.log
  {
    steps, y := ClaimAndInstall([], INITIAL);
    RunsSnoc(INITIAL, steps, y, DoCancel);
    steps, y := steps + [DoCancel], Apply(y, DoCancel);
    RunsSnoc(INITIAL, steps, y, DoRelease(0, true));
    steps, y := steps + [DoRelease(0, true)], Apply(y, DoRelease(0, true));
    steps, y := ClaimAndInstall(steps, y);
    RunsSnoc(INITIAL, steps, y, DoEscalate(0));
    steps, y := steps + [DoEscalate(0)], Apply(y, DoEscalate(0));
  }

  /** And a run in which it signals nobody although its command still owns the slot:
      a shutdown came in between. */
  lemma EscalationCanReachNobody() returns (steps: seq<Step>, y: System)
    ensures Runs(INITIAL, steps, y)
    ensures y.log == [Accepted(0), Armed(0), CancelAccepted(0), ShutDown(Some(0)), Escalated(0, None)]
  {
    steps, y := ClaimAndInstall([], INITIAL);
    RunsSnoc(INITIAL, steps, y, DoCancel);
    steps, y := steps + [DoCancel], Apply(y, DoCancel);
    RunsSnoc(INITIAL, steps, y, DoShutdown);
    steps, y := steps + [DoShutdown], Apply(y, DoShutdown);
    RunsSnoc(INITIAL, steps, y, DoEscalate(0));
    steps, y := steps + [DoEscalate(0)], Apply(y, DoEscalate(0));
  }

  // ---- Shutdown ----

  /** Whom a shutdown signals: the owner of the slot, if it has installed its cancel
      function and no shutdown came since, and otherwise nobody. */
  lemma ShutdownTarget(steps: seq<Step>, y: System, i: nat, d: nat)
    requires Runs(INITIAL, steps, y) && i < |y.log| && y.log[i].ShutDown?
    ensures y.log[i].target == Some(d) <==> Owns(y.log[..i], d) && Undisturbed(y.log[..i], Armed(d))
  {
    EveryRunIsLawful(steps, y);
    LawfulAt(Justified, y.log, i);
  }

  /** A run in which it signals nobody although a command owns the slot: the command was
      accepted but not yet installed, and then runs on a session that is shut down. */
  lemma ShutdownCanMissTheCommand() returns (steps: seq<Step>, y: System)
    ensures Runs(INITIAL, steps, y) && y.log == [Accepted(0), ShutDown(None), Armed(0)]
    ensures y.slot.busy && y.slot.stopping && At(y, 0, Installed)
  {
    steps, y := [], INITIAL;
    RunsSnoc(INITIAL, steps, y, DoClaim);
    steps, y := steps + [DoClaim], Apply(y, DoClaim);
    RunsSnoc(INITIAL, steps, y, DoStart(0));
    steps, y := steps + [DoStart(0)], Apply(y, DoStart(0));
    RunsSnoc(INITIAL, steps, y, DoShutdown);
    steps, y := steps + [DoShutdown], Apply(y, DoShutdown);
    RunsSnoc(INITIAL, steps, y, DoInstall(0));
    steps, y := steps + [DoInstall(0)], Apply(y, DoInstall(0));
  }

  ghost predicate StoppingMirrors(y: System) {
    y.slot.stopping <==> exists t :: ShutDown(t) in y.log
  }

  lemma StepKeepsStopping(y: System, a: Step)
    requires StoppingMirrors(y) && Enabled(y, a)
    ensures StoppingMirrors(Apply(y, a))
  {
    if a.DoShutdown? {
      assert ShutDown(y.slot.cancelFn) in Apply(y, a).log;
    } else {
      assert forall t :: ShutDown(t) in Apply(y, a).log <==> ShutDown(t) in y.log;
    }
  }

  lemma {:induction false} RunsKeepStopping(y: System, steps: seq<Step>, y': System)
    requires StoppingMirrors(y) && Runs(y, steps, y')
    ensures StoppingMirrors(y')
    decreases |steps|
  {
    if steps != [] {
      StepKeepsStopping(y, steps[0]);
      RunsKeepStopping(Apply(y, steps[0]), steps[1..], y');
    }
  }

  /** In every run a session is silenced exactly when it was shut down; nothing else,
      no failed start and no cancel, does it. */
  lemma StoppedOnlyByShutdown(steps: seq<Step>, y: System)
    requires Runs(INITIAL, steps, y)
    ensures y.slot.stopping <==> exists t :: ShutDown(t) in y.log
  {
    RunsKeepStopping(INITIAL, steps, y);
  }
}
