/** The session registry: connect replaces the session of a connection,
    disconnect removes it, and whoever takes a session out of the map shuts it
    down afterwards, outside the lock. */
module Registry {
  import opened Options

  // ---- The locked regions ----

  /** Session objects are numbered in the order they are installed. */
  type Sessions = map<string, nat>

  function Lookup(m: Sessions, id: string): Option<nat> {
    if id in m then Some(m[id]) else None
  }

  class Plugin {
    var sessions: Sessions

    constructor ()
      ensures sessions == map[]
    {
      sessions := map[];
    }

    /** connect: the new session goes in, the caller gets the previous one. */
    method Replace(id: string, s: nat) returns (previous: Option<nat>)
      modifies this
      ensures previous == Lookup(old(sessions), id)
      ensures sessions == old(sessions)[id := s]
    {
      previous := Lookup(sessions, id);
      sessions := sessions[id := s];
    }

    /** disconnect: the caller gets the session that was there. */
    method Remove(id: string) returns (current: Option<nat>)
      modifies this
      ensures current == Lookup(old(sessions), id)
      ensures sessions == old(sessions) - {id}
    {
      current := Lookup(sessions, id);
      sessions := sessions - {id};
    }
  }

  // ---- The step machine ----

  /** `holding` maps a thread to the session it is about to shut down; `shut`
      lists the sessions shut down so far, in order. */
  datatype System = System(sessions: Sessions, next: nat, holding: map<nat, nat>, shut: seq<nat>)

  const INITIAL := System(map[], 0, map[], [])

  datatype Step = Connect(t: nat, id: string) | Disconnect(t: nat, id: string) | Shutdown(t: nat)

  predicate Enabled(y: System, a: Step) {
    match a
    case Shutdown(t) => t in y.holding
    case _ => a.t !in y.holding
  }

  function Hold(holding: map<nat, nat>, t: nat, s: Option<nat>): map<nat, nat> {
    match s
    case None => holding
    case Some(v) => holding[t := v]
  }

  function Apply(y: System, a: Step): System
    requires Enabled(y, a)
  {
    match a
    case Connect(t, id) =>
      System(y.sessions[id := y.next], y.next + 1, Hold(y.holding, t, Lookup(y.sessions, id)), y.shut)
    case Disconnect(t, id) =>
      y.(sessions := y.sessions - {id}, holding := Hold(y.holding, t, Lookup(y.sessions, id)))
    case Shutdown(t) => y.(holding := y.holding - {t}, shut := y.shut + [y.holding[t]])
  }

  ghost predicate Runs(y: System, steps: seq<Step>, y': System)
    decreases |steps|
  {
    if steps == [] then y == y' else Enabled(y, steps[0]) && Runs(Apply(y, steps[0]), steps[1..], y')
  }

  // ---- Ownership ----

  ghost predicate Registered(y: System, s: nat) {
    exists id :: id in y.sessions && y.sessions[id] == s
  }

  ghost predicate Held(y: System, s: nat) {
    exists t :: t in y.holding && y.holding[t] == s
  }

  ghost predicate Injective<K(!new)>(m: map<K, nat>) {
    forall a, b :: a in m && b in m && m[a] == m[b] ==> a == b
  }

  ghost predicate Distinct(s: seq<nat>) {
    forall i, j :: 0 <= i < j < |s| ==> s[i] != s[j]
  }

  ghost predicate Owned(y: System) {
    && Injective(y.sessions) && Injective(y.holding) && Distinct(y.shut)
    && (forall s: nat :: Registered(y, s) || Held(y, s) || s in y.shut <==> s < y.next)
    && (forall s: nat :: Registered(y, s) ==> !Held(y, s) && s !in y.shut)
    && (forall s: nat :: Held(y, s) ==> s !in y.shut)
  }

  ghost predicate RegisteredNext(y: System, a: Step, s: nat) {
    if a.Shutdown? then Registered(y, s)
    else (Registered(y, s) && Lookup(y.sessions, a.id) != Some(s)) || (a.Connect? && s == y.next)
  }

  ghost predicate HeldNext(y: System, a: Step, s: nat)
    requires Enabled(y, a)
  {
    if a.Shutdown? then Held(y, s) && s != y.holding[a.t] else Held(y, s) || Lookup(y.sessions, a.id) == Some(s)
  }

  lemma StepKeeps(y: System, a: Step)
    requires Owned(y) && Enabled(y, a)
    ensures Owned(Apply(y, a))
  {
    var y' := Apply(y, a);
    SessionsStayInjective(y, a);
    HoldingStaysInjective(y, a);
    forall s: nat ensures Registered(y', s) <==> RegisteredNext(y, a, s) {
      RegisteredAfter(y, a, s);
    }
    forall s: nat ensures Held(y', s) <==> HeldNext(y, a, s) {
      HeldAfter(y, a, s);
    }
    PlacesAfter(y, a);
  }

  /** Given what a step does to the two maps, no session gets lost or doubled. */
  lemma PlacesAfter(y: System, a: Step)
    requires Owned(y) && Enabled(y, a)
    requires Injective(Apply(y, a).sessions) && Injective(Apply(y, a).holding)
    requires forall s: nat :: Registered(Apply(y, a), s) <==> RegisteredNext(y, a, s)
    requires forall s: nat :: Held(Apply(y, a), s) <==> HeldNext(y, a, s)
    ensures Owned(Apply(y, a))
  {
    var y' := Apply(y, a);
    if a.Shutdown? {
      assert Held(y, y.holding[a.t]);
    } else if a.id in y.sessions {
      assert Registered(y, y.sessions[a.id]);
    }
    forall s: nat
      ensures Registered(y', s) || Held(y', s) || s in y'.shut <==> s < y'.next
      ensures Registered(y', s) ==> !Held(y', s) && s !in y'.shut
      ensures Held(y', s) ==> s !in y'.shut
    {
      assert Registered(y', s) <==> RegisteredNext(y, a, s);
      assert Held(y', s) <==> HeldNext(y, a, s);
    }
  }

  lemma SessionsStayInjective(y: System, a: Step)
    requires Owned(y) && Enabled(y, a)
    ensures Injective(Apply(y, a).sessions)
  {
    forall id | id in y.sessions ensures y.sessions[id] < y.next {
      assert Registered(y, y.sessions[id]);
    }
  }

  lemma HoldingStaysInjective(y: System, a: Step)
    requires Owned(y) && Enabled(y, a)
    ensures Injective(Apply(y, a).holding)
  {
    if !a.Shutdown? && a.id in y.sessions {
      assert Registered(y, y.sessions[a.id]);
      forall t | t in y.holding ensures y.holding[t] != y.sessions[a.id] {
        assert Held(y, y.holding[t]);
      }
    }
  }

  lemma RegisteredAfter(y: System, a: Step, s: nat)
    requires Owned(y) && Enabled(y, a)
    ensures Registered(Apply(y, a), s) <==> RegisteredNext(y, a, s)
  {
    var y' := Apply(y, a);
    if a.Connect? {
      assert a.id in y'.sessions && y'.sessions[a.id] == y.next;
    }
    if id :| id in y.sessions && y.sessions[id] == s {
      assert (a.Shutdown? || id != a.id) ==> id in y'.sessions && y'.sessions[id] == s;
    }
  }

  lemma HeldAfter(y: System, a: Step, s: nat)
    requires Owned(y) && Enabled(y, a)
    ensures Held(Apply(y, a), s) <==> HeldNext(y, a, s)
  {
    var y' := Apply(y, a);
    if t :| t in y.holding && y.holding[t] == s {
      assert (!a.Shutdown? || t != a.t) ==> t in y'.holding && y'.holding[t] == s;
    }
    if !a.Shutdown? && Lookup(y.sessions, a.id) == Some(s) {
      assert a.t in y'.holding && y'.holding[a.t] == s;
    }
  }

  lemma {:induction false} RunsKeep(y: System, steps: seq<Step>, y': System)
    requires Owned(y) && Runs(y, steps, y')
    ensures Owned(y')
    decreases |steps|
  {
    if steps != [] {
      StepKeeps(y, steps[0]);
      RunsKeep(Apply(y, steps[0]), steps[1..], y');
    }
  }

  /** In every interleaving of connects and disconnects, each installed session
      is in exactly one place: in the map, with one thread about to shut it
      down, or shut down, and no session is shut down twice. */
  lemma EachSessionHasOnePlace(steps: seq<Step>, y: System, s: nat)
    requires Runs(INITIAL, steps, y)
    ensures s < y.next <==> Registered(y, s) || Held(y, s) || s in y.shut
    ensures !(Registered(y, s) && Held(y, s)) && !(Registered(y, s) && s in y.shut) && !(Held(y, s) && s in y.shut)
    ensures forall t, u :: t in y.holding && u in y.holding && y.holding[t] == s && y.holding[u] == s ==> t == u
    ensures Distinct(y.shut)
  {
    RunsKeep(INITIAL, steps, y);
  }

  /** Once every handler has finished, the sessions not shut down are exactly
      the registered ones: nothing leaks. */
  lemma NothingLeaks(steps: seq<Step>, y: System, s: nat)
    requires Runs(INITIAL, steps, y) && y.holding == map[]
    ensures s < y.next ==> (Registered(y, s) <==> s !in y.shut)
  {
    RunsKeep(INITIAL, steps, y);
  }
}
