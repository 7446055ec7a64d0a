/**
 * The generic state machine: registered states and transitions, and a saved state name that survives between reconciles.
 *
 * `W` is whatever the state functions read and change.
 */
module StateMachine {
  import opened Wrappers

  datatype Progress = Complete | Incomplete | Failure

  /** `onEnter` may be absent; it says whether entering succeeded. */
  datatype State<!W> = State(name: string, onEnter: Option<W -> (W, bool)>, reconcile: W -> (W, Progress))

  datatype Transition<!W> = Transition(from: State<W>, to: State<W>, guard: W -> bool)

  /** What is registered: per name the transitions in the order of their registration, and the states. */
  datatype Setup<!W> = Setup(transitions: map<string, seq<Transition<W>>>, states: map<string, State<W>>)

  datatype MachineError = LoadFailed | UnknownState(name: string) | OnEnterFailed | ReconcileFailed | SaveFailed

  datatype Faults = Faults(load: bool, save: bool)

  // ---------------------------------------------------------------- registration

  function Outgoing<W>(setup: Setup<W>, name: string): seq<Transition<W>> {
    if name in setup.transitions then setup.transitions[name] else []
  }

  function Register<W>(setup: Setup<W>, t: Transition<W>): Setup<W> {
    Setup(setup.transitions[t.from.name := Outgoing(setup, t.from.name) + [t]],
          setup.states[t.from.name := t.from][t.to.name := t.to])
  }

  function Registered<W>(ts: seq<Transition<W>>): Setup<W> {
    if ts == [] then Setup(map[], map[]) else Register(Registered(ts[..|ts| - 1]), ts[|ts| - 1])
  }

  // ---------------------------------------------------------------- one reconcile

  /** The index of the first transition that is open in `w`, or the number of transitions. */
  function FirstOpen<W>(ts: seq<Transition<W>>, w: W): (i: nat)
    ensures i <= |ts| && (forall k :: 0 <= k < i ==> !ts[k].guard(w)) && (i < |ts| ==> ts[i].guard(w))
  {
    if ts == [] || ts[0].guard(w) then 0 else 1 + FirstOpen(ts[1..], w)
  }

  function NextName<W>(setup: Setup<W>, name: string, w: W): string {
    var ts := Outgoing(setup, name);
    var i := FirstOpen(ts, w);
    if i < |ts| then ts[i].to.name else ""
  }

  /** The world and the saved name after a reconcile, and whether it failed. */
  datatype Outcome<W> = Outcome(world: W, saved: string, result: Result<(), MachineError>)

  function Entered<W>(s: State<W>, w: W): (W, bool) {
    if s.onEnter.Some? then s.onEnter.value(w) else (w, true)
  }

  function ReconcileSpec<W>(setup: Setup<W>, saved: string, w: W, f: Faults): Outcome<W> {
    if f.load then Outcome(w, saved, Err(LoadFailed))
    else if saved !in setup.states then Outcome(w, saved, Err(UnknownState(saved)))
    else
      var s := setup.states[saved];
      var entered := Entered(s, w);
      if !entered.1 then Outcome(entered.0, saved, Err(OnEnterFailed)) else
      var run := s.reconcile(entered.0);
      match run.1
      case Failure => Outcome(run.0, saved, Err(ReconcileFailed))
      case Incomplete => Outcome(run.0, saved, Ok(()))
      case Complete =>
        if f.save then Outcome(run.0, saved, Err(SaveFailed)) else Outcome(run.0, NextName(setup, s.name, run.0), Ok(()))
  }

  // ---------------------------------------------------------------- the imperative machine

  class Machine<!W> {
    var allTransitions: map<string, seq<Transition<W>>>
    var states: map<string, State<W>>
    var currentState: Option<State<W>>
    var saved: string

    constructor (saved: string)
      ensures Value() == Registered([]) && this.saved == saved
    {
      allTransitions, states, currentState, this.saved := map[], map[], None, saved;
    }

    function Value(): Setup<W>
      reads this
    {
      Setup(allTransitions, states)
    }

    method AddTransition(from: State<W>, to: State<W>, guard: W -> bool)
      modifies this`allTransitions, this`states
      ensures Value() == Register(old(Value()), Transition(from, to, guard))
    {
      if from.name !in allTransitions {
        allTransitions := allTransitions[from.name := []];
      }
      allTransitions := allTransitions[from.name := allTransitions[from.name] + [Transition(from, to, guard)]];
      states := states[from.name := from];
      states := states[to.name := to];
    }

    method AddDirectTransition(from: State<W>, to: State<W>)
      modifies this`allTransitions, this`states
      ensures exists always: W -> bool ::
                (forall w :: always(w)) && Value() == Register(old(Value()), Transition(from, to, always))
    {
      var always: W -> bool := _ => true;
      AddTransition(from, to, always);
    }

    method DetermineState(loadFails: bool) returns (r: Result<(), MachineError>)
      modifies this`currentState
      ensures r == if loadFails then Err(LoadFailed) else if saved !in states then Err(UnknownState(saved)) else Ok(())
      ensures r.Ok? ==> currentState == Some(states[saved])
    {
      if loadFails {
        return Err(LoadFailed);
      }
      if saved !in states {
        return Err(UnknownState(saved));
      }
      currentState := Some(states[saved]);
      return Ok(());
    }

    method GetTransitionForState(s: State<W>, w: W) returns (t: Option<Transition<W>>)
      ensures var ts, i := Outgoing(Value(), s.name), FirstOpen(Outgoing(Value(), s.name), w);
              t == if i < |ts| then Some(ts[i]) else None
    {
      var ts := if s.name in allTransitions then allTransitions[s.name] else [];
      for i := 0 to |ts|
        invariant forall k :: 0 <= k < i ==> !ts[k].guard(w)
      {
        if ts[i].guard(w) {
          return Some(ts[i]);
        }
      }
      return None;
    }

    method Reconcile(w: W, f: Faults) returns (world: W, r: Result<(), MachineError>)
      modifies this`currentState, this`saved
      ensures Outcome(world, saved, r) == ReconcileSpec(Value(), old(saved), w, f)
    {
      world := w;
      r := DetermineState(f.load);
      if r.Err? {
        return;
      }
      var current := currentState.value;
      if current.onEnter.Some? {
        var entered := current.onEnter.value(world);
        world := entered.0;
        if !entered.1 {
          return world, Err(OnEnterFailed);
        }
      }
      var run := current.reconcile(world);
      world := run.0;
      if run.1.Failure? {
        return world, Err(ReconcileFailed);
      }
      if run.1.Complete? {
        var transition := GetTransitionForState(current, world);
        var nextState := "";
        if transition.Some? {
          nextState := transition.value.to.name;
        }
        if f.save {
          return world, Err(SaveFailed);
        }
        saved := nextState;
      }
      return world, Ok(());
    }
  }

  // ---------------------------------------------------------------- what registration means

  /** The transitions of a log that start at a name, in the order of the log. */
  function From<W>(ts: seq<Transition<W>>, name: string): seq<Transition<W>> {
    if ts == [] then []
    else From(ts[..|ts| - 1], name) + if ts[|ts| - 1].from.name == name then [ts[|ts| - 1]] else []
  }

  predicate Mentions<W>(ts: seq<Transition<W>>, name: string) {
    exists i :: 0 <= i < |ts| && (ts[i].from.name == name || ts[i].to.name == name)
  }

  lemma MentionsExtends<W>(ts: seq<Transition<W>>, t: Transition<W>, name: string)
    ensures Mentions(ts + [t], name) <==> Mentions(ts, name) || t.from.name == name || t.to.name == name
  {
    var all := ts + [t];
    assert all[|ts|] == t;
    if i :| 0 <= i < |ts| && (ts[i].from.name == name || ts[i].to.name == name) {
      assert all[i] == ts[i];
    }
  }

  /** The map of lists is the log, sorted by name; a state is known exactly when some transition mentions it. */
  lemma {:induction false} RegisteredIsLog<W>(ts: seq<Transition<W>>, name: string)
    ensures Outgoing(Registered(ts), name) == From(ts, name)
    ensures name in Registered(ts).states <==> Mentions(ts, name)
    ensures name in Registered(ts).states ==> Registered(ts).states[name].name == name
  {
    if ts != [] {
      var front, last := ts[..|ts| - 1], ts[|ts| - 1];
      RegisteredIsLog(front, name);
      MentionsExtends(front, last, name);
      assert ts == front + [last];
    }
  }

  // ---------------------------------------------------------------- runs

  /** Between reconciles the world may change in any way. */
  datatype Event<W> = Reconciles(faults: Faults) | Changes(world: W)

  /** The world and the saved name. */
  datatype Snapshot<W> = Snapshot(world: W, saved: string)

  function Step<W>(setup: Setup<W>, x: Snapshot<W>, e: Event<W>): Snapshot<W> {
    match e
    case Reconciles(f) => var o := ReconcileSpec(setup, x.saved, x.world, f); Snapshot(o.world, o.saved)
    case Changes(w) => x.(world := w)
  }

  function After<W>(setup: Setup<W>, x: Snapshot<W>, events: seq<Event<W>>): Snapshot<W> {
    if events == [] then x else Step(setup, After(setup, x, events[..|events| - 1]), events[|events| - 1])
  }

  /** A registered transition between these names that is open, and no transition registered before it from there is. */
  ghost predicate FirstOpenBetween<W>(ts: seq<Transition<W>>, from: string, to: string, w: W) {
    exists i :: 0 <= i < |ts| && ts[i].from.name == from && ts[i].to.name == to && ts[i].guard(w)
                && forall k :: 0 <= k < i && ts[k].from.name == from ==> !ts[k].guard(w)
  }

  ghost predicate NoneOpen<W>(ts: seq<Transition<W>>, from: string, w: W) {
    forall k :: 0 <= k < |ts| && ts[k].from.name == from ==> !ts[k].guard(w)
  }

  /** One more registration does not change which of the earlier ones is the first open one. */
  lemma BetweenExtends<W>(ts: seq<Transition<W>>, last: Transition<W>, from: string, to: string, w: W)
    requires FirstOpenBetween(ts, from, to, w)
    ensures FirstOpenBetween(ts + [last], from, to, w)
  {
    var i :| 0 <= i < |ts| && ts[i].from.name == from && ts[i].to.name == to && ts[i].guard(w)
             && forall k :: 0 <= k < i && ts[k].from.name == from ==> !ts[k].guard(w);
    var all := ts + [last];
    assert all[i] == ts[i] && forall k :: 0 <= k < i ==> all[k] == ts[k];
  }

  /** When none was open it is the new one, if that is. */
  lemma NoneExtends<W>(ts: seq<Transition<W>>, last: Transition<W>, from: string, w: W)
    requires NoneOpen(ts, from, w)
    ensures if last.from.name == from && last.guard(w) then FirstOpenBetween(ts + [last], from, last.to.name, w)
            else NoneOpen(ts + [last], from, w)
  {
    var all := ts + [last];
    assert all[|ts|] == last && forall k :: 0 <= k < |ts| ==> all[k] == ts[k];
  }

  /** The first open transition among those from a state is the first open one of the log. */
  ghost predicate ReadOff<W>(ts: seq<Transition<W>>, out: seq<Transition<W>>, name: string, w: W) {
    var i := FirstOpen(out, w);
    if i < |out| then FirstOpenBetween(ts, name, out[i].to.name, w) else NoneOpen(ts, name, w)
  }

  lemma ReadOffExtends<W>(ts: seq<Transition<W>>, out: seq<Transition<W>>, last: Transition<W>, name: string, w: W)
    requires ReadOff(ts, out, name, w)
    ensures ReadOff(ts + [last], out + if last.from.name == name then [last] else [], name, w)
  {
    var more, i := if last.from.name == name then [last] else [], FirstOpen(out, w);
    FirstOpenExtends(out, more, w);
    if i < |out| {
      BetweenExtends(ts, last, name, out[i].to.name, w);
      assert (out + more)[i] == out[i];
    } else {
      NoneExtends(ts, last, name, w);
    }
  }

  /** The next name, read off the log of registrations. */
  lemma {:induction false} FirstOpenInLog<W>(ts: seq<Transition<W>>, name: string, w: W)
    ensures ReadOff(ts, From(ts, name), name, w)
  {
    if ts != [] {
      var front, last := ts[..|ts| - 1], ts[|ts| - 1];
      FirstOpenInLog(front, name, w);
      ReadOffExtends(front, From(front, name), last, name, w);
      assert ts == front + [last];
    }
  }

  lemma {:induction false} FirstOpenExtends<W>(ts: seq<Transition<W>>, more: seq<Transition<W>>, w: W)
    ensures var i := FirstOpen(ts, w);
            FirstOpen(ts + more, w) == if i < |ts| then i else |ts| + FirstOpen(more, w)
  {
    if ts == [] {
      assert ts + more == more;
    } else {
      assert (ts + more)[1..] == ts[1..] + more;
      FirstOpenExtends(ts[1..], more, w);
    }
  }

  /** What a reconcile of a machine with these registrations may do to the saved name. */
  ghost predicate MovesAlong<W>(ts: seq<Transition<W>>, before: Snapshot<W>, after: Snapshot<W>) {
    || after.saved == before.saved
    || FirstOpenBetween(ts, before.saved, after.saved, after.world)
    || (after.saved == "" && NoneOpen(ts, before.saved, after.world))
  }

  /**
   * A reconcile that fails, or whose state is not complete, leaves the saved name alone.  One that completes moves it
   * along the transition that was registered first among those that are open, and to nothing when none is.
   */
  lemma ReconcileMoves<W>(ts: seq<Transition<W>>, saved: string, w: W, f: Faults)
    ensures var o := ReconcileSpec(Registered(ts), saved, w, f);
            && (o.result.Err? ==> o.saved == saved)
            && (o.saved != saved ==>
                  var s := Registered(ts).states[saved];
                  Mentions(ts, saved) && s.reconcile(Entered(s, w).0).1.Complete?)
            && MovesAlong(ts, Snapshot(w, saved), Snapshot(o.world, o.saved))
  {
    RegisteredIsLog(ts, saved);
    var o := ReconcileSpec(Registered(ts), saved, w, f);
    FirstOpenInLog(ts, saved, o.world);
  }

  /** In every run from a known state the saved name is known or empty, whatever the states do and whichever calls fail. */
  lemma {:induction false} SavedIsKnownOrEmpty<W>(ts: seq<Transition<W>>, x: Snapshot<W>, events: seq<Event<W>>)
    requires Mentions(ts, x.saved) || x.saved == ""
    ensures var y := After(Registered(ts), x, events); Mentions(ts, y.saved) || y.saved == ""
  {
    if events != [] {
      var front, last := events[..|events| - 1], events[|events| - 1];
      SavedIsKnownOrEmpty(ts, x, front);
      if last.Reconciles? {
        var y := After(Registered(ts), x, front);
        ReconcileMoves(ts, y.saved, y.world, last.faults);
      }
    }
  }

  /**
   * Unless a state has the empty name: a machine that has run off its last state stays there, and every later reconcile
   * fails without doing anything.
   */
  lemma {:induction false} EmptyIsFinal<W>(ts: seq<Transition<W>>, x: Snapshot<W>, events: seq<Event<W>>, f: Faults)
    requires x.saved == "" && !Mentions(ts, "")
    ensures var y := After(Registered(ts), x, events);
            && y.saved == ""
            && ReconcileSpec(Registered(ts), y.saved, y.world, f).result.Err?
            && ReconcileSpec(Registered(ts), y.saved, y.world, f).world == y.world
  {
    RegisteredIsLog(ts, "");
    if events != [] {
      EmptyIsFinal(ts, x, events[..|events| - 1], f);
    }
  }

  /** So a run ends for good exactly by completing a state that has no open transition, or one to a state without name. */
  lemma EndsExactly<W>(ts: seq<Transition<W>>, saved: string, w: W, f: Faults)
    requires saved != "" && !Mentions(ts, "")
    ensures var o := ReconcileSpec(Registered(ts), saved, w, f);
            o.saved == "" <==>
            && !f.load && !f.save && saved in Registered(ts).states
            && var s := Registered(ts).states[saved];
               Entered(s, w).1 && s.reconcile(Entered(s, w).0).1.Complete?
                   && NoneOpen(ts, saved, s.reconcile(Entered(s, w).0).0)
  {
    RegisteredIsLog(ts, saved);
    var o := ReconcileSpec(Registered(ts), saved, w, f);
    FirstOpenInLog(ts, saved, o.world);
    if FirstOpenBetween(ts, saved, "", o.world) {
      assert Mentions(ts, "");
      assert false;
    }
  }

  // ---------------------------------------------------------------- one reconcile, step by step

  /**
   * A reconcile of a known state enters it first, if there is something to do on entering, and reconciles it in the world
   * that entering leaves; what either of them changes stays, and the first failure is reported.
   */
  lemma EntersThenReconciles<W>(setup: Setup<W>, saved: string, w: W, f: Faults)
    requires !f.load && saved in setup.states
    ensures var o, s := ReconcileSpec(setup, saved, w, f), setup.states[saved];
            var entered := if s.onEnter.Some? then s.onEnter.value(w).0 else w;
            if s.onEnter.Some? && !s.onEnter.value(w).1 then
              o.world == entered && o.result == Err(OnEnterFailed) && o.saved == saved
            else
              && o.world == s.reconcile(entered).0
              && (s.reconcile(entered).1.Failure? <==> o.result == Err(ReconcileFailed))
              && (s.reconcile(entered).1.Complete? && f.save <==> o.result == Err(SaveFailed))
              && (o.result.Ok? <==> !s.reconcile(entered).1.Failure? && !(s.reconcile(entered).1.Complete? && f.save))
              && (o.saved != saved ==> s.reconcile(entered).1.Complete? && !f.save)
  {
  }

  /** One that cannot load its state, or does not know it, does nothing. */
  lemma UnknownStateDoesNothing<W>(setup: Setup<W>, saved: string, w: W, f: Faults)
    requires f.load || saved !in setup.states
    ensures ReconcileSpec(setup, saved, w, f)
            == Outcome(w, saved, Err(if f.load then LoadFailed else UnknownState(saved)))
  {
  }
}
