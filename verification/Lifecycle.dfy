/**
 The service life cycle of pkg/lifecycle/lifecycle.go, as the atomic steps of any number of threads
 calling Start and Stop: a compare-and-swap, the start or stop function, a plain store.
 */
module Lifecycles {
  // The values of the state word, in the order the constants number them.
  datatype State = NotStarted | Starting | Started | Stopped

  // Where a thread is: past a compare-and-swap it won, or outside.
  datatype Pc = Outside | InStart | StartReturned | InStop

  datatype Event = StartBegan(thread: nat) | StartEnded(thread: nat) | StopBegan(thread: nat) | StopEnded(thread: nat)

  // The state word with every value it ever had, the threads, and the calls of the two functions so far.
  datatype Lifecycle = Lifecycle(states: seq<State>, pcs: map<nat, Pc>, events: seq<Event>) {
    function State(): State {
      if states == [] then NotStarted else states[|states| - 1]
    }

    function PcOf(thread: nat): Pc {
      if thread in pcs then pcs[thread] else Outside
    }

    function Goto(thread: nat, pc: Pc): Lifecycle {
      this.(pcs := pcs[thread := pc])
    }

    function Store(state: State): Lifecycle {
      this.(states := states + [state])
    }

    function Log(event: Event): Lifecycle {
      this.(events := events + [event])
    }
  }

  const NEW := Lifecycle([NotStarted], map[], [])

  datatype Action = CallStart | StartFunctionReturns | StoreStarted | CallStop | StopFunctionReturns

  datatype Step = Step(thread: nat, action: Action)

  // One atomic step; a thread that is not where the step begins, or loses its compare-and-swap, does nothing.
  function Next(l: Lifecycle, step: Step): Lifecycle {
    var t := step.thread;
    match step.action
    case CallStart =>
      if l.PcOf(t) == Outside && l.State() == NotStarted
      then l.Store(Starting).Goto(t, InStart).Log(StartBegan(t)) else l
    case StartFunctionReturns =>
      if l.PcOf(t) == InStart then l.Goto(t, StartReturned).Log(StartEnded(t)) else l
    case StoreStarted =>
      if l.PcOf(t) == StartReturned then l.Store(Started).Goto(t, Outside) else l
    case CallStop =>
      if l.PcOf(t) == Outside && l.State() == Started
      then l.Store(Stopped).Goto(t, InStop).Log(StopBegan(t)) else l
    case StopFunctionReturns =>
      if l.PcOf(t) == InStop then l.Goto(t, Outside).Log(StopEnded(t)) else l
  }

  function Run(steps: seq<Step>): Lifecycle {
    if steps == [] then NEW else Next(Run(steps[..|steps| - 1]), steps[|steps| - 1])
  }

  ghost predicate OnlyInside(l: Lifecycle, thread: nat, pc: Pc) {
    l.PcOf(thread) == pc && forall t: nat :: t != thread ==> l.PcOf(t) == Outside
  }

  ghost predicate NobodyInside(l: Lifecycle) {
    forall t: nat :: l.PcOf(t) == Outside
  }

  // The seven shapes a life cycle can have: how far the two functions have come, and who is in them.
  ghost predicate Shape(l: Lifecycle, starter: nat, stopper: nat) {
    var full := [StartBegan(starter), StartEnded(starter), StopBegan(stopper), StopEnded(stopper)];
    match l.State()
    case NotStarted => l.states == [NotStarted] && l.events == [] && NobodyInside(l)
    case Starting =>
      && l.states == [NotStarted, Starting]
      && (|| (l.events == full[..1] && OnlyInside(l, starter, InStart))
          || (l.events == full[..2] && OnlyInside(l, starter, StartReturned)))
    case Started => l.states == [NotStarted, Starting, Started] && l.events == full[..2] && NobodyInside(l)
    case Stopped =>
      && l.states == [NotStarted, Starting, Started, Stopped]
      && (|| (l.events == full[..3] && OnlyInside(l, stopper, InStop))
          || (l.events == full && NobodyInside(l)))
  }

  lemma NextKeepsShape(l: Lifecycle, step: Step, starter: nat, stopper: nat) returns (starter': nat, stopper': nat)
    requires Shape(l, starter, stopper)
    ensures Shape(Next(l, step), starter', stopper')
  {
    starter', stopper' := starter, stopper;
    var l' := Next(l, step);
    assert forall t: nat :: t != step.thread ==> l'.PcOf(t) == l.PcOf(t);
    assert l.PcOf(step.thread) == Outside || step.thread == if l.State() == Starting then starter else stopper;
    if l' != l {
      if step.action == CallStart { starter' := step.thread; }
      if step.action == CallStop { stopper' := step.thread; }
    }
  }

  lemma {:induction false} RunHasShape(steps: seq<Step>) returns (starter: nat, stopper: nat)
    ensures Shape(Run(steps), starter, stopper)
  {
    if steps == [] {
      starter, stopper := 0, 0;
    } else {
      starter, stopper := RunHasShape(steps[..|steps| - 1]);
      starter, stopper := NextKeepsShape(Run(steps[..|steps| - 1]), steps[|steps| - 1], starter, stopper);
    }
  }

  // In every interleaving the state word goes through its four values in order, skipping and repeating none:
  // in particular the plain store of Started never overwrites Stopped.
  lemma StateOnlyMovesForward(steps: seq<Step>)
    ensures Run(steps).states <= [NotStarted, Starting, Started, Stopped]
  {
    var _, _ := RunHasShape(steps);
  }

  // In every interleaving the start function is called at most once, the stop function at most once,
  // and the latter only after the former has returned.
  lemma FunctionsRunOnceInOrder(steps: seq<Step>)
    ensures exists starter: nat, stopper: nat ::
              Run(steps).events <= [StartBegan(starter), StartEnded(starter), StopBegan(stopper), StopEnded(stopper)]
  {
    var starter, stopper := RunHasShape(steps);
    assert Run(steps).events <= [StartBegan(starter), StartEnded(starter), StopBegan(stopper), StopEnded(stopper)];
  }

  // State() reads Started exactly between the store at the end of Start and the swap that begins Stop.
  lemma StartedMeansBetween(steps: seq<Step>)
    ensures Run(steps).State() == Started <==>
            && (exists t: nat :: StartEnded(t) in Run(steps).events)
            && (forall t: nat :: StopBegan(t) !in Run(steps).events)
            && (forall t: nat :: Run(steps).PcOf(t) != StartReturned)
  {
    var starter, stopper := RunHasShape(steps);
    var l := Run(steps);
    if l.State() == Started {
      assert l.events[1] == StartEnded(starter);
    }
    if l.State() == Stopped {
      assert l.events[2] == StopBegan(stopper);
    }
  }

  // ---- Which calls take effect ----

  lemma StepOfRun(steps: seq<Step>, i: nat)
    requires i < |steps|
    ensures Run(steps[..i + 1]) == Next(Run(steps[..i]), steps[i])
  {
    assert steps[..i + 1][..i] == steps[..i];
  }

  // The first Start runs the start function; until then nothing has happened.
  lemma {:induction false} StartedIff(steps: seq<Step>)
    ensures (exists t: nat :: StartBegan(t) in Run(steps).events) <==>
            exists i :: 0 <= i < |steps| && steps[i].action == CallStart
    ensures Run(steps).State() == NotStarted <==> forall i :: 0 <= i < |steps| ==> steps[i].action != CallStart
  {
    if steps != [] {
      var init, last := steps[..|steps| - 1], steps[|steps| - 1];
      StartedIff(init);
      var starter, stopper := RunHasShape(init);
      assert steps == init + [last];
      assert Run(init).events != [] ==> Run(init).events[0] == StartBegan(starter);
      var l := Run(steps);
      assert Run(init).State() == NotStarted && last.action == CallStart ==> l.events == [StartBegan(last.thread)];
    }
    var starter, stopper := RunHasShape(steps);
    assert Run(steps).events != [] ==> Run(steps).events[0] == StartBegan(starter);
  }

  ghost predicate StopsAt(steps: seq<Step>, i: nat)
    requires i < |steps|
  {
    steps[i].action == CallStop && Run(steps[..i]).State() == Started
  }

  lemma StepStops(l: Lifecycle, step: Step, starter: nat, stopper: nat)
    requires Shape(l, starter, stopper)
    ensures Next(l, step).State() == Stopped <==>
            l.State() == Stopped || (step.action == CallStop && l.State() == Started)
  {
  }

  // The first Stop of a started service stops it; one that comes earlier or later does nothing.
  lemma {:induction false} StoppedIff(steps: seq<Step>)
    ensures Run(steps).State() == Stopped <==> exists i :: 0 <= i < |steps| && StopsAt(steps, i)
  {
    if steps != [] {
      var n := |steps| - 1;
      StoppedIff(steps[..n]);
      var starter, stopper := RunHasShape(steps[..n]);
      StepStops(Run(steps[..n]), steps[n], starter, stopper);
      forall i | 0 <= i < n ensures StopsAt(steps[..n], i) == StopsAt(steps, i) {
        assert steps[..n][..i] == steps[..i];
      }
      assert StopsAt(steps, n) == (steps[n].action == CallStop && Run(steps[..n]).State() == Started);
    }
  }

  // A service on which no call can go on has finished all it began: it is not started, started with the start
  // function returned, or stopped with both functions returned.
  lemma RestIsSettled(steps: seq<Step>)
    requires forall t: nat, action: Action :: !action.CallStart? && !action.CallStop? ==>
               Next(Run(steps), Step(t, action)) == Run(steps)
    ensures var l := Run(steps);
            && (forall t: nat :: l.PcOf(t) == Outside)
            && exists starter: nat, stopper: nat ::
                 var full := [StartBegan(starter), StartEnded(starter), StopBegan(stopper), StopEnded(stopper)];
                 l.events == match l.State()
                             case NotStarted => []
                             case Started => full[..2]
                             case _ => full
  {
    var l := Run(steps);
    var starter, stopper := RunHasShape(steps);
    assert l.PcOf(starter) != InStart by { InsideMoves(l, starter, InStart, StartFunctionReturns); }
    assert l.PcOf(starter) != StartReturned by { InsideMoves(l, starter, StartReturned, StoreStarted); }
    assert l.PcOf(stopper) != InStop by { InsideMoves(l, stopper, InStop, StopFunctionReturns); }
  }

  lemma InsideMoves(l: Lifecycle, t: nat, pc: Pc, action: Action)
    requires (pc, action) in {(InStart, StartFunctionReturns), (StartReturned, StoreStarted),
                              (InStop, StopFunctionReturns)}
    ensures l.PcOf(t) == pc ==> Next(l, Step(t, action)) != l
  {
    assert l.PcOf(t) == pc ==> Next(l, Step(t, action)).PcOf(t) != pc;
  }
}
