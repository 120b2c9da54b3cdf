/**
  The cycle lock: processes that run step by step in any interleaving, under an exclusive lock that is
  taken without waiting and let go of when the process ends, however it ends.
 */
module Lock {
  import opened Wrappers

  /** What a process does: its next step on the shared state and its own, until its own state says it is finished. */
  datatype Program<!S, !L> = Program(step: (S, L) -> (S, L), finished: L -> bool)

  /** Before the lock; holding it; told that another cycle is running; ended. */
  datatype Process<L> = Ready(start: L) | Holding(now: L) | Turned | Ended

  datatype Ending = Running | Finished | Killed

  /** One process's time with the lock: who, from what state of its own, how many steps it took, and how it ended. */
  datatype Turn<L> = Turn(who: nat, start: L, steps: nat, ending: Ending)

  datatype System<S, L> = System(shared: S, processes: seq<Process<L>>, holder: Option<nat>, turns: seq<Turn<L>>)

  /** The scheduler lets one process go on, or it is killed. */
  datatype Action = Go(who: nat) | Kill(who: nat)

  /** The history after another step of the last turn, or after its end. */
  function Extended<L>(turns: seq<Turn<L>>, steps: nat, ending: Ending): (r: seq<Turn<L>>)
    ensures |r| == |turns|
  {
    if turns == [] then []
    else
      var k := |turns| - 1;
      turns[..k] + [turns[k].(steps := turns[k].steps + steps, ending := ending)]
  }

  function Act<S, L>(p: Program<S, L>, x: System<S, L>, a: Action): System<S, L>
    requires a.who < |x.processes|
  {
    var i := a.who;
    var me := x.processes[i];
    if a.Kill? then
      var y := x.(processes := x.processes[i := Ended]);
      if me.Holding? then y.(holder := None, turns := Extended(x.turns, 0, Killed)) else y
    else
      match me
      case Ready(l) =>
        if x.holder.Some? then x.(processes := x.processes[i := Turned])
        else x.(processes := x.processes[i := Holding(l)], holder := Some(i),
            turns := x.turns + [Turn(i, l, 0, Running)])
      case Holding(l) =>
        if p.finished(l) then
          x.(processes := x.processes[i := Ended], holder := None, turns := Extended(x.turns, 0, Finished))
        else
          var (s, l') := p.step(x.shared, l);
          x.(shared := s, processes := x.processes[i := Holding(l')], turns := Extended(x.turns, 1, Running))
      case Turned => x
      case Ended => x
  }

  function ActAll<S, L>(p: Program<S, L>, x: System<S, L>, actions: seq<Action>): (r: System<S, L>)
    requires forall a | a in actions :: a.who < |x.processes|
    ensures |r.processes| == |x.processes|
  {
    if actions == [] then x
    else Act(p, ActAll(p, x, actions[..|actions| - 1]), actions[|actions| - 1])
  }

  /* ---- one after the other ---- */

  /** A process alone: `n` steps from `s`. */
  function Steps<S, L>(p: Program<S, L>, s: S, l: L, n: nat): (S, L) {
    if n == 0 then (s, l) else var (s1, l1) := Steps(p, s, l, n - 1); p.step(s1, l1)
  }

  /** The turns, each run alone to its end before the next begins. */
  function Serial<S, L>(p: Program<S, L>, s: S, turns: seq<Turn<L>>): S {
    if turns == [] then s
    else
      var last := turns[|turns| - 1];
      Steps(p, Serial(p, s, turns[..|turns| - 1]), last.start, last.steps).0
  }

  /** The own state of the process that had turn `k`, at the end of it, if the turns are run one after the other. */
  function OwnAfter<S, L>(p: Program<S, L>, s: S, turns: seq<Turn<L>>, k: nat): L
    requires k < |turns|
  {
    Steps(p, Serial(p, s, turns[..k]), turns[k].start, turns[k].steps).1
  }

  /**
    The shared state is that of the turns one after the other. At most one process holds the lock: the
    one whose turn is the last and runs, and it is where its steps alone would have brought it. All
    other turns are over, and those that were not cut short by a kill ran until they were finished.
   */
  ghost predicate Serialised<S, L>(p: Program<S, L>, s: S, x: System<S, L>) {
    && x.shared == Serial(p, s, x.turns)
    && (forall i | 0 <= i < |x.processes| :: x.processes[i].Holding? <==> x.holder == Some(i))
    && (x.holder.Some? <==> x.turns != [] && x.turns[|x.turns| - 1].ending.Running?)
    && (x.holder.Some? ==>
          && x.holder.value < |x.processes| && x.holder.value == x.turns[|x.turns| - 1].who
          && x.processes[x.holder.value] == Holding(OwnAfter(p, s, x.turns, |x.turns| - 1)))
    && (forall k | 0 <= k < |x.turns| - 1 :: !x.turns[k].ending.Running?)
    && (forall k | 0 <= k < |x.turns| :: x.turns[k].ending.Finished? ==> p.finished(OwnAfter(p, s, x.turns, k)))
  }

  /** Another step or the end of the last turn leaves the turns before it as they are. */
  lemma ExtendedKeeps<S, L>(p: Program<S, L>, s: S, turns: seq<Turn<L>>, steps: nat, ending: Ending)
    requires turns != []
    ensures var e, k := Extended(turns, steps, ending), |turns| - 1;
            && e[..k] == turns[..k] && e[k] == turns[k].(steps := turns[k].steps + steps, ending := ending)
            && forall j | 0 <= j < k :: e[j] == turns[j] && OwnAfter(p, s, e, j) == OwnAfter(p, s, turns, j)
  {
    var e, k := Extended(turns, steps, ending), |turns| - 1;
    forall j | 0 <= j < k ensures e[j] == turns[j] && OwnAfter(p, s, e, j) == OwnAfter(p, s, turns, j) {
      assert e[..j] == turns[..j];
    }
  }

  lemma NewTurnKeeps<S, L>(p: Program<S, L>, s: S, turns: seq<Turn<L>>, t: Turn<L>)
    ensures var e := turns + [t];
            && Serial(p, s, e) == Steps(p, Serial(p, s, turns), t.start, t.steps).0
            && OwnAfter(p, s, e, |turns|) == Steps(p, Serial(p, s, turns), t.start, t.steps).1
            && forall j | 0 <= j < |turns| :: OwnAfter(p, s, e, j) == OwnAfter(p, s, turns, j)
  {
    var e := turns + [t];
    assert e[..|turns|] == turns;
    forall j | 0 <= j < |turns| ensures OwnAfter(p, s, e, j) == OwnAfter(p, s, turns, j) {
      assert e[..j] == turns[..j];
    }
  }

  /** The holder's turn ends: it is finished, or it is killed. */
  lemma TurnEnds<S, L>(p: Program<S, L>, s: S, x: System<S, L>, a: Action)
    requires a.who < |x.processes| && Serialised(p, s, x) && x.processes[a.who].Holding?
    requires a.Kill? || p.finished(x.processes[a.who].now)
    ensures Serialised(p, s, Act(p, x, a))
  {
    ExtendedKeeps(p, s, x.turns, 0, if a.Kill? then Killed else Finished);
  }

  lemma StepTaken<S, L>(p: Program<S, L>, s: S, x: System<S, L>, i: nat)
    requires i < |x.processes| && Serialised(p, s, x) && x.processes[i].Holding? && !p.finished(x.processes[i].now)
    ensures Serialised(p, s, Act(p, x, Go(i)))
  {
    var y, k := Act(p, x, Go(i)), |x.turns| - 1;
    ExtendedKeeps(p, s, x.turns, 1, Running);
    var before, last := Serial(p, s, x.turns[..k]), x.turns[k];
    assert Steps(p, before, last.start, last.steps) == (x.shared, x.processes[i].now);
    assert Steps(p, before, last.start, last.steps + 1) == p.step(x.shared, x.processes[i].now);
    assert y.turns[..k] == x.turns[..k] && y.turns[k].steps == last.steps + 1;
  }

  lemma LockTaken<S, L>(p: Program<S, L>, s: S, x: System<S, L>, i: nat)
    requires i < |x.processes| && Serialised(p, s, x) && x.processes[i].Ready? && x.holder.None?
    ensures Serialised(p, s, Act(p, x, Go(i)))
  {
    var y, t := Act(p, x, Go(i)), Turn(i, x.processes[i].start, 0, Running);
    NewTurnKeeps(p, s, x.turns, t);
    assert y.turns == x.turns + [t] && y.shared == Serial(p, s, y.turns);
    assert y.processes[i] == Holding(OwnAfter(p, s, y.turns, |x.turns|));
    forall k | 0 <= k < |y.turns| && y.turns[k].ending.Finished? ensures p.finished(OwnAfter(p, s, y.turns, k)) {
      assert k < |x.turns| && OwnAfter(p, s, y.turns, k) == OwnAfter(p, s, x.turns, k);
    }
  }

  lemma ActSerialised<S, L>(p: Program<S, L>, s: S, x: System<S, L>, a: Action)
    requires a.who < |x.processes| && Serialised(p, s, x)
    ensures Serialised(p, s, Act(p, x, a))
  {
    if x.processes[a.who].Holding? {
      if a.Kill? || p.finished(x.processes[a.who].now) {
        TurnEnds(p, s, x, a);
      } else {
        StepTaken(p, s, x, a.who);
      }
    } else if a.Go? && x.processes[a.who].Ready? && x.holder.None? {
      LockTaken(p, s, x, a.who);
    }
  }

  /** Nobody has been let go yet. */
  predicate AllReady<S, L>(x: System<S, L>) {
    x.holder.None? && x.turns == [] && forall i | 0 <= i < |x.processes| :: x.processes[i].Ready?
  }

  /**
    Any interleaving of the processes, with any of them killed at any point, leaves the shared state
    that the ones that got the lock leave when they run one after the other, in the order they got it.
    Those that did not get it have changed nothing.
   */
  lemma {:induction false} Serialises<S, L>(p: Program<S, L>, x: System<S, L>, actions: seq<Action>)
    requires AllReady(x) && forall a | a in actions :: a.who < |x.processes|
    ensures Serialised(p, x.shared, ActAll(p, x, actions))
  {
    if actions != [] {
      Serialises(p, x, actions[..|actions| - 1]);
      ActSerialised(p, x.shared, ActAll(p, x, actions[..|actions| - 1]), actions[|actions| - 1]);
    }
  }

  /**
    Nobody is turned away for nothing, and nobody waits: after any interleaving, a process that asks gets the
    lock exactly if no process is in its turn, and is told that one is otherwise. A process that is killed, or
    finished, is out of its turn with its next step, and changes nothing by it.
   */
  lemma AskedExactly<S, L>(p: Program<S, L>, x: System<S, L>, actions: seq<Action>, i: nat)
    requires AllReady(x) && (forall a | a in actions :: a.who < |x.processes|) && i < |x.processes|
    ensures var y := ActAll(p, x, actions);
            var free := forall j | 0 <= j < |y.processes| :: !y.processes[j].Holding?;
            && (y.processes[i].Ready? ==>
                  Act(p, y, Go(i)).processes[i] == if free then Holding(y.processes[i].start) else Turned)
            && (!y.processes[i].Holding? ==> Act(p, y, Go(i)).shared == y.shared)
            && Act(p, y, Kill(i)).processes[i] == Ended && Act(p, y, Kill(i)).shared == y.shared
            && (y.processes[i].Holding? && p.finished(y.processes[i].now) ==>
                  Act(p, y, Go(i)).processes[i] == Ended && Act(p, y, Go(i)).shared == y.shared)
            && (y.processes[i].Holding? && !p.finished(y.processes[i].now) ==>
                  (Act(p, y, Go(i)).shared, Act(p, y, Go(i)).processes[i].now)
                  == p.step(y.shared, y.processes[i].now))
  {
    Serialises(p, x, actions);
    var y := ActAll(p, x, actions);
    if y.holder.Some? {
      assert y.processes[y.holder.value].Holding?;
    }
  }

  /** Who gets the lock starts from the state it was made with. */
  ghost predicate StartsAs<S, L>(x: System<S, L>, starts: seq<L>) {
    && |starts| == |x.processes|
    && (forall i | 0 <= i < |starts| :: x.processes[i].Ready? ==> x.processes[i].start == starts[i])
    && (forall t | t in x.turns :: t.who < |starts| && t.start == starts[t.who])
  }

  lemma {:induction false} StartsKept<S, L>(p: Program<S, L>, x: System<S, L>, actions: seq<Action>, starts: seq<L>)
    requires StartsAs(x, starts) && forall a | a in actions :: a.who < |x.processes|
    ensures StartsAs(ActAll(p, x, actions), starts)
  {
    if actions != [] {
      StartsKept(p, x, actions[..|actions| - 1], starts);
    }
  }
}
