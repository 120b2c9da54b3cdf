/** Replication cycles of the daemon and of `btrepl run` under the lock: any interleaving of them is a run. */
module LockedCycles {
  import opened Wrappers
  import opened Protocol
  import opened Safety
  import opened Cycles
  import opened Theorems
  import opened Lock
  import opened Tapes

  /** A cycle on its way: the world it started in, what happens to its commands, and how many it has run. */
  datatype Cycling = Cycling(base: Option<World>, script: seq<Event>, ran: nat)

  function First(script: seq<Event>, n: nat): seq<Event> {
    if n < |script| then script[..n] else script
  }

  /** The world after the first `n` commands. */
  function After(cfg: Config, w: World, script: seq<Event>, n: nat): World {
    if Connected(cfg, w) then Cycle(cfg, w.(tape := Tape(First(script, n), false))).0 else w
  }

  function NextCommand(cfg: Config, w: World, c: Cycling): (World, Cycling) {
    var base := if c.base.Some? then c.base.value else w;
    (After(cfg, base, c.script, c.ran + 1), Cycling(Some(base), c.script, c.ran + 1))
  }

  function CycleProgram(cfg: Config): Program<World, Cycling> {
    Program((w, c) => NextCommand(cfg, w, c), (c: Cycling) => c.ran >= |c.script|)
  }

  function Fresh(script: seq<Event>): Cycling {
    Cycling(None, script, 0)
  }

  lemma {:induction false} StepsOfCycle(cfg: Config, w: World, script: seq<Event>, n: nat)
    ensures Steps(CycleProgram(cfg), w, Fresh(script), n)
            == if n == 0 then (w, Fresh(script)) else (After(cfg, w, script, n), Cycling(Some(w), script, n))
  {
    if n > 0 {
      StepsOfCycle(cfg, w, script, n - 1);
    }
  }

  /** A step is a step: whatever a cycle has run so far, its next step changes at most what one command can. */
  lemma StepIsOneCommand(cfg: Config, w: World, script: seq<Event>, n: nat)
    requires Connected(cfg, w) && n < |script|
    ensures var p := CycleProgram(cfg);
            var (s, c) := Steps(p, w, Fresh(script), n);
            !p.finished(c) && OneCommand(DiskOf(s), DiskOf(p.step(s, c).0))
  {
    StepsOfCycle(cfg, w, script, n);
    AfterOneMore(cfg, w, script, n);
    if n == 0 {
      CycleStill(cfg, w.(tape := Tape(script[..0], false)));
    }
  }

  lemma AfterOneMore(cfg: Config, w: World, script: seq<Event>, n: nat)
    requires Connected(cfg, w) && n < |script|
    ensures OneCommand(DiskOf(Cycle(cfg, w.(tape := Tape(script[..n], false))).0), DiskOf(After(cfg, w, script, n + 1)))
    ensures n > 0 ==> OneCommand(DiskOf(After(cfg, w, script, n)), DiskOf(After(cfg, w, script, n + 1)))
  {
    assert First(script, n) == script[..n] && First(script, n + 1) == script[..n + 1];
    OneMoreCommand(cfg, w, script, n);
  }

  /** What the turns have run of their scripts; a process that was killed before its first command ran nothing. */
  function Scripts(turns: seq<Turn<Cycling>>): seq<seq<Event>> {
    if turns == [] then []
    else
      var last := turns[|turns| - 1];
      Scripts(turns[..|turns| - 1]) + if last.steps == 0 then [] else [First(last.start.script, last.steps)]
  }

  lemma RunOneMore(cfg: Config, w: World, scripts: seq<seq<Event>>, script: seq<Event>)
    requires Connected(cfg, w)
    ensures Run(cfg, w, scripts + [script]) == Cycle(cfg, Run(cfg, w, scripts).(tape := Tape(script, false))).0
  {
    assert (scripts + [script])[..|scripts|] == scripts;
  }

  lemma {:induction false} SerialIsRun(cfg: Config, w: World, turns: seq<Turn<Cycling>>)
    requires Connected(cfg, w) && forall t | t in turns :: t.start == Fresh(t.start.script)
    ensures Serial(CycleProgram(cfg), w, turns) == Run(cfg, w, Scripts(turns))
  {
    if turns != [] {
      var before, last := turns[..|turns| - 1], turns[|turns| - 1];
      SerialIsRun(cfg, w, before);
      StepsOfCycle(cfg, Run(cfg, w, Scripts(before)), last.start.script, last.steps);
      assert last in turns;
      if last.steps == 0 {
        assert Scripts(turns) == Scripts(before);
      } else {
        RunOneMore(cfg, w, Scripts(before), First(last.start.script, last.steps));
      }
    }
  }

  /** The system at the start: one process for each script, none with the lock. */
  function Started(w: World, scripts: seq<seq<Event>>): System<World, Cycling> {
    System(w, seq(|scripts|, i requires 0 <= i < |scripts| => Ready(Fresh(scripts[i]))), None, [])
  }

  /**
    No update is lost: whatever the interleaving of cycles, and whichever are killed, the snapshots on
    all hosts and the cursors are those of a run of the cycles that got the lock, so all that holds of
    runs holds here; the invariant does.
   */
  lemma InterleavingIsRun(cfg: Config, w: World, scripts: seq<seq<Event>>, actions: seq<Action>)
    requires Inv(cfg, w) && ValidConfig(cfg) && forall a | a in actions :: a.who < |scripts|
    ensures var x := ActAll(CycleProgram(cfg), Started(w, scripts), actions);
            && x.shared == Run(cfg, w, Scripts(x.turns)) && Inv(cfg, x.shared)
            && forall t | t in x.turns :: t.who < |scripts| && t.start == Fresh(scripts[t.who])
  {
    var p := CycleProgram(cfg);
    var x0 := Started(w, scripts);
    Serialises(p, x0, actions);
    var starts := seq(|scripts|, i requires 0 <= i < |scripts| => Fresh(scripts[i]));
    StartsKept(p, x0, actions, starts);
    var x := ActAll(p, x0, actions);
    SerialIsRun(cfg, w, x.turns);
    RunSafe(cfg, w, Scripts(x.turns));
  }
}
