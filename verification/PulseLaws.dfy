/** PLS and PLF over any run of executions: the edge memory is an independent boolean per program step. */
module PulseLaws {
  import opened Ladder

  /** One execution of a pulse coil: its program step, the rung there, and PLF or PLS. */
  datatype Execution = Execution(step: nat, rung: bool, falling: bool)

  predicate InProgram(es: seq<Execution>) {
    forall i :: 0 <= i < |es| ==> es[i].step < PROGRAM_STEPS
  }

  /** The edge memory after a run that started with the first scan. */
  function EdgesAfter(es: seq<Execution>): set<nat> {
    if es == [] then {}
    else
      var e := es[|es| - 1];
      PulseEdge(EdgesAfter(es[..|es| - 1]), e.step, e.rung, e.falling).1
  }

  /** Whether the last execution of the run pulsed. */
  predicate Fired(es: seq<Execution>)
    requires es != []
  {
    var e := es[|es| - 1];
    PulseEdge(EdgesAfter(es[..|es| - 1]), e.step, e.rung, e.falling).0
  }

  /** The rungs seen at one step, in order. */
  function Rungs(es: seq<Execution>, step: nat): seq<bool> {
    if es == [] then []
    else
      var e := es[|es| - 1];
      Rungs(es[..|es| - 1], step) + (if e.step == step then [e.rung] else [])
  }

  predicate Last(rungs: seq<bool>) { rungs != [] && rungs[|rungs| - 1] }

  /** Each step remembers its own last rung, whatever other steps do in between. */
  lemma {:induction false} EdgeMemory(es: seq<Execution>, step: nat)
    requires InProgram(es) && step < PROGRAM_STEPS
    ensures step in EdgesAfter(es) <==> Last(Rungs(es, step))
  {
    if es != [] {
      EdgeMemory(es[..|es| - 1], step);
    }
  }

  /** A coil pulses exactly on its rung's edge against its own previous execution. */
  lemma PulseIsEdge(es: seq<Execution>)
    requires InProgram(es) && es != []
    ensures var e := es[|es| - 1];
            var before := Last(Rungs(es[..|es| - 1], e.step));
            Fired(es) == (if e.falling then before && !e.rung else e.rung && !before)
  {
    EdgeMemory(es[..|es| - 1], es[|es| - 1].step);
  }

  /** How often the coil at a step pulsed. */
  function Pulses(es: seq<Execution>, step: nat): nat {
    if es == [] then 0
    else Pulses(es[..|es| - 1], step) + (if es[|es| - 1].step == step && Fired(es) then 1 else 0)
  }

  function Rises(rungs: seq<bool>): nat {
    if rungs == [] then 0
    else
      var n := |rungs| - 1;
      Rises(rungs[..n]) + (if rungs[n] && !Last(rungs[..n]) then 1 else 0)
  }

  function Falls(rungs: seq<bool>): nat {
    if rungs == [] then 0
    else
      var n := |rungs| - 1;
      Falls(rungs[..n]) + (if !rungs[n] && Last(rungs[..n]) then 1 else 0)
  }

  predicate Kind(es: seq<Execution>, step: nat, falling: bool) {
    forall i :: 0 <= i < |es| && es[i].step == step ==> es[i].falling == falling
  }

  lemma {:induction false} PulsesCountEdges(es: seq<Execution>, step: nat, falling: bool)
    requires InProgram(es) && step < PROGRAM_STEPS && Kind(es, step, falling)
    ensures Pulses(es, step) == (if falling then Falls(Rungs(es, step)) else Rises(Rungs(es, step)))
  {
    if es != [] {
      var n := |es| - 1;
      PulsesCountEdges(es[..n], step, falling);
      if es[n].step == step {
        PulseIsEdge(es);
        assert Rungs(es, step)[..|Rungs(es, step)| - 1] == Rungs(es[..n], step);
      } else {
        assert Rungs(es, step) == Rungs(es[..n], step);
      }
    }
  }

  lemma {:induction false} RisesMinusFalls(rungs: seq<bool>)
    ensures Rises(rungs) - Falls(rungs) == (if Last(rungs) then 1 else 0)
  {
    if rungs != [] {
      RisesMinusFalls(rungs[..|rungs| - 1]);
    }
  }

  /** A PLS and a PLF on the same rung balance: their pulses differ by one exactly while the rung is on. */
  lemma PulsesBalance(es: seq<Execution>, p: nat, q: nat)
    requires InProgram(es) && p < PROGRAM_STEPS && q < PROGRAM_STEPS
    requires Kind(es, p, false) && Kind(es, q, true) && Rungs(es, p) == Rungs(es, q)
    ensures Pulses(es, p) - Pulses(es, q) == (if Last(Rungs(es, p)) then 1 else 0)
  {
    PulsesCountEdges(es, p, false);
    PulsesCountEdges(es, q, true);
    RisesMinusFalls(Rungs(es, p));
  }

  /** A coil never pulses in two consecutive executions. */
  lemma NeverTwice(es: seq<Execution>, between: seq<Execution>, again: Execution)
    requires es != [] && again.step == es[|es| - 1].step && again.falling == es[|es| - 1].falling
    requires InProgram(es + between + [again])
    requires forall i :: 0 <= i < |between| ==> between[i].step != again.step
    requires Fired(es)
    ensures !Fired(es + between + [again])
  {
    var all := es + between + [again];
    assert InProgram(es) by {
      forall i | 0 <= i < |es| ensures es[i].step < PROGRAM_STEPS { assert all[i] == es[i]; }
    }
    assert all[..|all| - 1] == es + between;
    assert all[|all| - 1] == again;
    PulseIsEdge(es);
    PulseIsEdge(all);
    RungsSkip(es, between, again.step);
  }

  lemma {:induction false} RungsSkip(es: seq<Execution>, between: seq<Execution>, step: nat)
    requires forall i :: 0 <= i < |between| ==> between[i].step != step
    ensures Rungs(es + between, step) == Rungs(es, step)
    decreases |between|
  {
    if between == [] {
      assert es + between == es;
    } else {
      var n := |between| - 1;
      assert (es + between)[..|es + between| - 1] == es + between[..n];
      RungsSkip(es, between[..n], step);
    }
  }
}
