/** pkg/simulator/engine.go: the bounded fan-out of RunSimulation as an
    interleaving transition system. One dispatcher takes a semaphore slot per node
    and starts a worker; workers simulate, store their result under a mutex, give
    the slot back and report to the wait group. */
module FanOut {
  import opened Common

  /** Where a node is in its life; the order is the order of the code. */
  datatype Phase = Queued | Acquired | Running | Computed | Locked | Stored | Released | Done
  {
    function Rank(): nat {
      match this
      case Queued => 0
      case Acquired => 1
      case Running => 2
      case Computed => 3
      case Locked => 4
      case Stored => 5
      case Released => 6
      case Done => 7
    }

    /** A slot is held from its acquisition until its release. */
    predicate HoldsSlot() {
      1 <= Rank() <= 5
    }

    /** The wait group counts a worker from its start until it is done. */
    predicate Awaited() {
      2 <= Rank() <= 6
    }

    predicate HasStored() {
      Rank() >= 5
    }

    function Next(): Phase {
      match this
      case Queued => Acquired
      case Acquired => Running
      case Running => Computed
      case Computed => Locked
      case Locked => Stored
      case Stored => Released
      case Released => Done
      case Done => Done
    }
  }

  datatype State<R> = State(phase: map<Id, Phase>, slots: nat, waiting: nat, mutexHeld: bool,
                            results: map<Id, R>, returned: bool)

  /** Either one node moves on by one phase, or the final Wait returns. */
  datatype Action = Move(id: Id) | Return

  function Init<R>(nodes: set<Id>): State<R> {
    State(map id | id in nodes :: Queued, 0, 0, false, map[], false)
  }

  /** The dispatcher is between taking a slot and starting the worker. */
  predicate Dispatching<R>(s: State<R>) {
    exists id :: id in s.phase && s.phase[id] == Acquired
  }

  predicate AllDispatched<R>(s: State<R>) {
    forall id :: id in s.phase ==> s.phase[id].Rank() >= 2
  }

  predicate Enabled<R>(s: State<R>, a: Action, bound: nat) {
    !s.returned &&
    match a
    case Return => AllDispatched(s) && s.waiting == 0
    case Move(id) =>
      id in s.phase &&
      match s.phase[id]
      case Queued => s.slots < bound && !Dispatching(s)
      case Computed => !s.mutexHeld
      case Done => false
      case _ => true
  }

  /** The effect of an action; outcome gives the result of each simulation. */
  function Apply<R>(s: State<R>, a: Action, outcome: map<Id, R>): State<R>
    requires a.Move? ==> a.id in s.phase && a.id in outcome
    requires a.Move? && s.phase[a.id] == Stored ==> s.slots > 0
    requires a.Move? && s.phase[a.id] == Released ==> s.waiting > 0
  {
    match a
    case Return => s.(returned := true)
    case Move(id) =>
      var s' := s.(phase := s.phase[id := s.phase[id].Next()]);
      match s.phase[id]
      case Queued => s'.(slots := s.slots + 1)
      case Acquired => s'.(waiting := s.waiting + 1)
      case Running => s'
      case Computed => s'.(mutexHeld := true)
      case Locked => s'.(mutexHeld := false, results := s.results[id := outcome[id]])
      case Stored => s'.(slots := s.slots - 1)
      case Released => s'.(waiting := s.waiting - 1)
      case Done => s'
  }

  function Holders<R>(s: State<R>): set<Id> {
    set id | id in s.phase && s.phase[id].HoldsSlot()
  }

  function Workers<R>(s: State<R>): set<Id> {
    set id | id in s.phase && s.phase[id].Awaited()
  }

  /** A node has an entry exactly once its worker has stored it. */
  ghost predicate StoredAt<R>(s: State<R>, outcome: map<Id, R>, id: Id) {
    && (id in s.results <==> id in s.phase && s.phase[id].HasStored())
    && (id in s.results ==> id in outcome && s.results[id] == outcome[id])
  }

  ghost predicate CountsHold<R>(s: State<R>, bound: nat) {
    s.slots == |Holders(s)| <= bound && s.waiting == |Workers(s)|
  }

  /** At most one worker is inside the mutex, and the mutex is held for it. */
  ghost predicate OneLocked<R>(s: State<R>) {
    && (forall i, j :: i in s.phase && j in s.phase && s.phase[i] == Locked && s.phase[j] == Locked ==> i == j)
    && (s.mutexHeld <==> exists id :: id in s.phase && s.phase[id] == Locked)
  }

  ghost predicate AllStored<R>(s: State<R>, nodes: set<Id>, outcome: map<Id, R>) {
    (forall id :: id in nodes ==> StoredAt(s, outcome, id)) && s.results.Keys <= nodes
  }

  /** What holds at every moment of every interleaving. */
  ghost predicate Inv<R>(s: State<R>, nodes: set<Id>, bound: nat, outcome: map<Id, R>) {
    && s.phase.Keys == nodes && nodes <= outcome.Keys
    && CountsHold(s, bound) && OneLocked(s) && AllStored(s, nodes, outcome)
    && (s.returned ==> forall id :: id in s.phase ==> s.phase[id] == Done)
  }

  lemma InitInv<R>(nodes: set<Id>, bound: nat, outcome: map<Id, R>)
    requires nodes <= outcome.Keys
    ensures Inv(Init<R>(nodes), nodes, bound, outcome)
  {
    assert Holders(Init<R>(nodes)) == {};
    assert Workers(Init<R>(nodes)) == {};
  }

  /** Slots are taken on leaving Queued and given back on leaving Stored; the wait
      group counts from Acquired to Released. */
  lemma NextPhase(p: Phase)
    ensures p.Next().HoldsSlot() <==> p == Queued || (p.HoldsSlot() && p != Stored)
    ensures p.Next().Awaited() <==> p == Acquired || (p.Awaited() && p != Released)
    ensures (p == Queued ==> !p.HoldsSlot()) && (p == Stored ==> p.HoldsSlot())
    ensures (p == Acquired ==> !p.Awaited()) && (p == Released ==> p.Awaited())
  {
  }

  /** Moving one node changes the set of slot holders by that node at most. */
  lemma HoldersAfter<R>(s: State<R>, id: Id, s': State<R>)
    requires id in s.phase && s'.phase == s.phase[id := s.phase[id].Next()]
    ensures |Holders(s')| - |Holders(s)| ==
            (if s.phase[id] == Queued then 1 else if s.phase[id] == Stored then -1 else 0)
  {
    NextPhase(s.phase[id]);
    hide Phase.Next, Phase.HoldsSlot;
    OneElement(Holders(s), Holders(s'), id);
  }

  lemma WorkersAfter<R>(s: State<R>, id: Id, s': State<R>)
    requires id in s.phase && s'.phase == s.phase[id := s.phase[id].Next()]
    ensures |Workers(s')| - |Workers(s)| ==
            (if s.phase[id] == Acquired then 1 else if s.phase[id] == Released then -1 else 0)
  {
    NextPhase(s.phase[id]);
    hide Phase.Next, Phase.Awaited;
    OneElement(Workers(s), Workers(s'), id);
  }

  /** The counters allow every enabled action. */
  lemma CountersSuffice<R>(s: State<R>, id: Id, nodes: set<Id>, bound: nat, outcome: map<Id, R>)
    requires Inv(s, nodes, bound, outcome) && id in s.phase
    ensures s.phase[id].HoldsSlot() ==> s.slots > 0
    ensures s.phase[id].Awaited() ==> s.waiting > 0
  {
    if s.phase[id].HoldsSlot() {
      assert id in Holders(s);
    }
    if s.phase[id].Awaited() {
      assert id in Workers(s);
    }
  }

  lemma StepInv<R>(s: State<R>, a: Action, nodes: set<Id>, bound: nat, outcome: map<Id, R>)
    requires Inv(s, nodes, bound, outcome) && Enabled(s, a, bound)
    ensures a.Move? && s.phase[a.id] == Stored ==> s.slots > 0
    ensures a.Move? && s.phase[a.id] == Released ==> s.waiting > 0
    ensures Inv(Apply(s, a, outcome), nodes, bound, outcome)
  {
    match a
    case Return => AllDoneAtReturn(s, nodes, bound, outcome);
    case Move(id) => MoveInv(s, id, nodes, bound, outcome);
  }

  /** The wait group is at zero only when every dispatched worker is done. */
  lemma AllDoneAtReturn<R>(s: State<R>, nodes: set<Id>, bound: nat, outcome: map<Id, R>)
    requires Inv(s, nodes, bound, outcome) && AllDispatched(s) && s.waiting == 0
    ensures forall id :: id in s.phase ==> s.phase[id] == Done
  {
    forall id | id in s.phase
      ensures s.phase[id] == Done
    {
      CountersSuffice(s, id, nodes, bound, outcome);
    }
  }

  lemma MoveInv<R>(s: State<R>, id: Id, nodes: set<Id>, bound: nat, outcome: map<Id, R>)
    requires Inv(s, nodes, bound, outcome) && Enabled(s, Move(id), bound)
    ensures s.phase[id] == Stored ==> s.slots > 0
    ensures s.phase[id] == Released ==> s.waiting > 0
    ensures Inv(Apply(s, Move(id), outcome), nodes, bound, outcome)
  {
    hide CountsHold, OneLocked, AllStored;
    CountersSuffice(s, id, nodes, bound, outcome);
    CountsAfter(s, id, bound, outcome);
    MutexAfter(s, id, bound, outcome);
    StoredAfter(s, id, nodes, bound, outcome);
  }

  lemma CountsAfter<R>(s: State<R>, id: Id, bound: nat, outcome: map<Id, R>)
    requires CountsHold(s, bound) && Enabled(s, Move(id), bound) && id in outcome
    requires s.phase[id] == Stored ==> s.slots > 0
    requires s.phase[id] == Released ==> s.waiting > 0
    ensures CountsHold(Apply(s, Move(id), outcome), bound)
  {
    hide Holders, Workers, Dispatching;
    var s' := Apply(s, Move(id), outcome);
    HoldersAfter(s, id, s');
    WorkersAfter(s, id, s');
  }

  lemma StoredAfter<R>(s: State<R>, id: Id, nodes: set<Id>, bound: nat, outcome: map<Id, R>)
    requires AllStored(s, nodes, outcome) && s.phase.Keys == nodes <= outcome.Keys && Enabled(s, Move(id), bound)
    requires s.phase[id] == Stored ==> s.slots > 0
    requires s.phase[id] == Released ==> s.waiting > 0
    ensures AllStored(Apply(s, Move(id), outcome), nodes, outcome)
  {
    var s' := Apply(s, Move(id), outcome);
    forall i | i in nodes
      ensures StoredAt(s', outcome, i)
    {
      assert StoredAt(s, outcome, i);
    }
  }

  lemma MutexAfter<R>(s: State<R>, id: Id, bound: nat, outcome: map<Id, R>)
    requires OneLocked(s) && Enabled(s, Move(id), bound) && id in outcome
    requires s.phase[id] == Stored ==> s.slots > 0
    requires s.phase[id] == Released ==> s.waiting > 0
    ensures OneLocked(Apply(s, Move(id), outcome))
  {
    var s' := Apply(s, Move(id), outcome);
    if s.phase[id] == Computed {
      assert s'.phase[id] == Locked;
    } else if s'.mutexHeld {
      var i :| i in s.phase && s.phase[i] == Locked;
      assert s'.phase[i] == Locked;
    }
  }

  /** A run from the initial state, or None when some action was not enabled. */
  function Run<R>(nodes: set<Id>, bound: nat, outcome: map<Id, R>, acts: seq<Action>): (r: Option<State<R>>)
    requires nodes <= outcome.Keys
    ensures r.Some? ==> Inv(r.value, nodes, bound, outcome)
  {
    if |acts| == 0 then
      InitInv(nodes, bound, outcome);
      Some(Init(nodes))
    else
      var before := Run(nodes, bound, outcome, acts[..|acts| - 1]);
      var a := acts[|acts| - 1];
      if before.Some? && Enabled(before.value, a, bound) then
        StepInv(before.value, a, nodes, bound, outcome);
        Some(Apply(before.value, a, outcome))
      else None
  }

  /** In every interleaving at most bound simulations are in flight. */
  lemma BoundedInFlight<R>(nodes: set<Id>, bound: nat, outcome: map<Id, R>, acts: seq<Action>)
    requires nodes <= outcome.Keys && Run(nodes, bound, outcome, acts).Some?
    ensures var s := Run(nodes, bound, outcome, acts).value;
      |set id | id in s.phase && s.phase[id] == Running| <= bound
  {
    var s := Run(nodes, bound, outcome, acts).value;
    SubsetSize((set id | id in s.phase && s.phase[id] == Running), Holders(s));
  }

  /** When Wait returns, the result map has exactly one entry per node, the same
      as the sequential loop would leave. */
  lemma ResultsComplete<R>(nodes: set<Id>, bound: nat, outcome: map<Id, R>, acts: seq<Action>)
    requires nodes <= outcome.Keys && Run(nodes, bound, outcome, acts).Some?
    requires Run(nodes, bound, outcome, acts).value.returned
    ensures Run(nodes, bound, outcome, acts).value.results == map id | id in nodes :: outcome[id]
  {
    hide Run, Inv;
    ReturnedComplete(Run(nodes, bound, outcome, acts).value, nodes, bound, outcome);
  }

  lemma ReturnedComplete<R>(s: State<R>, nodes: set<Id>, bound: nat, outcome: map<Id, R>)
    requires Inv(s, nodes, bound, outcome) && s.returned
    ensures s.results == map id | id in nodes :: outcome[id]
  {
    hide Holders, Workers;
    forall id | id in nodes
      ensures id in s.results && s.results[id] == outcome[id]
    {
      assert StoredAt(s, outcome, id);
    }
  }

  /** No deadlock: with a positive bound some action is enabled until Wait has
      returned. With bound 0 the first send blocks for ever, unless there is no
      node at all. */
  lemma ProgressIffSlots<R>(nodes: set<Id>, bound: nat, outcome: map<Id, R>)
    requires nodes <= outcome.Keys
    ensures (forall acts :: AbleToMove(nodes, bound, outcome, acts)) <==> bound >= 1 || nodes == {}
  {
    if bound >= 1 || nodes == {} {
      forall acts
        ensures AbleToMove(nodes, bound, outcome, acts)
      {
        if Run(nodes, bound, outcome, acts).Some? && !Run(nodes, bound, outcome, acts).value.returned {
          var a := SomeEnabled(Run(nodes, bound, outcome, acts).value, nodes, bound, outcome);
        }
      }
    } else {
      var id :| id in nodes;
      var s := Init<R>(nodes);
      assert Run(nodes, bound, outcome, []) == Some(s);
      assert s.phase[id].Rank() == 0;
      assert !AbleToMove(nodes, bound, outcome, []);
    }
  }

  /** After acts, if they form a run that has not returned, something can happen. */
  ghost predicate AbleToMove<R>(nodes: set<Id>, bound: nat, outcome: map<Id, R>, acts: seq<Action>)
    requires nodes <= outcome.Keys
  {
    var r := Run(nodes, bound, outcome, acts);
    r.Some? && !r.value.returned ==> exists a :: Enabled(r.value, a, bound)
  }

  lemma SomeEnabled<R>(s: State<R>, nodes: set<Id>, bound: nat, outcome: map<Id, R>) returns (a: Action)
    requires Inv(s, nodes, bound, outcome) && !s.returned && (bound >= 1 || nodes == {})
    ensures Enabled(s, a, bound)
  {
    hide StoredAt;
    if s.mutexHeld {
      var id :| id in s.phase && s.phase[id] == Locked;
      return Move(id);
    }
    if id :| id in s.phase && s.phase[id] != Queued && s.phase[id] != Done {
      return Move(id);
    }
    assert Holders(s) == {} && Workers(s) == {};
    if id :| id in s.phase && s.phase[id] == Queued {
      return Move(id);
    }
    a := Return;
  }

  /** Steps each node still has ahead of it. */
  ghost function Left(phase: map<Id, Phase>): map<Id, real> {
    map id | id in phase :: (7 - phase[id].Rank()) as real
  }

  /** Steps a state still has ahead of it. */
  ghost function StepsLeft<R>(s: State<R>): real {
    Sum(Left(s.phase)) + (if s.returned then 0.0 else 1.0)
  }

  lemma LeftAfterMove(phase: map<Id, Phase>, id: Id)
    requires id in phase && phase[id] != Done
    ensures Sum(Left(phase[id := phase[id].Next()])) == Sum(Left(phase)) - 1.0
  {
    var m, m' := Left(phase), Left(phase[id := phase[id].Next()]);
    assert phase[id].Next().Rank() == phase[id].Rank() + 1;
    SumExtract(m, id);
    SumExtract(m', id);
    assert m - {id} == m' - {id};
  }

  lemma StepCounts<R>(s: State<R>, a: Action, bound: nat, outcome: map<Id, R>)
    requires Enabled(s, a, bound) && (a.Move? ==> a.id in outcome)
    requires a.Move? && s.phase[a.id] == Stored ==> s.slots > 0
    requires a.Move? && s.phase[a.id] == Released ==> s.waiting > 0
    ensures StepsLeft(Apply(s, a, outcome)) == StepsLeft(s) - 1.0
  {
    if a.Move? {
      LeftAfterMove(s.phase, a.id);
      assert Apply(s, a, outcome).phase == s.phase[a.id := s.phase[a.id].Next()];
    }
  }

  /** Termination: no interleaving is longer than 7 steps per node and the final
      return, and one that has returned took exactly that many. */
  lemma {:induction false} RunLength<R>(nodes: set<Id>, bound: nat, outcome: map<Id, R>, acts: seq<Action>)
    requires nodes <= outcome.Keys && Run(nodes, bound, outcome, acts).Some?
    ensures |acts| as real + StepsLeft(Run(nodes, bound, outcome, acts).value) == |nodes| as real * 7.0 + 1.0
  {
    if |acts| == 0 {
      var m := Left(Init<R>(nodes).phase);
      SumBounds(m, 7.0, 7.0);
      MultipleIsProduct(|m|, 7.0);
      assert m.Keys == nodes;
      assert |m| == |m.Keys|;
    } else {
      var before := acts[..|acts| - 1];
      RunLength(nodes, bound, outcome, before);
      var s := Run(nodes, bound, outcome, before).value;
      StepInv(s, acts[|acts| - 1], nodes, bound, outcome);
      StepCounts(s, acts[|acts| - 1], bound, outcome);
    }
  }

  lemma StepsLeftBounds<R>(s: State<R>, nodes: set<Id>, bound: nat, outcome: map<Id, R>)
    requires Inv(s, nodes, bound, outcome)
    ensures if s.returned then StepsLeft(s) == 0.0 else StepsLeft(s) >= 1.0
  {
    hide Holders, Workers, StoredAt;
    var m := Left(s.phase);
    MultipleIsProduct(|m|, 0.0);
    SumBounds(m, 0.0, 7.0);
    if s.returned {
      SumBounds(m, 0.0, 0.0);
    }
  }

  lemma CompletedRunLength<R>(nodes: set<Id>, bound: nat, outcome: map<Id, R>, acts: seq<Action>)
    requires nodes <= outcome.Keys && Run(nodes, bound, outcome, acts).Some?
    ensures |acts| <= 7 * |nodes| + 1
    ensures Run(nodes, bound, outcome, acts).value.returned <==> |acts| == 7 * |nodes| + 1
  {
    hide Run, Inv, StepsLeft;
    var s := Run(nodes, bound, outcome, acts).value;
    RunLength(nodes, bound, outcome, acts);
    StepsLeftBounds(s, nodes, bound, outcome);
    assert |nodes| as real * 7.0 == (7 * |nodes|) as real;
  }
}
