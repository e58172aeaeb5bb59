/** Stabilization converges, however the rounds of different members overlap. */
module Phases {
  import opened Wrappers
  import opened Ring
  import opened Paths
  import opened ChordNodes
  import opened Protocol
  import opened RingShape
  import opened Convergence

  /** n's request reaches s, and the reply that s then gives reaches n. */
  ghost predicate Asked(st: State, acts: seq<Action>, n: Id, s: Id)
    requires Shaped(st) && IsRun(st, acts)
    decreases |acts|
  {
    acts != [] &&
    ((acts[0] == Deliver(GetPred(n, s)) && Deliver(PredReply(s, n, PredOf(st.pred, s))) in acts[1..])
     || Asked(Next(st, acts[0]), acts[1..], n, s))
  }

  /** The messages of n's round to s are delivered, in any order and among any other actions. */
  ghost predicate Answered(st: State, acts: seq<Action>, n: Id, s: Id)
    requires Shaped(st) && IsRun(st, acts)
  {
    s == n || (Deliver(Notify(n, s)) in acts && Asked(st, acts, n, s))
  }

  /** Somewhere in the run n starts a round, and its messages are delivered. */
  ghost predicate Served(st: State, acts: seq<Action>, n: Id)
    requires Shaped(st) && IsRun(st, acts)
    decreases |acts|
  {
    acts != [] &&
    ((acts[0] == Stabilize(n) && Answered(Next(st, acts[0]), acts[1..], n, st.succ[n]))
     || Served(Next(st, acts[0]), acts[1..], n))
  }

  /** A steady run in which every member has a round of its own; the rounds may overlap in any way. */
  ghost predicate IsPhase(st: State, acts: seq<Action>)
    requires Shaped(st)
  {
    && IsRun(st, acts) && AllSteady(acts)
    && forall n {:trigger Served(st, acts, n)} :: n in st.succ ==> Served(st, acts, n)
  }

  // ----- a run that leaves the potential alone

  ghost predicate IdleRun(st: State, acts: seq<Action>, creator: Id) {
    Inv(st, creator) && IsRun(st, acts) && AllSteady(acts) && Potential(Exec(st, acts)) == Potential(st)
  }

  lemma IdleHead(st: State, acts: seq<Action>, creator: Id)
    requires IdleRun(st, acts, creator) && acts != []
    ensures SamePointers(st, Next(st, acts[0])) && IdleRun(Next(st, acts[0]), acts[1..], creator)
  {
    SteadyStep(st, acts[0], creator);
    RunPotential(Next(st, acts[0]), acts[1..], creator);
  }

  /** Being told by n would not change s. */
  ghost predicate Told(st: State, n: Id, s: Id)
    requires Shaped(st) && s in st.succ
  {
    OnNotify(NodeAt(st, s), n) == NodeAt(st, s)
  }

  /** The reply p from s would not change n. */
  ghost predicate Heard(st: State, n: Id, s: Id, p: Option<Id>)
    requires Shaped(st) && n in st.succ
  {
    OnPredReply(NodeAt(st, n), s, p) == NodeAt(st, n)
  }

  lemma ToldHere(st: State, n: Id, s: Id)
    requires Shaped(st) && Enabled(st, Deliver(Notify(n, s))) && SamePointers(st, Next(st, Deliver(Notify(n, s))))
    ensures Told(st, n, s)
  {
    var taken := st.(net := st.net - multiset{Notify(n, s)});
    assert PredOf(Handle(taken, Notify(n, s)).pred, s) == OnNotify(NodeAt(taken, s), n).pred;
  }

  lemma HeardHere(st: State, n: Id, s: Id, p: Option<Id>)
    requires Shaped(st) && Enabled(st, Deliver(PredReply(s, n, p)))
    requires SamePointers(st, Next(st, Deliver(PredReply(s, n, p))))
    ensures Heard(st, n, s, p)
  {
    var taken := st.(net := st.net - multiset{PredReply(s, n, p)});
    assert Handle(taken, PredReply(s, n, p)).succ[n] == OnPredReply(NodeAt(taken, n), s, p).succ;
  }

  lemma SameTold(st: State, st': State, n: Id, s: Id)
    requires Shaped(st) && Shaped(st') && SamePointers(st, st') && s in st.succ && Told(st', n, s)
    ensures Told(st, n, s)
  {
  }

  lemma SameHeard(st: State, st': State, n: Id, s: Id, p: Option<Id>)
    requires Shaped(st) && Shaped(st') && SamePointers(st, st') && n in st.succ && Heard(st', n, s, p)
    ensures Heard(st, n, s, p)
  {
  }

  lemma {:induction false} IdleTold(st: State, acts: seq<Action>, creator: Id, n: Id, s: Id)
    requires IdleRun(st, acts, creator) && Deliver(Notify(n, s)) in acts && s in st.succ
    ensures Told(st, n, s)
    decreases |acts|
  {
    IdleHead(st, acts, creator);
    if acts[0] == Deliver(Notify(n, s)) {
      ToldHere(st, n, s);
    } else {
      IdleTold(Next(st, acts[0]), acts[1..], creator, n, s);
      SameTold(st, Next(st, acts[0]), n, s);
    }
  }

  lemma {:induction false} IdleHeard(st: State, acts: seq<Action>, creator: Id, n: Id, s: Id, p: Option<Id>)
    requires IdleRun(st, acts, creator) && Deliver(PredReply(s, n, p)) in acts && n in st.succ
    ensures Heard(st, n, s, p)
    decreases |acts|
  {
    IdleHead(st, acts, creator);
    if acts[0] == Deliver(PredReply(s, n, p)) {
      HeardHere(st, n, s, p);
    } else {
      IdleHeard(Next(st, acts[0]), acts[1..], creator, n, s, p);
      SameHeard(st, Next(st, acts[0]), n, s, p);
    }
  }

  lemma {:induction false} IdleAsked(st: State, acts: seq<Action>, creator: Id, n: Id, s: Id)
    requires IdleRun(st, acts, creator) && Asked(st, acts, n, s) && n in st.succ
    ensures Heard(st, n, s, PredOf(st.pred, s))
    decreases |acts|
  {
    var st' := Next(st, acts[0]);
    IdleHead(st, acts, creator);
    if acts[0] == Deliver(GetPred(n, s)) && Deliver(PredReply(s, n, PredOf(st.pred, s))) in acts[1..] {
      IdleHeard(st', acts[1..], creator, n, s, PredOf(st.pred, s));
    } else {
      IdleAsked(st', acts[1..], creator, n, s);
    }
    SameHeard(st, st', n, s, PredOf(st.pred, s));
  }

  lemma IdleAnswered(st: State, acts: seq<Action>, creator: Id, n: Id)
    requires IdleRun(st, acts, creator) && n in st.succ && st.succ[n] in st.succ
    requires Answered(st, acts, n, st.succ[n])
    ensures Settled(st, n)
  {
    var s := st.succ[n];
    if s != n {
      IdleTold(st, acts, creator, n, s);
      IdleAsked(st, acts, creator, n, s);
    }
  }

  lemma SettledSame(st: State, st': State, n: Id)
    requires Shaped(st) && Shaped(st') && SamePointers(st, st')
    requires n in st.succ && st.succ[n] in st.succ && Settled(st', n)
    ensures Settled(st, n)
  {
  }

  /** A member whose round is delivered in an idle run was settled. */
  lemma {:induction false} IdleServed(st: State, acts: seq<Action>, creator: Id, n: Id)
    requires IdleRun(st, acts, creator) && Served(st, acts, n) && n in st.succ
    ensures st.succ[n] in st.succ && Settled(st, n)
    decreases |acts|
  {
    assert Follow(st.succ, n) in st.succ;
    var st' := Next(st, acts[0]);
    IdleHead(st, acts, creator);
    if acts[0] == Stabilize(n) && Answered(st', acts[1..], n, st.succ[n]) {
      IdleAnswered(st', acts[1..], creator, n);
    } else {
      IdleServed(st', acts[1..], creator, n);
    }
    SettledSame(st, st', n);
  }

  /** A phase that changes no pointer starts from an ideal ring. */
  lemma IdlePhaseIdeal(st: State, acts: seq<Action>, creator: Id)
    requires IdleRun(st, acts, creator) && IsPhase(st, acts)
    ensures IdealRing(st)
  {
    forall n | n in st.succ ensures Follow(st.succ, n) in st.succ && Settled(st, n) {
      assert Served(st, acts, n);
      IdleServed(st, acts, creator, n);
    }
    QuiescentIsIdeal(st, creator);
  }

  // ----- runs of many phases

  ghost predicate ArePhases(st: State, phases: seq<seq<Action>>)
    requires Shaped(st)
    decreases |phases|
  {
    phases == [] || (IsPhase(st, phases[0]) && ArePhases(Exec(st, phases[0]), phases[1..]))
  }

  ghost function AfterPhases(st: State, phases: seq<seq<Action>>): (st': State)
    requires Shaped(st) && ArePhases(st, phases)
    ensures Shaped(st')
    decreases |phases|
  {
    if phases == [] then st else AfterPhases(Exec(st, phases[0]), phases[1..])
  }

  lemma PhaseStep(st: State, acts: seq<Action>, creator: Id)
    requires Inv(st, creator) && IsPhase(st, acts)
    ensures Inv(Exec(st, acts), creator) && Exec(st, acts).succ.Keys == st.succ.Keys
    ensures Potential(Exec(st, acts)) <= Potential(st)
    ensures IdealRing(st) ==> IdealRing(Exec(st, acts))
  {
    RunInv(st, acts, creator);
    RunPotential(st, acts, creator);
    if IdealRing(st) { IdealRun(st, acts, creator); }
  }

  lemma {:induction false} PhasesInv(st: State, phases: seq<seq<Action>>, creator: Id)
    requires Inv(st, creator) && ArePhases(st, phases)
    ensures Inv(AfterPhases(st, phases), creator) && AfterPhases(st, phases).succ.Keys == st.succ.Keys
    ensures IdealRing(st) ==> IdealRing(AfterPhases(st, phases))
    decreases |phases|
  {
    if phases != [] {
      PhaseStep(st, phases[0], creator);
      PhasesInv(Exec(st, phases[0]), phases[1..], creator);
    }
  }

  lemma {:induction false} PhasesConverge(st: State, phases: seq<seq<Action>>, creator: Id)
    requires Inv(st, creator) && ArePhases(st, phases) && |phases| > Potential(st)
    ensures IdealRing(AfterPhases(st, phases))
    decreases |phases|
  {
    PhaseStep(st, phases[0], creator);
    if Potential(Exec(st, phases[0])) == Potential(st) {
      IdlePhaseIdeal(st, phases[0], creator);
      PhasesInv(Exec(st, phases[0]), phases[1..], creator);
    } else {
      PhasesConverge(Exec(st, phases[0]), phases[1..], creator);
    }
  }

  /** From every reachable state, with old messages still under way, any steady run made of more than 2k(k-1) phases, in
      each of which the rounds of all members overlap with each other and with anything else, ends in the ideal ring. */
  lemma Converges(creator: Id, st: State, phases: seq<seq<Action>>)
    requires Reachable(creator, st) && ArePhases(st, phases)
    requires |phases| > MaxChanges(|st.succ.Keys|)
    ensures IdealRing(AfterPhases(st, phases))
  {
    ReachableInv(creator, st);
    PotentialBound(st);
    PhasesConverge(st, phases, creator);
  }

  // ----- phases exist

  ghost predicate Serves(st: State, acts: seq<Action>, todo: set<Id>)
    requires Shaped(st)
  {
    IsRun(st, acts) && AllSteady(acts) && forall n {:trigger Served(st, acts, n)} :: n in todo ==> Served(st, acts, n)
  }

  lemma ServesFirst(st: State, a: Action, rest: seq<Action>, todo: set<Id>)
    requires Shaped(st) && Enabled(st, a) && Steady(a) && Serves(Next(st, a), rest, todo)
    ensures Serves(st, [a] + rest, todo)
  {
    ConsRun(st, a, rest);
    assert ([a] + rest)[1..] == rest;
    forall n | n in todo ensures Served(st, [a] + rest, n) {
      assert Served(Next(st, a), rest, n);
    }
  }

  ghost function AfterAsk(st: State, n: Id, s: Id): (st': State)
    requires Shaped(st) && n in st.succ && s in st.succ && GetPred(n, s) in st.net
    ensures Shaped(st')
  {
    Next(Next(st, Deliver(GetPred(n, s))), Deliver(PredReply(s, n, PredOf(st.pred, s))))
  }

  lemma AfterAskInv(st: State, n: Id, s: Id, creator: Id)
    requires Inv(st, creator) && n in st.succ && s in st.succ && GetPred(n, s) in st.net
    ensures Inv(AfterAsk(st, n, s), creator) && AfterAsk(st, n, s).succ.Keys == st.succ.Keys
  {
    PotentialStep(st, Deliver(GetPred(n, s)), creator);
    PotentialStep(Next(st, Deliver(GetPred(n, s))), Deliver(PredReply(s, n, PredOf(st.pred, s))), creator);
  }

  /** The request and the reply of n's round to s, and then the rest. */
  lemma AskFirst(st: State, n: Id, s: Id, rest: seq<Action>, todo: set<Id>) returns (acts: seq<Action>)
    requires Shaped(st) && n in st.succ && s in st.succ && GetPred(n, s) in st.net
    requires Serves(AfterAsk(st, n, s), rest, todo)
    ensures Serves(st, acts, todo) && Asked(st, acts, n, s)
  {
    var ask, reply := Deliver(GetPred(n, s)), Deliver(PredReply(s, n, PredOf(st.pred, s)));
    ServesFirst(Next(st, ask), reply, rest, todo);
    ServesFirst(st, ask, [reply] + rest, todo);
    acts := [ask] + ([reply] + rest);
    assert acts[1..] == [reply] + rest;
  }

  /** The notification of n's round to s, and then its request and reply and the rest. */
  lemma AnswerFirst(st: State, n: Id, s: Id, rest: seq<Action>, todo: set<Id>) returns (acts: seq<Action>)
    requires Shaped(st) && Enabled(st, Deliver(Notify(n, s)))
    requires Serves(Next(st, Deliver(Notify(n, s))), rest, todo) && Asked(Next(st, Deliver(Notify(n, s))), rest, n, s)
    ensures Serves(st, acts, todo) && Answered(st, acts, n, s)
  {
    ServesFirst(st, Deliver(Notify(n, s)), rest, todo);
    acts := [Deliver(Notify(n, s))] + rest;
    assert acts[1..] == rest;
  }

  lemma Delivered(st: State, n: Id, s: Id)
    requires Shaped(st) && n in st.succ && s in st.succ && Notify(n, s) in st.net && GetPred(n, s) in st.net
    ensures var told := Next(st, Deliver(Notify(n, s)));
            n in told.succ && s in told.succ && GetPred(n, s) in told.net
  {
  }

  /** Any set of members can be served. */
  lemma {:induction false} ServeRun(st: State, creator: Id, todo: set<Id>) returns (acts: seq<Action>)
    requires Inv(st, creator) && todo <= st.succ.Keys
    ensures Serves(st, acts, todo)
    decreases todo, 0
  {
    if todo == {} {
      acts := [];
    } else {
      var x := Pick(todo);
      var st1 := Next(st, Stabilize(x));
      var s := Follow(st.succ, x);
      var rest;
      PotentialStep(st, Stabilize(x), creator);
      if s == x {
        rest := ServeRun(st1, creator, todo - {x});
      } else {
        rest := ServeAnswers(st1, creator, todo - {x}, x, s);
      }
      ServesFirst(st, Stabilize(x), rest, todo - {x});
      acts := [Stabilize(x)] + rest;
      assert acts[1..] == rest;
      assert Served(st, acts, x);
    }
  }

  lemma {:induction false} ServeAnswers(st: State, creator: Id, todo: set<Id>, n: Id, s: Id)
    returns (acts: seq<Action>)
    requires Inv(st, creator) && todo <= st.succ.Keys && n in st.succ && s in st.succ
    requires Notify(n, s) in st.net && GetPred(n, s) in st.net
    ensures Serves(st, acts, todo) && Answered(st, acts, n, s)
    decreases todo, 1
  {
    var told := Next(st, Deliver(Notify(n, s)));
    Delivered(st, n, s);
    PotentialStep(st, Deliver(Notify(n, s)), creator);
    AfterAskInv(told, n, s, creator);
    var rest := ServeRun(AfterAsk(told, n, s), creator, todo);
    var asked := AskFirst(told, n, s, rest, todo);
    acts := AnswerFirst(st, n, s, asked, todo);
  }

  lemma {:induction false} PhasesRun(st: State, creator: Id, count: nat) returns (phases: seq<seq<Action>>)
    requires Inv(st, creator)
    ensures ArePhases(st, phases) && |phases| == count
    decreases count
  {
    if count == 0 {
      phases := [];
    } else {
      var acts := ServeRun(st, creator, st.succ.Keys);
      PhaseStep(st, acts, creator);
      var rest := PhasesRun(Exec(st, acts), creator, count - 1);
      phases := [acts] + rest;
      assert phases[1..] == rest;
    }
  }

  /** Such runs exist: from every reachable state the ideal ring can be reached. */
  lemma CanConverge(creator: Id, st: State) returns (phases: seq<seq<Action>>)
    requires Reachable(creator, st)
    ensures ArePhases(st, phases) && IdealRing(AfterPhases(st, phases))
  {
    ReachableInv(creator, st);
    phases := PhasesRun(st, creator, Potential(st) + 1);
    PhasesConverge(st, phases, creator);
  }
}
