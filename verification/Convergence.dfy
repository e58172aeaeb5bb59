/** Stabilization makes bounded progress: a potential that every pointer change lowers. */
module Convergence {
  import opened Wrappers
  import opened Ring
  import opened Paths
  import opened ChordNodes
  import opened Protocol
  import opened RingShape

  // ----- sums over finite sets

  ghost function Pick(s: set<Id>): (x: Id)
    requires s != {}
    ensures x in s
  {
    var x :| x in s; x
  }

  ghost function Sum(s: set<Id>, f: map<Id, nat>): nat
    requires s <= f.Keys
  {
    if s == {} then 0 else var x := Pick(s); f[x] + Sum(s - {x}, f)
  }

  lemma {:induction false} SumAdd(s: set<Id>, f: map<Id, nat>, g: map<Id, nat>, h: map<Id, nat>)
    requires s <= f.Keys && s <= g.Keys && s <= h.Keys
    requires forall x :: x in s ==> f[x] + g[x] <= h[x]
    ensures Sum(s, f) + Sum(s, g) <= Sum(s, h)
  {
    if s != {} {
      SumAdd(s - {Pick(s)}, f, g, h);
    }
  }

  lemma {:induction false} SumBound(s: set<Id>, f: map<Id, nat>, b: nat)
    requires s <= f.Keys
    requires forall x :: x in s ==> f[x] <= b
    ensures Sum(s, f) <= |s| * b
  {
    if s != {} {
      var x := Pick(s);
      SumBound(s - {x}, f, b);
      assert |s| == |s - {x}| + 1;
      assert |s| * b == |s - {x}| * b + b by { Distribute(|s - {x}|, b); }
    }
  }

  lemma Distribute(a: nat, b: nat)
    ensures (a + 1) * b == a * b + b
  {
  }

  lemma {:induction false} SumPositive(s: set<Id>, f: map<Id, nat>, x: Id)
    requires s <= f.Keys && x in s
    ensures f[x] <= Sum(s, f)
  {
    if Pick(s) != x {
      SumPositive(s - {Pick(s)}, f, x);
    }
  }

  // ----- ranks

  /** The members that a pointer from n to s reaches past. */
  ghost function Nearer(members: set<Id>, n: Id, s: Id): set<Id> {
    set m | m in members && Hop(n, m) < Hop(n, s)
  }

  /** The members that lie closer before s than p does. */
  ghost function Later(members: set<Id>, p: Id, s: Id): set<Id> {
    set m | m in members && m != s && Dist(m, s) < Dist(p, s)
  }

  ghost function SuccRank(members: set<Id>, n: Id, s: Id): nat {
    |Nearer(members, n, s)|
  }

  ghost function PredRank(members: set<Id>, s: Id, p: Option<Id>): nat
    requires s in members
  {
    match p
    case None => |members - {s}|
    case Some(v) => |Later(members, v, s)|
  }

  ghost function RankAt(st: State, n: Id): nat
    requires Shaped(st) && n in st.succ
  {
    SuccRank(st.succ.Keys, n, st.succ[n]) + PredRank(st.succ.Keys, n, PredOf(st.pred, n))
  }

  ghost function Ranks(st: State): map<Id, nat>
    requires Shaped(st)
  {
    map n | n in st.succ :: RankAt(st, n)
  }

  ghost function Potential(st: State): nat
    requires Shaped(st)
  {
    Sum(st.succ.Keys, Ranks(st))
  }

  /** How many of n's two pointers differ between two states. */
  ghost function ChangesAt(st: State, st': State, n: Id): nat
    requires n in st.succ && n in st'.succ
  {
    (if st.succ[n] != st'.succ[n] then 1 else 0) + (if PredOf(st.pred, n) != PredOf(st'.pred, n) then 1 else 0)
  }

  ghost function ChangeCounts(st: State, st': State): map<Id, nat>
  {
    map n | n in st.succ && n in st'.succ :: ChangesAt(st, st', n)
  }

  ghost function Changes(st: State, st': State): nat
  {
    Sum(ChangeCounts(st, st').Keys, ChangeCounts(st, st'))
  }

  /** Actions that neither admit a member nor drop a predecessor. */
  ghost predicate Steady(a: Action) {
    !a.Join? && !a.DropPredecessor?
  }

  lemma SubsetSmaller(a: set<Id>, b: set<Id>, x: Id)
    requires a <= b && x in b && x !in a
    ensures |a| < |b|
  {
    SubsetCard(a, b - {x});
  }

  lemma SuccRankBound(members: set<Id>, n: Id, s: Id)
    requires s in members
    ensures SuccRank(members, n, s) <= |members| - 1
  {
    SubsetSmaller(Nearer(members, n, s), members, s);
  }

  lemma PredRankBound(members: set<Id>, s: Id, p: Option<Id>)
    requires s in members
    ensures PredRank(members, s, p) <= |members| - 1
  {
    if p.Some? {
      SubsetSmaller(Later(members, p.value, s), members, s);
    }
  }

  lemma SuccRankDrops(members: set<Id>, n: Id, s: Id, s': Id)
    requires s' in members && Hop(n, s') < Hop(n, s)
    ensures SuccRank(members, n, s') < SuccRank(members, n, s)
  {
    SubsetSmaller(Nearer(members, n, s'), Nearer(members, n, s), s');
  }

  lemma PredRankDrops(members: set<Id>, s: Id, p: Option<Id>, p': Id)
    requires s in members && p' in members && p' != s
    requires p.Some? ==> IsBetween(p', p.value, s, false)
    ensures PredRank(members, s, Some(p')) < PredRank(members, s, p)
  {
    match p
    case None => SubsetSmaller(Later(members, p', s), members - {s}, p');
    case Some(q) => SubsetSmaller(Later(members, p', s), Later(members, q, s), p');
  }

  lemma RankBound(st: State, n: Id)
    requires Shaped(st) && Closed(st.succ) && n in st.succ
    ensures RankAt(st, n) <= 2 * (|st.succ.Keys| - 1)
  {
    assert Follow(st.succ, n) in st.succ;
    SuccRankBound(st.succ.Keys, n, st.succ[n]);
    PredRankBound(st.succ.Keys, n, PredOf(st.pred, n));
  }

  lemma RanksBound(st: State)
    requires Shaped(st) && Closed(st.succ)
    ensures forall n :: n in Ranks(st) ==> Ranks(st)[n] <= 2 * (|st.succ.Keys| - 1)
  {
    forall n | n in Ranks(st) ensures Ranks(st)[n] <= 2 * (|st.succ.Keys| - 1) {
      RankBound(st, n);
    }
  }

  lemma TwoPerPair(k: nat, total: nat)
    requires k > 0 && total <= k * (2 * (k - 1))
    ensures total <= MaxChanges(k)
  {
  }

  /** Two pointers a member, each shortened at most once past every other member. */
  ghost function MaxChanges(k: nat): int {
    2 * (k * (k - 1))
  }

  lemma PotentialBound(st: State)
    requires Shaped(st) && Closed(st.succ) && |st.succ.Keys| > 0
    ensures Potential(st) <= MaxChanges(|st.succ.Keys|)
  {
    RanksBound(st);
    SumBound(st.succ.Keys, Ranks(st), 2 * (|st.succ.Keys| - 1));
    TwoPerPair(|st.succ.Keys|, Potential(st));
  }

  // ----- one step

  lemma SteadyPred(st: State, a: Action, n: Id)
    requires Shaped(st) && MsgsOk(st.succ, st.net) && Enabled(st, a) && Steady(a) && n in st.succ
    ensures var st' := Next(st, a);
            PredOf(st'.pred, n) != PredOf(st.pred, n) ==>
              && n in st'.pred && Behind(st.succ, st'.pred[n], n)
              && (n in st.pred ==> IsBetween(st'.pred[n], st.pred[n], n, false))
  {
    var st' := Next(st, a);
    if n in st.pred { PredStays(st, a, n); }
    if PredOf(st'.pred, n) != PredOf(st.pred, n) {
      NewPred(st, a, n);
      assert MsgOk(st.succ, a.msg);
    }
  }

  lemma PredStays(st: State, a: Action, n: Id)
    requires Shaped(st) && Enabled(st, a) && Steady(a) && n in st.pred
    ensures n in Next(st, a).pred
  {
    if IsFileAction(a) { FileFrame(st, a); }
  }

  lemma SteadyMembers(st: State, a: Action)
    requires Shaped(st) && MsgsOk(st.succ, st.net) && Enabled(st, a) && Steady(a)
    ensures Next(st, a).succ.Keys == st.succ.Keys
  {
    StepChange(st, a);
  }

  lemma StepRank(st: State, a: Action, n: Id)
    requires PointersOk(st) && Enabled(st, a) && Steady(a) && n in st.succ
    requires Next(st, a).succ.Keys == st.succ.Keys
    ensures RankAt(Next(st, a), n) + ChangesAt(st, Next(st, a), n) <= RankAt(st, n)
  {
    var st' := Next(st, a);
    var members := st.succ.Keys;
    StepChange(st, a);
    SteadyPred(st, a, n);
    if st'.succ[n] != st.succ[n] {
      SuccRankDrops(members, n, st.succ[n], st'.succ[n]);
    }
    if PredOf(st'.pred, n) != PredOf(st.pred, n) {
      PredRankDrops(members, n, PredOf(st.pred, n), st'.pred[n]);
    }
  }

  lemma ChangeCountsAll(st: State, st': State)
    requires st'.succ.Keys == st.succ.Keys
    ensures ChangeCounts(st, st').Keys == st.succ.Keys
  {
  }

  /** A step that admits nobody and drops no predecessor lowers the potential by at least its pointer changes. */
  lemma StepPotential(st: State, a: Action)
    requires PointersOk(st) && Enabled(st, a) && Steady(a)
    ensures Next(st, a).succ.Keys == st.succ.Keys
    ensures Potential(Next(st, a)) + Changes(st, Next(st, a)) <= Potential(st)
  {
    SteadyMembers(st, a);
    var st' := Next(st, a);
    var ranks, ranks', changes := Ranks(st), Ranks(st'), ChangeCounts(st, st');
    forall n | n in st.succ.Keys ensures ranks'[n] + changes[n] <= ranks[n] {
      StepRank(st, a, n);
    }
    ChangeCountsAll(st, st');
    SumAdd(st.succ.Keys, ranks', changes, ranks);
  }

  // ----- runs

  ghost predicate AllSteady(acts: seq<Action>) {
    acts == [] || (Steady(acts[0]) && AllSteady(acts[1..]))
  }

  /** Number of pointer changes over a run. */
  ghost function TotalChanges(st: State, acts: seq<Action>): nat
    requires Shaped(st) && IsRun(st, acts)
    decreases |acts|
  {
    if acts == [] then 0
    else Changes(st, Next(st, acts[0])) + TotalChanges(Next(st, acts[0]), acts[1..])
  }

  lemma PotentialStep(st: State, a: Action, creator: Id)
    requires Inv(st, creator) && Enabled(st, a) && Steady(a)
    ensures Inv(Next(st, a), creator) && Next(st, a).succ.Keys == st.succ.Keys
    ensures Potential(Next(st, a)) + Changes(st, Next(st, a)) <= Potential(st)
  {
    StepInv(st, a, creator);
    StepPotential(st, a);
  }

  lemma {:induction false} RunPotential(st: State, acts: seq<Action>, creator: Id)
    requires Inv(st, creator) && IsRun(st, acts) && AllSteady(acts)
    ensures Exec(st, acts).succ.Keys == st.succ.Keys
    ensures Potential(Exec(st, acts)) + TotalChanges(st, acts) <= Potential(st)
    decreases |acts|
  {
    if acts != [] {
      PotentialStep(st, acts[0], creator);
      RunPotential(Next(st, acts[0]), acts[1..], creator);
    }
  }

  /** With k members and no predecessor dropped, any run changes pointers at most 2k(k-1) times. */
  lemma BoundedChanges(creator: Id, st: State, acts: seq<Action>)
    requires Reachable(creator, st) && IsRun(st, acts) && AllSteady(acts)
    ensures TotalChanges(st, acts) <= MaxChanges(|st.succ.Keys|)
  {
    ReachableInv(creator, st);
    RunPotential(st, acts, creator);
    PotentialBound(st);
  }

  ghost predicate SamePointers(st: State, st': State) {
    st'.succ == st.succ && st'.pred == st.pred
  }

  lemma IdleNotify(st: State, p: Id, dst: Id)
    requires Shaped(st) && dst in st.succ && OnNotify(NodeAt(st, dst), p) == NodeAt(st, dst)
    ensures SamePointers(st, Handle(st, Notify(p, dst)))
  {
    SamePut(st.succ, dst, st.succ[dst]);
    if dst in st.pred { SamePut(st.pred, dst, st.pred[dst]); }
  }

  lemma IdleReply(st: State, src: Id, dst: Id, p: Option<Id>)
    requires Shaped(st) && dst in st.succ && OnPredReply(NodeAt(st, dst), src, p) == NodeAt(st, dst)
    ensures SamePointers(st, Handle(st, PredReply(src, dst, p)))
  {
    SamePut(st.succ, dst, st.succ[dst]);
  }

  lemma NoChanges(st: State, st': State)
    requires Shaped(st) && Shaped(st') && st'.succ.Keys == st.succ.Keys && Changes(st, st') == 0
    ensures SamePointers(st, st')
  {
    ChangeCountsAll(st, st');
    forall n | n in st.succ ensures ChangesAt(st, st', n) == 0 {
      SumPositive(st.succ.Keys, ChangeCounts(st, st'), n);
    }
    LinksEqual(st, st');
    PredEqual(st.pred, st'.pred, st.succ.Keys);
  }

  lemma LinksEqual(st: State, st': State)
    requires st'.succ.Keys == st.succ.Keys
    requires forall n :: n in st.succ ==> ChangesAt(st, st', n) == 0
    ensures st'.succ == st.succ
  {
  }

  lemma PredEqual(a: map<Id, Id>, b: map<Id, Id>, members: set<Id>)
    requires a.Keys <= members && b.Keys <= members
    requires forall n :: n in members ==> PredOf(a, n) == PredOf(b, n)
    ensures a == b
  {
    forall n ensures n in a <==> n in b {
      assert n in members ==> PredOf(a, n) == PredOf(b, n);
    }
    assert a.Keys == b.Keys;
    forall n | n in a ensures a[n] == b[n] {
      assert PredOf(a, n) == PredOf(b, n);
    }
  }

  /** From st to st' the invariant and the members stay, and the potential falls unless no pointer changed. */
  ghost predicate Settles(st: State, st': State, creator: Id) {
    && Inv(st, creator)
    && Inv(st', creator)
    && st'.succ.Keys == st.succ.Keys
    && Potential(st') <= Potential(st)
    && (Potential(st') == Potential(st) ==> SamePointers(st, st'))
  }

  lemma SteadyStep(st: State, a: Action, creator: Id)
    requires Inv(st, creator) && Enabled(st, a) && Steady(a)
    ensures Settles(st, Next(st, a), creator)
  {
    StepInv(st, a, creator);
    StepPotential(st, a);
    if Potential(Next(st, a)) == Potential(st) {
      NoChanges(st, Next(st, a));
    }
  }

  // ----- the ideal ring is stable

  /** Whoever receives m in an ideal ring keeps its pointers. */
  lemma IdealReceiver(st: State, m: Msg, creator: Id)
    requires Inv(st, creator) && IdealRing(st) && m in st.net
    ensures m.dst in st.succ
    ensures m.PredReply? ==> OnPredReply(NodeAt(st, m.dst), m.src, m.pred) == NodeAt(st, m.dst)
    ensures m.Notify? ==> OnNotify(NodeAt(st, m.dst), m.node) == NodeAt(st, m.dst)
  {
    assert MsgOk(st.succ, m);
    if m.PredReply? {
      assert Follow(st.succ, m.dst) in st.succ;
      StaleReply(st.succ, NodeAt(st, m.dst), m.src, m.pred);
    } else if m.Notify? {
      IdealNotify(st, m.node, m.dst, creator);
    }
  }

  lemma IdleDeliver(st: State, m: Msg)
    requires Shaped(st) && m.dst in st.succ
    requires m.PredReply? ==> OnPredReply(NodeAt(st, m.dst), m.src, m.pred) == NodeAt(st, m.dst)
    requires m.Notify? ==> OnNotify(NodeAt(st, m.dst), m.node) == NodeAt(st, m.dst)
    ensures SamePointers(st, Handle(st, m))
  {
    if m.PredReply? {
      IdleReply(st, m.src, m.dst, m.pred);
    } else if m.Notify? {
      IdleNotify(st, m.node, m.dst);
    } else {
      FileOrRequest(st, m);
    }
  }

  lemma IdealDeliver(st: State, m: Msg, creator: Id)
    requires Inv(st, creator) && IdealRing(st) && m in st.net
    ensures SamePointers(st, Next(st, Deliver(m)))
  {
    IdealReceiver(st, m, creator);
    IdleDeliver(st.(net := st.net - multiset{m}), m);
  }

  lemma IdealNotify(st: State, p: Id, dst: Id, creator: Id)
    requires Inv(st, creator) && IdealRing(st) && Behind(st.succ, p, dst)
    ensures OnNotify(NodeAt(st, dst), p) == NodeAt(st, dst)
  {
    HasPredecessor(st, creator, p, dst);
    StaleNotify(st.succ, NodeAt(st, dst), p);
  }

  lemma FileOrRequest(st: State, m: Msg)
    requires Shaped(st) && m.dst in st.succ && !m.PredReply? && !m.Notify?
    ensures SamePointers(st, Handle(st, m))
  {
  }

  /** In an ideal ring no message still under way, however old, changes a pointer. */
  lemma IdealStep(st: State, a: Action, creator: Id)
    requires Inv(st, creator) && IdealRing(st) && Enabled(st, a) && Steady(a)
    ensures SamePointers(st, Next(st, a))
  {
    if a.Deliver? {
      IdealDeliver(st, a.msg, creator);
    } else {
      QuietStep(st, a);
      QuietPred(st, a);
    }
  }

  lemma StaleReply(succ: Links, n: Node, src: Id, p: Option<Id>)
    requires Ideal(succ) && n.id in succ && n.succ == succ[n.id] && n.succ in succ
    requires p.Some? ==> p.value in succ
    ensures OnPredReply(n, src, p) == n
  {
    if p.Some? {
      assert Hop(n.id, succ[n.id]) <= Hop(n.id, p.value);
    }
  }

  lemma StaleNotify(succ: Links, n: Node, p: Id)
    requires Ideal(succ) && n.id in succ && p in succ
    requires n.pred.Some? && n.pred.value in succ && succ[n.pred.value] == n.id && n.pred.value != n.id
    ensures OnNotify(n, p) == n
  {
    assert Hop(n.pred.value, n.id) <= Hop(n.pred.value, p);
  }

  lemma HasPredecessor(st: State, creator: Id, p: Id, s: Id)
    requires Inv(st, creator) && IdealRing(st) && Behind(st.succ, p, s)
    ensures s in st.pred && st.pred[s] in st.succ && st.pred[s] != s && st.succ[st.pred[s]] == s
  {
    var k := ReachesWalk(st.succ, p, s);
    var y := LastStep(st.succ, p, s, k);
    assert Follow(st.succ, y) == s;
  }

  lemma QuietPred(st: State, a: Action)
    requires Shaped(st) && Enabled(st, a) && Steady(a) && !a.Deliver?
    ensures Next(st, a).pred == st.pred
  {
    if IsFileAction(a) { FileFrame(st, a); }
  }

  lemma SameIdeal(st: State, st': State)
    requires Shaped(st) && Shaped(st') && SamePointers(st, st') && IdealRing(st)
    ensures IdealRing(st')
  {
    forall n | n in st'.succ && Follow(st'.succ, n) != n
      ensures Follow(st'.succ, n) in st'.pred && st'.pred[Follow(st'.succ, n)] == n
    {
      assert Follow(st.succ, n) in st.pred;
    }
  }

  /** Once ideal, the ring stays ideal over every run that admits nobody and drops no predecessor. */
  lemma {:induction false} IdealRun(st: State, acts: seq<Action>, creator: Id)
    requires Inv(st, creator) && IdealRing(st) && IsRun(st, acts) && AllSteady(acts)
    ensures SamePointers(st, Exec(st, acts)) && IdealRing(Exec(st, acts))
    decreases |acts|
  {
    if acts != [] {
      IdealStep(st, acts[0], creator);
      StepInv(st, acts[0], creator);
      SameIdeal(st, Next(st, acts[0]));
      IdealRun(Next(st, acts[0]), acts[1..], creator);
    }
  }
}
