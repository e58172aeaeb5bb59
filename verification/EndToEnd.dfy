/** Stabilization and finger fixing together, as they run side by side: from any reachable state to exact lookups. */
module EndToEnd {
  import opened Wrappers
  import opened Ring
  import opened Paths
  import opened ChordNodes
  import opened Protocol
  import opened RingShape
  import opened Convergence
  import opened Phases
  import opened Lookup

  /** The state after the first t actions of a run. */
  ghost function At(st: State, acts: seq<Action>, t: nat): (st': State)
    requires Shaped(st) && IsRun(st, acts) && t <= |acts|
    ensures Shaped(st')
    decreases t
  {
    if t == 0 then st else At(Next(st, acts[0]), acts[1..], t - 1)
  }

  /** The node is a member in that state after t actions. */
  ghost predicate SeenAt(st: State, acts: seq<Action>, t: nat, node: Node)
    requires Shaped(st) && IsRun(st, acts)
  {
    t <= |acts| && node.id in At(st, acts, t).succ && node == NodeAt(At(st, acts, t), node.id)
  }

  /** The moments follow one another, up to j. */
  ghost predicate InTime(times: seq<nat>, j: nat) {
    && (forall k :: 0 <= k < |times| ==> times[k] <= j)
    && (forall k :: 0 < k < |times| ==> times[k - 1] <= times[k])
  }

  /** A lookup of id that n starts during the run and that is answered with e before the j-th action. Each node is asked
      at some moment, in the state it has then; anything may happen in between. */
  ghost predicate LookupVia(st: State, acts: seq<Action>, j: nat, n: Id, id: Id, e: Id, hops: seq<Node>,
                            times: seq<nat>)
    requires Shaped(st) && IsRun(st, acts) && j <= |acts|
  {
    && ChainAnswers(hops, id, e) && hops[0].id == n && |times| == |hops|
    && InTime(times, j)
    && SeenAll(st, acts, times, hops)
  }

  ghost predicate SeenAll(st: State, acts: seq<Action>, times: seq<nat>, hops: seq<Node>)
    requires Shaped(st) && IsRun(st, acts)
  {
    |times| == |hops| && forall k :: 0 <= k < |hops| ==> SeenAt(st, acts, times[k], hops[k])
  }

  /** Every finger update in the run writes what the node's own lookup, made during the run, has returned. */
  ghost predicate FixesLookUp(st: State, acts: seq<Action>)
    requires Shaped(st) && IsRun(st, acts)
  {
    forall j :: 0 <= j < |acts| && acts[j].FixFinger? ==> FixLooksUp(st, acts, j, acts[j])
  }

  ghost predicate FixLooksUp(st: State, acts: seq<Action>, j: nat, a: Action)
    requires Shaped(st) && IsRun(st, acts) && j <= |acts| && a.FixFinger?
  {
    exists hops, times :: LookupVia(st, acts, j, a.node, FingerId(a.node, a.index), a.entry, hops, times)
  }

  ghost predicate Fixes(acts: seq<Action>, n: Id, i: nat) {
    exists j :: 0 <= j < |acts| && acts[j].FixFinger? && acts[j].node == n && acts[j].index == i
  }

  /** A steady run of stabilization, finger fixing and anything else that admits nobody and drops no predecessor. */
  ghost predicate IsFixRun(st: State, acts: seq<Action>)
    requires Shaped(st)
  {
    IsRun(st, acts) && AllSteady(acts) && FixesLookUp(st, acts)
  }

  // ----- pointers stay ideal throughout

  lemma {:induction false} AtIdeal(st: State, acts: seq<Action>, t: nat, creator: Id)
    requires Inv(st, creator) && IdealRing(st) && IsRun(st, acts) && AllSteady(acts) && t <= |acts|
    ensures SamePointers(st, At(st, acts, t))
    decreases t
  {
    if t > 0 {
      var st' := Next(st, acts[0]);
      IdealStep(st, acts[0], creator);
      StepInv(st, acts[0], creator);
      SameIdeal(st, st');
      AtIdeal(st', acts[1..], t - 1, creator);
    }
  }

  // ----- first fingers

  /** The update, if it is one of a first finger, writes the successor. */
  ghost predicate FirstFix(succ: Links, a: Action) {
    a.FixFinger? && a.index == 0 ==> a.node in succ && a.entry == succ[a.node]
  }

  ghost predicate HasFirst(st: State, n: Id)
    requires Shaped(st) && n in st.succ
  {
    st.fingers[n][0] == Some(st.succ[n])
  }

  /** A steady step touches the fingers of a member only by an update of that member. */
  lemma FingerStep(st: State, a: Action, n: Id)
    requires Shaped(st) && Enabled(st, a) && n in st.fingers && Steady(a)
    ensures n in Next(st, a).fingers
    ensures a.FixFinger? && a.node == n ==> Next(st, a).fingers[n] == st.fingers[n][a.index := Some(a.entry)]
    ensures !(a.FixFinger? && a.node == n) ==> Next(st, a).fingers[n] == st.fingers[n]
  {
    if IsFileAction(a) { FileFrame(st, a); }
  }

  lemma {:induction false} FirstAt(st: State, acts: seq<Action>, t: nat, creator: Id, n: Id)
    requires Inv(st, creator) && IdealRing(st) && IsRun(st, acts) && AllSteady(acts) && t <= |acts| && n in st.succ
    requires forall j :: 0 <= j < |acts| ==> FirstFix(st.succ, acts[j])
    requires HasFirst(st, n) || Fixes(acts[..t], n, 0)
    ensures n in At(st, acts, t).succ && HasFirst(At(st, acts, t), n)
    decreases t
  {
    if t > 0 {
      var a, st' := acts[0], Next(st, acts[0]);
      IdealStep(st, a, creator);
      StepInv(st, a, creator);
      SameIdeal(st, st');
      FingerStep(st, a, n);
      assert FirstFix(st.succ, a);
      FixesTail(acts, t, n, 0);
      forall j | 0 <= j < |acts[1..]| ensures FirstFix(st'.succ, acts[1..][j]) {
        assert FirstFix(st.succ, acts[j + 1]);
      }
      FirstAt(st', acts[1..], t - 1, creator, n);
    }
  }

  lemma FixesTail(acts: seq<Action>, t: nat, n: Id, i: nat)
    requires 0 < t <= |acts|
    ensures Fixes(acts[..t], n, i) ==>
              (acts[0].FixFinger? && acts[0].node == n && acts[0].index == i) || Fixes(acts[1..][..t - 1], n, i)
  {
    if j :| 0 < j < t && acts[j].FixFinger? && acts[j].node == n && acts[j].index == i {
      assert acts[1..][..t - 1][j - 1] == acts[j];
    }
  }

  /** In an ideal ring the lookup for a first finger returns the successor. */
  lemma FirstFixesRight(st: State, acts: seq<Action>, creator: Id, j: nat)
    requires Inv(st, creator) && IdealRing(st) && IsFixRun(st, acts) && j < |acts|
    ensures FirstFix(st.succ, acts[j])
  {
    var a := acts[j];
    if a.FixFinger? && a.index == 0 {
      assert FixLooksUp(st, acts, j, a);
      var hops: seq<Node>, times: seq<nat> :| LookupVia(st, acts, j, a.node, FingerId(a.node, 0), a.entry, hops, times);
      FirstLookup(hops, a.node, a.entry);
      AtIdeal(st, acts, times[0], creator);
      assert SeenAt(st, acts, times[0], hops[0]);
    }
  }

  // ----- all fingers

  ghost predicate OwnerFix(members: set<Id>, a: Action) {
    a.FixFinger? ==> a.index < BITS && IsOwner(members, FingerId(a.node, a.index), a.entry)
  }

  ghost predicate FirstsRight(st: State)
    requires Shaped(st)
  {
    forall n {:trigger HasFirst(st, n)} :: n in st.succ ==> HasFirst(st, n)
  }

  /** Once every first finger is on the successor, every lookup made in the run, for an ID other than the asking node's,
      returns the first member at or after the ID. */
  lemma LookupRight(st: State, acts: seq<Action>, creator: Id, j: nat, n: Id, id: Id, e: Id, hops: seq<Node>,
                    times: seq<nat>)
    requires Inv(st, creator) && IdealRing(st) && IsFixRun(st, acts) && FirstsRight(st)
    requires j <= |acts| && id != n && LookupVia(st, acts, j, n, id, e, hops, times)
    ensures IsOwner(st.succ.Keys, id, e)
  {
    forall h | 0 <= h < |acts| ensures FirstFix(st.succ, acts[h]) {
      FirstFixesRight(st, acts, creator, h);
    }
    forall k | 0 <= k < |hops| ensures FirstRight(st.succ, hops[k]) {
      AtIdeal(st, acts, times[k], creator);
      assert SeenAt(st, acts, times[k], hops[k]);
      assert HasFirst(st, hops[k].id);
      FirstAt(st, acts, times[k], creator, hops[k].id);
    }
    ChainFindsOwner(st.succ, hops, id, e);
  }

  /** In particular every lookup for a finger returns the exact entry. */
  lemma FixesRight(st: State, acts: seq<Action>, creator: Id, j: nat)
    requires Inv(st, creator) && IdealRing(st) && IsFixRun(st, acts) && FirstsRight(st) && j < |acts|
    ensures OwnerFix(st.succ.Keys, acts[j])
  {
    var a := acts[j];
    if a.FixFinger? {
      var id := FingerId(a.node, a.index);
      assert FixLooksUp(st, acts, j, a);
      var hops: seq<Node>, times: seq<nat> :| LookupVia(st, acts, j, a.node, id, a.entry, hops, times);
      EnabledIndex(st, acts, j);
      FingerDist(a.node, a.index);
      LookupRight(st, acts, creator, j, a.node, id, a.entry, hops, times);
    }
  }

  lemma {:induction false} EnabledIndex(st: State, acts: seq<Action>, j: nat)
    requires Shaped(st) && IsRun(st, acts) && j < |acts| && acts[j].FixFinger?
    ensures acts[j].index < BITS
    decreases j
  {
    if j > 0 {
      EnabledIndex(Next(st, acts[0]), acts[1..], j - 1);
    }
  }

  ghost predicate HasExact(st: State, n: Id, i: nat)
    requires Shaped(st) && n in st.succ && i < BITS
  {
    st.fingers[n][i].Some? && IsOwner(st.succ.Keys, FingerId(n, i), st.fingers[n][i].value)
  }

  lemma ExactStep(st: State, a: Action, n: Id, i: nat)
    requires Shaped(st) && Enabled(st, a) && Steady(a) && n in st.succ && i < BITS
    requires Next(st, a).succ.Keys == st.succ.Keys && OwnerFix(st.succ.Keys, a)
    requires HasExact(st, n, i) || (a.FixFinger? && a.node == n && a.index == i)
    ensures HasExact(Next(st, a), n, i)
  {
    FingerStep(st, a, n);
  }

  ghost predicate OwnerFixes(members: set<Id>, acts: seq<Action>) {
    forall j :: 0 <= j < |acts| ==> OwnerFix(members, acts[j])
  }

  lemma OwnerFixesTail(members: set<Id>, acts: seq<Action>)
    requires acts != [] && OwnerFixes(members, acts)
    ensures OwnerFix(members, acts[0]) && OwnerFixes(members, acts[1..])
  {
    forall j | 0 <= j < |acts[1..]| ensures OwnerFix(members, acts[1..][j]) {
      assert OwnerFix(members, acts[j + 1]);
    }
  }

  lemma {:induction false} ExactAfter(st: State, acts: seq<Action>, creator: Id, n: Id, i: nat)
    requires Inv(st, creator) && IsRun(st, acts) && AllSteady(acts) && n in st.succ && i < BITS
    requires OwnerFixes(st.succ.Keys, acts) && (HasExact(st, n, i) || Fixes(acts, n, i))
    ensures n in Exec(st, acts).succ && HasExact(Exec(st, acts), n, i)
    decreases |acts|
  {
    if acts != [] {
      var a, st' := acts[0], Next(st, acts[0]);
      PotentialStep(st, a, creator);
      OwnerFixesTail(st.succ.Keys, acts);
      FixesOf(acts, n, i);
      if HasExact(st, n, i) || (a.FixFinger? && a.node == n && a.index == i) {
        ExactStep(st, a, n, i);
      }
      ExactAfter(st', acts[1..], creator, n, i);
    }
  }

  lemma FixesOf(acts: seq<Action>, n: Id, i: nat)
    requires acts != []
    ensures Fixes(acts, n, i) ==>
              (acts[0].FixFinger? && acts[0].node == n && acts[0].index == i) || Fixes(acts[1..], n, i)
  {
    FixesTail(acts, |acts|, n, i);
    assert acts[..|acts|] == acts && acts[1..][..|acts| - 1] == acts[1..];
  }

  // ----- the whole

  ghost predicate AllFirst(members: set<Id>, acts: seq<Action>) {
    forall n {:trigger Fixes(acts, n, 0)} :: n in members ==> Fixes(acts, n, 0)
  }

  ghost predicate AllFingers(members: set<Id>, acts: seq<Action>) {
    forall n, i: nat {:trigger Fixes(acts, n, i)} :: n in members && i < BITS ==> Fixes(acts, n, i)
  }

  /** A run that fixes every first finger sets them all. */
  lemma FirstRun(st: State, acts: seq<Action>, creator: Id)
    requires Inv(st, creator) && IdealRing(st) && IsFixRun(st, acts) && AllFirst(st.succ.Keys, acts)
    ensures var st' := Exec(st, acts);
            && Inv(st', creator) && SamePointers(st, st') && IdealRing(st')
            && FirstsRight(st')
  {
    RunInv(st, acts, creator);
    IdealRun(st, acts, creator);
    AtEnd(st, acts);
    forall j | 0 <= j < |acts| ensures FirstFix(st.succ, acts[j]) {
      FirstFixesRight(st, acts, creator, j);
    }
    forall n | n in st.succ ensures HasFirst(Exec(st, acts), n) {
      assert Fixes(acts, n, 0) && acts[..|acts|] == acts;
      FirstAt(st, acts, |acts|, creator, n);
    }
  }

  lemma {:induction false} AtEnd(st: State, acts: seq<Action>)
    requires Shaped(st) && IsRun(st, acts)
    ensures At(st, acts, |acts|) == Exec(st, acts)
    decreases |acts|
  {
    if acts != [] { AtEnd(Next(st, acts[0]), acts[1..]); }
  }

  /** A later run that fixes every finger makes them all exact. */
  lemma AllRun(st: State, acts: seq<Action>, creator: Id)
    requires Inv(st, creator) && IdealRing(st) && IsFixRun(st, acts) && AllFingers(st.succ.Keys, acts)
    requires FirstsRight(st)
    ensures var st' := Exec(st, acts);
            && Inv(st', creator) && SamePointers(st, st') && IdealRing(st')
            && forall n, i: nat {:trigger HasExact(st', n, i)} :: n in st'.succ && i < BITS ==> HasExact(st', n, i)
  {
    RunInv(st, acts, creator);
    IdealRun(st, acts, creator);
    forall j | 0 <= j < |acts| ensures OwnerFix(st.succ.Keys, acts[j]) {
      FixesRight(st, acts, creator, j);
    }
    forall n, i: nat | n in st.succ && i < BITS ensures HasExact(Exec(st, acts), n, i) {
      assert Fixes(acts, n, i);
      ExactAfter(st, acts, creator, n, i);
    }
  }

  /** On an ideal ring an exact first finger names the successor. */
  lemma ExactIsFirst(t: Tables, n: Id)
    requires Usable(t) && Ideal(t.succ) && n in t.succ && ExactFinger(t, n, 0)
    ensures FirstFinger(t, n)
  {
    FingerDist(n, 0);
    assert Pow2(0) == 1;
    assert Follow(t.succ, n) in t.succ;
    SuccessorOwns(t.succ, n, FingerId(n, 0));
    OwnerUnique(t.succ.Keys, FingerId(n, 0), t.succ[n], t.fingers[n][0].value);
  }

  lemma ExactLookups(t: Tables, n: Id, id: Id)
    requires Usable(t) && Ideal(t.succ) && ExactFingers(t) && n in t.succ && id != n
    ensures IsOwner(t.succ.Keys, id, FindSuccessor(t, n, id)) && Forwards(t, n, id) <= BITS
  {
    forall m | m in t.succ ensures FirstFinger(t, m) {
      assert ExactFinger(t, m, 0);
      ExactIsFirst(t, m);
    }
    LookupFindsOwner(t, n, id);
    LookupHops(t, n, id);
  }

  /** The lookup tables of a state. */
  ghost function TablesOf(st: State, creator: Id): (t: Tables)
    requires Inv(st, creator)
    ensures Usable(t) && t.succ == st.succ && t.fingers == st.fingers
  {
    InvTables(st, creator);
    Tables(st.succ, st.fingers)
  }

  /** After the two fix runs from an ideal ring, every lookup is exact and short. */
  lemma FixRuns(st: State, creator: Id, first: seq<Action>, rest: seq<Action>)
    requires Inv(st, creator) && IdealRing(st)
    requires IsFixRun(st, first) && AllFirst(st.succ.Keys, first)
    requires IsFixRun(Exec(st, first), rest) && AllFingers(st.succ.Keys, rest)
    ensures var st' := Exec(Exec(st, first), rest);
            && Inv(st', creator) && SamePointers(st, st') && IdealRing(st') && ExactFingers(TablesOf(st', creator))
  {
    FirstRun(st, first, creator);
    AllRun(Exec(st, first), rest, creator);
    var st' := Exec(Exec(st, first), rest);
    var t := TablesOf(st', creator);
    forall n, i: nat | n in t.succ && i < BITS ensures ExactFinger(t, n, i) {
      assert HasExact(st', n, i);
    }
  }

  /** From every reachable state: after more than 2k(k-1) phases of overlapping stabilize rounds, then a run in which
      every first finger is fixed, then one in which every finger is fixed, all side by side with anything that admits
      nobody and drops no predecessor, each lookup of an ID from a node that does not have that ID returns the first
      member at or after the ID, after at most 160 forwards. */
  lemma StabilizeThenFix(creator: Id, st: State, phases: seq<seq<Action>>, first: seq<Action>, rest: seq<Action>,
                         n: Id, id: Id)
    requires Reachable(creator, st) && ArePhases(st, phases) && |phases| > MaxChanges(|st.succ.Keys|)
    requires IsFixRun(AfterPhases(st, phases), first) && AllFirst(st.succ.Keys, first)
    requires IsFixRun(Exec(AfterPhases(st, phases), first), rest) && AllFingers(st.succ.Keys, rest)
    requires n in st.succ && id != n
    ensures var st' := Exec(Exec(AfterPhases(st, phases), first), rest);
            && Inv(st', creator) && st'.succ.Keys == st.succ.Keys
            && IsOwner(st.succ.Keys, id, FindSuccessor(TablesOf(st', creator), n, id))
            && Forwards(TablesOf(st', creator), n, id) <= BITS
  {
    ReachableInv(creator, st);
    PhasesInv(st, phases, creator);
    Converges(creator, st, phases);
    FixRuns(AfterPhases(st, phases), creator, first, rest);
    ExactLookups(TablesOf(Exec(Exec(AfterPhases(st, phases), first), rest), creator), n, id);
  }

  // ----- fix runs exist

  /** The nodes asked are all seen at once. */
  ghost predicate SeenNow(st: State, hops: seq<Node>)
    requires Shaped(st)
  {
    forall k :: 0 <= k < |hops| ==> hops[k].id in st.succ && hops[k] == NodeAt(st, hops[k].id)
  }

  /** In any state, a lookup made at once reaches an answer. */
  lemma {:induction false} LookupNow(st: State, creator: Id, n: Id, id: Id) returns (hops: seq<Node>, e: Id)
    requires Inv(st, creator) && n in st.succ
    ensures ChainAnswers(hops, id, e) && hops[0].id == n && e in st.succ
    ensures SeenNow(st, hops)
    decreases Dist(n, id)
  {
    var node := NodeAt(st, n);
    assert Follow(st.succ, n) in st.succ;
    match RouteLookup(node, id)
    case Answer(s) => hops, e := [node], s;
    case Forward(f) =>
      ForwardIsNearer(node, id);
      var rest: seq<Node>;
      rest, e := LookupNow(st, creator, f, id);
      hops := [node] + rest;
      ChainCons(node, rest, id);
  }

  lemma ChainCons(node: Node, rest: seq<Node>, id: Id)
    requires WellFormed(node) && rest != [] && IsChain(rest, id) && RouteLookup(node, id) == Forward(rest[0].id)
    ensures IsChain([node] + rest, id)
  {
    var hops := [node] + rest;
    forall i | 0 <= i < |hops|
      ensures WellFormed(hops[i]) && (i + 1 < |hops| ==> RouteLookup(hops[i], id) == Forward(hops[i + 1].id))
    {
      if 0 < i < |hops| - 1 { ChainNext(rest, id, i - 1); }
    }
  }

  lemma SeenLater(st: State, acts: seq<Action>, t: nat, node: Node)
    requires Shaped(st) && IsRun(st, acts) && acts != [] && t < |acts|
    requires SeenAt(Next(st, acts[0]), acts[1..], t, node)
    ensures SeenAt(st, acts, t + 1, node)
  {
  }

  ghost function Shifted(times: seq<nat>): (later: seq<nat>)
    ensures |later| == |times| && forall k :: 0 <= k < |times| ==> later[k] == times[k] + 1
  {
    seq(|times|, k requires 0 <= k < |times| => times[k] + 1)
  }

  lemma ShiftedInTime(times: seq<nat>, j: nat)
    requires InTime(times, j)
    ensures InTime(Shifted(times), j + 1)
  {
  }

  /** A lookup made in the rest of a run is one made in the whole. */
  lemma LookupLater(st: State, acts: seq<Action>, j: nat, n: Id, id: Id, e: Id, hops: seq<Node>, times: seq<nat>)
    requires Shaped(st) && IsRun(st, acts) && acts != [] && j < |acts|
    requires LookupVia(Next(st, acts[0]), acts[1..], j, n, id, e, hops, times)
    ensures LookupVia(st, acts, j + 1, n, id, e, hops, Shifted(times))
  {
    ShiftedInTime(times, j);
    SeenAllLater(st, acts, times, hops);
  }

  lemma SeenAllLater(st: State, acts: seq<Action>, times: seq<nat>, hops: seq<Node>)
    requires Shaped(st) && IsRun(st, acts) && acts != []
    requires SeenAll(Next(st, acts[0]), acts[1..], times, hops)
    ensures SeenAll(st, acts, Shifted(times), hops)
  {
    var later := Shifted(times);
    forall k | 0 <= k < |hops| ensures SeenAt(st, acts, later[k], hops[k]) {
      SeenLater(st, acts, times[k], hops[k]);
    }
  }

  /** The lookups of the updates in the rest of a run are made in the whole. */
  lemma FixLater(st: State, acts: seq<Action>, j: nat, b: Action)
    requires Shaped(st) && IsRun(st, acts) && acts != [] && j < |acts| && b.FixFinger?
    requires FixLooksUp(Next(st, acts[0]), acts[1..], j, b)
    ensures FixLooksUp(st, acts, j + 1, b)
  {
    var id := FingerId(b.node, b.index);
    var hops: seq<Node>, times: seq<nat> :|
      LookupVia(Next(st, acts[0]), acts[1..], j, b.node, id, b.entry, hops, times);
    LookupLater(st, acts, j, b.node, id, b.entry, hops, times);
  }

  /** A lookup made at once, whatever is done afterwards. */
  lemma LookupAtOnce(st: State, acts: seq<Action>, n: Id, id: Id, e: Id, hops: seq<Node>)
    requires Shaped(st) && IsRun(st, acts) && ChainAnswers(hops, id, e) && hops[0].id == n && SeenNow(st, hops)
    ensures LookupVia(st, acts, 0, n, id, e, hops, seq(|hops|, k => 0))
  {
    forall k | 0 <= k < |hops| ensures SeenAt(st, acts, 0, hops[k]) {
    }
  }

  lemma FixAtOnce(st: State, acts: seq<Action>, a: Action, hops: seq<Node>)
    requires Shaped(st) && IsRun(st, acts) && a.FixFinger? && SeenNow(st, hops)
    requires ChainAnswers(hops, FingerId(a.node, a.index), a.entry) && hops[0].id == a.node
    ensures FixLooksUp(st, acts, 0, a)
  {
    LookupAtOnce(st, acts, a.node, FingerId(a.node, a.index), a.entry, hops);
  }

  lemma FixInRest(st: State, acts: seq<Action>, j: nat, b: Action)
    requires Shaped(st) && IsRun(st, acts) && 0 < j < |acts| && b == acts[j] && b.FixFinger?
    requires FixesLookUp(Next(st, acts[0]), acts[1..])
    ensures FixLooksUp(st, acts, j, b)
  {
    var rest := acts[1..];
    assert rest[j - 1] == b;
    assert FixLooksUp(Next(st, acts[0]), rest, j - 1, b);
    FixLater(st, acts, j - 1, b);
  }

  lemma FixCons(st: State, a: Action, hops: seq<Node>, rest: seq<Action>)
    requires Shaped(st) && Enabled(st, a) && a.FixFinger? && SeenNow(st, hops) && IsFixRun(Next(st, a), rest)
    requires ChainAnswers(hops, FingerId(a.node, a.index), a.entry) && hops[0].id == a.node
    ensures IsFixRun(st, [a] + rest)
  {
    ConsRun(st, a, rest);
    assert ([a] + rest)[1..] == rest;
    var acts := [a] + rest;
    FixAtOnce(st, acts, a, hops);
    forall j | 0 <= j < |acts| && acts[j].FixFinger? ensures FixLooksUp(st, acts, j, acts[j]) {
      if j > 0 { FixInRest(st, acts, j, acts[j]); }
    }
  }

  lemma {:induction false} FixSome(st: State, creator: Id, todo: set<(Id, nat)>) returns (acts: seq<Action>)
    requires Inv(st, creator) && forall p :: p in todo ==> p.0 in st.succ && p.1 < BITS
    ensures IsFixRun(st, acts) && forall p :: p in todo ==> Fixes(acts, p.0, p.1)
    decreases |todo|
  {
    if todo == {} {
      acts := [];
    } else {
      var p :| p in todo;
      var hops, e := LookupNow(st, creator, p.0, FingerId(p.0, p.1));
      var a := FixFinger(p.0, p.1, e);
      StepInv(st, a, creator);
      var rest := FixSome(Next(st, a), creator, todo - {p});
      FixCons(st, a, hops, rest);
      acts := [a] + rest;
      forall q | q in todo ensures Fixes(acts, q.0, q.1) {
        if q == p { assert acts[0] == a; } else { FixesLater(a, rest, q.0, q.1); }
      }
    }
  }

  lemma FixesLater(a: Action, rest: seq<Action>, n: Id, i: nat)
    requires Fixes(rest, n, i)
    ensures Fixes([a] + rest, n, i)
  {
    var j :| 0 <= j < |rest| && rest[j].FixFinger? && rest[j].node == n && rest[j].index == i;
    assert ([a] + rest)[j + 1] == rest[j];
  }

  lemma FixAll(st: State, creator: Id) returns (acts: seq<Action>)
    requires Inv(st, creator)
    ensures IsFixRun(st, acts) && AllFirst(st.succ.Keys, acts) && AllFingers(st.succ.Keys, acts)
  {
    var all: set<(Id, nat)> := set n, i: nat | n in st.succ.Keys && i < BITS :: (n, i);
    acts := FixSome(st, creator, all);
    forall n, i: nat | n in st.succ.Keys && i < BITS ensures Fixes(acts, n, i) {
      assert (n, i) in all;
    }
  }

  /** Such runs exist: from every reachable state the ideal ring with exact finger tables can be reached. */
  lemma CanFix(creator: Id, st: State)
    returns (phases: seq<seq<Action>>, first: seq<Action>, rest: seq<Action>)
    requires Reachable(creator, st)
    ensures ArePhases(st, phases) && IsFixRun(AfterPhases(st, phases), first)
    ensures IsFixRun(Exec(AfterPhases(st, phases), first), rest)
    ensures var st' := Exec(Exec(AfterPhases(st, phases), first), rest);
            Inv(st', creator) && IdealRing(st') && ExactFingers(TablesOf(st', creator))
  {
    ReachableInv(creator, st);
    phases := CanConverge(creator, st);
    PhasesInv(st, phases, creator);
    var ideal := AfterPhases(st, phases);
    first := FixAll(ideal, creator);
    FirstRun(ideal, first, creator);
    rest := FixAll(Exec(ideal, first), creator);
    FixRuns(ideal, creator, first, rest);
  }

  /** A ring just created is ideal, its finger table is exact, and its one node answers every lookup with itself. */
  lemma FreshRing(creator: Id, id: Id)
    ensures var st := Init(creator);
            && Inv(st, creator) && IdealRing(st) && ExactFingers(TablesOf(st, creator))
            && FindSuccessor(TablesOf(st, creator), creator, id) == creator
            && Forwards(TablesOf(st, creator), creator, id) == 0
  {
    var st := Init(creator);
    InitInv(creator);
    assert st.succ == map[creator := creator];
    var t := TablesOf(st, creator);
    forall n, i: nat | n in t.succ && i < BITS ensures ExactFinger(t, n, i) {
      assert t.fingers[n][i] == Some(creator);
    }
  }
}
