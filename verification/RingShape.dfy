/** The shape of the ring in reachable states, and the ideal ring that stabilization aims at. */
module RingShape {
  import opened Wrappers
  import opened Ring
  import opened Paths
  import opened ChordNodes
  import opened Protocol

  ghost predicate OnCycle(succ: Links, x: Id)
    requires Closed(succ)
  {
    x in succ && exists k: nat :: k > 0 && Iter(succ, x, k) == x
  }

  lemma IterLast(succ: Links, x: Id, k: nat)
    requires Closed(succ) && x in succ
    ensures Iter(succ, x, k + 1) == Follow(succ, Iter(succ, x, k))
  {
    IterAdd(succ, x, k, 1);
    assert Iter(succ, Iter(succ, x, k), 1) == Follow(succ, Iter(succ, x, k)) by {
      assert Iter(succ, Follow(succ, Iter(succ, x, k)), 0) == Follow(succ, Iter(succ, x, k));
    }
  }

  /** From x the pointers come back to x, for the first time, after exactly one circle. */
  ghost predicate TurnsOnce(succ: Links, x: Id)
    requires Closed(succ) && x in succ
  {
    exists k: nat :: k > 0 && Iter(succ, x, k) == x && Length(succ, x, k) == RING
      && forall j: nat :: 0 < j < k ==> Iter(succ, x, j) != x
  }

  /** The turn that leaves o and comes back. */
  lemma OneTurn(succ: Links, o: Id) returns (k: nat)
    requires Closed(succ) && Winds(succ, o)
    ensures k > 0 && Iter(succ, o, k) == o && Length(succ, o, k) == RING
    ensures forall j: nat :: 0 < j < k ==> Iter(succ, o, j) != o
  {
    var k0 := ReachesWalk(succ, Follow(succ, o), o);
    k := k0 + 1;
    forall j: nat | 0 < j < k ensures Iter(succ, o, j) != o {
      assert Iter(succ, o, j) == Iter(succ, Follow(succ, o), j - 1);
    }
  }

  /** A node on a cycle is led back to from everywhere it leads. */
  lemma {:induction false} CycleLeadsBack(succ: Links, x: Id, k: nat)
    requires Closed(succ) && OnCycle(succ, x)
    ensures Leads(succ, Iter(succ, x, k), x)
    decreases k
  {
    var m: nat :| m > 0 && Iter(succ, x, m) == x;
    if k == 0 {
      assert Iter(succ, x, 0) == x;
    } else {
      CycleLeadsBack(succ, x, k - 1);
      var y := Iter(succ, x, k - 1);
      var j: nat :| Iter(succ, y, j) == x;
      IterLast(succ, x, k - 1);
      assert Iter(succ, Follow(succ, y), if j > 0 then j - 1 else m - 1) == x;
    }
  }

  lemma CycleOfCreator(succ: Links, creator: Id, x: Id)
    requires Linked(succ, creator) && x in succ
    ensures OnCycle(succ, x) <==> Leads(succ, creator, x)
  {
    assert Leads(succ, x, creator);
    var a: nat :| Iter(succ, x, a) == creator;
    if OnCycle(succ, x) {
      CycleLeadsBack(succ, x, a);
    }
    if Leads(succ, creator, x) {
      var k := OneTurn(succ, creator);
      var j: nat :| Iter(succ, creator, j) == x;
      IterAdd(succ, x, a, k);
      IterAdd(succ, x, a + k, j);
    }
  }

  /** If o's turn is exactly one circle, so is the turn of the node after o. */
  lemma WindsFollow(succ: Links, o: Id)
    requires Closed(succ) && Winds(succ, o)
    ensures Winds(succ, Follow(succ, o))
  {
    var d := Follow(succ, o);
    if d != o {
      assert Reaches(succ, Follow(succ, d), o);
      assert Reaches(succ, o, d);
      ReachesTrans(succ, Follow(succ, d), o, d);
    }
  }

  lemma {:induction false} WindsIter(succ: Links, o: Id, k: nat)
    requires Closed(succ) && Winds(succ, o)
    ensures Winds(succ, Iter(succ, o, k))
    decreases k
  {
    if k > 0 {
      WindsFollow(succ, o);
      WindsIter(succ, Follow(succ, o), k - 1);
    }
  }

  /** In every reachable state there is exactly one cycle. It contains the creator, every member leads to it,
      and from any node on it one round trip covers the identifier circle exactly once. */
  lemma OneCycle(creator: Id, st: State)
    requires Reachable(creator, st)
    ensures Closed(st.succ) && OnCycle(st.succ, creator)
    ensures forall x :: x in st.succ ==> Leads(st.succ, x, creator)
    ensures forall x :: x in st.succ ==> (OnCycle(st.succ, x) <==> Leads(st.succ, creator, x))
    ensures forall x :: x in st.succ && OnCycle(st.succ, x) ==> TurnsOnce(st.succ, x)
  {
    ReachableInv(creator, st);
    var succ := st.succ;
    assert Iter(succ, creator, 0) == creator;
    forall x | x in succ
      ensures Leads(succ, x, creator)
      ensures OnCycle(succ, x) <==> Leads(succ, creator, x)
    {
      CycleOfCreator(succ, creator, x);
    }
    assert OnCycle(succ, creator);
    forall x | x in succ && OnCycle(succ, x) ensures TurnsOnce(succ, x) {
      var j: nat :| Iter(succ, creator, j) == x;
      WindsIter(succ, creator, j);
      var k := OneTurn(succ, x);
    }
  }

  /** Recorded predecessors and nodes named by messages lead clockwise to the node they are meant for. */
  lemma NamedNodesLeadClockwise(creator: Id, st: State)
    requires Reachable(creator, st)
    ensures forall s :: s in st.pred ==> Behind(st.succ, st.pred[s], s)
    ensures forall p, s :: Notify(p, s) in st.net ==> Behind(st.succ, p, s)
    ensures forall s, n, p :: PredReply(s, n, Some(p)) in st.net ==> Behind(st.succ, p, s)
  {
    ReachableInv(creator, st);
    forall s | s in st.pred ensures Behind(st.succ, st.pred[s], s) {
      assert Behind(st.succ, st.pred[s], s);
    }
    forall p, s | Notify(p, s) in st.net ensures Behind(st.succ, p, s) {
      assert MsgOk(st.succ, Notify(p, s));
    }
    forall s, n, p | PredReply(s, n, Some(p)) in st.net ensures Behind(st.succ, p, s) {
      assert MsgOk(st.succ, PredReply(s, n, Some(p)));
    }
  }

  // ----- quiescence

  /** A round of n, its reply and its notification delivered at once, would change nothing. */
  ghost predicate Settled(st: State, n: Id)
    requires Shaped(st) && n in st.succ && st.succ[n] in st.succ
  {
    var s := st.succ[n];
    s != n ==>
      && OnPredReply(NodeAt(st, n), s, PredOf(st.pred, s)) == NodeAt(st, n)
      && OnNotify(NodeAt(st, s), n) == NodeAt(st, s)
  }

  ghost predicate Quiescent(st: State)
    requires Shaped(st) && Closed(st.succ)
  {
    forall n {:trigger Follow(st.succ, n)} :: n in st.succ ==> Follow(st.succ, n) in st.succ && Settled(st, n)
  }

  /** No member lies strictly between a member and its successor. */
  ghost predicate Ideal(succ: Links) {
    && Closed(succ)
    && forall n, m {:trigger Hop(n, m)} :: n in succ && m in succ ==> Hop(n, succ[n]) <= Hop(n, m)
  }

  /** Successors are the next members clockwise and predecessors are their inverse. */
  ghost predicate IdealRing(st: State)
    requires Shaped(st)
  {
    && Ideal(st.succ)
    && (forall n {:trigger Follow(st.succ, n)} :: n in st.succ && Follow(st.succ, n) != n ==>
          Follow(st.succ, n) in st.pred && st.pred[Follow(st.succ, n)] == n)
    && (forall s {:trigger st.pred[s]} :: s in st.pred ==> st.pred[s] in st.succ && st.succ[st.pred[s]] == s)
  }

  /** In a settled pair the successor's predecessor is the node itself. */
  lemma SettledPair(st: State, n: Id)
    requires PointersOk(st) && n in st.succ && st.succ[n] in st.succ && Settled(st, n) && st.succ[n] != n
    ensures st.succ[n] in st.pred && st.pred[st.succ[n]] == n
  {
    var s := st.succ[n];
    if s in st.pred {
      assert Behind(st.succ, st.pred[s], s);
    }
  }

  /** Some pointer other than c's own arrives at c, if anyone else is there to lead to it. */
  lemma {:induction false} LastStep(succ: Links, x: Id, c: Id, k: nat) returns (y: Id)
    requires Closed(succ) && x in succ && x != c && Iter(succ, x, k) == c
    ensures y in succ && y != c && succ[y] == c
    decreases k
  {
    if Follow(succ, x) == c {
      y := x;
    } else {
      y := LastStep(succ, Follow(succ, x), c, k - 1);
    }
  }

  lemma {:induction false} LonerLeadsNowhere(succ: Links, x: Id, k: nat)
    requires Closed(succ) && x in succ && succ[x] == x
    ensures Iter(succ, x, k) == x
    decreases k
  {
    if k > 0 { LonerLeadsNowhere(succ, x, k - 1); }
  }

  /** In a quiescent ring of several members nobody is its own successor. */
  lemma QuiescentNoLoner(st: State, creator: Id, n: Id, other: Id)
    requires Inv(st, creator) && Quiescent(st) && n in st.succ && other in st.succ && other != n
    ensures st.succ[n] != n
  {
    if st.succ[n] == n {
      assert Leads(st.succ, n, creator) && Leads(st.succ, other, creator);
      var j: nat :| Iter(st.succ, n, j) == creator;
      LonerLeadsNowhere(st.succ, n, j);
      var k: nat :| Iter(st.succ, other, k) == creator;
      var y := LastStep(st.succ, other, n, k);
      assert Follow(st.succ, y) == n;
      SettledPair(st, y);
      assert false;
    }
  }

  /** In a quiescent ring everyone is on the creator's cycle. */
  lemma {:induction false} QuiescentOnCycle(st: State, creator: Id, x: Id, k: nat)
    requires Inv(st, creator) && Quiescent(st) && x in st.succ && Iter(st.succ, x, k) == creator
    ensures Leads(st.succ, creator, x)
    decreases k
  {
    var succ := st.succ;
    if x == creator {
      assert Iter(succ, creator, 0) == creator;
    } else {
      QuiescentOnCycle(st, creator, Follow(succ, x), k - 1);
      var z := Follow(succ, x);
      var turn := OneTurn(succ, creator);
      var j: nat :| Iter(succ, creator, j) == z;
      var j' := if j > 0 then j else turn;
      assert Iter(succ, creator, j') == z by { assert j == 0 ==> Iter(succ, creator, 0) == creator; }
      var w := Iter(succ, creator, j' - 1);
      IterLast(succ, creator, j' - 1);
      QuiescentNoLoner(st, creator, w, if w == x then creator else x);
      QuiescentNoLoner(st, creator, x, creator);
      SettledPair(st, w);
      SettledPair(st, x);
    }
  }

  /** Walking on from x, every node met lies at or beyond x's successor. */
  lemma {:induction false} NothingSkipped(succ: Links, x: Id, k: nat)
    requires Closed(succ) && Winds(succ, x)
    ensures var y := Iter(succ, x, k);
            y == x || (Reaches(succ, y, x) && Dist(y, x) <= Dist(succ[x], x))
    decreases k
  {
    if k > 0 {
      NothingSkipped(succ, x, k - 1);
      IterLast(succ, x, k - 1);
    }
  }

  /** When every member is on the cycle, the ring is ideal. */
  lemma AllOnCycleIdeal(succ: Links, creator: Id)
    requires Linked(succ, creator)
    requires forall x :: x in succ ==> Leads(succ, creator, x)
    ensures Ideal(succ)
  {
    forall n, m | n in succ && m in succ ensures Hop(n, succ[n]) <= Hop(n, m) {
      assert Leads(succ, n, creator);
      assert Leads(succ, creator, n) && Leads(succ, creator, m);
      LeadsTrans(succ, n, creator, m);
      var i: nat :| Iter(succ, creator, i) == n;
      WindsIter(succ, creator, i);
      var k: nat :| Iter(succ, n, k) == m;
      NothingSkipped(succ, n, k);
    }
  }

  lemma QuiescentAllOnCycle(st: State, creator: Id)
    requires Inv(st, creator) && Quiescent(st)
    ensures forall x :: x in st.succ ==> Leads(st.succ, creator, x)
  {
    forall x | x in st.succ ensures Leads(st.succ, creator, x) {
      assert Leads(st.succ, x, creator);
      var k: nat :| Iter(st.succ, x, k) == creator;
      QuiescentOnCycle(st, creator, x, k);
    }
  }

  lemma PredIsInverse(st: State, creator: Id, s: Id)
    requires Inv(st, creator) && Quiescent(st) && s in st.pred
    requires Leads(st.succ, creator, s)
    ensures st.pred[s] in st.succ && st.succ[st.pred[s]] == s
  {
    var succ := st.succ;
    var p := st.pred[s];
    assert Behind(succ, p, s);
    assert Leads(succ, p, creator);
    LeadsTrans(succ, p, creator, s);
    var k: nat :| Iter(succ, p, k) == s;
    var y := LastStep(succ, p, s, k);
    assert Follow(succ, y) == s;
    SettledPair(st, y);
  }

  lemma QuiescentIsIdeal(st: State, creator: Id)
    requires Inv(st, creator) && Quiescent(st)
    ensures IdealRing(st)
  {
    QuiescentAllOnCycle(st, creator);
    AllOnCycleIdeal(st.succ, creator);
    forall n | n in st.succ && Follow(st.succ, n) != n
      ensures Follow(st.succ, n) in st.pred && st.pred[Follow(st.succ, n)] == n
    {
      SettledPair(st, n);
    }
    forall s | s in st.pred ensures st.pred[s] in st.succ && st.succ[st.pred[s]] == s {
      PredIsInverse(st, creator, s);
    }
  }

  lemma MutualIsSettled(st: State, n: Id)
    requires Shaped(st) && n in st.succ && st.succ[n] in st.succ && st.succ[n] != n
    requires st.succ[n] in st.pred && st.pred[st.succ[n]] == n
    ensures Settled(st, n)
  {
  }

  lemma IdealIsQuiescent(st: State)
    requires Shaped(st) && IdealRing(st)
    ensures Quiescent(st)
  {
    forall n | n in st.succ ensures Follow(st.succ, n) in st.succ && Settled(st, n) {
      if Follow(st.succ, n) != n {
        MutualIsSettled(st, n);
      }
    }
  }

  /** A reachable state that no stabilize round would change is exactly an ideal ring, for any number of members. */
  lemma QuiescentIffIdeal(creator: Id, st: State)
    requires Reachable(creator, st)
    ensures Closed(st.succ)
    ensures Quiescent(st) <==> IdealRing(st)
  {
    ReachableInv(creator, st);
    if Quiescent(st) { QuiescentIsIdeal(st, creator); }
    if IdealRing(st) { IdealIsQuiescent(st); }
  }
}
