/** Lookups: who answers, after how many forwards, and how finger tables become exact. */
module Lookup {
  import opened Wrappers
  import opened Ring
  import opened Paths
  import opened ChordNodes
  import opened Protocol
  import opened RingShape

  /** The part of the members' state that lookups read. */
  datatype Tables = Tables(succ: Links, fingers: map<Id, seq<Option<Id>>>)

  ghost predicate Usable(t: Tables) {
    && Closed(t.succ)
    && t.fingers.Keys == t.succ.Keys
    && (forall n {:trigger t.fingers[n]} :: n in t.fingers ==> |t.fingers[n]| == BITS)
    && FingersOk(t.succ.Keys, t.fingers)
  }

  ghost function LookupNode(t: Tables, n: Id): (r: Node)
    requires Usable(t) && n in t.succ
    ensures WellFormed(r)
  {
    Node(n, t.succ[n], None, t.fingers[n], {})
  }

  /** A forward names a finger strictly between the node and the ID, so it is strictly nearer to the ID. */
  lemma ForwardIsNearer(n: Node, id: Id)
    requires WellFormed(n) && RouteLookup(n, id).Forward?
    ensures var f := RouteLookup(n, id).node;
            Dist(f, id) < Dist(n.id, id) && f != id && n.id != id && Some(f) in n.fingers
  {
  }

  lemma RouteMember(t: Tables, n: Id, id: Id)
    requires Usable(t) && n in t.succ
    ensures RouteLookup(LookupNode(t, n), id).node in t.succ
  {
    assert Follow(t.succ, n) in t.succ;
    if RouteLookup(LookupNode(t, n), id).Forward? {
      ForwardIsNearer(LookupNode(t, n), id);
    }
  }

  /** A lookup from n, forwarded from node to node until one answers. */
  ghost function FindSuccessor(t: Tables, n: Id, id: Id): (r: Id)
    requires Usable(t) && n in t.succ
    ensures r in t.succ
    decreases Dist(n, id)
  {
    RouteMember(t, n, id);
    match RouteLookup(LookupNode(t, n), id)
    case Answer(s) => s
    case Forward(f) => ForwardIsNearer(LookupNode(t, n), id); FindSuccessor(t, f, id)
  }

  ghost function Forwards(t: Tables, n: Id, id: Id): nat
    requires Usable(t) && n in t.succ
    decreases Dist(n, id)
  {
    RouteMember(t, n, id);
    match RouteLookup(LookupNode(t, n), id)
    case Answer(_) => 0
    case Forward(f) => ForwardIsNearer(LookupNode(t, n), id); 1 + Forwards(t, f, id)
  }

  // ----- lookups while tables change between hops

  /** hops[i] is the state of the i-th node asked, at the time it is asked; each forwards to the next. */
  ghost predicate IsChain(hops: seq<Node>, id: Id) {
    forall i :: 0 <= i < |hops| ==>
      WellFormed(hops[i]) && (i + 1 < |hops| ==> RouteLookup(hops[i], id) == Forward(hops[i + 1].id))
  }

  lemma ChainNext(hops: seq<Node>, id: Id, i: nat)
    requires IsChain(hops, id) && i + 1 < |hops|
    ensures WellFormed(hops[i]) && RouteLookup(hops[i], id) == Forward(hops[i + 1].id)
  {
  }

  lemma {:induction false} ChainApproaches(hops: seq<Node>, id: Id, i: nat, j: nat)
    requires IsChain(hops, id) && i < j < |hops|
    ensures Dist(hops[j].id, id) < Dist(hops[i].id, id)
    decreases j
  {
    ChainNext(hops, id, j - 1);
    ForwardIsNearer(hops[j - 1], id);
    if i < j - 1 {
      ChainApproaches(hops, id, i, j - 1);
    }
  }

  ghost function Asked(hops: seq<Node>): set<Id> {
    set i | 0 <= i < |hops| :: hops[i].id
  }

  lemma {:induction false} ChainSize(hops: seq<Node>, id: Id)
    requires IsChain(hops, id)
    ensures |Asked(hops)| == |hops|
  {
    if hops != [] {
      var last := |hops| - 1;
      var front := hops[..last];
      ChainSize(front, id);
      forall i | 0 <= i < last ensures hops[i].id != hops[last].id {
        ChainApproaches(hops, id, i, last);
      }
      assert Asked(hops) == Asked(front) + {hops[last].id} by {
        forall x | x in Asked(hops) ensures x in Asked(front) + {hops[last].id} {
          var i :| 0 <= i < |hops| && hops[i].id == x;
          if i < last { assert front[i].id == x; }
        }
        forall x | x in Asked(front) ensures x in Asked(hops) {
          var i :| 0 <= i < |front| && front[i].id == x;
          assert hops[i].id == x;
        }
      }
      assert hops[last].id !in Asked(front);
    }
  }

  /** However pointers and fingers change between hops, a lookup never asks a node twice,
      gets strictly nearer to the ID, and asks no more nodes than there are members. */
  lemma ChainNeverRevisits(hops: seq<Node>, id: Id, members: set<Id>)
    requires IsChain(hops, id)
    requires forall i :: 0 <= i < |hops| ==> hops[i].id in members
    ensures forall i, j :: 0 <= i < j < |hops| ==>
              Dist(hops[j].id, id) < Dist(hops[i].id, id) && hops[i].id != hops[j].id
    ensures |hops| <= |members|
  {
    forall i, j | 0 <= i < j < |hops|
      ensures Dist(hops[j].id, id) < Dist(hops[i].id, id) && hops[i].id != hops[j].id
    {
      ChainApproaches(hops, id, i, j);
    }
    ChainSize(hops, id);
    SubsetCard(Asked(hops), members);
  }

  // ----- exactness on an ideal ring

  /** o is the first member at or after id. */
  ghost predicate IsOwner(members: set<Id>, id: Id, o: Id) {
    o in members && forall m :: m in members ==> Dist(id, o) <= Dist(id, m)
  }

  lemma OwnerUnique(members: set<Id>, id: Id, a: Id, b: Id)
    requires IsOwner(members, id, a) && IsOwner(members, id, b)
    ensures a == b
  {
  }

  ghost predicate FirstFinger(t: Tables, n: Id)
    requires Usable(t) && n in t.succ
  {
    t.fingers[n][0] == Some(t.succ[n])
  }

  ghost predicate FirstFingers(t: Tables)
    requires Usable(t)
  {
    forall n {:trigger FirstFinger(t, n)} :: n in t.succ ==> FirstFinger(t, n)
  }

  /** On an ideal ring the successor owns the arc up to and including it. */
  lemma SuccessorOwns(succ: Links, n: Id, id: Id)
    requires Ideal(succ) && n in succ && succ[n] in succ && id != n
    requires IsBetween(id, n, succ[n], true)
    ensures IsOwner(succ.Keys, id, succ[n])
  {
    forall m | m in succ ensures Dist(id, succ[n]) <= Dist(id, m) {
      assert Hop(n, succ[n]) <= Hop(n, m);
    }
  }

  /** A node answers exactly when it is alone, has the ID in its arc, or has no finger strictly before the ID; and it
      answers its successor. */
  lemma RouteIff(n: Node, id: Id)
    requires WellFormed(n)
    ensures RouteLookup(n, id).Answer? <==>
            || n.succ == n.id || Dist(n.id, id) <= Dist(n.id, n.succ)
            || forall i :: 0 <= i < BITS ==> !Before(n.fingers[i], n.id, id)
    ensures RouteLookup(n, id).Answer? ==> RouteLookup(n, id).node == n.succ
    ensures RouteLookup(n, id).Forward? ==>
            exists i :: 0 <= i < BITS && n.fingers[i] == Some(RouteLookup(n, id).node) && Before(n.fingers[i], n.id, id)
  {
    if forall i :: 0 <= i < BITS ==> !Before(n.fingers[i], n.id, id) {
      assert ClosestBelow(n, id, BITS) == n.id;
    }
  }

  /** The ID lies on the arc from the node up to its successor, or the node is alone. */
  ghost predicate OwnArc(succ: Links, n: Id, id: Id)
    requires n in succ
  {
    succ[n] == n || Dist(n, id) <= Dist(n, succ[n])
  }

  /** On an ideal ring a node's successor owns an ID other than the node's exactly when the ID is on that arc. */
  lemma SuccessorOwnsIff(succ: Links, n: Id, id: Id)
    requires Ideal(succ) && n in succ && id != n
    ensures succ[n] in succ && (IsOwner(succ.Keys, id, succ[n]) <==> OwnArc(succ, n, id))
  {
    assert Follow(succ, n) in succ;
    if succ[n] == n {
      forall m | m in succ ensures m == n {
        assert Hop(n, succ[n]) <= Hop(n, m);
      }
    } else if Dist(n, id) <= Dist(n, succ[n]) {
      SuccessorOwns(succ, n, id);
    } else {
      assert Dist(id, n) < Dist(id, succ[n]);
    }
  }

  // ----- lookups with arbitrary finger tables

  /** Some finger of n, at whatever index, lies strictly between n and the ID. */
  ghost predicate SeesBefore(t: Tables, n: Id, id: Id)
    requires Usable(t) && n in t.succ
  {
    exists i :: 0 <= i < BITS && Before(t.fingers[n][i], n, id)
  }

  /** The node that answers a lookup begun at n. */
  ghost function Answerer(t: Tables, n: Id, id: Id): (a: Id)
    requires Usable(t) && n in t.succ
    ensures a in t.succ
    decreases Dist(n, id)
  {
    RouteMember(t, n, id);
    match RouteLookup(LookupNode(t, n), id)
    case Answer(_) => n
    case Forward(f) => ForwardIsNearer(LookupNode(t, n), id); Answerer(t, f, id)
  }

  /** On an ideal ring, whatever the finger tables hold: a lookup returns the successor of the node that answers it, and
      that node has the ID on its own arc or sees no finger before it; the answer is the owner exactly in the first
      case. */
  lemma {:induction false} LookupOwnerIff(t: Tables, n: Id, id: Id)
    requires Usable(t) && Ideal(t.succ) && n in t.succ && id != n
    ensures var a := Answerer(t, n, id);
            && a != id && FindSuccessor(t, n, id) == t.succ[a]
            && (OwnArc(t.succ, a, id) || !SeesBefore(t, a, id))
            && (IsOwner(t.succ.Keys, id, FindSuccessor(t, n, id)) <==> OwnArc(t.succ, a, id))
    decreases Dist(n, id)
  {
    var node := LookupNode(t, n);
    RouteMember(t, n, id);
    RouteIff(node, id);
    match RouteLookup(node, id)
    case Answer(_) => SuccessorOwnsIff(t.succ, n, id);
    case Forward(f) =>
      ForwardIsNearer(node, id);
      LookupOwnerIff(t, f, id);
  }

  /** On an ideal ring with arbitrary finger tables, the lookups of an ID from all other nodes find its owner if and
      only if every node that lacks the ID on its arc has some finger, at any index, strictly before the ID. */
  lemma LookupsExactIff(t: Tables, id: Id)
    requires Usable(t) && Ideal(t.succ)
    ensures (forall n :: n in t.succ && n != id ==> IsOwner(t.succ.Keys, id, FindSuccessor(t, n, id)))
            <==> (forall n {:trigger OwnArc(t.succ, n, id)} :: n in t.succ && n != id ==>
                    OwnArc(t.succ, n, id) || SeesBefore(t, n, id))
  {
    forall n | n in t.succ && n != id ensures OwnArc(t.succ, n, id) || SeesBefore(t, n, id) || Answerer(t, n, id) == n {
      RouteIff(LookupNode(t, n), id);
    }
    forall n | n in t.succ && n != id
      ensures var a := Answerer(t, n, id);
              && a in t.succ && a != id && (OwnArc(t.succ, a, id) || !SeesBefore(t, a, id))
              && (IsOwner(t.succ.Keys, id, FindSuccessor(t, n, id)) <==> OwnArc(t.succ, a, id))
    {
      LookupOwnerIff(t, n, id);
    }
  }

  /** In particular, when every first finger names the successor, each such lookup returns the owner. */
  lemma LookupFindsOwner(t: Tables, n: Id, id: Id)
    requires Usable(t) && Ideal(t.succ) && FirstFingers(t) && n in t.succ && id != n
    ensures IsOwner(t.succ.Keys, id, FindSuccessor(t, n, id))
  {
    var a := Answerer(t, n, id);
    LookupOwnerIff(t, n, id);
    assert FirstFinger(t, a);
    assert !OwnArc(t.succ, a, id) ==> Before(t.fingers[a][0], a, id);
  }

  /** On an ideal ring whose first fingers name the successors, whatever the other fingers are, a lookup returns the
      first member at or after the ID, except exactly when a node with company looks up its own ID. */
  lemma LookupExactIff(t: Tables, n: Id, id: Id)
    requires Usable(t) && Ideal(t.succ) && FirstFingers(t) && n in t.succ
    ensures IsOwner(t.succ.Keys, id, FindSuccessor(t, n, id)) <==> id != n || t.succ[n] == n
    ensures id == n ==> FindSuccessor(t, n, id) == t.succ[n]
  {
    assert Follow(t.succ, n) in t.succ;
    if id != n {
      LookupFindsOwner(t, n, id);
    }
  }

  /** The last node asked gives the answer. */
  ghost predicate ChainAnswers(hops: seq<Node>, id: Id, e: Id) {
    hops != [] && IsChain(hops, id) && RouteLookup(hops[|hops| - 1], id) == Answer(e)
  }

  /** The node has its ideal successor, and its first finger on it. */
  ghost predicate FirstRight(succ: Links, n: Node) {
    n.id in succ && n.succ == succ[n.id] && |n.fingers| == BITS && n.fingers[0] == Some(n.succ)
  }

  /** Exactness needs no frozen tables: each node asked may be in a different state, with any fingers at all. If the
      last one has its ideal successor when it is asked, the answer is the owner exactly when the ID is on that node's
      arc, and otherwise that node sees no finger before the ID. */
  lemma ChainExactIff(succ: Links, hops: seq<Node>, id: Id, e: Id)
    requires Ideal(succ) && ChainAnswers(hops, id, e) && hops[0].id != id
    requires hops[|hops| - 1].id in succ && hops[|hops| - 1].succ == succ[hops[|hops| - 1].id]
    ensures var last := hops[|hops| - 1];
            && (IsOwner(succ.Keys, id, e) <==> OwnArc(succ, last.id, id))
            && (OwnArc(succ, last.id, id) || forall i :: 0 <= i < BITS ==> !Before(last.fingers[i], last.id, id))
  {
    var last := |hops| - 1;
    if last > 0 {
      ChainNext(hops, id, last - 1);
      ForwardIsNearer(hops[last - 1], id);
    }
    assert WellFormed(hops[last]);
    RouteIff(hops[last], id);
    SuccessorOwnsIff(succ, hops[last].id, id);
  }

  /** In particular when every node asked has its ideal successor and its first finger on it. */
  lemma ChainFindsOwner(succ: Links, hops: seq<Node>, id: Id, e: Id)
    requires Ideal(succ) && ChainAnswers(hops, id, e) && hops[0].id != id
    requires forall k :: 0 <= k < |hops| ==> FirstRight(succ, hops[k])
    ensures IsOwner(succ.Keys, id, e)
  {
    var n := hops[|hops| - 1];
    assert FirstRight(succ, n);
    ChainExactIff(succ, hops, id, e);
    assert !OwnArc(succ, n.id, id) ==> Before(n.fingers[0], n.id, id);
  }

  /** The start of a node's first finger's arc is answered by the node itself, with its successor. */
  lemma FirstLookup(hops: seq<Node>, n: Id, e: Id)
    requires ChainAnswers(hops, FingerId(n, 0), e) && hops[0].id == n
    ensures e == hops[0].succ
  {
    FingerDist(n, 0);
    assert Pow2(0) == 1;
    if |hops| > 1 { ChainNext(hops, FingerId(n, 0), 0); }
  }

  /** A node with no usable finger, such as one that has just joined, answers with its successor whatever the ID,
      which is right on an ideal ring exactly for the IDs up to that successor. */
  lemma NoFingerExactIff(t: Tables, n: Id, id: Id)
    requires Usable(t) && Ideal(t.succ) && n in t.succ && id != n
    requires forall i :: 0 <= i < BITS ==> t.fingers[n][i].None?
    ensures FindSuccessor(t, n, id) == t.succ[n]
    ensures IsOwner(t.succ.Keys, id, t.succ[n]) <==> IsBetween(id, n, t.succ[n], true)
  {
    assert Follow(t.succ, n) in t.succ;
    if IsBetween(id, n, t.succ[n], true) {
      SuccessorOwns(t.succ, n, id);
    } else {
      assert Dist(id, n) < Dist(id, t.succ[n]);
    }
  }

  // ----- finger tables

  ghost function Pow2(k: nat): (r: nat)
    ensures r > 0
  {
    if k == 0 then 1 else 2 * Pow2(k - 1)
  }

  lemma {:induction false} Pow2Add(a: nat, b: nat)
    ensures Pow2(a + b) == Pow2(a) * Pow2(b)
  {
    if a > 0 {
      Pow2Add(a - 1, b);
      assert Pow2(a + b) == 2 * Pow2(a - 1 + b);
      Reassociate(Pow2(a - 1), Pow2(b));
    }
  }

  lemma Reassociate(x: int, y: int)
    ensures 2 * (x * y) == (2 * x) * y
  {
  }

  lemma Pow2At40()
    ensures Pow2(40) == 0x100_0000_0000
  {
    assert Pow2(5) == 32;
    Pow2Add(5, 5);
    Pow2Add(10, 10);
    Pow2Add(20, 20);
  }

  lemma Pow2Ring()
    ensures Pow2(BITS) == RING
  {
    Pow2At40();
    Pow2Add(40, 40);
    Pow2Add(80, 80);
  }

  lemma {:induction false} Pow2Monotone(a: nat, b: nat)
    requires a <= b
    ensures Pow2(a) <= Pow2(b)
    decreases b
  {
    if a < b { Pow2Monotone(a, b - 1); }
  }

  lemma Pow2Below(i: nat)
    requires i < BITS
    ensures 2 * Pow2(i) <= RING
  {
    Pow2Ring();
    Pow2Monotone(i + 1, BITS);
  }

  /** The start of the i-th finger's arc. */
  ghost function FingerId(n: Id, i: nat): Id {
    (n + Pow2(i)) % RING
  }

  lemma FingerDist(n: Id, i: nat)
    requires i < BITS
    ensures Dist(n, FingerId(n, i)) == Pow2(i)
  {
    Pow2Below(i);
  }

  /** The i-th finger of n names the first member at or after the start of its arc. */
  ghost predicate ExactFinger(t: Tables, n: Id, i: nat)
    requires Usable(t) && n in t.succ && i < BITS
  {
    t.fingers[n][i].Some? && IsOwner(t.succ.Keys, FingerId(n, i), t.fingers[n][i].value)
  }

  ghost predicate ExactFingers(t: Tables)
    requires Usable(t)
  {
    forall n, i: nat {:trigger ExactFinger(t, n, i)} :: n in t.succ && i < BITS ==> ExactFinger(t, n, i)
  }

  /** The scan picks the highest finger between the node and the ID. */
  lemma {:induction false} ClosestIsHighest(n: Node, id: Id, k: nat, i: nat) returns (j: nat)
    requires i < k <= |n.fingers| && n.fingers[i].Some? && IsBetween(n.fingers[i].value, n.id, id, false)
    ensures i <= j < k && n.fingers[j] == Some(ClosestBelow(n, id, k))
    decreases k
  {
    if n.fingers[k - 1].Some? && IsBetween(n.fingers[k - 1].value, n.id, id, false) {
      j := k - 1;
    } else {
      j := ClosestIsHighest(n, id, k - 1, i);
    }
  }

  /** p is the last member strictly before id. */
  ghost predicate IsLastBefore(members: set<Id>, id: Id, p: Id) {
    p in members && forall m :: m in members ==> Hop(p, id) <= Hop(m, id)
  }

  lemma {:induction false} LastBeforeExists(members: set<Id>, id: Id) returns (p: Id)
    requires members != {}
    ensures IsLastBefore(members, id, p)
    decreases |members|
  {
    var x :| x in members;
    if members == {x} {
      p := x;
    } else {
      var q := LastBeforeExists(members - {x}, id);
      p := if Hop(x, id) < Hop(q, id) then x else q;
    }
  }

  /** An exact finger that lies before the ID is at least as far as the start of its arc. */
  lemma FingerReach(t: Tables, n: Id, id: Id, j: nat)
    requires Usable(t) && n in t.succ && j < BITS && ExactFinger(t, n, j)
    requires t.fingers[n][j].value != n
    ensures Dist(n, t.fingers[n][j].value) >= Pow2(j)
  {
    FingerDist(n, j);
    assert Dist(FingerId(n, j), t.fingers[n][j].value) <= Dist(FingerId(n, j), n);
  }

  /** An exact finger whose arc starts no later than p lies no later than p. */
  lemma FingerStop(t: Tables, n: Id, i: nat, p: Id)
    requires Usable(t) && n in t.succ && i < BITS && ExactFinger(t, n, i)
    requires p in t.succ && Pow2(i) <= Dist(n, p)
    ensures 0 < Dist(n, t.fingers[n][i].value) <= Dist(n, p)
  {
    FingerDist(n, i);
    assert Dist(FingerId(n, i), t.fingers[n][i].value) <= Dist(FingerId(n, i), p);
  }

  /** A forwarding node is not the last member before the ID. */
  lemma ForwarderIsEarlier(t: Tables, n: Id, id: Id, p: Id)
    requires Usable(t) && n in t.succ && IsLastBefore(t.succ.Keys, id, p)
    requires RouteLookup(LookupNode(t, n), id).Forward?
    ensures n != id && 0 < Dist(n, p) < Dist(n, id)
  {
    ForwardIsNearer(LookupNode(t, n), id);
    assert Follow(t.succ, n) in t.succ;
    assert Hop(p, id) <= Hop(t.succ[n], id);
    assert Hop(p, id) <= Hop(n, id);
  }

  /** With exact fingers a forward from distance at least 2^i to p lands within 2^i of p. */
  lemma ForwardHalves(t: Tables, n: Id, id: Id, p: Id, i: nat)
    requires Usable(t) && ExactFingers(t) && n in t.succ && IsLastBefore(t.succ.Keys, id, p) && i < BITS
    requires RouteLookup(LookupNode(t, n), id).Forward?
    requires Pow2(i) <= Dist(n, p) < 2 * Pow2(i)
    ensures var f := RouteLookup(LookupNode(t, n), id).node;
            f in t.succ && Dist(f, p) < Pow2(i)
  {
    var node := LookupNode(t, n);
    var f := RouteLookup(node, id).node;
    RouteMember(t, n, id);
    ForwarderIsEarlier(t, n, id, p);
    assert ExactFinger(t, n, i);
    FingerStop(t, n, i, p);
    var j := ClosestIsHighest(node, id, BITS, i);
    assert ExactFinger(t, n, j);
    FingerReach(t, n, id, j);
    Pow2Monotone(i, j);
    assert Hop(p, id) <= Hop(f, id);
    ForwardIsNearer(node, id);
    assert Dist(n, f) <= Dist(n, p);
    DistSplit(n, f, p);
  }

  lemma {:induction false} ForwardsWithin(t: Tables, n: Id, id: Id, p: Id, k: nat)
    requires Usable(t) && ExactFingers(t) && n in t.succ && IsLastBefore(t.succ.Keys, id, p) && k <= BITS
    requires Dist(n, p) < Pow2(k)
    ensures Forwards(t, n, id) <= k
    decreases k
  {
    RouteMember(t, n, id);
    if RouteLookup(LookupNode(t, n), id).Forward? {
      ForwarderIsEarlier(t, n, id, p);
      if Dist(n, p) < Pow2(k - 1) {
        ForwardsWithin(t, n, id, p, k - 1);
      } else {
        ForwardHalves(t, n, id, p, k - 1);
        ForwardsWithin(t, RouteLookup(LookupNode(t, n), id).node, id, p, k - 1);
      }
    }
  }

  /** With exact finger tables every lookup, from any member for any ID, is forwarded at most 160 times. */
  lemma LookupHops(t: Tables, n: Id, id: Id)
    requires Usable(t) && ExactFingers(t) && n in t.succ
    ensures Forwards(t, n, id) <= BITS
  {
    var p := LastBeforeExists(t.succ.Keys, id);
    Pow2Ring();
    ForwardsWithin(t, n, id, p, BITS);
  }

  // ----- fixing fingers

  /** Sets the i-th finger of n to what n's own lookup of the arc's start returns. */
  ghost function FixFinger(t: Tables, n: Id, i: nat): (t': Tables)
    requires Usable(t) && n in t.succ && i < BITS
    ensures Usable(t') && t'.succ == t.succ
  {
    t.(fingers := t.fingers[n := t.fingers[n][i := Some(FindSuccessor(t, n, FingerId(n, i)))]])
  }

  ghost predicate AreFixes(members: set<Id>, fixes: seq<(Id, nat)>) {
    forall f :: f in fixes ==> f.0 in members && f.1 < BITS
  }

  ghost function RunFixes(t: Tables, fixes: seq<(Id, nat)>): (t': Tables)
    requires Usable(t) && AreFixes(t.succ.Keys, fixes)
    ensures Usable(t') && t'.succ == t.succ
    decreases |fixes|
  {
    if fixes == [] then t else RunFixes(FixFinger(t, fixes[0].0, fixes[0].1), fixes[1..])
  }

  /** Fixing finger 0 writes the successor, whatever the table holds. */
  lemma FixFirst(t: Tables, n: Id)
    requires Usable(t) && Closed(t.succ) && n in t.succ
    ensures FindSuccessor(t, n, FingerId(n, 0)) == t.succ[n]
    ensures FirstFinger(FixFinger(t, n, 0), n)
  {
    FingerDist(n, 0);
    assert Pow2(0) == 1;
    assert Follow(t.succ, n) in t.succ;
  }

  lemma FixKeepsFirst(t: Tables, n: Id, i: nat, m: Id)
    requires Usable(t) && n in t.succ && i < BITS && m in t.succ && FirstFinger(t, m)
    ensures FirstFinger(FixFinger(t, n, i), m)
  {
    if i == 0 { FixFirst(t, n); }
  }

  lemma {:induction false} FixesSetFirst(t: Tables, fixes: seq<(Id, nat)>, m: Id)
    requires Usable(t) && AreFixes(t.succ.Keys, fixes) && m in t.succ
    requires FirstFinger(t, m) || (m, 0) in fixes
    ensures FirstFinger(RunFixes(t, fixes), m)
    decreases |fixes|
  {
    if fixes != [] {
      var (n, i) := fixes[0];
      assert (n, i) in fixes;
      if FirstFinger(t, m) {
        FixKeepsFirst(t, n, i, m);
      } else if fixes[0] == (m, 0) {
        FixFirst(t, m);
      }
      FixesSetFirst(FixFinger(t, n, i), fixes[1..], m);
    }
  }

  /** Once first fingers are set on an ideal ring, a fix writes the exact entry. */
  lemma FixIsExact(t: Tables, n: Id, i: nat)
    requires Usable(t) && Ideal(t.succ) && FirstFingers(t) && n in t.succ && i < BITS
    ensures ExactFinger(FixFinger(t, n, i), n, i)
  {
    FingerDist(n, i);
    LookupFindsOwner(t, n, FingerId(n, i));
  }

  lemma FixKeepsFirsts(t: Tables, n: Id, i: nat)
    requires Usable(t) && FirstFingers(t) && n in t.succ && i < BITS
    ensures FirstFingers(FixFinger(t, n, i))
  {
    forall m | m in t.succ ensures FirstFinger(FixFinger(t, n, i), m) {
      assert FirstFinger(t, m);
      FixKeepsFirst(t, n, i, m);
    }
  }

  lemma FixKeepsExact(t: Tables, n: Id, i: nat, m: Id, j: nat)
    requires Usable(t) && n in t.succ && i < BITS && m in t.succ && j < BITS && ExactFinger(t, m, j)
    requires m != n || j != i
    ensures ExactFinger(FixFinger(t, n, i), m, j)
  {
  }

  lemma {:induction false} FixesAreExact(t: Tables, fixes: seq<(Id, nat)>, m: Id, j: nat)
    requires Usable(t) && Ideal(t.succ) && FirstFingers(t) && AreFixes(t.succ.Keys, fixes)
    requires m in t.succ && j < BITS && (ExactFinger(t, m, j) || (m, j) in fixes)
    ensures ExactFinger(RunFixes(t, fixes), m, j)
    decreases |fixes|
  {
    if fixes != [] {
      var (n, i) := fixes[0];
      assert (n, i) in fixes;
      FixKeepsFirsts(t, n, i);
      if (n, i) == (m, j) { FixIsExact(t, n, i); }
      else if ExactFinger(t, m, j) { FixKeepsExact(t, n, i, m, j); }
      FixesAreExact(FixFinger(t, n, i), fixes[1..], m, j);
    }
  }

  ghost predicate CoversFirst(members: set<Id>, fixes: seq<(Id, nat)>) {
    forall n :: n in members ==> (n, 0) in fixes
  }

  ghost predicate CoversAll(members: set<Id>, fixes: seq<(Id, nat)>) {
    forall n, i: nat :: n in members && i < BITS ==> (n, i) in fixes
  }

  /** On an ideal ring with arbitrary fingers, any run that first fixes finger 0 of every member, among others in any
      order, and then every finger of every member, among others in any order, ends with exact tables. */
  lemma FixesConverge(t: Tables, first: seq<(Id, nat)>, rest: seq<(Id, nat)>)
    requires Usable(t) && Ideal(t.succ) && AreFixes(t.succ.Keys, first) && AreFixes(t.succ.Keys, rest)
    requires CoversFirst(t.succ.Keys, first) && CoversAll(t.succ.Keys, rest)
    ensures ExactFingers(RunFixes(RunFixes(t, first), rest))
  {
    var t1 := RunFixes(t, first);
    forall n | n in t1.succ ensures FirstFinger(t1, n) {
      FixesSetFirst(t, first, n);
    }
    var t2 := RunFixes(t1, rest);
    forall n, i: nat | n in t2.succ && i < BITS ensures ExactFinger(t2, n, i) {
      FixesAreExact(t1, rest, n, i);
    }
  }

  /** While the invariant holds, lookups stay among the members. */
  lemma InvTables(st: State, creator: Id)
    requires Inv(st, creator)
    ensures Usable(Tables(st.succ, st.fingers))
  {
    forall n | n in st.fingers ensures |st.fingers[n]| == BITS {
    }
  }
}
