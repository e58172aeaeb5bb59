/** Which node a store, a fetch and a delete choose, and that the nodes' responsibility sets together act as one set. */
module Placement {
  import opened Ring
  import opened Paths
  import opened ChordNodes
  import opened RingShape
  import opened Lookup

  /** Storing takes a shortcut when the file falls between the node and its successor. */
  ghost function StoreTarget(t: Tables, n: Id, cid: Cid): (r: Id)
    requires Usable(t) && n in t.succ
    ensures r in t.succ
  {
    RouteMember(t, n, cid.ringId);
    assert Follow(t.succ, n) in t.succ;
    match RouteStore(LookupNode(t, n), cid.ringId)
    case Answer(s) => s
    case Forward(f) => FindSuccessor(t, f, cid.ringId)
  }

  /** Fetching and deleting always look the file up. */
  ghost function LookupTarget(t: Tables, n: Id, cid: Cid): (r: Id)
    requires Usable(t) && n in t.succ
    ensures r in t.succ
  {
    FindSuccessor(t, n, cid.ringId)
  }

  /** The settled ring: ideal successors, and every first finger on the successor. */
  ghost predicate Ready(t: Tables) {
    Usable(t) && Ideal(t.succ) && FirstFingers(t)
  }

  /** A file whose ID is no member's ID goes to its owner, from any node and for every operation. */
  lemma TargetsOwn(t: Tables, n: Id, cid: Cid)
    requires Ready(t) && n in t.succ && cid.ringId != n
    ensures IsOwner(t.succ.Keys, cid.ringId, StoreTarget(t, n, cid))
    ensures IsOwner(t.succ.Keys, cid.ringId, LookupTarget(t, n, cid))
  {
    assert Follow(t.succ, n) in t.succ;
    LookupFindsOwner(t, n, cid.ringId);
    if IsBetween(cid.ringId, n, t.succ[n], true) {
      SuccessorOwns(t.succ, n, cid.ringId);
    }
  }

  lemma OwnIdTargets(t: Tables, n: Id, cid: Cid)
    requires Ready(t) && n in t.succ && cid.ringId == n
    ensures StoreTarget(t, n, cid) == LookupTarget(t, n, cid) == t.succ[n]
  {
    LookupExactIff(t, n, n);
  }

  /** The file's ID is not the ID of a member that has company. */
  predicate Agreed(members: set<Id>, cid: Cid) {
    cid.ringId !in members || members == {cid.ringId}
  }

  lemma TargetsOwnAgreed(t: Tables, n: Id, cid: Cid)
    requires Ready(t) && n in t.succ && Agreed(t.succ.Keys, cid)
    ensures IsOwner(t.succ.Keys, cid.ringId, StoreTarget(t, n, cid))
    ensures IsOwner(t.succ.Keys, cid.ringId, LookupTarget(t, n, cid))
  {
    if cid.ringId != n { TargetsOwn(t, n, cid); }
    else { assert StoreTarget(t, n, cid) in t.succ.Keys && LookupTarget(t, n, cid) in t.succ.Keys; }
  }

  /** All members choose the same node for a file, whatever the operation, unless the file's ID is the ID
      of a member that has company. */
  lemma TargetsAgreeIff(t: Tables, cid: Cid)
    requires Ready(t)
    ensures (forall m, n :: m in t.succ && n in t.succ ==> StoreTarget(t, m, cid) == LookupTarget(t, n, cid))
            <==> Agreed(t.succ.Keys, cid)
  {
    var members := t.succ.Keys;
    if cid.ringId !in members {
      forall m, n | m in members && n in members ensures StoreTarget(t, m, cid) == LookupTarget(t, n, cid) {
        TargetsOwn(t, m, cid);
        TargetsOwn(t, n, cid);
        OwnerUnique(members, cid.ringId, StoreTarget(t, m, cid), LookupTarget(t, n, cid));
      }
    } else if members != {cid.ringId} {
      var c := cid.ringId;
      var other :| other in members && other != c;
      TargetsOwn(t, other, cid);
      OwnIdTargets(t, c, cid);
      assert Hop(c, t.succ[c]) <= Hop(c, other);
      assert StoreTarget(t, c, cid) != LookupTarget(t, other, cid);
    }
  }

  datatype Op = Store(node: Id, cid: Cid, size: nat) | Delete(node: Id, cid: Cid)

  ghost predicate AreOps(members: set<Id>, ops: seq<Op>) {
    forall op :: op in ops ==> op.node in members
  }

  /** A store adds the file to the responsibilities of the chosen node, which refuses an empty file from another node;
      a delete removes it. */
  ghost function Perform(t: Tables, resp: map<Id, set<Cid>>, op: Op): (resp': map<Id, set<Cid>>)
    requires Usable(t) && resp.Keys == t.succ.Keys && op.node in t.succ
    ensures resp'.Keys == t.succ.Keys
  {
    match op
    case Store(n, cid, size) =>
      var x := StoreTarget(t, n, cid);
      if x != n && size == 0 then resp else resp[x := resp[x] + {cid}]
    case Delete(n, cid) => var x := LookupTarget(t, n, cid); resp[x := resp[x] - {cid}]
  }

  ghost function Run(t: Tables, resp: map<Id, set<Cid>>, ops: seq<Op>): (resp': map<Id, set<Cid>>)
    requires Usable(t) && resp.Keys == t.succ.Keys && AreOps(t.succ.Keys, ops)
    ensures resp'.Keys == t.succ.Keys
    decreases |ops|
  {
    if ops == [] then resp
    else assert ops[0] in ops; Run(t, Perform(t, resp, ops[0]), ops[1..])
  }

  // ----- the distributed responsibilities implement one set of stored files

  /** The operation is a store of the file that is not refused: the file has content, or its owner stores it itself. */
  ghost predicate Admits(members: set<Id>, op: Op, cid: Cid) {
    op.Store? && op.cid == cid && (op.size > 0 || IsOwner(members, cid.ringId, op.node))
  }

  ghost predicate Kept(ops: seq<Op>, from: nat, cid: Cid) {
    forall i :: from <= i < |ops| ==> !(ops[i].Delete? && ops[i].cid == cid)
  }

  /** Some operation admitted the file and no later one deletes it, or it was there before and none deletes it. */
  ghost predicate Stored(members: set<Id>, before: bool, ops: seq<Op>, cid: Cid) {
    || (before && Kept(ops, 0, cid))
    || exists i :: 0 <= i < |ops| && Admits(members, ops[i], cid) && Kept(ops, i, cid)
  }

  /** If the file is stored, exactly its owner is responsible for it; otherwise nobody is. */
  ghost predicate Placed(members: set<Id>, resp: map<Id, set<Cid>>, cid: Cid, stored: bool)
    requires resp.Keys == members
  {
    forall x {:trigger cid in resp[x]} :: x in members ==>
      (cid in resp[x] <==> stored && IsOwner(members, cid.ringId, x))
  }

  ghost predicate StoredOnce(members: set<Id>, before: bool, op: Op, cid: Cid) {
    Admits(members, op, cid) || (before && !(op.Delete? && op.cid == cid))
  }

  lemma KeptTail(ops: seq<Op>, from: nat, cid: Cid)
    requires 0 < from <= |ops|
    ensures Kept(ops, from, cid) <==> Kept(ops[1..], from - 1, cid)
  {
    if Kept(ops, from, cid) {
      forall i | from - 1 <= i < |ops[1..]| ensures !(ops[1..][i].Delete? && ops[1..][i].cid == cid) {
        assert ops[1..][i] == ops[i + 1];
      }
    }
    if Kept(ops[1..], from - 1, cid) {
      forall i | from <= i < |ops| ensures !(ops[i].Delete? && ops[i].cid == cid) {
        assert ops[1..][i - 1] == ops[i];
      }
    }
  }

  lemma StoredTail(members: set<Id>, before: bool, ops: seq<Op>, cid: Cid)
    requires ops != []
    ensures Stored(members, before, ops, cid) <==>
            Stored(members, StoredOnce(members, before, ops[0], cid), ops[1..], cid)
  {
    var now := StoredOnce(members, before, ops[0], cid);
    KeptTail(ops, 1, cid);
    if i :| 0 <= i < |ops| && Admits(members, ops[i], cid) && Kept(ops, i, cid) {
      if i > 0 {
        KeptTail(ops, i, cid);
        assert ops[1..][i - 1] == ops[i];
      }
    }
    if i :| 0 <= i < |ops[1..]| && Admits(members, ops[1..][i], cid) && Kept(ops[1..], i, cid) {
      KeptTail(ops, i + 1, cid);
      assert ops[i + 1] == ops[1..][i];
    }
    if now && Kept(ops[1..], 0, cid) && Admits(members, ops[0], cid) {
      assert Kept(ops, 0, cid);
    }
  }

  /** An operation on another file does not matter, wherever it goes. */
  lemma OtherPlaced(t: Tables, resp: map<Id, set<Cid>>, op: Op, cid: Cid, before: bool)
    requires Usable(t) && resp.Keys == t.succ.Keys && op.node in t.succ && op.cid != cid
    requires Placed(t.succ.Keys, resp, cid, before)
    ensures Placed(t.succ.Keys, Perform(t, resp, op), cid, before)
  {
    var resp' := Perform(t, resp, op);
    forall x | x in t.succ.Keys ensures cid in resp'[x] <==> before && IsOwner(t.succ.Keys, cid.ringId, x) {
      assert cid in resp[x] <==> before && IsOwner(t.succ.Keys, cid.ringId, x);
    }
  }

  lemma AddPlaced(members: set<Id>, resp: map<Id, set<Cid>>, cid: Cid, before: bool, o: Id)
    requires resp.Keys == members && Placed(members, resp, cid, before) && IsOwner(members, cid.ringId, o)
    ensures Placed(members, resp[o := resp[o] + {cid}], cid, true)
  {
    forall x | x in members ensures cid in resp[o := resp[o] + {cid}][x] <==> IsOwner(members, cid.ringId, x) {
      assert cid in resp[x] <==> before && IsOwner(members, cid.ringId, x);
      if IsOwner(members, cid.ringId, x) { OwnerUnique(members, cid.ringId, x, o); }
    }
  }

  lemma RemovePlaced(members: set<Id>, resp: map<Id, set<Cid>>, cid: Cid, before: bool, o: Id)
    requires resp.Keys == members && Placed(members, resp, cid, before) && IsOwner(members, cid.ringId, o)
    ensures Placed(members, resp[o := resp[o] - {cid}], cid, false)
  {
    forall x | x in members ensures cid !in resp[o := resp[o] - {cid}][x] {
      assert cid in resp[x] <==> before && IsOwner(members, cid.ringId, x);
      if IsOwner(members, cid.ringId, x) { OwnerUnique(members, cid.ringId, x, o); }
    }
  }

  lemma StepPlaced(t: Tables, resp: map<Id, set<Cid>>, op: Op, cid: Cid, before: bool)
    requires Ready(t) && resp.Keys == t.succ.Keys && op.node in t.succ && Agreed(t.succ.Keys, cid)
    requires Placed(t.succ.Keys, resp, cid, before)
    ensures Placed(t.succ.Keys, Perform(t, resp, op), cid, StoredOnce(t.succ.Keys, before, op, cid))
  {
    var members := t.succ.Keys;
    if op.cid != cid {
      OtherPlaced(t, resp, op, cid, before);
    } else {
      TargetsOwnAgreed(t, op.node, cid);
      match op
      case Store(n, _, size) =>
        var o := StoreTarget(t, n, cid);
        if IsOwner(members, cid.ringId, n) { OwnerUnique(members, cid.ringId, n, o); }
        if Admits(members, op, cid) { AddPlaced(members, resp, cid, before, o); }
      case Delete(n, _) => RemovePlaced(members, resp, cid, before, LookupTarget(t, n, cid));
    }
  }

  /** Over any stores and deletes of any files issued from any members, a file whose ID is no member's that has
      company is held by exactly its owner while it is stored, and by nobody otherwise. */
  lemma {:induction false} RunPlaces(t: Tables, resp: map<Id, set<Cid>>, ops: seq<Op>, cid: Cid, before: bool)
    requires Ready(t) && resp.Keys == t.succ.Keys && AreOps(t.succ.Keys, ops) && Agreed(t.succ.Keys, cid)
    requires Placed(t.succ.Keys, resp, cid, before)
    ensures Placed(t.succ.Keys, Run(t, resp, ops), cid, Stored(t.succ.Keys, before, ops, cid))
    decreases |ops|
  {
    if ops != [] {
      assert ops[0] in ops;
      StepPlaced(t, resp, ops[0], cid, before);
      StoredTail(t.succ.Keys, before, ops, cid);
      RunPlaces(t, Perform(t, resp, ops[0]), ops[1..], cid, StoredOnce(t.succ.Keys, before, ops[0], cid));
    }
  }

  /** A fetch takes the file from the node's own disk, or else from the node that its lookup finds. While nothing is
      transferred a node has on disk what it is responsible for. */
  ghost predicate Fetches(t: Tables, resp: map<Id, set<Cid>>, n: Id, cid: Cid)
    requires Usable(t) && resp.Keys == t.succ.Keys && n in t.succ
  {
    cid in resp[n] || cid in resp[LookupTarget(t, n, cid)]
  }

  /** A fetch from n finds the file exactly when some store was admitted and no delete came after it; and nobody is
      responsible for it but the node that n looks it up at. */
  ghost predicate Finds(t: Tables, resp: map<Id, set<Cid>>, ops: seq<Op>, n: Id, cid: Cid)
    requires Usable(t) && resp.Keys == t.succ.Keys && AreOps(t.succ.Keys, ops) && n in t.succ
  {
    var resp' := Run(t, resp, ops);
    && (Fetches(t, resp', n, cid) <==>
        exists i :: 0 <= i < |ops| && Admits(t.succ.Keys, ops[i], cid) && Kept(ops, i, cid))
    && forall x :: x in resp' && cid in resp'[x] ==> x == LookupTarget(t, n, cid)
  }

  /** Nobody has the file, then the operations are performed; n is a member. */
  ghost predicate FromNothing(t: Tables, resp: map<Id, set<Cid>>, ops: seq<Op>, n: Id, cid: Cid) {
    && resp.Keys == t.succ.Keys && AreOps(t.succ.Keys, ops) && n in t.succ
    && forall x :: x in resp ==> cid !in resp[x]
  }

  lemma FetchFinds(t: Tables, resp: map<Id, set<Cid>>, ops: seq<Op>, n: Id, cid: Cid)
    requires Ready(t) && Agreed(t.succ.Keys, cid) && FromNothing(t, resp, ops, n, cid)
    ensures Finds(t, resp, ops, n, cid)
  {
    RunPlaces(t, resp, ops, cid, false);
    TargetsOwnAgreed(t, n, cid);
    var resp' := Run(t, resp, ops);
    forall x | x in resp' && cid in resp'[x] ensures x == LookupTarget(t, n, cid) {
      OwnerUnique(t.succ.Keys, cid.ringId, x, LookupTarget(t, n, cid));
    }
  }

  lemma RunOne(t: Tables, resp: map<Id, set<Cid>>, op: Op)
    requires Usable(t) && resp.Keys == t.succ.Keys && op.node in t.succ
    ensures Run(t, resp, [op]) == Perform(t, resp, op)
  {
    assert [op][1..] == [];
  }

  lemma RunTwo(t: Tables, resp: map<Id, set<Cid>>, a: Op, b: Op)
    requires Usable(t) && resp.Keys == t.succ.Keys && a.node in t.succ && b.node in t.succ
    ensures Run(t, resp, [a, b]) == Perform(t, Perform(t, resp, a), b)
  {
    assert [a, b][1..] == [b];
    RunOne(t, Perform(t, resp, a), b);
  }

  /** Another member stores a file at the member whose ID it has; that member's delete goes to its successor, and the
      file is still found. */
  lemma FetchMisses(t: Tables, cid: Cid) returns (resp: map<Id, set<Cid>>, ops: seq<Op>, n: Id)
    requires Ready(t) && !Agreed(t.succ.Keys, cid)
    ensures FromNothing(t, resp, ops, n, cid) && !Finds(t, resp, ops, n, cid)
  {
    var c := cid.ringId;
    n :| n in t.succ.Keys && n != c;
    resp := map x | x in t.succ.Keys :: {};
    ops := [Store(n, cid, 1), Delete(c, cid)];
    TargetsOwn(t, n, cid);
    OwnIdTargets(t, c, cid);
    assert Hop(c, t.succ[c]) <= Hop(c, n);
    RunTwo(t, resp, ops[0], ops[1]);
    assert forall i :: 0 <= i < |ops| && Admits(t.succ.Keys, ops[i], cid) ==> i == 0;
    assert !Kept(ops, 0, cid) by { assert ops[1].Delete?; }
  }

  /** After any stores and deletes from any members, fetches from all members find exactly the stored file, if and
      only if its ID is not the ID of a member that has company. */
  lemma FetchFindsIff(t: Tables, cid: Cid)
    requires Ready(t)
    ensures (forall resp, ops, n :: FromNothing(t, resp, ops, n, cid) ==> Finds(t, resp, ops, n, cid))
            <==> Agreed(t.succ.Keys, cid)
  {
    if Agreed(t.succ.Keys, cid) {
      forall resp, ops, n | FromNothing(t, resp, ops, n, cid) ensures Finds(t, resp, ops, n, cid) {
        FetchFinds(t, resp, ops, n, cid);
      }
    } else {
      var resp, ops, n := FetchMisses(t, cid);
    }
  }
}
