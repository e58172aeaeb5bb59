/** Stores and deletes in a settled ring while everything else goes on: requests find their node hop by hop and arrive
    when they arrive. */
module Delivery {
  import opened Ring
  import opened Paths
  import opened ChordNodes
  import opened Protocol
  import opened RingShape
  import opened Convergence
  import opened Lookup
  import opened EndToEnd
  import opened Placement
  import opened Transfers

  /** A node seen in the run takes the shortcut to its successor. */
  ghost predicate Shortcut(st: State, acts: seq<Action>, j: nat, id: Id, e: Id)
    requires Shaped(st) && IsRun(st, acts) && j <= |acts|
  {
    exists node, t: nat {:trigger SeenAt(st, acts, t, node)} ::
      t <= j && SeenAt(st, acts, t, node) && IsBetween(id, node.id, node.succ, true) && e == node.succ
  }

  /** Some node's lookup in the run returns e before the j-th action. */
  ghost predicate FoundBy(st: State, acts: seq<Action>, j: nat, id: Id, e: Id)
    requires Shaped(st) && IsRun(st, acts) && j <= |acts|
  {
    exists n, hops, times :: LookupVia(st, acts, j, n, id, e, hops, times)
  }

  /** A store of the file goes where the shortcut or a lookup made during the run leads, a delete where a lookup
      leads. */
  ghost predicate Routed(st: State, acts: seq<Action>, j: nat, a: Action, cid: Cid)
    requires Shaped(st) && IsRun(st, acts) && j <= |acts|
  {
    && (a.RequestStore? && a.cid == cid ==>
          Shortcut(st, acts, j, cid.ringId, a.target) || FoundBy(st, acts, j, cid.ringId, a.target))
    && (a.RequestDelete? && a.cid == cid ==> FoundBy(st, acts, j, cid.ringId, a.target))
  }

  /** A steady run in which fingers are fixed and the file is stored and deleted through lookups. */
  ghost predicate IsServiceRun(st: State, acts: seq<Action>, cid: Cid)
    requires Shaped(st)
  {
    IsFixRun(st, acts) && forall j :: 0 <= j < |acts| ==> Routed(st, acts, j, acts[j], cid)
  }

  /** A settled ring in which no transfer is under way. */
  ghost predicate Serving(st: State, creator: Id) {
    Inv(st, creator) && IdealRing(st) && Calm(st)
  }

  ghost predicate Calm(st: State) {
    st.spawned == multiset{} && st.jobs == multiset{}
  }

  // ----- requests go to the owner

  ghost predicate ToOwner(members: set<Id>, a: Action, cid: Cid) {
    (a.RequestStore? || a.RequestDelete?) && a.cid == cid ==> IsOwner(members, cid.ringId, a.target)
  }

  lemma {:induction false} EnabledAt(st: State, acts: seq<Action>, creator: Id, j: nat)
    requires Inv(st, creator) && IdealRing(st) && IsRun(st, acts) && AllSteady(acts) && j < |acts|
    ensures acts[j].RequestStore? || acts[j].RequestDelete? ==> acts[j].target in st.succ
    decreases j
  {
    if j > 0 {
      IdealStep(st, acts[0], creator);
      StepInv(st, acts[0], creator);
      SameIdeal(st, Next(st, acts[0]));
      EnabledAt(Next(st, acts[0]), acts[1..], creator, j - 1);
    }
  }

  lemma FoundOwner(st: State, acts: seq<Action>, creator: Id, j: nat, id: Id, e: Id)
    requires Inv(st, creator) && IdealRing(st) && IsFixRun(st, acts) && FirstsRight(st)
    requires j <= |acts| && id !in st.succ && FoundBy(st, acts, j, id, e)
    ensures IsOwner(st.succ.Keys, id, e)
  {
    var n, hops, times :| LookupVia(st, acts, j, n, id, e, hops, times);
    AtIdeal(st, acts, times[0], creator);
    assert SeenAt(st, acts, times[0], hops[0]);
    LookupRight(st, acts, creator, j, n, id, e, hops, times);
  }

  lemma ShortcutOwner(st: State, acts: seq<Action>, creator: Id, j: nat, id: Id, e: Id)
    requires Inv(st, creator) && IdealRing(st) && IsFixRun(st, acts)
    requires j <= |acts| && id !in st.succ && Shortcut(st, acts, j, id, e)
    ensures IsOwner(st.succ.Keys, id, e)
  {
    var node, t: nat :|
      t <= j && SeenAt(st, acts, t, node) && IsBetween(id, node.id, node.succ, true) && e == node.succ;
    AtIdeal(st, acts, t, creator);
    assert Follow(st.succ, node.id) in st.succ;
    SuccessorOwns(st.succ, node.id, id);
  }

  /** Every store and delete of the file goes to its owner. */
  lemma RequestRight(st: State, acts: seq<Action>, creator: Id, j: nat, cid: Cid)
    requires Inv(st, creator) && IdealRing(st) && FirstsRight(st) && IsServiceRun(st, acts, cid) && j < |acts|
    requires Agreed(st.succ.Keys, cid)
    ensures ToOwner(st.succ.Keys, acts[j], cid)
  {
    var a := acts[j];
    if (a.RequestStore? || a.RequestDelete?) && a.cid == cid {
      EnabledAt(st, acts, creator, j);
      assert Routed(st, acts, j, a, cid);
      if cid.ringId !in st.succ {
        if FoundBy(st, acts, j, cid.ringId, a.target) { FoundOwner(st, acts, creator, j, cid.ringId, a.target); }
        else { ShortcutOwner(st, acts, creator, j, cid.ringId, a.target); }
      }
    }
  }

  // ----- no transfer starts

  lemma HandleCalm(st: State, m: Msg)
    requires Shaped(st) && m.dst in st.succ && SamePointers(st, Handle(st, m))
    ensures Handle(st, m).spawned == st.spawned && Handle(st, m).jobs == st.jobs
  {
    HandleFrame(st, m);
    if m.Notify? {
      assert Handle(st, m).pred == WithPred(st.pred, m.dst, OnNotify(NodeAt(st, m.dst), m.node).pred);
    }
  }

  lemma CalmStays(st: State, a: Action, creator: Id)
    requires Inv(st, creator) && IdealRing(st) && Enabled(st, a) && Steady(a) && Calm(st)
    ensures Calm(Next(st, a))
  {
    IdealStep(st, a, creator);
    if IsFileAction(a) {
      FileSpawned(st, a);
      forall j ensures j !in FileStep(st, a).jobs {
        if j in FileStep(st, a).jobs { FileJobStep(st, a, j); }
      }
    } else if a.Deliver? {
      HandleCalm(st.(net := st.net - multiset{a.msg}), a.msg);
    }
  }

  // ----- only the owner becomes responsible

  /** Nobody but o is responsible for the file, or about to be told anything about it. */
  ghost predicate OnlyAt(st: State, cid: Cid, o: Id) {
    forall x :: Carries(st, cid, x) || DeleteFile(x, cid) in st.net ==> x == o
  }

  /** A carrier comes from a request, a transfer or another carrier. */
  lemma CarrierComes(st: State, a: Action, cid: Cid, x: Id)
    requires Shaped(st) && Enabled(st, a) && Steady(a) && Calm(st) && Carries(Next(st, a), cid, x)
    ensures Carries(st, cid, x) || (a.RequestStore? && a.cid == cid && a.target == x)
  {
    if StoreFile(x, cid) in Next(st, a).net {
      NetStep(st, a, StoreFile(x, cid));
    } else if a.Deliver? {
      HandleResp(st.(net := st.net - multiset{a.msg}), a.msg, cid, x);
    } else if IsFileAction(a) {
      FileResp(st, a, cid, x);
    }
  }

  lemma HandleResp(st: State, m: Msg, cid: Cid, x: Id)
    requires Shaped(st) && m.dst in st.succ && x in st.resp
    ensures x in Handle(st, m).resp
    ensures cid in Handle(st, m).resp[x] <==>
            (m == StoreFile(x, cid) || (cid in st.resp[x] && m != DeleteFile(x, cid)))
  {
    match m
    case GetPred(_, _) =>
    case PredReply(_, _, _) =>
    case Notify(_, _) =>
    case StoreFile(_, _) =>
    case DeleteFile(_, _) =>
  }

  lemma FileResp(st: State, a: Action, cid: Cid, x: Id)
    requires Shaped(st) && Enabled(st, a) && IsFileAction(a) && Calm(st) && x in st.resp
    ensures x in FileStep(st, a).resp && (cid in FileStep(st, a).resp[x] <==> cid in st.resp[x])
  {
    match a
    case RequestStore(_, _) =>
    case RequestDelete(_, _) =>
    case BeginTransfer(_) =>
    case SendJob(_) =>
    case AbandonJob(_) =>
    case FinishJob(_) =>
  }

  /** What a node is responsible for changes only when a store or a delete arrives. */
  lemma RespStep(st: State, a: Action, cid: Cid, x: Id)
    requires Shaped(st) && Enabled(st, a) && Steady(a) && Calm(st) && x in st.resp
    ensures x in Next(st, a).resp
    ensures cid in Next(st, a).resp[x] <==>
            a == Deliver(StoreFile(x, cid)) || (cid in st.resp[x] && a != Deliver(DeleteFile(x, cid)))
  {
    if a.Deliver? { HandleResp(st.(net := st.net - multiset{a.msg}), a.msg, cid, x); }
    else if IsFileAction(a) { FileResp(st, a, cid, x); }
  }

  lemma ServingStays(st: State, a: Action, creator: Id)
    requires Serving(st, creator) && Enabled(st, a) && Steady(a)
    ensures Serving(Next(st, a), creator) && Next(st, a).succ == st.succ
  {
    IdealStep(st, a, creator);
    StepInv(st, a, creator);
    SameIdeal(st, Next(st, a));
    CalmStays(st, a, creator);
  }

  lemma OnlyAtStays(st: State, a: Action, cid: Cid, o: Id)
    requires Shaped(st) && Enabled(st, a) && Steady(a) && Calm(st) && OnlyAt(st, cid, o)
    requires ToOwner(st.succ.Keys, a, cid) && IsOwner(st.succ.Keys, cid.ringId, o)
    ensures OnlyAt(Next(st, a), cid, o)
  {
    forall x | Carries(Next(st, a), cid, x) || DeleteFile(x, cid) in Next(st, a).net ensures x == o {
      if Carries(Next(st, a), cid, x) { CarrierComes(st, a, cid, x); }
      else { NetStep(st, a, DeleteFile(x, cid)); }
      if !Carries(st, cid, x) && DeleteFile(x, cid) !in st.net {
        OwnerUnique(st.succ.Keys, cid.ringId, x, o);
      }
    }
  }

  // ----- whole runs

  ghost predicate ToOwners(members: set<Id>, acts: seq<Action>, cid: Cid) {
    forall j :: 0 <= j < |acts| ==> ToOwner(members, acts[j], cid)
  }

  /** No delete of the file arrives at o from the i-th action on. */
  ghost predicate Undeleted(acts: seq<Action>, i: nat, o: Id, cid: Cid) {
    forall j :: i <= j < |acts| ==> acts[j] != Deliver(DeleteFile(o, cid))
  }

  /** A store of the file arrives at o and no delete after it, or o had the file and no delete arrives. */
  ghost predicate Arrived(acts: seq<Action>, o: Id, cid: Cid, before: bool) {
    || (before && Undeleted(acts, 0, o, cid))
    || exists i :: 0 <= i < |acts| && acts[i] == Deliver(StoreFile(o, cid)) && Undeleted(acts, i, o, cid)
  }

  lemma UndeletedTail(acts: seq<Action>, i: nat, o: Id, cid: Cid)
    requires 0 < i <= |acts|
    ensures Undeleted(acts, i, o, cid) <==> Undeleted(acts[1..], i - 1, o, cid)
  {
    if Undeleted(acts, i, o, cid) {
      forall j | i - 1 <= j < |acts[1..]| ensures acts[1..][j] != Deliver(DeleteFile(o, cid)) {
        assert acts[1..][j] == acts[j + 1];
      }
    }
    if Undeleted(acts[1..], i - 1, o, cid) {
      forall j | i <= j < |acts| ensures acts[j] != Deliver(DeleteFile(o, cid)) {
        assert acts[1..][j - 1] == acts[j];
      }
    }
  }

  lemma ArrivedTail(acts: seq<Action>, o: Id, cid: Cid, before: bool)
    requires acts != []
    ensures var now := acts[0] == Deliver(StoreFile(o, cid)) || (before && acts[0] != Deliver(DeleteFile(o, cid)));
            Arrived(acts, o, cid, before) <==> Arrived(acts[1..], o, cid, now)
  {
    UndeletedTail(acts, 1, o, cid);
    if i :| 0 < i < |acts| && acts[i] == Deliver(StoreFile(o, cid)) && Undeleted(acts, i, o, cid) {
      UndeletedTail(acts, i, o, cid);
      assert acts[1..][i - 1] == acts[i];
    }
    if i :| 0 <= i < |acts[1..]| && acts[1..][i] == Deliver(StoreFile(o, cid)) && Undeleted(acts[1..], i, o, cid) {
      UndeletedTail(acts, i + 1, o, cid);
      assert acts[i + 1] == acts[1..][i];
    }
    if acts[0] == Deliver(StoreFile(o, cid)) && Undeleted(acts[1..], 0, o, cid) {
      assert Undeleted(acts, 0, o, cid);
    }
  }

  lemma {:induction false} OwnerRun(st: State, acts: seq<Action>, creator: Id, cid: Cid, o: Id)
    requires Serving(st, creator) && IsRun(st, acts) && AllSteady(acts) && ToOwners(st.succ.Keys, acts, cid)
    requires IsOwner(st.succ.Keys, cid.ringId, o) && OnlyAt(st, cid, o)
    ensures OnlyAt(Exec(st, acts), cid, o) && Exec(st, acts).succ == st.succ
    ensures cid in Exec(st, acts).resp[o] <==> Arrived(acts, o, cid, cid in st.resp[o])
    decreases |acts|
  {
    if acts != [] {
      var a, st' := acts[0], Next(st, acts[0]);
      assert ToOwner(st.succ.Keys, a, cid);
      ServingStays(st, a, creator);
      OnlyAtStays(st, a, cid, o);
      RespStep(st, a, cid, o);
      ArrivedTail(acts, o, cid, cid in st.resp[o]);
      forall j | 0 <= j < |acts[1..]| ensures ToOwner(st.succ.Keys, acts[1..][j], cid) {
        assert ToOwner(st.succ.Keys, acts[j + 1], cid);
      }
      OwnerRun(st', acts[1..], creator, cid, o);
    }
  }

  /** On a settled ring, whatever else goes on and however long messages take, every store and delete of the file finds
      its owner; nobody else ever becomes responsible; and the owner has the file in the end exactly when a store
      arrived there with no delete after it. */
  lemma ServiceRun(st: State, acts: seq<Action>, creator: Id, cid: Cid, o: Id)
    requires Serving(st, creator) && FirstsRight(st) && IsServiceRun(st, acts, cid)
    requires Agreed(st.succ.Keys, cid) && IsOwner(st.succ.Keys, cid.ringId, o) && OnlyAt(st, cid, o)
    ensures ToOwners(st.succ.Keys, acts, cid)
    ensures forall x :: x in Exec(st, acts).resp ==>
              (cid in Exec(st, acts).resp[x] <==> x == o && Arrived(acts, o, cid, cid in st.resp[o]))
  {
    forall j | 0 <= j < |acts| ensures ToOwner(st.succ.Keys, acts[j], cid) {
      RequestRight(st, acts, creator, j, cid);
    }
    OwnerRun(st, acts, creator, cid, o);
    forall x | x in Exec(st, acts).resp && cid in Exec(st, acts).resp[x] ensures x == o {
      assert Carries(Exec(st, acts), cid, x);
    }
  }

  // ----- nothing stored gets lost

  ghost predicate NoDeletes(st: State, cid: Cid) {
    forall d :: DeleteFile(d, cid) !in st.net
  }

  lemma {:induction false} CarriedRun(st: State, acts: seq<Action>, creator: Id, cid: Cid, o: Id)
    requires Serving(st, creator) && IsRun(st, acts) && AllSteady(acts) && ToOwners(st.succ.Keys, acts, cid)
    requires IsOwner(st.succ.Keys, cid.ringId, o) && OnlyAt(st, cid, o) && NoDeletes(st, cid) && NoDelete(acts, cid)
    ensures Carries(Exec(st, acts), cid, o) <==> Carries(st, cid, o) || Stores(acts, cid)
    decreases |acts|
  {
    if acts != [] {
      var a, st' := acts[0], Next(st, acts[0]);
      assert ToOwner(st.succ.Keys, a, cid);
      ServingStays(st, a, creator);
      OnlyAtStays(st, a, cid, o);
      CarriedStep(st, a, cid, o);
      StoresTail(acts, cid);
      forall j | 0 <= j < |acts[1..]| ensures ToOwner(st.succ.Keys, acts[1..][j], cid) {
        assert ToOwner(st.succ.Keys, acts[j + 1], cid);
      }
      CarriedRun(st', acts[1..], creator, cid, o);
    }
  }

  lemma CarriedStep(st: State, a: Action, cid: Cid, o: Id)
    requires Shaped(st) && Enabled(st, a) && Steady(a) && Calm(st) && NoDeletes(st, cid)
    requires !(a.RequestDelete? && a.cid == cid)
    requires ToOwner(st.succ.Keys, a, cid) && IsOwner(st.succ.Keys, cid.ringId, o)
    ensures NoDeletes(Next(st, a), cid)
    ensures Carries(Next(st, a), cid, o) <==> Carries(st, cid, o) || IsStore(a, cid)
  {
    if Carries(st, cid, o) { CarrierStays(st, a, cid, o); }
    if Carries(Next(st, a), cid, o) { CarrierComes(st, a, cid, o); }
    if IsStore(a, cid) { OwnerUnique(st.succ.Keys, cid.ringId, a.target, o); }
    forall d ensures DeleteFile(d, cid) !in Next(st, a).net {
      if DeleteFile(d, cid) in Next(st, a).net { NetStep(st, a, DeleteFile(d, cid)); }
    }
  }

  /** Without deletes, the owner has the file or is about to receive it exactly when that was so before or the file is
      stored in the run; and when no member has the file's ID, every lookup of it made in the run leads there. */
  lemma StoredAtOwner(st: State, acts: seq<Action>, creator: Id, cid: Cid, o: Id)
    requires Serving(st, creator) && FirstsRight(st) && IsServiceRun(st, acts, cid)
    requires Agreed(st.succ.Keys, cid) && IsOwner(st.succ.Keys, cid.ringId, o) && OnlyAt(st, cid, o)
    requires NoDeletes(st, cid) && NoDelete(acts, cid)
    ensures Carries(Exec(st, acts), cid, o) <==> Carries(st, cid, o) || Stores(acts, cid)
    ensures forall j, e :: 0 <= j <= |acts| && cid.ringId !in st.succ && FoundBy(st, acts, j, cid.ringId, e) ==> e == o
  {
    ServiceRun(st, acts, creator, cid, o);
    CarriedRun(st, acts, creator, cid, o);
    forall j, e | 0 <= j <= |acts| && cid.ringId !in st.succ && FoundBy(st, acts, j, cid.ringId, e) ensures e == o {
      FoundOwner(st, acts, creator, j, cid.ringId, e);
      OwnerUnique(st.succ.Keys, cid.ringId, e, o);
    }
  }
}
