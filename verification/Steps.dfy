/** Exactly what one step of the network changes, node by node and field by field. */
module Steps {
  import opened Wrappers
  import opened Ring
  import opened ChordNodes
  import opened Protocol

  /** What a message does to the node that receives it. */
  ghost function Received(node: Node, m: Msg): Node
    requires WellFormed(node)
  {
    match m
    case GetPred(_, _) => node
    case PredReply(src, _, p) => OnPredReply(node, src, p)
    case Notify(p, _) => OnNotify(node, p)
    case StoreFile(_, cid) => Taking(node, cid)
    case DeleteFile(_, cid) => Releasing(node, cid)
  }

  /** What an action does to its own node. */
  ghost function Acted(node: Node, a: Action): Node
    requires WellFormed(node) && (a.FixFinger? ==> a.index < BITS)
  {
    match a
    case Deliver(m) => if m.dst == node.id then Received(node, m) else node
    case DropPredecessor(n) => if n == node.id then OnCheckPredecessor(node, false) else node
    case FixFinger(n, i, f) => if n == node.id then WithFinger(node, i, f) else node
    case FinishJob(j) => if j.owner == node.id then Releasing(node, j.cid) else node
    case _ => node
  }

  lemma HandleNode(st: State, m: Msg, n: Id)
    requires Shaped(st) && m.dst in st.succ && n in st.succ
    ensures n in Handle(st, m).succ
    ensures NodeAt(Handle(st, m), n) == if m.dst == n then Received(NodeAt(st, n), m) else NodeAt(st, n)
  {
    match m
    case GetPred(_, _) =>
    case PredReply(_, _, _) =>
    case Notify(_, _) =>
    case StoreFile(_, _) =>
    case DeleteFile(_, _) =>
  }

  lemma FileNode(st: State, a: Action, n: Id)
    requires Shaped(st) && Enabled(st, a) && IsFileAction(a) && n in st.succ
    ensures n in FileStep(st, a).succ && NodeAt(FileStep(st, a), n) == Acted(NodeAt(st, n), a)
  {
    match a
    case RequestStore(_, _) =>
    case RequestDelete(_, _) =>
    case BeginTransfer(_) =>
    case SendJob(_) =>
    case AbandonJob(_) =>
    case FinishJob(_) =>
  }

  lemma RingNode(st: State, a: Action, n: Id)
    requires Shaped(st) && Enabled(st, a) && !IsFileAction(a) && !a.Deliver? && n in st.succ
    ensures n in Next(st, a).succ && NodeAt(Next(st, a), n) == Acted(NodeAt(st, n), a)
  {
    match a
    case Join(_, _) =>
    case Stabilize(_) =>
    case Lose(_) =>
    case DropPredecessor(_) =>
    case FixFinger(_, _, _) =>
  }

  /** A step changes at most one member, and does to the whole of it what that node's handler does. */
  lemma StepNode(st: State, a: Action, n: Id)
    requires Shaped(st) && Enabled(st, a) && n in st.succ
    ensures n in Next(st, a).succ && NodeAt(Next(st, a), n) == Acted(NodeAt(st, n), a)
  {
    if a.Deliver? { HandleNode(st.(net := st.net - multiset{a.msg}), a.msg, n); }
    else if IsFileAction(a) { FileNode(st, a, n); }
    else { RingNode(st, a, n); }
  }

  /** A member is added by its own join only. It starts with its contact as successor, and with no predecessor, no
      finger and no file, so that it answers every lookup with its contact. */
  lemma JoinNode(st: State, a: Action, n: Id, id: Id)
    requires Shaped(st) && Enabled(st, a) && n in Next(st, a).succ && n !in st.succ
    ensures a.Join? && a.node == n && a.contact in st.succ
    ensures var node := NodeAt(Next(st, a), n);
            && node.succ == a.contact && node.pred == None && node.responsibles == {}
            && (forall i :: 0 <= i < BITS ==> node.fingers[i] == None)
            && RouteLookup(node, id) == Answer(a.contact)
  {
    if IsFileAction(a) { FileFrame(st, a); }
    else if a.Deliver? { HandleFrame(st.(net := st.net - multiset{a.msg}), a.msg); }
  }

  /** A node that joins at its own address founds a ring. */
  lemma SelfJoin(n: Node, id: Id)
    requires WellFormed(n)
    ensures var r := Joined(n, n.id);
            && r.id == n.id && r.succ == n.id && r.pred == None && r.responsibles == n.responsibles
            && WellFormed(r) && (forall i :: 0 <= i < BITS ==> r.fingers[i] == Some(n.id))
            && RouteLookup(r, id) == Answer(n.id)
  {
  }

  // ----- field by field

  /** The node that n's successor names as its predecessor, in the reply that a delivers. */
  ghost predicate Names(st: State, a: Action, n: Id, r: Id)
    requires n in st.succ
  {
    a == Deliver(PredReply(st.succ[n], n, Some(r)))
  }

  /** A successor is replaced by the nearer node that it names, or by the first node to notify a lone one, and stays
      otherwise. */
  lemma SuccExact(st: State, a: Action, n: Id)
    requires Shaped(st) && LonersOk(st.succ, st.pred) && Enabled(st, a) && n in st.succ
    ensures n in Next(st, a).succ
    ensures forall r: Id :: Names(st, a, n, r) && 0 < Dist(n, r) < Dist(n, st.succ[n]) ==> Next(st, a).succ[n] == r
    ensures forall p: Id :: a == Deliver(Notify(p, n)) && st.succ[n] == n ==> Next(st, a).succ[n] == p
    ensures Next(st, a).succ[n] == st.succ[n]
            || (Names(st, a, n, Next(st, a).succ[n]) && Dist(n, Next(st, a).succ[n]) < Dist(n, st.succ[n]))
            || (st.succ[n] == n && a == Deliver(Notify(Next(st, a).succ[n], n)))
  {
    StepNode(st, a, n);
  }

  /** n is notified by p, which lies between its predecessor, if any, and n. */
  ghost predicate Improved(st: State, a: Action, n: Id, p: Id) {
    a == Deliver(Notify(p, n)) && (n in st.pred ==> 0 < Dist(st.pred[n], p) < Dist(st.pred[n], n))
  }

  /** A predecessor is replaced by such a notification, dropped by a failed check, and stays otherwise. */
  lemma PredExact(st: State, a: Action, n: Id)
    requires Shaped(st) && Enabled(st, a) && n in st.succ
    ensures forall p: Id :: Improved(st, a, n, p) ==> PredOf(Next(st, a).pred, n) == Some(p)
    ensures a == DropPredecessor(n) ==> n !in Next(st, a).pred
    ensures a != DropPredecessor(n) && (forall p: Id :: !Improved(st, a, n, p)) ==>
              PredOf(Next(st, a).pred, n) == PredOf(st.pred, n)
  {
    StepNode(st, a, n);
    assert PredOf(Next(st, a).pred, n) == NodeAt(Next(st, a), n).pred;
    if a.Deliver? && a.msg.Notify? && a.msg.dst == n {
      assert Improved(st, a, n, a.msg.node) <==> AcceptsPredecessor(NodeAt(st, n), a.msg.node);
    }
  }

  /** A finger changes when it is fixed, and only that one. */
  lemma FingersExact(st: State, a: Action, n: Id, i: nat)
    requires Shaped(st) && Enabled(st, a) && n in st.succ && i < BITS
    ensures n in Next(st, a).fingers && |Next(st, a).fingers[n]| == BITS
    ensures a.FixFinger? && a.node == n && a.index == i ==> Next(st, a).fingers[n][i] == Some(a.entry)
    ensures !(a.FixFinger? && a.node == n && a.index == i) ==> Next(st, a).fingers[n][i] == st.fingers[n][i]
  {
    StepNode(st, a, n);
  }

  /** A node becomes responsible when a store arrives, and ceases to be when a delete arrives or its own transfer
      ends. */
  lemma RespExact(st: State, a: Action, n: Id, cid: Cid)
    requires Shaped(st) && Enabled(st, a) && n in st.succ
    ensures n in Next(st, a).resp
    ensures cid in Next(st, a).resp[n] <==>
            || a == Deliver(StoreFile(n, cid))
            || (cid in st.resp[n] && a != Deliver(DeleteFile(n, cid)) && a != FinishJob(Sent(n, cid)))
  {
    var st' := Next(st, a);
    StepNode(st, a, n);
    ActedResp(NodeAt(st, n), st, a, cid);
    assert NodeAt(st', n).responsibles == st'.resp[n];
  }

  lemma ActedResp(node: Node, st: State, a: Action, cid: Cid)
    requires WellFormed(node) && Shaped(st) && Enabled(st, a)
    ensures cid in Acted(node, a).responsibles <==>
            || a == Deliver(StoreFile(node.id, cid))
            || (cid in node.responsibles
                && a != Deliver(DeleteFile(node.id, cid)) && a != FinishJob(Sent(node.id, cid)))
  {
    match a
    case Deliver(m) => ReceivedResp(node, m, cid);
    case FinishJob(j) =>
    case _ =>
  }

  lemma ReceivedResp(node: Node, m: Msg, cid: Cid)
    requires WellFormed(node)
    ensures m.dst == node.id ==>
              (cid in Received(node, m).responsibles <==>
               m == StoreFile(node.id, cid) || (cid in node.responsibles && m != DeleteFile(node.id, cid)))
  {
    match m
    case GetPred(_, _) =>
    case PredReply(_, _, _) =>
    case Notify(_, _) =>
    case StoreFile(_, _) =>
    case DeleteFile(_, _) =>
  }

  // ----- what a step sets going

  lemma HandleSpawn(st: State, m: Msg, n: Id)
    requires Shaped(st) && m.dst in st.succ && n in st.succ
    ensures Handle(st, m).spawned[n] ==
            st.spawned[n] + if m.Notify? && PredOf(Handle(st, m).pred, n) != PredOf(st.pred, n) then 1 else 0
  {
    match m
    case GetPred(_, _) =>
    case PredReply(_, _, _) =>
    case Notify(_, _) =>
    case StoreFile(_, _) =>
    case DeleteFile(_, _) =>
  }

  lemma FileSpawn(st: State, a: Action, n: Id)
    requires Shaped(st) && Enabled(st, a) && IsFileAction(a) && n in st.succ
    ensures FileStep(st, a).spawned[n] == st.spawned[n] - if a == BeginTransfer(n) then 1 else 0
  {
    match a
    case RequestStore(_, _) =>
    case RequestDelete(_, _) =>
    case BeginTransfer(_) =>
    case SendJob(_) =>
    case AbandonJob(_) =>
    case FinishJob(_) =>
  }

  /** A transfer of n is set going exactly when a notification changes n's predecessor, also one that it had before. */
  lemma SpawnExact(st: State, a: Action, n: Id)
    requires Shaped(st) && Enabled(st, a) && n in st.succ
    ensures Next(st, a).spawned[n] ==
            st.spawned[n] - (if a == BeginTransfer(n) then 1 else 0)
            + if a.Deliver? && a.msg.Notify? && PredOf(Next(st, a).pred, n) != PredOf(st.pred, n) then 1 else 0
  {
    if a.Deliver? { HandleSpawn(st.(net := st.net - multiset{a.msg}), a.msg, n); }
    else if IsFileAction(a) { FileSpawn(st, a, n); }
  }

  lemma HandleNet(st: State, d: Msg, m: Msg)
    requires Shaped(st) && d.dst in st.succ
    ensures Handle(st, d).net[m] ==
            st.net[m] + if d.GetPred? && m == PredReply(d.dst, d.src, PredOf(st.pred, d.dst)) then 1 else 0
  {
    match d
    case GetPred(_, _) =>
    case PredReply(_, _, _) =>
    case Notify(_, _) =>
    case StoreFile(_, _) =>
    case DeleteFile(_, _) =>
  }

  lemma FileNet(st: State, a: Action, m: Msg)
    requires Shaped(st) && Enabled(st, a) && IsFileAction(a)
    ensures FileStep(st, a).net[m] == st.net[m] + if Sends(st, a, m) then 1 else 0
  {
    match a
    case RequestStore(_, _) =>
    case RequestDelete(_, _) =>
    case BeginTransfer(_) =>
    case SendJob(_) =>
    case AbandonJob(_) =>
    case FinishJob(_) =>
  }

  lemma RingNet(st: State, a: Action, m: Msg)
    requires Shaped(st) && Enabled(st, a) && !IsFileAction(a) && !a.Deliver?
    ensures Next(st, a).net[m] ==
            st.net[m] - (if a == Lose(m) then 1 else 0) + if Sends(st, a, m) then 1 else 0
  {
    match a
    case Join(_, _) =>
    case Stabilize(_) =>
    case Lose(_) =>
    case DropPredecessor(_) =>
    case FixFinger(_, _, _) =>
  }

  /** A step takes the message it delivers or loses out of the network, and puts each message it sends there once. */
  lemma NetExact(st: State, a: Action, m: Msg)
    requires Shaped(st) && Enabled(st, a)
    ensures Next(st, a).net[m] ==
            st.net[m] - (if a == Deliver(m) || a == Lose(m) then 1 else 0) + if Sends(st, a, m) then 1 else 0
  {
    if a.Deliver? { DeliverNet(st, a.msg, m); }
    else if IsFileAction(a) { FileNet(st, a, m); }
    else { RingNet(st, a, m); }
  }

  lemma DeliverNet(st: State, d: Msg, m: Msg)
    requires Shaped(st) && d in st.net && d.dst in st.succ
    ensures Next(st, Deliver(d)).net[m] ==
            st.net[m] - (if d == m then 1 else 0) + if Sends(st, Deliver(d), m) then 1 else 0
  {
    HandleNet(st.(net := st.net - multiset{d}), d, m);
  }

  /** What each action announces to the others: a newcomer notifies its contact, a round asks and notifies the
      successor, a request for the predecessor is answered, and stores, deletes and transfers send their files. */
  lemma Announced(st: State, a: Action)
    requires Shaped(st) && Enabled(st, a)
    ensures a.Join? ==> Notify(a.node, a.contact) in Next(st, a).net
    ensures a.Stabilize? && st.succ[a.node] != a.node ==>
              GetPred(a.node, st.succ[a.node]) in Next(st, a).net && Notify(a.node, st.succ[a.node]) in Next(st, a).net
    ensures a.Deliver? && a.msg.GetPred? ==>
              PredReply(a.msg.dst, a.msg.src, PredOf(st.pred, a.msg.dst)) in Next(st, a).net
    ensures a.RequestStore? ==> StoreFile(a.target, a.cid) in Next(st, a).net
    ensures a.RequestDelete? ==> DeleteFile(a.target, a.cid) in Next(st, a).net
    ensures a.SendJob? ==> StoreFile(a.job.target, a.job.cid) in Next(st, a).net
  {
    match a
    case Join(n, contact) => NetExact(st, a, Notify(n, contact));
    case Stabilize(n) =>
      NetExact(st, a, GetPred(n, st.succ[n]));
      NetExact(st, a, Notify(n, st.succ[n]));
    case Deliver(m) => if m.GetPred? { NetExact(st, a, PredReply(m.dst, m.src, PredOf(st.pred, m.dst))); }
    case RequestStore(t, cid) => NetExact(st, a, StoreFile(t, cid));
    case RequestDelete(t, cid) => NetExact(st, a, DeleteFile(t, cid));
    case SendJob(j) => NetExact(st, a, StoreFile(j.target, j.cid));
    case _ =>
  }

  // ----- transfers

  /** n is responsible for the file, which lies on the closed arc from its predecessor p to n. */
  ghost predicate Lists(st: State, n: Id, p: Id, cid: Cid) {
    && n in st.pred && st.pred[n] == p && n in st.resp && cid in st.resp[n]
    && (p == n || Dist(p, cid.ringId) <= Dist(p, n))
  }

  lemma JobsOfCount(n: Id, p: Id, files: set<Cid>, j: Job)
    ensures JobsOf(n, p, files)[j] == if j.Listed? && j.owner == n && j.target == p && j.cid in files then 1 else 0
  {
  }

  lemma BeginJobs(st: State, n: Id, j: Job)
    requires Shaped(st) && Enabled(st, BeginTransfer(n))
    ensures FileStep(st, BeginTransfer(n)).jobs[j] ==
            st.jobs[j] + if j.Listed? && j.owner == n && Lists(st, n, j.target, j.cid) then 1 else 0
  {
    var node := NodeAt(st, n);
    if node.pred.Some? {
      JobsOfCount(n, node.pred.value, FilesToTransfer(node), j);
    }
  }

  /** A transfer lists each file on the arc once, for the predecessor of the moment; a listed file is sent once, and
      then finished. */
  lemma JobsExact(st: State, a: Action, j: Job)
    requires Shaped(st) && Enabled(st, a)
    ensures Next(st, a).jobs[j] ==
            st.jobs[j] - (if a == SendJob(j) || a == AbandonJob(j) || a == FinishJob(j) then 1 else 0)
            + (if a.SendJob? && j == Sent(a.job.owner, a.job.cid) then 1 else 0)
            + (if j.Listed? && a == BeginTransfer(j.owner) && Lists(st, j.owner, j.target, j.cid) then 1 else 0)
  {
    if a.Deliver? { HandleFrame(st.(net := st.net - multiset{a.msg}), a.msg); }
    else if IsFileAction(a) { FileJobs(st, a, j); }
  }

  lemma FileJobs(st: State, a: Action, j: Job)
    requires Shaped(st) && Enabled(st, a) && IsFileAction(a)
    ensures FileStep(st, a).jobs[j] ==
            st.jobs[j] - (if a == SendJob(j) || a == AbandonJob(j) || a == FinishJob(j) then 1 else 0)
            + (if a.SendJob? && j == Sent(a.job.owner, a.job.cid) then 1 else 0)
            + (if j.Listed? && a == BeginTransfer(j.owner) && Lists(st, j.owner, j.target, j.cid) then 1 else 0)
  {
    if a.BeginTransfer? { BeginJobs(st, a.node, j); }
    else { JobDone(st, a, j); }
  }

  lemma JobDone(st: State, a: Action, j: Job)
    requires Shaped(st) && Enabled(st, a) && IsFileAction(a) && !a.BeginTransfer?
    ensures FileStep(st, a).jobs[j] ==
            st.jobs[j] - (if a == SendJob(j) || a == AbandonJob(j) || a == FinishJob(j) then 1 else 0)
            + (if a.SendJob? && j == Sent(a.job.owner, a.job.cid) then 1 else 0)
  {
    match a
    case RequestStore(_, _) =>
    case RequestDelete(_, _) =>
    case SendJob(_) =>
    case AbandonJob(_) =>
    case FinishJob(_) =>
  }

  /** The first state has one member, alone with every finger on itself, and nothing else. */
  lemma InitExact(c: Id)
    ensures Init(c).succ == map[c := c] && Init(c).pred == map[] && Init(c).resp == map[c := {}]
    ensures c in Init(c).fingers && forall i :: 0 <= i < BITS ==> Init(c).fingers[c][i] == Some(c)
    ensures Init(c).net == multiset{} && Init(c).spawned == multiset{} && Init(c).jobs == multiset{}
  {
  }
}
