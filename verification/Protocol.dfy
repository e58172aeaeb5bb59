/** The Chord network as a state machine: member pointers, messages in flight and transfers under way. */
module Protocol {
  import opened Wrappers
  import opened Ring
  import opened Paths
  import opened ChordNodes

  datatype Msg =
    | GetPred(src: Id, dst: Id)
    | PredReply(src: Id, dst: Id, pred: Option<Id>)
    | Notify(node: Id, dst: Id)
    | StoreFile(dst: Id, cid: Cid)
    | DeleteFile(dst: Id, cid: Cid)

  /** One file of a running transfer: still to be sent, or sent and about to be released by its owner. */
  datatype Job =
    | Listed(owner: Id, target: Id, cid: Cid)
    | Sent(owner: Id, cid: Cid)

  datatype State = State(
    succ: Links,
    pred: map<Id, Id>,
    fingers: map<Id, seq<Option<Id>>>,
    resp: map<Id, set<Cid>>,
    net: multiset<Msg>,
    spawned: multiset<Id>,
    jobs: multiset<Job>)

  datatype Action =
    | Join(node: Id, contact: Id)
    | Stabilize(node: Id)
    | Deliver(msg: Msg)
    | Lose(msg: Msg)
    | DropPredecessor(node: Id)
    | FixFinger(node: Id, index: nat, entry: Id)
    | RequestStore(target: Id, cid: Cid)
    | RequestDelete(target: Id, cid: Cid)
    | BeginTransfer(node: Id)
    | SendJob(job: Job)
    | AbandonJob(job: Job)
    | FinishJob(job: Job)

  /** Every per-member table speaks about the same members. */
  ghost predicate Shaped(st: State) {
    && st.pred.Keys <= st.succ.Keys
    && st.fingers.Keys == st.succ.Keys
    && st.resp.Keys == st.succ.Keys
    && forall n :: n in st.fingers ==> |st.fingers[n]| == BITS
  }

  /** The predecessor table is partial: a node without an entry has no predecessor. */
  ghost function PredOf(pred: map<Id, Id>, n: Id): Option<Id> {
    if n in pred then Some(pred[n]) else None
  }

  ghost function WithPred(pred: map<Id, Id>, n: Id, p: Option<Id>): map<Id, Id> {
    match p
    case None => pred - {n}
    case Some(v) => pred[n := v]
  }

  ghost function NodeAt(st: State, n: Id): (r: Node)
    requires Shaped(st) && n in st.succ
    ensures WellFormed(r)
  {
    Node(n, st.succ[n], PredOf(st.pred, n), st.fingers[n], st.resp[n])
  }

  /** A fresh node process, before it creates or joins a ring. */
  ghost function NewNode(n: Id): (r: Node)
    ensures WellFormed(r)
  {
    Node(n, n, None, seq(BITS, i => None), {})
  }

  ghost function Put(st: State, n: Node): (st': State)
    requires Shaped(st) && WellFormed(n)
    ensures Shaped(st')
  {
    st.(succ := st.succ[n.id := n.succ], pred := WithPred(st.pred, n.id, n.pred),
        fingers := st.fingers[n.id := n.fingers], resp := st.resp[n.id := n.responsibles])
  }

  /** The state after one node has created the ring. */
  ghost function Init(creator: Id): (st: State)
    ensures Shaped(st)
  {
    Put(State(map[], map[], map[], map[], multiset{}, multiset{}, multiset{}), Created(NewNode(creator)))
  }

  ghost predicate Enabled(st: State, a: Action)
    requires Shaped(st)
  {
    match a
    case Join(n, contact) => n !in st.succ && contact in st.succ
    case Stabilize(n) => n in st.succ
    case Deliver(m) => m in st.net && m.dst in st.succ
    case Lose(m) => m in st.net && !m.StoreFile?
    case DropPredecessor(n) => n in st.succ
    case FixFinger(n, i, f) => n in st.succ && f in st.succ && i < BITS
    case RequestStore(t, cid) => t in st.succ
    case RequestDelete(t, cid) => t in st.succ
    case BeginTransfer(n) => n in st.spawned && n in st.succ
    case SendJob(j) => j in st.jobs && j.Listed?
    case AbandonJob(j) => j in st.jobs
    case FinishJob(j) => j in st.jobs && j.Sent? && j.owner in st.succ
  }

  /** A round asks the successor for its predecessor and notifies it; a lone node does nothing. */
  ghost function RoundMessages(n: Id, s: Id): multiset<Msg> {
    if s == n then multiset{} else multiset{GetPred(n, s), Notify(n, s)}
  }

  ghost function JobsOf(n: Id, p: Id, files: set<Cid>): multiset<Job> {
    multiset(set cid | cid in files :: Listed(n, p, cid))
  }

  /** What the receiver of a message does. */
  ghost function Handle(st: State, m: Msg): (st': State)
    requires Shaped(st) && m.dst in st.succ
    ensures Shaped(st')
  {
    var node := NodeAt(st, m.dst);
    match m
    case GetPred(src, dst) => st.(net := st.net + multiset{PredReply(dst, src, node.pred)})
    case PredReply(src, dst, p) => st.(succ := st.succ[dst := OnPredReply(node, src, p).succ])
    case Notify(p, dst) =>
      var node' := OnNotify(node, p);
      st.(succ := st.succ[dst := node'.succ], pred := WithPred(st.pred, dst, node'.pred),
          spawned := st.spawned + if StartsTransfer(node, p) then multiset{dst} else multiset{})
    case StoreFile(dst, cid) => st.(resp := st.resp[dst := Taking(node, cid).responsibles])
    case DeleteFile(dst, cid) => st.(resp := st.resp[dst := Releasing(node, cid).responsibles])
  }

  ghost predicate IsFileAction(a: Action) {
    a.RequestStore? || a.RequestDelete? || a.BeginTransfer? || a.SendJob? || a.AbandonJob? || a.FinishJob?
  }

  /** The actions on files: requests, and the transfers that a change of predecessor started. */
  ghost function FileStep(st: State, a: Action): (st': State)
    requires Shaped(st) && Enabled(st, a) && IsFileAction(a)
    ensures Shaped(st')
  {
    match a
    case RequestStore(t, cid) => st.(net := st.net + multiset{StoreFile(t, cid)})
    case RequestDelete(t, cid) => st.(net := st.net + multiset{DeleteFile(t, cid)})
    case BeginTransfer(n) =>
      var node := NodeAt(st, n);
      st.(spawned := st.spawned - multiset{n},
          jobs := st.jobs + if node.pred.None? then multiset{}
                            else JobsOf(n, node.pred.value, FilesToTransfer(node)))
    case SendJob(j) =>
      st.(jobs := st.jobs - multiset{j} + multiset{Sent(j.owner, j.cid)},
          net := st.net + multiset{StoreFile(j.target, j.cid)})
    case AbandonJob(j) => st.(jobs := st.jobs - multiset{j})
    case FinishJob(j) =>
      st.(jobs := st.jobs - multiset{j},
          resp := st.resp[j.owner := Releasing(NodeAt(st, j.owner), j.cid).responsibles])
  }

  ghost function Next(st: State, a: Action): (st': State)
    requires Shaped(st) && Enabled(st, a)
    ensures Shaped(st')
  {
    match a
    case Join(n, contact) =>
      Put(st, Joined(NewNode(n), contact)).(net := st.net + multiset{Notify(n, contact)})
    case Stabilize(n) => st.(net := st.net + RoundMessages(n, st.succ[n]))
    case Deliver(m) => Handle(st.(net := st.net - multiset{m}), m)
    case Lose(m) => st.(net := st.net - multiset{m})
    case DropPredecessor(n) => st.(pred := WithPred(st.pred, n, OnCheckPredecessor(NodeAt(st, n), false).pred))
    case FixFinger(n, i, f) => st.(fingers := st.fingers[n := WithFinger(NodeAt(st, n), i, f).fingers])
    case _ => FileStep(st, a)
  }

  /** The actions can be taken one after the other from st. */
  ghost predicate IsRun(st: State, acts: seq<Action>)
    requires Shaped(st)
    decreases |acts|
  {
    acts == [] || (Enabled(st, acts[0]) && IsRun(Next(st, acts[0]), acts[1..]))
  }

  ghost function Exec(st: State, acts: seq<Action>): (st': State)
    requires Shaped(st) && IsRun(st, acts)
    ensures Shaped(st')
    decreases |acts|
  {
    if acts == [] then st else Exec(Next(st, acts[0]), acts[1..])
  }

  lemma OneAction(st: State, a: Action)
    requires Shaped(st) && Enabled(st, a)
    ensures IsRun(st, [a]) && Exec(st, [a]) == Next(st, a)
  {
    assert [a][1..] == [];
  }

  lemma ConsRun(st: State, a: Action, rest: seq<Action>)
    requires Shaped(st) && Enabled(st, a) && IsRun(Next(st, a), rest)
    ensures IsRun(st, [a] + rest) && Exec(st, [a] + rest) == Exec(Next(st, a), rest)
  {
    assert ([a] + rest)[1..] == rest;
  }

  lemma RunTail(st: State, acts: seq<Action>)
    requires Shaped(st) && IsRun(st, acts) && acts != []
    ensures Enabled(st, acts[0]) && IsRun(Next(st, acts[0]), acts[1..])
    ensures Exec(st, acts) == Exec(Next(st, acts[0]), acts[1..])
  {
  }

  lemma {:induction false} RunAppend(st: State, acts: seq<Action>, a: Action)
    requires Shaped(st) && IsRun(st, acts) && Enabled(Exec(st, acts), a)
    ensures IsRun(st, acts + [a]) && Exec(st, acts + [a]) == Next(Exec(st, acts), a)
    decreases |acts|
  {
    if acts == [] {
      assert acts + [a] == [a];
      OneAction(st, a);
    } else {
      RunTail(st, acts);
      RunAppend(Next(st, acts[0]), acts[1..], a);
      assert (acts + [a])[1..] == acts[1..] + [a];
    }
  }

  ghost predicate Reachable(creator: Id, st: State) {
    exists acts :: IsRun(Init(creator), acts) && Exec(Init(creator), acts) == st
  }

  // ----- the invariant

  ghost predicate MsgOk(succ: Links, m: Msg) {
    && m.dst in succ
    && match m
       case GetPred(src, dst) => src in succ
       case PredReply(src, dst, p) => p.Some? ==> Behind(succ, p.value, src)
       case Notify(p, dst) => Behind(succ, p, dst)
       case StoreFile(_, _) => true
       case DeleteFile(_, _) => true
  }

  /** The pointers form one turn of the circle through the creator, and everyone leads to the creator. */
  ghost predicate Linked(succ: Links, creator: Id) {
    && Closed(succ)
    && Winds(succ, creator)
    && forall x {:trigger Leads(succ, x, creator)} :: x in succ ==> Leads(succ, x, creator)
  }

  /** Every recorded predecessor leads clockwise to the node that records it. */
  ghost predicate PredsOk(succ: Links, pred: map<Id, Id>) {
    forall s {:trigger Behind(succ, pred[s], s)} :: s in pred ==> Behind(succ, pred[s], s)
  }

  ghost predicate MsgsOk(succ: Links, net: multiset<Msg>) {
    forall m :: m in net ==> MsgOk(succ, m)
  }

  /** A node that is its own successor has no predecessor yet. */
  ghost predicate LonersOk(succ: Links, pred: map<Id, Id>)
    requires pred.Keys <= succ.Keys
  {
    forall s :: s in pred ==> succ[s] != s
  }

  ghost predicate FingersOk(members: set<Id>, fingers: map<Id, seq<Option<Id>>>) {
    forall n, i :: n in fingers && 0 <= i < |fingers[n]| && fingers[n][i].Some? ==> fingers[n][i].value in members
  }

  ghost predicate JobOk(members: set<Id>, j: Job) {
    j.owner in members && (j.Listed? ==> j.target in members && j.target != j.owner)
  }

  ghost predicate WorkOk(members: set<Id>, spawned: multiset<Id>, jobs: multiset<Job>) {
    && (forall n :: n in spawned ==> n in members)
    && (forall j :: j in jobs ==> JobOk(members, j))
  }

  /** What is known about the pointers and about every message that can still change them. */
  ghost predicate PointersOk(st: State) {
    && Shaped(st)
    && Closed(st.succ)
    && PredsOk(st.succ, st.pred)
    && MsgsOk(st.succ, st.net)
    && LonersOk(st.succ, st.pred)
  }

  ghost predicate Inv(st: State, creator: Id) {
    && PointersOk(st)
    && Linked(st.succ, creator)
    && FingersOk(st.succ.Keys, st.fingers)
    && WorkOk(st.succ.Keys, st.spawned, st.jobs)
  }

  /** How one step may change the successor pointers. */
  datatype Change = Same | Grow(node: Id, contact: Id) | Refine(node: Id, closer: Id)

  ghost predicate Legal(succ: Links, ch: Change) {
    match ch
    case Same => true
    case Grow(n, c) => n !in succ && c in succ
    case Refine(a, c) => Refines(succ, a, c)
  }

  ghost function Apply(succ: Links, ch: Change): Links {
    match ch
    case Same => succ
    case Grow(n, c) => succ[n := c]
    case Refine(a, c) => succ[a := c]
  }

  /** The change of pointers that an action makes. */
  ghost function ChangeOf(st: State, a: Action): Change
    requires Shaped(st) && Enabled(st, a)
  {
    match a
    case Join(n, contact) => Grow(n, contact)
    case Deliver(m) => (
      var node := NodeAt(st, m.dst);
      match m
      case PredReply(src, dst, p) =>
        if OnPredReply(node, src, p).succ == node.succ then Same
        else Refine(dst, OnPredReply(node, src, p).succ)
      case Notify(p, dst) =>
        if OnNotify(node, p).succ == node.succ then Same else Refine(dst, OnNotify(node, p).succ)
      case _ => Same
    )
    case _ => Same
  }

  lemma InitInv(creator: Id)
    ensures Inv(Init(creator), creator)
  {
    var succ := Init(creator).succ;
    assert succ == map[creator := creator];
    assert Iter(succ, creator, 0) == creator;
  }

  lemma SamePut(m: Links, k: Id, v: Id)
    requires k in m && m[k] == v
    ensures m[k := v] == m
  {
  }

  lemma ReplyRefines(succ: Links, n: Node, src: Id, p: Option<Id>)
    requires n.id in succ && succ[n.id] == n.succ && MsgOk(succ, PredReply(src, n.id, p))
    requires OnPredReply(n, src, p).succ != n.succ
    ensures Refines(succ, n.id, OnPredReply(n, src, p).succ)
  {
  }

  lemma NotifyRefines(succ: Links, n: Node, p: Id)
    requires n.id in succ && succ[n.id] == n.succ && MsgOk(succ, Notify(p, n.id))
    requires OnNotify(n, p).succ != n.succ
    ensures Refines(succ, n.id, OnNotify(n, p).succ)
  {
  }

  lemma DeliverChange(st: State, m: Msg)
    requires Shaped(st) && MsgOk(st.succ, m) && m in st.net
    ensures Legal(st.succ, ChangeOf(st, Deliver(m)))
    ensures Next(st, Deliver(m)).succ == Apply(st.succ, ChangeOf(st, Deliver(m)))
  {
    var node := NodeAt(st, m.dst);
    match m
    case GetPred(_, _) =>
    case PredReply(src, dst, p) =>
      if OnPredReply(node, src, p).succ == node.succ { SamePut(st.succ, dst, node.succ); }
      else { ReplyRefines(st.succ, node, src, p); }
    case Notify(p, dst) =>
      if OnNotify(node, p).succ == node.succ { SamePut(st.succ, dst, node.succ); }
      else { NotifyRefines(st.succ, node, p); }
    case StoreFile(_, _) =>
    case DeleteFile(_, _) =>
  }

  /** File actions leave the ring alone. */
  lemma FileFrame(st: State, a: Action)
    requires Shaped(st) && Enabled(st, a) && IsFileAction(a)
    ensures FileStep(st, a).succ == st.succ && FileStep(st, a).pred == st.pred
    ensures FileStep(st, a).fingers == st.fingers
  {
    match a
    case RequestStore(_, _) =>
    case RequestDelete(_, _) =>
    case BeginTransfer(_) =>
    case SendJob(_) =>
    case AbandonJob(_) =>
    case FinishJob(_) =>
  }

  /** Handling a message touches neither the set of members, nor fingers, nor transfers under way. */
  lemma HandleFrame(st: State, m: Msg)
    requires Shaped(st) && m.dst in st.succ
    ensures Handle(st, m).succ.Keys == st.succ.Keys
    ensures Handle(st, m).fingers == st.fingers && Handle(st, m).jobs == st.jobs
  {
    match m
    case GetPred(_, _) =>
    case PredReply(_, _, _) =>
    case Notify(_, _) =>
    case StoreFile(_, _) =>
    case DeleteFile(_, _) =>
  }

  lemma QuietStep(st: State, a: Action)
    requires Shaped(st) && Enabled(st, a) && !a.Deliver? && !a.Join?
    ensures Next(st, a).succ == st.succ
  {
    if IsFileAction(a) { FileFrame(st, a); }
  }

  /** Each step leaves the pointers alone, adds a newcomer, or refines one pointer. */
  lemma StepChange(st: State, a: Action)
    requires Shaped(st) && MsgsOk(st.succ, st.net) && Enabled(st, a)
    ensures Legal(st.succ, ChangeOf(st, a))
    ensures Next(st, a).succ == Apply(st.succ, ChangeOf(st, a))
  {
    if a.Deliver? {
      DeliverChange(st, a.msg);
    } else if !a.Join? {
      QuietStep(st, a);
    }
  }

  lemma ChangeKeepsBehind(succ: Links, ch: Change, p: Id, s: Id)
    requires Closed(succ) && Legal(succ, ch) && Behind(succ, p, s)
    ensures Behind(Apply(succ, ch), p, s)
  {
    match ch
    case Same =>
    case Grow(n, c) => GrowKeepsReaches(succ, n, c, p, s);
    case Refine(a, c) => RefineKeepsReaches(succ, a, c, p, s);
  }

  lemma ChangeKeepsLeads(succ: Links, ch: Change, x: Id, y: Id)
    requires Closed(succ) && Legal(succ, ch) && Leads(succ, x, y)
    ensures Closed(Apply(succ, ch)) && Leads(Apply(succ, ch), x, y)
  {
    var k: nat :| Iter(succ, x, k) == y;
    match ch
    case Same =>
    case Grow(n, c) => GrowKeepsIter(succ, n, c, x, k);
    case Refine(a, c) => RefineKeepsLeads(succ, a, c, x, k);
  }

  lemma ChangeKeepsWinds(succ: Links, ch: Change, o: Id)
    requires Closed(succ) && Legal(succ, ch) && Winds(succ, o)
    ensures Winds(Apply(succ, ch), o)
  {
    match ch
    case Same =>
    case Grow(n, c) => GrowKeepsReaches(succ, n, c, succ[o], o);
    case Refine(a, c) => RefineKeepsWinds(succ, a, c, o);
  }

  lemma ChangeKeepsLinked(succ: Links, ch: Change, creator: Id)
    requires Linked(succ, creator) && Legal(succ, ch)
    ensures Linked(Apply(succ, ch), creator)
  {
    var succ' := Apply(succ, ch);
    ChangeKeepsWinds(succ, ch, creator);
    ChangeKeepsLeads(succ, ch, creator, creator);
    forall x | x in succ' ensures Leads(succ', x, creator) {
      if x in succ {
        ChangeKeepsLeads(succ, ch, x, creator);
      } else {
        ChangeKeepsLeads(succ, ch, ch.contact, creator);
        LeadsStep(succ', x, creator);
      }
    }
  }

  lemma ChangeKeepsMsg(succ: Links, ch: Change, m: Msg)
    requires Closed(succ) && Legal(succ, ch) && MsgOk(succ, m)
    ensures MsgOk(Apply(succ, ch), m)
  {
    match m
    case PredReply(src, dst, p) => if p.Some? { ChangeKeepsBehind(succ, ch, p.value, src); }
    case Notify(p, dst) => ChangeKeepsBehind(succ, ch, p, dst);
    case _ =>
  }

  // ----- every step keeps the invariant, part by part

  /** A pointer, once a message, is well founded when it is sent. */
  lemma HopBehind(succ: Links, n: Id)
    requires n in succ && succ[n] in succ && succ[n] != n
    ensures Behind(succ, n, succ[n])
  {
  }

  /** The messages an action can add to those in flight. */
  ghost predicate Sends(st: State, a: Action, m: Msg)
    requires Shaped(st) && Enabled(st, a)
  {
    match a
    case Join(n, contact) => m == Notify(n, contact)
    case Stabilize(n) => st.succ[n] != n && (m == GetPred(n, st.succ[n]) || m == Notify(n, st.succ[n]))
    case Deliver(d) => d.GetPred? && m == PredReply(d.dst, d.src, PredOf(st.pred, d.dst))
    case RequestStore(t, cid) => m == StoreFile(t, cid)
    case RequestDelete(t, cid) => m == DeleteFile(t, cid)
    case SendJob(j) => m == StoreFile(j.target, j.cid)
    case _ => false
  }

  lemma FileNetStep(st: State, a: Action, m: Msg)
    requires Shaped(st) && Enabled(st, a) && IsFileAction(a) && m in FileStep(st, a).net
    ensures m in st.net || Sends(st, a, m)
  {
    match a
    case RequestStore(_, _) =>
    case RequestDelete(_, _) =>
    case BeginTransfer(_) =>
    case SendJob(_) =>
    case AbandonJob(_) =>
    case FinishJob(_) =>
  }

  /** Only a request for the predecessor is answered. */
  lemma HandleNetStep(st: State, d: Msg, m: Msg)
    requires Shaped(st) && d.dst in st.succ && m in Handle(st, d).net
    ensures m in st.net || (d.GetPred? && m == PredReply(d.dst, d.src, PredOf(st.pred, d.dst)))
  {
    match d
    case GetPred(_, _) =>
    case PredReply(_, _, _) =>
    case Notify(_, _) =>
    case StoreFile(_, _) =>
    case DeleteFile(_, _) =>
  }

  lemma NetStep(st: State, a: Action, m: Msg)
    requires Shaped(st) && Enabled(st, a) && m in Next(st, a).net
    ensures m in st.net || Sends(st, a, m)
  {
    if IsFileAction(a) { FileNetStep(st, a, m); }
    else if a.Deliver? { HandleNetStep(st.(net := st.net - multiset{a.msg}), a.msg, m); }
  }

  lemma JoinMsgOk(succ: Links, n: Id, contact: Id)
    requires n !in succ && contact in succ
    ensures MsgOk(succ[n := contact], Notify(n, contact))
  {
    HopBehind(succ[n := contact], n);
  }

  lemma RoundMsgOk(succ: Links, n: Id, m: Msg)
    requires n in succ && succ[n] in succ && succ[n] != n
    requires m == GetPred(n, succ[n]) || m == Notify(n, succ[n])
    ensures MsgOk(succ, m)
  {
    HopBehind(succ, n);
  }

  lemma ReplyMsgOk(st: State, src: Id, dst: Id)
    requires Shaped(st) && PredsOk(st.succ, st.pred) && MsgOk(st.succ, GetPred(src, dst))
    ensures MsgOk(st.succ, PredReply(dst, src, PredOf(st.pred, dst)))
  {
    assert dst in st.pred ==> Behind(st.succ, st.pred[dst], dst);
  }

  /** A message an action sends is sound once the action is done. */
  lemma SendsOk(st: State, a: Action, m: Msg)
    requires PointersOk(st) && WorkOk(st.succ.Keys, st.spawned, st.jobs)
    requires Enabled(st, a) && Sends(st, a, m)
    ensures MsgOk(Apply(st.succ, ChangeOf(st, a)), m)
  {
    match a {
      case Join(n, contact) => JoinMsgOk(st.succ, n, contact);
      case Stabilize(n) =>
        assert Follow(st.succ, n) in st.succ;
        RoundMsgOk(st.succ, n, m);
      case Deliver(msg) =>
        assert MsgOk(st.succ, msg);
        ReplyMsgOk(st, msg.src, msg.dst);
      case RequestStore(t, cid) =>
      case RequestDelete(t, cid) =>
      case SendJob(j) => assert JobOk(st.succ.Keys, j);
    }
  }

  lemma StepKeepsMsgs(st: State, a: Action)
    requires PointersOk(st) && WorkOk(st.succ.Keys, st.spawned, st.jobs) && Enabled(st, a)
    ensures MsgsOk(Next(st, a).succ, Next(st, a).net)
  {
    StepChange(st, a);
    forall m | m in Next(st, a).net ensures MsgOk(Next(st, a).succ, m) {
      if m in st.net { ChangeKeepsMsg(st.succ, ChangeOf(st, a), m); }
      else { NetStep(st, a, m); SendsOk(st, a, m); }
    }
  }

  lemma NewPredHandled(st: State, m: Msg, s: Id)
    requires Shaped(st) && m.dst in st.succ && s in Handle(st, m).pred
    requires s !in st.pred || st.pred[s] != Handle(st, m).pred[s]
    ensures m == Notify(Handle(st, m).pred[s], s)
  {
  }

  /** A predecessor is only ever learnt from a notification. */
  lemma NewPred(st: State, a: Action, s: Id)
    requires Shaped(st) && Enabled(st, a)
    requires s in Next(st, a).pred
    requires s !in st.pred || st.pred[s] != Next(st, a).pred[s]
    ensures a == Deliver(Notify(Next(st, a).pred[s], s))
  {
    if IsFileAction(a) { FileFrame(st, a); }
    else if a.Deliver? { NewPredHandled(st.(net := st.net - multiset{a.msg}), a.msg, s); }
  }

  lemma StepKeepsPreds(st: State, a: Action)
    requires PointersOk(st) && Enabled(st, a)
    ensures PredsOk(Next(st, a).succ, Next(st, a).pred)
  {
    StepChange(st, a);
    var st' := Next(st, a);
    forall s | s in st'.pred ensures Behind(st'.succ, st'.pred[s], s) {
      if s in st.pred && st.pred[s] == st'.pred[s] {
        assert Behind(st.succ, st.pred[s], s);
      } else {
        NewPred(st, a, s);
        assert MsgOk(st.succ, a.msg);
      }
      ChangeKeepsBehind(st.succ, ChangeOf(st, a), st'.pred[s], s);
    }
  }

  /** A node without a predecessor that a step gives one is not alone afterwards. */
  lemma StepKeepsLoners(st: State, a: Action)
    requires Shaped(st) && MsgsOk(st.succ, st.net) && LonersOk(st.succ, st.pred) && Enabled(st, a)
    ensures LonersOk(Next(st, a).succ, Next(st, a).pred)
  {
    StepChange(st, a);
    var st' := Next(st, a);
    forall s | s in st'.pred ensures st'.succ[s] != s {
      if s !in st.pred || st.pred[s] != st'.pred[s] {
        NewPred(st, a, s);
        assert MsgOk(st.succ, a.msg);
      }
    }
  }

  lemma StepKeepsFingers(st: State, a: Action)
    requires Shaped(st) && FingersOk(st.succ.Keys, st.fingers) && Enabled(st, a)
    ensures FingersOk(Next(st, a).succ.Keys, Next(st, a).fingers)
  {
    if IsFileAction(a) { FileFrame(st, a); }
    else if a.Deliver? { HandleFrame(st.(net := st.net - multiset{a.msg}), a.msg); }
  }

  /** Where the transfer jobs after a step come from. */
  lemma JobStep(st: State, a: Action, j: Job)
    requires Shaped(st) && Enabled(st, a) && j in Next(st, a).jobs
    ensures || j in st.jobs
            || (a.SendJob? && j == Sent(a.job.owner, a.job.cid))
            || (a.BeginTransfer? && a.node in st.pred && j.Listed? && j.owner == a.node
                && j.target == st.pred[a.node] && j.cid in FilesToTransfer(NodeAt(st, a.node)))
  {
    if IsFileAction(a) { FileJobStep(st, a, j); }
    else if a.Deliver? { HandleFrame(st.(net := st.net - multiset{a.msg}), a.msg); }
  }

  lemma FileJobStep(st: State, a: Action, j: Job)
    requires Shaped(st) && Enabled(st, a) && IsFileAction(a) && j in FileStep(st, a).jobs
    ensures || j in st.jobs
            || (a.SendJob? && j == Sent(a.job.owner, a.job.cid))
            || (a.BeginTransfer? && a.node in st.pred && j.Listed? && j.owner == a.node
                && j.target == st.pred[a.node] && j.cid in FilesToTransfer(NodeAt(st, a.node)))
  {
    match a
    case RequestStore(_, _) =>
    case RequestDelete(_, _) =>
    case BeginTransfer(_) =>
    case SendJob(_) =>
    case AbandonJob(_) =>
    case FinishJob(_) =>
  }

  lemma MembersGrow(st: State, a: Action)
    requires Shaped(st) && Enabled(st, a)
    ensures st.succ.Keys <= Next(st, a).succ.Keys
    ensures forall n :: n in Next(st, a).spawned ==> n in st.spawned || n in st.succ
  {
    if IsFileAction(a) { FileFrame(st, a); FileSpawned(st, a); }
  }

  lemma FileSpawned(st: State, a: Action)
    requires Shaped(st) && Enabled(st, a) && IsFileAction(a)
    ensures FileStep(st, a).spawned <= st.spawned
  {
  }

  lemma StepKeepsWork(st: State, a: Action)
    requires Shaped(st) && PredsOk(st.succ, st.pred) && WorkOk(st.succ.Keys, st.spawned, st.jobs) && Enabled(st, a)
    ensures WorkOk(Next(st, a).succ.Keys, Next(st, a).spawned, Next(st, a).jobs)
  {
    MembersGrow(st, a);
    forall j | j in Next(st, a).jobs ensures JobOk(Next(st, a).succ.Keys, j) {
      JobStep(st, a, j);
      if j in st.jobs { assert JobOk(st.succ.Keys, j); }
      else if a.SendJob? { assert JobOk(st.succ.Keys, a.job); }
      else { assert Behind(st.succ, st.pred[a.node], a.node); }
    }
  }

  /** Every step keeps the whole invariant. */
  lemma StepInv(st: State, a: Action, creator: Id)
    requires Inv(st, creator) && Enabled(st, a)
    ensures Inv(Next(st, a), creator)
  {
    StepChange(st, a);
    ChangeKeepsLinked(st.succ, ChangeOf(st, a), creator);
    StepKeepsMsgs(st, a);
    StepKeepsPreds(st, a);
    StepKeepsLoners(st, a);
    StepKeepsFingers(st, a);
    StepKeepsWork(st, a);
  }

  lemma {:induction false} RunInv(st: State, acts: seq<Action>, creator: Id)
    requires Inv(st, creator) && IsRun(st, acts)
    ensures Inv(Exec(st, acts), creator)
    decreases |acts|
  {
    if acts != [] {
      StepInv(st, acts[0], creator);
      RunInv(Next(st, acts[0]), acts[1..], creator);
    }
  }

  /** Every reachable state satisfies the invariant. */
  lemma ReachableInv(creator: Id, st: State)
    requires Reachable(creator, st)
    ensures Inv(st, creator)
  {
    var acts :| IsRun(Init(creator), acts) && Exec(Init(creator), acts) == st;
    InitInv(creator);
    RunInv(Init(creator), acts, creator);
  }

  /** Reachability along successors is never lost, over any run. */
  lemma {:induction false} RunKeepsLeads(st: State, acts: seq<Action>, creator: Id, x: Id, y: Id)
    requires Inv(st, creator) && IsRun(st, acts) && Leads(st.succ, x, y)
    ensures Closed(Exec(st, acts).succ) && Leads(Exec(st, acts).succ, x, y)
    decreases |acts|
  {
    if acts != [] {
      StepInv(st, acts[0], creator);
      StepChange(st, acts[0]);
      ChangeKeepsLeads(st.succ, ChangeOf(st, acts[0]), x, y);
      RunKeepsLeads(Next(st, acts[0]), acts[1..], creator, x, y);
    }
  }
}
