/** One Chord node: what each local operation and message handler does to its own state. */
module ChordNodes {
  import opened Wrappers
  import opened Ring

  /** A content ID together with the ring ID it hashes to. */
  datatype Cid = Cid(text: string, ringId: Id)

  datatype Node = Node(
    id: Id,
    succ: Id,
    pred: Option<Id>,
    fingers: seq<Option<Id>>,
    responsibles: set<Cid>)

  predicate WellFormed(n: Node) {
    |n.fingers| == BITS
  }

  /** A node that founds a ring: alone, with every finger on itself. */
  function Created(n: Node): Node
    requires WellFormed(n)
  {
    n.(pred := None, succ := n.id, fingers := seq(BITS, i => Some(n.id)))
  }

  /** A node that joins takes its contact as successor; joining a ring at one's own address founds one. */
  function Joined(n: Node, contact: Id): Node
    requires WellFormed(n)
  {
    if contact == n.id then Created(n) else n.(pred := None, succ := contact)
  }

  predicate AcceptsPredecessor(n: Node, p: Id) {
    n.pred.None? || IsBetween(p, n.pred.value, n.id, false)
  }

  /** Handling of a notification from p. */
  function OnNotify(n: Node, p: Id): Node {
    if !AcceptsPredecessor(n, p) then n
    else if n.succ == n.id then n.(pred := Some(p), succ := p)
    else n.(pred := Some(p))
  }

  /** Whether that notification starts a transfer of files. */
  predicate StartsTransfer(n: Node, p: Id) {
    AcceptsPredecessor(n, p) && n.pred != Some(p)
  }

  /** Handling of a predecessor reply received from `from`. */
  function OnPredReply(n: Node, from: Id, reply: Option<Id>): Node {
    if reply.Some? && from == n.succ && IsBetween(reply.value, n.id, n.succ, false)
    then n.(succ := reply.value)
    else n
  }

  /** The check of the predecessor: one that cannot be reached is dropped. */
  function OnCheckPredecessor(n: Node, reachable: bool): Node {
    if reachable then n else n.(pred := None)
  }

  function WithFinger(n: Node, i: nat, f: Id): (r: Node)
    requires WellFormed(n) && i < BITS
    ensures WellFormed(r)
  {
    n.(fingers := n.fingers[i := Some(f)])
  }

  /** The node becomes responsible for a file. */
  function Taking(n: Node, cid: Cid): Node {
    n.(responsibles := n.responsibles + {cid})
  }

  /** The node is no longer responsible for a file. */
  function Releasing(n: Node, cid: Cid): Node {
    n.(responsibles := n.responsibles - {cid})
  }

  /** The closest preceding finger among those below index i, or the node itself. */
  function ClosestBelow(n: Node, id: Id, i: nat): (r: Id)
    requires i <= |n.fingers|
    ensures r != n.id ==> IsBetween(r, n.id, id, false) && exists j :: 0 <= j < i && n.fingers[j] == Some(r)
    ensures r == n.id <==>
            forall j :: 0 <= j < i ==> !(n.fingers[j].Some? && IsBetween(n.fingers[j].value, n.id, id, false))
  {
    if i == 0 then n.id
    else if n.fingers[i - 1].Some? && IsBetween(n.fingers[i - 1].value, n.id, id, false)
    then n.fingers[i - 1].value
    else ClosestBelow(n, id, i - 1)
  }

  /** One node's share of a lookup: it knows the answer, or names the node to ask. */
  datatype Route = Answer(node: Id) | Forward(node: Id)

  function RouteLookup(n: Node, id: Id): Route
    requires WellFormed(n)
  {
    if n.succ == n.id then Answer(n.id)
    else if IsBetween(id, n.id, n.succ, true) then Answer(n.succ)
    else
      var closest := ClosestBelow(n, id, BITS);
      if closest == n.id then Answer(n.succ) else Forward(closest)
  }

  /** Where a node sends a file to be stored: straight to its successor when the file falls in between. */
  function RouteStore(n: Node, id: Id): Route
    requires WellFormed(n)
  {
    if IsBetween(id, n.id, n.succ, true) then Answer(n.succ) else RouteLookup(n, id)
  }

  /** The files a transfer hands to the predecessor. */
  function FilesToTransfer(n: Node): (s: set<Cid>)
    ensures s <= n.responsibles
  {
    if n.pred.None? then {}
    else set cid | cid in n.responsibles && IsBetween(cid.ringId, n.pred.value, n.id, true)
  }

  /** The finger is set and lies strictly between n and id. */
  predicate Before(f: Option<Id>, n: Id, id: Id) {
    f.Some? && 0 < Dist(n, f.value) < Dist(n, id)
  }

  class ChordNode {
    const id: Id
    var successor: Id
    var predecessor: Option<Id>
    const fingers: array<Option<Id>>
    var responsibles: set<Cid>

    ghost predicate Valid() { fingers.Length == BITS }

    /** The node's state as a value. */
    ghost function View(): (n: Node)
      requires Valid()
      reads this, fingers
      ensures WellFormed(n)
    {
      Node(id, successor, predecessor, fingers[..], responsibles)
    }

    constructor (id: Id)
      ensures Valid() && fresh(fingers)
      ensures View() == Node(id, id, None, seq(BITS, i => None), {})
    {
      this.id := id;
      this.successor := id;
      this.predecessor := None;
      this.responsibles := {};
      this.fingers := new Option<Id>[BITS](i => None);
    }

    method Create()
      requires Valid()
      modifies this, fingers
      ensures View() == Created(old(View()))
      ensures successor == id && predecessor == None && responsibles == old(responsibles)
      ensures forall i :: 0 <= i < 160 ==> fingers[i] == Some(id)
    {
      predecessor := None;
      successor := id;
      for i := 0 to BITS
        invariant forall j :: 0 <= j < i ==> fingers[j] == Some(id)
        invariant successor == id && predecessor == None && responsibles == old(responsibles)
      {
        fingers[i] := Some(id);
      }
      assert fingers[..] == seq(BITS, i => Some(id));
    }

    method Join(contact: Id)
      requires Valid()
      modifies this, fingers
      ensures View() == Joined(old(View()), contact)
      ensures successor == contact && predecessor == None && responsibles == old(responsibles)
      ensures forall i :: 0 <= i < 160 ==> fingers[i] == if contact == id then Some(id) else old(fingers[i])
    {
      if contact == id {
        Create();
        return;
      }
      predecessor := None;
      successor := contact;
    }

    method Notify(p: Id) returns (transfer: bool)
      requires Valid()
      modifies this
      ensures View() == OnNotify(old(View()), p)
      ensures transfer == old(StartsTransfer(View(), p))
      ensures transfer <==> predecessor != old(predecessor)
      ensures transfer ==> predecessor == Some(p)
      ensures old(predecessor).None? ==> transfer
      ensures old(predecessor).Some? ==>
                (transfer <==> 0 < Dist(old(predecessor).value, p) < Dist(old(predecessor).value, id))
      ensures successor == if transfer && old(successor) == id then p else old(successor)
      ensures fingers[..] == old(fingers[..]) && responsibles == old(responsibles)
    {
      transfer := false;
      if predecessor.None? || IsBetween(p, predecessor.value, id, false) {
        var oldPred := predecessor;
        predecessor := Some(p);
        if successor == id {
          successor := p;
        }
        transfer := oldPred.None? || oldPred.value != p;
      }
    }

    method HandlePredecessorReply(from: Id, reply: Option<Id>)
      requires Valid()
      modifies this
      ensures View() == OnPredReply(old(View()), from, reply)
      ensures successor != old(successor) <==>
                reply.Some? && from == old(successor) && 0 < Dist(id, reply.value) < Dist(id, old(successor))
      ensures successor != old(successor) ==> reply == Some(successor)
      ensures predecessor == old(predecessor) && fingers[..] == old(fingers[..]) && responsibles == old(responsibles)
    {
      if reply.None? {
        return;
      }
      if from == successor && IsBetween(reply.value, id, successor, false) {
        successor := reply.value;
      }
    }

    method CheckPredecessor(reachable: bool)
      requires Valid()
      modifies this
      ensures View() == OnCheckPredecessor(old(View()), reachable)
      ensures predecessor == if reachable then old(predecessor) else None
      ensures successor == old(successor) && fingers[..] == old(fingers[..]) && responsibles == old(responsibles)
    {
      if predecessor.None? {
        return;
      }
      if !reachable {
        predecessor := None;
      }
    }

    /** Scans the finger table downwards for the highest finger strictly between this node and id. */
    method ClosestPrecedingNode(id: Id) returns (r: Id)
      requires Valid()
      ensures r == ClosestBelow(View(), id, BITS)
      ensures r == this.id <==> forall j :: 0 <= j < 160 ==> !Before(fingers[j], this.id, id)
      ensures r != this.id ==> exists i :: 0 <= i < 160 && fingers[i] == Some(r) && Before(fingers[i], this.id, id)
                                           && forall j :: i < j < 160 ==> !Before(fingers[j], this.id, id)
    {
      var i: int := BITS - 1;
      while i >= 0
        invariant -1 <= i < BITS
        invariant ClosestBelow(View(), id, BITS) == ClosestBelow(View(), id, i + 1)
        invariant forall j :: i < j < BITS ==> !Before(fingers[j], this.id, id)
      {
        if fingers[i].Some? && IsBetween(fingers[i].value, this.id, id, false) {
          return fingers[i].value;
        }
        i := i - 1;
      }
      return this.id;
    }

    /** The local part of a lookup: answer, or the node to forward to. */
    method FindSuccessor(id: Id) returns (r: Route)
      requires Valid()
      ensures r == RouteLookup(View(), id)
      ensures successor == this.id ==> r == Answer(this.id)
      ensures successor != this.id && Dist(this.id, id) <= Dist(this.id, successor) ==> r == Answer(successor)
      ensures Dist(this.id, id) > Dist(this.id, successor) && successor != this.id ==>
                (r.Answer? <==> forall i :: 0 <= i < 160 ==> !Before(fingers[i], this.id, id))
      ensures r.Answer? ==> r.node == successor
      ensures r.Forward? ==> exists i :: 0 <= i < 160 && fingers[i] == Some(r.node) && Before(fingers[i], this.id, id)
                                         && forall j :: i < j < 160 ==> !Before(fingers[j], this.id, id)
    {
      if successor == this.id {
        return Answer(this.id);
      }
      if IsBetween(id, this.id, successor, true) {
        return Answer(successor);
      }
      var closest := ClosestPrecedingNode(id);
      if closest == this.id {
        return Answer(successor);
      }
      return Forward(closest);
    }

    /** The choice of the responsible node when storing. */
    method ChooseResponsible(fileId: Id) returns (r: Route)
      requires Valid()
      ensures r == RouteStore(View(), fileId)
      ensures Dist(this.id, fileId) <= Dist(this.id, successor) ==> r == Answer(successor)
      ensures r.Answer? ==> r.node == successor
      ensures r.Answer? <==> successor == this.id || Dist(this.id, fileId) <= Dist(this.id, successor)
                             || forall i :: 0 <= i < 160 ==> !Before(fingers[i], this.id, fileId)
      ensures r.Forward? ==> exists i :: 0 <= i < 160 && fingers[i] == Some(r.node)
                                         && Before(fingers[i], this.id, fileId)
                                         && forall j :: i < j < 160 ==> !Before(fingers[j], this.id, fileId)
    {
      if IsBetween(fileId, this.id, successor, true) {
        return Answer(successor);
      }
      r := FindSuccessor(fileId);
    }

    method SetFinger(i: nat, f: Id)
      requires Valid() && i < BITS
      modifies fingers
      ensures View() == WithFinger(old(View()), i, f)
      ensures fingers[i] == Some(f) && forall j :: 0 <= j < 160 && j != i ==> fingers[j] == old(fingers[j])
    {
      fingers[i] := Some(f);
    }

    /** Collects the files that a transfer to the current predecessor would send. */
    method ListTransfers() returns (files: set<Cid>)
      requires Valid()
      ensures files == FilesToTransfer(View())
      ensures forall cid :: cid in files <==>
                && predecessor.Some? && cid in responsibles
                && (predecessor.value == id || Dist(predecessor.value, cid.ringId) <= Dist(predecessor.value, id))
    {
      files := {};
      if predecessor.None? {
        return;
      }
      var rest := responsibles;
      while rest != {}
        invariant rest <= responsibles
        invariant files == set cid | cid in responsibles - rest && IsBetween(cid.ringId, predecessor.value, id, true)
        decreases |rest|
      {
        var cid :| cid in rest;
        rest := rest - {cid};
        if IsBetween(cid.ringId, predecessor.value, id, true) {
          files := files + {cid};
        }
      }
    }

    method Take(cid: Cid)
      requires Valid()
      modifies this
      ensures View() == Taking(old(View()), cid)
      ensures forall c :: c in responsibles <==> c == cid || c in old(responsibles)
      ensures successor == old(successor) && predecessor == old(predecessor) && fingers[..] == old(fingers[..])
    {
      responsibles := responsibles + {cid};
    }

    method Release(cid: Cid)
      requires Valid()
      modifies this
      ensures View() == Releasing(old(View()), cid)
      ensures forall c :: c in responsibles <==> c != cid && c in old(responsibles)
      ensures successor == old(successor) && predecessor == old(predecessor) && fingers[..] == old(fingers[..])
    {
      responsibles := responsibles - {cid};
    }
  }
}
