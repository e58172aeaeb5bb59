/** Responsibility for a stored file is never lost by transfers, as long as its ID is no member's ID. */
module Transfers {
  import opened Ring
  import opened Paths
  import opened ChordNodes
  import opened Protocol
  import opened Placement

  /** x is responsible for the file, or about to be: a message handing it over is under way. */
  ghost predicate Carries(st: State, cid: Cid, x: Id) {
    (x in st.resp && cid in st.resp[x]) || StoreFile(x, cid) in st.net
  }

  ghost predicate Held(st: State, cid: Cid) {
    exists x :: Carries(st, cid, x)
  }

  /** Someone carries the file who lies farther clockwise from the file's ID than o. */
  ghost predicate HeldBeyond(st: State, cid: Cid, o: Id) {
    exists x :: Carries(st, cid, x) && Dist(cid.ringId, o) < Dist(cid.ringId, x)
  }

  /** Transfers only hand the file away from its ID, and whoever is about to release it has handed it on. */
  ghost predicate JobSafe(st: State, cid: Cid, j: Job) {
    j.cid == cid ==>
      match j
      case Listed(o, t, _) => Dist(cid.ringId, o) < Dist(cid.ringId, t)
      case Sent(o, _) => HeldBeyond(st, cid, o)
  }

  ghost predicate Safe(st: State, cid: Cid) {
    && (forall d :: DeleteFile(d, cid) !in st.net)
    && (forall j :: j in st.jobs ==> JobSafe(st, cid, j))
  }

  /** A file inside the arc from p to n is farther from p than from n. */
  lemma HandedAway(f: Id, p: Id, n: Id)
    requires p != n && f != p && f != n && IsBetween(f, p, n, true)
    ensures Dist(f, n) < Dist(f, p)
  {
  }

  /** A carrier stops carrying only by releasing the file at the end of its own transfer. */
  lemma CarrierStays(st: State, a: Action, cid: Cid, x: Id)
    requires Shaped(st) && Enabled(st, a) && Carries(st, cid, x)
    requires forall d :: DeleteFile(d, cid) !in st.net
    ensures Carries(Next(st, a), cid, x) || a == FinishJob(Sent(x, cid))
  {
    if a.Deliver? { CarrierStaysHandled(st, a.msg, cid, x); }
    else if IsFileAction(a) { CarrierStaysFile(st, a, cid, x); }
    else { CarrierStaysRing(st, a, cid, x); }
  }

  lemma CarrierStaysFile(st: State, a: Action, cid: Cid, x: Id)
    requires Shaped(st) && Enabled(st, a) && IsFileAction(a) && Carries(st, cid, x)
    ensures Carries(FileStep(st, a), cid, x) || a == FinishJob(Sent(x, cid))
  {
    match a
    case RequestStore(_, _) =>
    case RequestDelete(_, _) =>
    case BeginTransfer(_) =>
    case SendJob(_) =>
    case AbandonJob(_) =>
    case FinishJob(_) =>
  }

  lemma CarrierStaysRing(st: State, a: Action, cid: Cid, x: Id)
    requires Shaped(st) && Enabled(st, a) && !IsFileAction(a) && !a.Deliver? && Carries(st, cid, x)
    ensures Carries(Next(st, a), cid, x)
  {
    match a
    case Join(_, _) =>
    case Stabilize(_) =>
    case Lose(_) =>
    case DropPredecessor(_) =>
    case FixFinger(_, _, _) =>
  }

  lemma CarrierStaysHandled(st: State, m: Msg, cid: Cid, x: Id)
    requires Shaped(st) && m in st.net && m.dst in st.succ && Carries(st, cid, x)
    requires forall d :: m != DeleteFile(d, cid)
    ensures Carries(Next(st, Deliver(m)), cid, x)
  {
  }

  /** Being held beyond a node survives every step. */
  lemma BeyondStays(st: State, a: Action, cid: Cid, o: Id)
    requires Shaped(st) && Enabled(st, a) && Safe(st, cid) && HeldBeyond(st, cid, o)
    ensures HeldBeyond(Next(st, a), cid, o)
  {
    var x :| Carries(st, cid, x) && Dist(cid.ringId, o) < Dist(cid.ringId, x);
    CarrierStays(st, a, cid, x);
    if !Carries(Next(st, a), cid, x) {
      assert JobSafe(st, cid, a.job);
      var y :| Carries(st, cid, y) && Dist(cid.ringId, x) < Dist(cid.ringId, y);
      CarrierStays(st, a, cid, y);
    }
  }

  lemma HeldStays(st: State, a: Action, cid: Cid)
    requires Shaped(st) && Enabled(st, a) && Safe(st, cid) && Held(st, cid)
    ensures Held(Next(st, a), cid)
  {
    var x :| Carries(st, cid, x);
    CarrierStays(st, a, cid, x);
    if !Carries(Next(st, a), cid, x) {
      assert JobSafe(st, cid, a.job);
      BeyondStays(st, a, cid, x);
    }
  }

  lemma NewJobSafe(st: State, a: Action, cid: Cid, j: Job)
    requires Shaped(st) && PredsOk(st.succ, st.pred) && Enabled(st, a) && Safe(st, cid) && cid.ringId !in st.succ
    requires j in Next(st, a).jobs && j !in st.jobs && j.cid == cid
    ensures JobSafe(Next(st, a), cid, j)
  {
    JobStep(st, a, j);
    if a.SendJob? {
      assert JobSafe(st, cid, a.job);
      assert Carries(Next(st, a), cid, a.job.target);
    } else {
      assert Behind(st.succ, st.pred[a.node], a.node);
      HandedAway(cid.ringId, st.pred[a.node], a.node);
    }
  }

  lemma StepSafe(st: State, a: Action, creator: Id, cid: Cid)
    requires Inv(st, creator) && Enabled(st, a) && Safe(st, cid) && cid.ringId !in st.succ
    requires !(a.RequestDelete? && a.cid == cid)
    ensures Safe(Next(st, a), cid)
  {
    var st' := Next(st, a);
    forall d ensures DeleteFile(d, cid) !in st'.net {
      if DeleteFile(d, cid) in st'.net { NetStep(st, a, DeleteFile(d, cid)); }
    }
    forall j | j in st'.jobs ensures JobSafe(st', cid, j) {
      if j.cid == cid {
        if j in st.jobs {
          assert JobSafe(st, cid, j);
          if j.Sent? { BeyondStays(st, a, cid, j.owner); }
        } else {
          NewJobSafe(st, a, cid, j);
        }
      }
    }
  }

  ghost predicate NoDelete(acts: seq<Action>, cid: Cid) {
    forall i :: 0 <= i < |acts| ==> !(acts[i].RequestDelete? && acts[i].cid == cid)
  }

  ghost predicate Stores(acts: seq<Action>, cid: Cid) {
    exists i :: 0 <= i < |acts| && acts[i].RequestStore? && acts[i].cid == cid
  }

  lemma {:induction false} RunMembersGrow(st: State, acts: seq<Action>)
    requires Shaped(st) && IsRun(st, acts)
    ensures st.succ.Keys <= Exec(st, acts).succ.Keys
    decreases |acts|
  {
    if acts != [] {
      MembersGrow(st, acts[0]);
      RunMembersGrow(Next(st, acts[0]), acts[1..]);
    }
  }

  ghost predicate IsStore(a: Action, cid: Cid) {
    a.RequestStore? && a.cid == cid
  }

  lemma StoresTail(acts: seq<Action>, cid: Cid)
    requires acts != []
    ensures Stores(acts, cid) <==> IsStore(acts[0], cid) || Stores(acts[1..], cid)
  {
    if Stores(acts, cid) && !IsStore(acts[0], cid) {
      var i :| 0 <= i < |acts| && acts[i].RequestStore? && acts[i].cid == cid;
      assert acts[1..][i - 1] == acts[i];
    }
    if Stores(acts[1..], cid) {
      var i :| 0 <= i < |acts[1..]| && acts[1..][i].RequestStore? && acts[1..][i].cid == cid;
      assert acts[i + 1] == acts[1..][i];
    }
  }

  lemma StepHeld(st: State, a: Action, creator: Id, cid: Cid)
    requires Inv(st, creator) && Enabled(st, a) && Safe(st, cid) && cid.ringId !in st.succ
    requires !(a.RequestDelete? && a.cid == cid)
    ensures Inv(Next(st, a), creator) && Safe(Next(st, a), cid)
    ensures Held(st, cid) || IsStore(a, cid) ==> Held(Next(st, a), cid)
  {
    StepInv(st, a, creator);
    StepSafe(st, a, creator, cid);
    if Held(st, cid) {
      HeldStays(st, a, cid);
    } else if IsStore(a, cid) {
      assert Carries(Next(st, a), cid, a.target);
    }
  }

  lemma {:induction false} RunSafe(st: State, acts: seq<Action>, creator: Id, cid: Cid)
    requires Inv(st, creator) && IsRun(st, acts) && Safe(st, cid)
    requires NoDelete(acts, cid) && cid.ringId !in Exec(st, acts).succ
    ensures Held(st, cid) || Stores(acts, cid) ==> Held(Exec(st, acts), cid)
    decreases |acts|
  {
    if acts != [] {
      RunMembersGrow(st, acts);
      StepHeld(st, acts[0], creator, cid);
      RunSafe(Next(st, acts[0]), acts[1..], creator, cid);
      StoresTail(acts, cid);
    }
  }

  /** Under any interleaving of joins, stabilization, stores, transfers and failed sends, a file that was stored and not
      deleted is some node's responsibility or on its way to one, provided no member has the file's ID. */
  lemma ResponsibilityConserved(creator: Id, acts: seq<Action>, cid: Cid)
    requires IsRun(Init(creator), acts) && NoDelete(acts, cid) && Stores(acts, cid)
    requires cid.ringId !in Exec(Init(creator), acts).succ
    ensures Held(Exec(Init(creator), acts), cid)
  {
    InitInv(creator);
    RunSafe(Init(creator), acts, creator, cid);
  }

  // ----- a member's own ID: two nodes hand the file back and forth and both release it

  /** acts lead from the ring that c created to st, without deleting the file. */
  ghost predicate Plays(c: Id, acts: seq<Action>, st: State, cid: Cid) {
    IsRun(Init(c), acts) && Exec(Init(c), acts) == st && NoDelete(acts, cid)
  }

  lemma PlayOn(c: Id, acts: seq<Action>, st: State, cid: Cid, a: Action)
    requires Plays(c, acts, st, cid) && Enabled(st, a) && !a.RequestDelete?
    ensures Plays(c, acts + [a], Next(st, a), cid)
  {
    RunAppend(Init(c), acts, a);
  }

  /** Two members, c and j, each the other's successor and predecessor. */
  ghost predicate Couple(st: State, c: Id, j: Id) {
    && Shaped(st) && c != j
    && st.succ == map[c := j, j := c]
    && st.pred == map[c := j, j := c]
  }

  /** What the two members are responsible for, and the messages and transfers under way. */
  ghost predicate Doing(st: State, c: Id, j: Id, atC: set<Cid>, atJ: set<Cid>, net: multiset<Msg>,
                        spawned: multiset<Id>, jobs: multiset<Job>)
  {
    && c in st.resp && j in st.resp && st.resp[c] == atC && st.resp[j] == atJ
    && st.net == net && st.spawned == spawned && st.jobs == jobs
  }

  lemma PlayJoin(c: Id, j: Id, cid: Cid) returns (acts: seq<Action>, st: State)
    requires c != j
    ensures Plays(c, acts, st, cid) && Shaped(st)
    ensures st.succ == map[c := c, j := c] && st.pred == map[]
    ensures Doing(st, c, j, {}, {}, multiset{Notify(j, c)}, multiset{}, multiset{})
  {
    assert Plays(c, [], Init(c), cid);
    acts, st := [] + [Join(j, c)], Next(Init(c), Join(j, c));
    PlayOn(c, [], Init(c), cid, Join(j, c));
  }

  lemma PlayFirstNotify(c: Id, j: Id, cid: Cid) returns (acts: seq<Action>, st: State)
    requires c != j
    ensures Plays(c, acts, st, cid) && Shaped(st)
    ensures st.succ == map[c := j, j := c] && st.pred == map[c := j]
    ensures Doing(st, c, j, {}, {}, multiset{}, multiset{c}, multiset{})
  {
    var acts0, st0 := PlayJoin(c, j, cid);
    var a := Deliver(Notify(j, c));
    acts, st := acts0 + [a], Next(st0, a);
    PlayOn(c, acts0, st0, cid, a);
  }

  lemma PlayRound(c: Id, j: Id, cid: Cid) returns (acts: seq<Action>, st: State)
    requires c != j
    ensures Plays(c, acts, st, cid) && Shaped(st)
    ensures st.succ == map[c := j, j := c] && st.pred == map[c := j]
    ensures Doing(st, c, j, {}, {}, multiset{GetPred(c, j), Notify(c, j)}, multiset{c}, multiset{})
  {
    var acts0, st0 := PlayFirstNotify(c, j, cid);
    acts, st := acts0 + [Stabilize(c)], Next(st0, Stabilize(c));
    PlayOn(c, acts0, st0, cid, Stabilize(c));
  }

  lemma MeetEffect(st: State, c: Id, j: Id)
    requires Shaped(st) && c != j && st.succ == map[c := j, j := c] && st.pred == map[c := j]
    requires Doing(st, c, j, {}, {}, multiset{GetPred(c, j), Notify(c, j)}, multiset{c}, multiset{})
    ensures var st' := Next(st, Deliver(Notify(c, j)));
            Couple(st', c, j) && Doing(st', c, j, {}, {}, multiset{GetPred(c, j)}, multiset{c, j}, multiset{})
  {
    SamePut(st.succ, j, c);
  }

  lemma PlaySecondNotify(c: Id, j: Id, cid: Cid) returns (acts: seq<Action>, st: State)
    requires c != j
    ensures Plays(c, acts, st, cid) && Couple(st, c, j)
    ensures Doing(st, c, j, {}, {}, multiset{GetPred(c, j)}, multiset{c, j}, multiset{})
  {
    var acts0, st0 := PlayRound(c, j, cid);
    var a := Deliver(Notify(c, j));
    acts, st := acts0 + [a], Next(st0, a);
    MeetEffect(st0, c, j);
    PlayOn(c, acts0, st0, cid, a);
  }

  lemma StoreEffect(st: State, c: Id, j: Id, cid: Cid)
    requires Couple(st, c, j) && cid.ringId in {c, j}
    requires Doing(st, c, j, {}, {}, multiset{GetPred(c, j)}, multiset{c, j}, multiset{})
    ensures var st' := Next(st, RequestStore(c, cid));
            && Couple(st', c, j) && RouteStore(NodeAt(st', j), cid.ringId) == Answer(c)
            && Doing(st', c, j, {}, {}, multiset{GetPred(c, j), StoreFile(c, cid)}, multiset{c, j}, multiset{})
  {
  }

  /** j stores the file: its shortcut picks c, whether the file's ID is c's or j's own. */
  lemma PlayStore(c: Id, j: Id, cid: Cid) returns (acts: seq<Action>, st: State)
    requires c != j && cid.ringId in {c, j}
    ensures Plays(c, acts, st, cid) && Stores(acts, cid) && Couple(st, c, j)
    ensures RouteStore(NodeAt(st, j), cid.ringId) == Answer(c)
    ensures Doing(st, c, j, {}, {}, multiset{GetPred(c, j), StoreFile(c, cid)}, multiset{c, j}, multiset{})
  {
    var acts0, st0 := PlaySecondNotify(c, j, cid);
    var a := RequestStore(c, cid);
    acts, st := acts0 + [a], Next(st0, a);
    StoreEffect(st0, c, j, cid);
    PlayOn(c, acts0, st0, cid, a);
    assert acts[|acts0|] == a;
  }

  /** A file handed to one of the two arrives. */
  lemma PlayArrival(o: Id, c: Id, j: Id, acts: seq<Action>, st: State, cid: Cid, x: Id)
    returns (acts': seq<Action>, st': State)
    requires Plays(o, acts, st, cid) && Stores(acts, cid) && Couple(st, c, j) && x in {c, j}
    requires StoreFile(x, cid) in st.net
    ensures Plays(o, acts', st', cid) && Stores(acts', cid) && Couple(st', c, j)
    ensures Doing(st', c, j, if x == c then st.resp[c] + {cid} else st.resp[c],
                  if x == j then st.resp[j] + {cid} else st.resp[j],
                  st.net - multiset{StoreFile(x, cid)}, st.spawned, st.jobs)
  {
    var a := Deliver(StoreFile(x, cid));
    acts', st' := acts + [a], Next(st, a);
    PlayOn(o, acts, st, cid, a);
    StoresPrefix(acts, a, cid);
  }

  lemma StoresPrefix(acts: seq<Action>, a: Action, cid: Cid)
    requires Stores(acts, cid)
    ensures Stores(acts + [a], cid)
  {
    var i :| 0 <= i < |acts| && acts[i].RequestStore? && acts[i].cid == cid;
    assert (acts + [a])[i] == acts[i];
  }

  lemma OneJob(a: Id, b: Id, cid: Cid)
    ensures JobsOf(a, b, {cid}) == multiset{Listed(a, b, cid)}
  {
    assert (set x | x in {cid} :: Listed(a, b, x)) == {Listed(a, b, cid)};
  }

  /** A member whose predecessor is the other lists the file for a transfer. */
  lemma PlayListing(c: Id, acts: seq<Action>, st: State, cid: Cid, x: Id, y: Id)
    returns (acts': seq<Action>, st': State)
    requires Plays(c, acts, st, cid) && Stores(acts, cid) && Couple(st, x, y) && cid.ringId in {x, y}
    requires st.resp[x] == {cid} && x in st.spawned
    ensures Plays(c, acts', st', cid) && Stores(acts', cid) && Couple(st', x, y)
    ensures Doing(st', x, y, st.resp[x], st.resp[y], st.net, st.spawned - multiset{x},
                  st.jobs + multiset{Listed(x, y, cid)})
  {
    assert FilesToTransfer(NodeAt(st, x)) == {cid};
    OneJob(x, y, cid);
    acts', st' := acts + [BeginTransfer(x)], Next(st, BeginTransfer(x));
    PlayOn(c, acts, st, cid, BeginTransfer(x));
    StoresPrefix(acts, BeginTransfer(x), cid);
  }

  lemma PlaySending(c: Id, acts: seq<Action>, st: State, cid: Cid, x: Id, y: Id)
    returns (acts': seq<Action>, st': State)
    requires Plays(c, acts, st, cid) && Stores(acts, cid) && Couple(st, x, y) && Listed(x, y, cid) in st.jobs
    ensures Plays(c, acts', st', cid) && Stores(acts', cid) && Couple(st', x, y)
    ensures Doing(st', x, y, st.resp[x], st.resp[y], st.net + multiset{StoreFile(y, cid)}, st.spawned,
                  st.jobs - multiset{Listed(x, y, cid)} + multiset{Sent(x, cid)})
  {
    var a := SendJob(Listed(x, y, cid));
    acts', st' := acts + [a], Next(st, a);
    PlayOn(c, acts, st, cid, a);
    StoresPrefix(acts, a, cid);
  }

  lemma PlayRelease(c: Id, j: Id, acts: seq<Action>, st: State, cid: Cid, x: Id)
    returns (acts': seq<Action>, st': State)
    requires Plays(c, acts, st, cid) && Stores(acts, cid) && Couple(st, c, j) && x in {c, j}
    requires Sent(x, cid) in st.jobs
    ensures Plays(c, acts', st', cid) && Stores(acts', cid) && Couple(st', c, j)
    ensures Doing(st', c, j, if x == c then st.resp[c] - {cid} else st.resp[c],
                  if x == j then st.resp[j] - {cid} else st.resp[j],
                  st.net, st.spawned, st.jobs - multiset{Sent(x, cid)})
  {
    var a := FinishJob(Sent(x, cid));
    acts', st' := acts + [a], Next(st, a);
    PlayOn(c, acts, st, cid, a);
    StoresPrefix(acts, a, cid);
  }

  lemma PlayHandOn(c: Id, acts: seq<Action>, st: State, cid: Cid, x: Id, y: Id)
    returns (acts': seq<Action>, st': State)
    requires Plays(c, acts, st, cid) && Stores(acts, cid) && Couple(st, x, y) && cid.ringId in {x, y}
    requires st.resp[x] == {cid} && x in st.spawned
    ensures Plays(c, acts', st', cid) && Stores(acts', cid) && Couple(st', x, y)
    ensures Doing(st', x, y, {cid}, st.resp[y], st.net + multiset{StoreFile(y, cid)}, st.spawned - multiset{x},
                  st.jobs + multiset{Sent(x, cid)})
  {
    var acts1, st1 := PlayListing(c, acts, st, cid, x, y);
    acts', st' := PlaySending(c, acts1, st1, cid, x, y);
    JobMoves(st.jobs, Listed(x, y, cid), Sent(x, cid));
  }

  lemma JobMoves(jobs: multiset<Job>, a: Job, b: Job)
    ensures jobs + multiset{a} - multiset{a} + multiset{b} == jobs + multiset{b}
  {
  }

  /** x hands the file to y, which receives it before x releases it. */
  lemma PlayHandOver(c: Id, acts: seq<Action>, st: State, cid: Cid, x: Id, y: Id)
    returns (acts': seq<Action>, st': State)
    requires Plays(c, acts, st, cid) && Stores(acts, cid) && Couple(st, x, y) && cid.ringId in {x, y}
    requires st.resp[x] == {cid} && x in st.spawned
    ensures Plays(c, acts', st', cid) && Stores(acts', cid) && Couple(st', x, y)
    ensures Doing(st', x, y, {cid}, st.resp[y] + {cid}, st.net, st.spawned - multiset{x},
                  st.jobs + multiset{Sent(x, cid)})
  {
    var acts1, st1 := PlayHandOn(c, acts, st, cid, x, y);
    acts', st' := PlayArrival(c, x, y, acts1, st1, cid, y);
  }

  lemma CoupleTurned(st: State, x: Id, y: Id)
    ensures Couple(st, x, y) <==> Couple(st, y, x)
  {
    if x != y {
      assert map[x := y, y := x] == map[y := x, x := y];
    }
  }

  lemma PlayStored(c: Id, j: Id, cid: Cid) returns (acts: seq<Action>, st: State)
    requires c != j && cid.ringId in {c, j}
    ensures Plays(c, acts, st, cid) && Stores(acts, cid) && Couple(st, c, j)
    ensures Doing(st, c, j, {cid}, {}, multiset{GetPred(c, j)}, multiset{c, j}, multiset{})
  {
    var acts1, st1 := PlayStore(c, j, cid);
    acts, st := PlayArrival(c, c, j, acts1, st1, cid, c);
    Handed(c, j, cid);
  }

  lemma PlayGiven(c: Id, j: Id, cid: Cid) returns (acts: seq<Action>, st: State)
    requires c != j && cid.ringId in {c, j}
    ensures Plays(c, acts, st, cid) && Stores(acts, cid) && Couple(st, c, j)
    ensures Doing(st, c, j, {cid}, {cid}, multiset{GetPred(c, j)}, multiset{j}, multiset{Sent(c, cid)})
  {
    var acts1, st1 := PlayStored(c, j, cid);
    acts, st := PlayHandOver(c, acts1, st1, cid, c, j);
    Handed(c, j, cid);
  }

  lemma Handed(c: Id, j: Id, cid: Cid)
    ensures {} + {cid} == {cid}
    ensures multiset{GetPred(c, j), StoreFile(c, cid)} - multiset{StoreFile(c, cid)} == multiset{GetPred(c, j)}
    ensures multiset{c, j} - multiset{c} == multiset{j}
    ensures multiset{} + multiset{Sent(c, cid)} == multiset{Sent(c, cid)}
  {
  }

  /** Both members hold the file, and both are about to release it. */
  lemma PlayExchange(c: Id, j: Id, cid: Cid) returns (acts: seq<Action>, st: State)
    requires c != j && cid.ringId in {c, j}
    ensures Plays(c, acts, st, cid) && Stores(acts, cid) && Couple(st, c, j)
    ensures Doing(st, c, j, {cid}, {cid}, multiset{GetPred(c, j)}, multiset{}, multiset{Sent(c, cid), Sent(j, cid)})
  {
    var acts1, st1 := PlayGiven(c, j, cid);
    CoupleTurned(st1, c, j);
    acts, st := PlayHandOver(c, acts1, st1, cid, j, c);
    CoupleTurned(st, c, j);
    assert {cid} + {cid} == {cid};
  }

  /** A run of the ring that c created, with these members in the end, in which the file is stored and never deleted. */
  ghost predicate StoringRun(c: Id, members: set<Id>, acts: seq<Action>, cid: Cid) {
    && IsRun(Init(c), acts) && NoDelete(acts, cid) && Stores(acts, cid)
    && Exec(Init(c), acts).succ.Keys == members
  }

  /** When the file's ID is the ID of one of two members, a run of stores and transfers alone loses it. */
  lemma LosingPair(c: Id, j: Id, cid: Cid) returns (acts: seq<Action>, st: State)
    requires c != j && cid.ringId in {c, j}
    ensures Lost(c, acts, st, cid, {c, j})
  {
    var acts1, st1 := PlayExchange(c, j, cid);
    var acts2, st2 := PlayRelease(c, j, acts1, st1, cid, j);
    acts, st := PlayRelease(c, j, acts2, st2, cid, c);
    NothingHeld(st, c, j, cid);
  }

  lemma NothingHeld(st: State, c: Id, j: Id, cid: Cid)
    requires Couple(st, c, j) && cid !in st.resp[c] && cid !in st.resp[j]
    requires forall x :: StoreFile(x, cid) !in st.net
    ensures st.succ.Keys == {c, j} && !Held(st, cid)
  {
  }

  /** The run has stored the file, and nobody carries it any more. */
  ghost predicate Lost(c: Id, acts: seq<Action>, st: State, cid: Cid, members: set<Id>) {
    && Plays(c, acts, st, cid) && Stores(acts, cid)
    && Shaped(st) && st.succ.Keys == members && c in members && !Held(st, cid)
  }

  lemma JoinHoldsNothing(st: State, n: Id, c: Id, cid: Cid)
    requires Shaped(st) && n !in st.succ && c in st.succ && !Held(st, cid)
    ensures Next(st, Join(n, c)).succ.Keys == st.succ.Keys + {n}
    ensures !Held(Next(st, Join(n, c)), cid)
  {
    var st' := Next(st, Join(n, c));
    forall x ensures !Carries(st', cid, x) {
      assert !Carries(st, cid, x);
    }
  }

  lemma PlayOneJoin(c: Id, acts: seq<Action>, st: State, cid: Cid, members: set<Id>, n: Id)
    returns (acts': seq<Action>, st': State)
    requires Lost(c, acts, st, cid, members) && n !in members
    ensures Lost(c, acts', st', cid, members + {n})
  {
    acts', st' := acts + [Join(n, c)], Next(st, Join(n, c));
    PlayOn(c, acts, st, cid, Join(n, c));
    StoresPrefix(acts, Join(n, c), cid);
    JoinHoldsNothing(st, n, c, cid);
  }

  /** Nodes that join later carry no file. */
  lemma {:induction false} PlayJoins(c: Id, acts: seq<Action>, st: State, cid: Cid, members: set<Id>, all: set<Id>)
    returns (acts': seq<Action>, st': State)
    requires Lost(c, acts, st, cid, members) && members <= all
    ensures Lost(c, acts', st', cid, all)
    decreases |all - members|
  {
    if members == all {
      acts', st' := acts, st;
    } else {
      var n :| n in all && n !in members;
      var acts1, st1 := PlayOneJoin(c, acts, st, cid, members, n);
      assert all - members == all - (members + {n}) + {n};
      acts', st' := PlayJoins(c, acts1, st1, cid, members + {n}, all);
    }
  }

  /** A file with the ID of a member that has company can be lost, however many members there are. Transfers read what
      they send back from disk, so such a run needs processes whose encryption type is set: without one the store
      writes empty files, and a transfer skips every file. It also needs receivers that finish handling what they get.
      */
  lemma LosingRun(c: Id, members: set<Id>, cid: Cid) returns (acts: seq<Action>)
    requires c in members && members != {c} && cid.ringId in members
    ensures StoringRun(c, members, acts, cid)
    ensures !Held(Exec(Init(c), acts), cid)
  {
    var j :| j in members && j != c && cid.ringId in {c, j};
    var acts1, st1 := LosingPair(c, j, cid);
    var acts2, st2 := PlayJoins(c, acts1, st1, cid, {c, j}, members);
    acts := acts2;
  }

  // ----- a ring of one never transfers anything

  ghost predicate Alone(st: State, c: Id, cid: Cid) {
    Inv(st, c) && st.succ.Keys == {c} && st.jobs == multiset{} && forall d :: DeleteFile(d, cid) !in st.net
  }

  lemma AloneNoPred(st: State, c: Id)
    requires Inv(st, c) && st.succ.Keys == {c}
    ensures st.pred == map[]
  {
    assert Follow(st.succ, c) in st.succ;
  }

  lemma AloneStep(st: State, a: Action, c: Id, cid: Cid)
    requires Alone(st, c, cid) && Enabled(st, a) && Next(st, a).succ.Keys == {c}
    requires !(a.RequestDelete? && a.cid == cid)
    ensures Alone(Next(st, a), c, cid)
  {
    StepInv(st, a, c);
    AloneNoPred(st, c);
    forall j ensures j !in Next(st, a).jobs {
      if j in Next(st, a).jobs { JobStep(st, a, j); }
    }
    forall d ensures DeleteFile(d, cid) !in Next(st, a).net {
      if DeleteFile(d, cid) in Next(st, a).net { NetStep(st, a, DeleteFile(d, cid)); }
    }
  }

  lemma AloneHeld(st: State, a: Action, c: Id, cid: Cid)
    requires Alone(st, c, cid) && Enabled(st, a)
    ensures Held(st, cid) || IsStore(a, cid) ==> Held(Next(st, a), cid)
  {
    if Held(st, cid) {
      HeldStays(st, a, cid);
    } else if IsStore(a, cid) {
      assert Carries(Next(st, a), cid, a.target);
    }
  }

  lemma {:induction false} AloneRun(st: State, acts: seq<Action>, c: Id, cid: Cid)
    requires Alone(st, c, cid) && IsRun(st, acts) && NoDelete(acts, cid) && Exec(st, acts).succ.Keys == {c}
    ensures Held(st, cid) || Stores(acts, cid) ==> Held(Exec(st, acts), cid)
    decreases |acts|
  {
    if acts != [] {
      MembersGrow(st, acts[0]);
      RunMembersGrow(Next(st, acts[0]), acts[1..]);
      AloneStep(st, acts[0], c, cid);
      AloneHeld(st, acts[0], c, cid);
      AloneRun(Next(st, acts[0]), acts[1..], c, cid);
      StoresTail(acts, cid);
    }
  }

  /** Whatever the members: no run that ends with them loses the stored file if and only if the file's ID is not the ID
      of a member that has company. */
  lemma ConservedIff(c: Id, members: set<Id>, cid: Cid)
    requires c in members
    ensures (forall acts :: StoringRun(c, members, acts, cid) ==> Held(Exec(Init(c), acts), cid))
            <==> Agreed(members, cid)
  {
    if cid.ringId in members && members != {c} {
      var acts := LosingRun(c, members, cid);
      assert StoringRun(c, members, acts, cid);
    } else {
      InitInv(c);
      forall acts | StoringRun(c, members, acts, cid) ensures Held(Exec(Init(c), acts), cid) {
        if members == {c} { AloneRun(Init(c), acts, c, cid); }
        else { ResponsibilityConserved(c, acts, cid); }
      }
    }
  }
}
