/** A whole transfer, whatever else goes on meanwhile: exactly the files on the arc go to the predecessor. */
module Handover {
  import opened Ring
  import opened ChordNodes
  import opened Protocol
  import opened Steps

  ghost predicate About(j: Job, n: Id, cid: Cid) {
    j.owner == n && j.cid == cid
  }

  /** n has nothing under way about the file. */
  ghost predicate NoJob(st: State, n: Id, cid: Cid) {
    forall j :: j in st.jobs ==> !About(j, n, cid)
  }

  /** What n has under way about the file is this, once. */
  ghost predicate OneJob(st: State, n: Id, cid: Cid, j: Job) {
    About(j, n, cid) && st.jobs[j] == 1 && forall k :: k in st.jobs && About(k, n, cid) ==> k == j
  }

  /** The action does not start or give up a transfer of the file by n, nor does news of the file arrive at n. */
  ghost predicate LeavesAlone(a: Action, n: Id, cid: Cid) {
    && a != BeginTransfer(n) && !(a.AbandonJob? && About(a.job, n, cid))
    && a != Deliver(StoreFile(n, cid)) && a != Deliver(DeleteFile(n, cid))
  }

  ghost predicate AllLeaveAlone(acts: seq<Action>, n: Id, cid: Cid) {
    forall i :: 0 <= i < |acts| ==> LeavesAlone(acts[i], n, cid)
  }

  /** n sends the file to t at some point of the run. */
  ghost predicate SentTo(acts: seq<Action>, n: Id, t: Id, cid: Cid) {
    exists i :: 0 <= i < |acts| && acts[i] == SendJob(Listed(n, t, cid))
  }

  lemma SentTail(acts: seq<Action>, n: Id, t: Id, cid: Cid)
    requires acts != []
    ensures SentTo(acts, n, t, cid) <==> acts[0] == SendJob(Listed(n, t, cid)) || SentTo(acts[1..], n, t, cid)
  {
    if i :| 0 < i < |acts| && acts[i] == SendJob(Listed(n, t, cid)) {
      assert acts[1..][i - 1] == acts[i];
    }
    if i :| 0 <= i < |acts[1..]| && acts[1..][i] == SendJob(Listed(n, t, cid)) {
      assert acts[i + 1] == acts[1..][i];
    }
  }

  lemma RestLeavesAlone(acts: seq<Action>, n: Id, cid: Cid)
    requires acts != [] && AllLeaveAlone(acts, n, cid)
    ensures LeavesAlone(acts[0], n, cid) && AllLeaveAlone(acts[1..], n, cid)
  {
    forall i | 0 <= i < |acts[1..]| ensures LeavesAlone(acts[1..][i], n, cid) {
      assert LeavesAlone(acts[i + 1], n, cid);
    }
  }

  // ----- one step

  lemma QuietFileStep(st: State, a: Action, n: Id, cid: Cid)
    requires Shaped(st) && Enabled(st, a) && n in st.succ && LeavesAlone(a, n, cid) && NoJob(st, n, cid)
    ensures n in Next(st, a).succ && NoJob(Next(st, a), n, cid)
    ensures cid in Next(st, a).resp[n] <==> cid in st.resp[n]
    ensures forall t :: a != SendJob(Listed(n, t, cid))
  {
    StepNode(st, a, n);
    RespExact(st, a, n, cid);
    forall j | j in Next(st, a).jobs ensures !About(j, n, cid) {
      JobsExact(st, a, j);
    }
  }

  lemma SentFileStep(st: State, a: Action, n: Id, cid: Cid)
    requires Shaped(st) && Enabled(st, a) && n in st.succ && LeavesAlone(a, n, cid)
    requires OneJob(st, n, cid, Sent(n, cid))
    ensures n in Next(st, a).succ
    ensures a == FinishJob(Sent(n, cid)) ==> NoJob(Next(st, a), n, cid) && cid !in Next(st, a).resp[n]
    ensures a != FinishJob(Sent(n, cid)) ==> OneJob(Next(st, a), n, cid, Sent(n, cid))
    ensures forall t :: a != SendJob(Listed(n, t, cid))
  {
    StepNode(st, a, n);
    RespExact(st, a, n, cid);
    JobsExact(st, a, Sent(n, cid));
    forall j | j in Next(st, a).jobs && About(j, n, cid) ensures j == Sent(n, cid) {
      JobsExact(st, a, j);
    }
  }

  lemma ListedFileStep(st: State, a: Action, n: Id, t: Id, cid: Cid)
    requires Shaped(st) && Enabled(st, a) && n in st.succ && LeavesAlone(a, n, cid)
    requires OneJob(st, n, cid, Listed(n, t, cid))
    ensures n in Next(st, a).succ
    ensures a == SendJob(Listed(n, t, cid)) ==> OneJob(Next(st, a), n, cid, Sent(n, cid))
    ensures a != SendJob(Listed(n, t, cid)) ==> OneJob(Next(st, a), n, cid, Listed(n, t, cid))
    ensures forall u :: a == SendJob(Listed(n, u, cid)) ==> u == t
  {
    StepNode(st, a, n);
    JobsExact(st, a, Sent(n, cid));
    JobsExact(st, a, Listed(n, t, cid));
    forall j | j in Next(st, a).jobs && About(j, n, cid)
      ensures j == if a == SendJob(Listed(n, t, cid)) then Sent(n, cid) else Listed(n, t, cid)
    {
      JobsExact(st, a, j);
    }
  }

  // ----- whole runs

  lemma {:induction false} QuietFileRun(st: State, acts: seq<Action>, n: Id, cid: Cid)
    requires Shaped(st) && IsRun(st, acts) && n in st.succ && AllLeaveAlone(acts, n, cid) && NoJob(st, n, cid)
    ensures n in Exec(st, acts).succ && (cid in Exec(st, acts).resp[n] <==> cid in st.resp[n])
    ensures forall t :: !SentTo(acts, n, t, cid)
    decreases |acts|
  {
    if acts != [] {
      RestLeavesAlone(acts, n, cid);
      QuietFileStep(st, acts[0], n, cid);
      QuietFileRun(Next(st, acts[0]), acts[1..], n, cid);
      forall t ensures !SentTo(acts, n, t, cid) {
        SentTail(acts, n, t, cid);
      }
    }
  }

  lemma {:induction false} SentFileRun(st: State, acts: seq<Action>, n: Id, cid: Cid)
    requires Shaped(st) && IsRun(st, acts) && n in st.succ && AllLeaveAlone(acts, n, cid)
    requires OneJob(st, n, cid, Sent(n, cid)) && NoJob(Exec(st, acts), n, cid)
    ensures n in Exec(st, acts).succ && cid !in Exec(st, acts).resp[n]
    ensures forall t :: !SentTo(acts, n, t, cid)
    decreases |acts|
  {
    assert acts == [] ==> Sent(n, cid) in st.jobs;
    RestLeavesAlone(acts, n, cid);
    SentFileStep(st, acts[0], n, cid);
    if acts[0] == FinishJob(Sent(n, cid)) { QuietFileRun(Next(st, acts[0]), acts[1..], n, cid); }
    else { SentFileRun(Next(st, acts[0]), acts[1..], n, cid); }
    forall t ensures !SentTo(acts, n, t, cid) {
      SentTail(acts, n, t, cid);
    }
  }

  lemma {:induction false} ListedFileRun(st: State, acts: seq<Action>, n: Id, t: Id, cid: Cid)
    requires Shaped(st) && IsRun(st, acts) && n in st.succ && AllLeaveAlone(acts, n, cid)
    requires OneJob(st, n, cid, Listed(n, t, cid)) && NoJob(Exec(st, acts), n, cid)
    ensures n in Exec(st, acts).succ && cid !in Exec(st, acts).resp[n]
    ensures forall u :: SentTo(acts, n, u, cid) <==> u == t
    decreases |acts|
  {
    assert acts == [] ==> Listed(n, t, cid) in st.jobs;
    RestLeavesAlone(acts, n, cid);
    ListedFileStep(st, acts[0], n, t, cid);
    if acts[0] == SendJob(Listed(n, t, cid)) { SentFileRun(Next(st, acts[0]), acts[1..], n, cid); }
    else { ListedFileRun(Next(st, acts[0]), acts[1..], n, t, cid); }
    forall u ensures SentTo(acts, n, u, cid) <==> u == t {
      SentTail(acts, n, u, cid);
    }
  }

  lemma Begun(st: State, n: Id, cid: Cid)
    requires Shaped(st) && Enabled(st, BeginTransfer(n)) && NoJob(st, n, cid)
    ensures var st' := Next(st, BeginTransfer(n));
            && n in st'.succ && st'.resp == st.resp
            && (forall p :: Lists(st, n, p, cid) ==> OneJob(st', n, cid, Listed(n, p, cid)))
            && ((forall p :: !Lists(st, n, p, cid)) ==> NoJob(st', n, cid))
  {
    var st' := Next(st, BeginTransfer(n));
    forall j | j in st'.jobs && About(j, n, cid) ensures j.Listed? && Lists(st, n, j.target, cid) {
      JobsExact(st, BeginTransfer(n), j);
    }
    forall p | Lists(st, n, p, cid) ensures OneJob(st', n, cid, Listed(n, p, cid)) {
      JobsExact(st, BeginTransfer(n), Listed(n, p, cid));
    }
  }

  /** The files of n outside the closed arc from its predecessor stay, those inside are sent to the predecessor that n
      had when the transfer began, and nowhere else, and n gives them up; whatever else goes on, as long as n starts
      no other transfer, gives up on nothing, and receives no news of the file itself. */
  lemma FileHandedOver(st: State, rest: seq<Action>, n: Id, cid: Cid)
    requires Shaped(st) && Enabled(st, BeginTransfer(n)) && NoJob(st, n, cid)
    requires IsRun(Next(st, BeginTransfer(n)), rest) && AllLeaveAlone(rest, n, cid)
    requires NoJob(Exec(Next(st, BeginTransfer(n)), rest), n, cid)
    ensures var end := Exec(Next(st, BeginTransfer(n)), rest);
            && n in end.resp
            && (cid in end.resp[n] <==> cid in st.resp[n] && forall p :: !Lists(st, n, p, cid))
    ensures forall t :: SentTo(rest, n, t, cid) <==> Lists(st, n, t, cid)
  {
    var st' := Next(st, BeginTransfer(n));
    Begun(st, n, cid);
    if p :| Lists(st, n, p, cid) {
      ListedFileRun(st', rest, n, p, cid);
    } else {
      QuietFileRun(st', rest, n, cid);
    }
  }

  // ----- transfers can be completed

  /** The action sends or finishes a file of n's transfer. */
  ghost predicate Works(a: Action, n: Id) {
    (a.SendJob? || a.FinishJob?) && a.job.owner == n
  }

  lemma SendEffect(st: State, j: Job)
    requires Shaped(st) && Enabled(st, SendJob(j))
    ensures var st' := Next(st, SendJob(j));
            st'.succ == st.succ && |st'.jobs| == |st.jobs| && Sent(j.owner, j.cid) in st'.jobs
  {
  }

  lemma FinishEffect(st: State, j: Job)
    requires Shaped(st) && Enabled(st, FinishJob(j))
    ensures Next(st, FinishJob(j)).succ == st.succ && |Next(st, FinishJob(j)).jobs| < |st.jobs|
  {
  }

  ghost predicate AllWork(acts: seq<Action>, n: Id) {
    forall i :: 0 <= i < |acts| ==> Works(acts[i], n)
  }

  lemma WorkFirst(st: State, a: Action, rest: seq<Action>, n: Id)
    requires Shaped(st) && Enabled(st, a) && IsRun(Next(st, a), rest) && Works(a, n) && AllWork(rest, n)
    ensures IsRun(st, [a] + rest) && AllWork([a] + rest, n) && Exec(st, [a] + rest) == Exec(Next(st, a), rest)
  {
    ConsRun(st, a, rest);
  }

  lemma {:induction false} FinishAll(st: State, n: Id) returns (acts: seq<Action>)
    requires Shaped(st) && n in st.succ
    ensures IsRun(st, acts) && AllWork(acts, n) && forall j :: j in Exec(st, acts).jobs ==> j.owner != n
    decreases |st.jobs|, 1
  {
    if j :| j in st.jobs && j.owner == n {
      if j.Listed? {
        SendEffect(st, j);
        acts := FinishOne(Next(st, SendJob(j)), n, Sent(n, j.cid));
        WorkFirst(st, SendJob(j), acts, n);
        acts := [SendJob(j)] + acts;
      } else {
        acts := FinishOne(st, n, j);
      }
    } else {
      acts := [];
    }
  }

  lemma {:induction false} FinishOne(st: State, n: Id, j: Job) returns (acts: seq<Action>)
    requires Shaped(st) && n in st.succ && j in st.jobs && j.Sent? && j.owner == n
    ensures IsRun(st, acts) && AllWork(acts, n) && forall k :: k in Exec(st, acts).jobs ==> k.owner != n
    decreases |st.jobs|, 0
  {
    FinishEffect(st, j);
    acts := FinishAll(Next(st, FinishJob(j)), n);
    WorkFirst(st, FinishJob(j), acts, n);
    acts := [FinishJob(j)] + acts;
  }

  lemma WorkLeavesAlone(acts: seq<Action>, n: Id, cid: Cid)
    requires AllWork(acts, n)
    ensures AllLeaveAlone(acts, n, cid)
  {
    forall i | 0 <= i < |acts| ensures LeavesAlone(acts[i], n, cid) {
      assert Works(acts[i], n);
    }
  }

  /** The outcome for one file. */
  ghost predicate HandedOver(st: State, end: State, rest: seq<Action>, n: Id, cid: Cid)
    requires n in st.resp && n in end.resp
  {
    && (cid in end.resp[n] <==> cid in st.resp[n] && forall p :: !Lists(st, n, p, cid))
    && forall t :: SentTo(rest, n, t, cid) <==> Lists(st, n, t, cid)
  }

  /** From every state in which a transfer of n is due, it can be completed: n is left with its files outside the arc,
      and has sent those inside to its predecessor. */
  lemma CanHandOver(st: State, n: Id) returns (rest: seq<Action>)
    requires Shaped(st) && Enabled(st, BeginTransfer(n)) && forall j :: j in st.jobs ==> j.owner != n
    ensures IsRun(Next(st, BeginTransfer(n)), rest) && n in Exec(Next(st, BeginTransfer(n)), rest).resp
    ensures forall cid :: HandedOver(st, Exec(Next(st, BeginTransfer(n)), rest), rest, n, cid)
  {
    var st' := Next(st, BeginTransfer(n));
    StepNode(st, BeginTransfer(n), n);
    rest := FinishAll(st', n);
    var end := Exec(st', rest);
    WorkLeavesAlone(rest, n, Cid("", 0));
    FileHandedOver(st, rest, n, Cid("", 0));
    forall cid ensures HandedOver(st, end, rest, n, cid) {
      WorkLeavesAlone(rest, n, cid);
      FileHandedOver(st, rest, n, cid);
    }
  }
}
