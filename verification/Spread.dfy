/** A file stored over the mesh: what a fetch from any node brings, whatever the nodes kept from earlier stores and in
    whatever order they reply. */
module Spread {
  import opened Wrappers
  import opened AesStream
  import opened Split
  import opened Mesh

  // ----- joining parts

  lemma {:induction false} ConcatAppend(a: seq<seq<Byte>>, b: seq<seq<Byte>>)
    ensures Concat(a + b) == Concat(a) + Concat(b)
    decreases |b|
  {
    if b == [] {
      assert a + b == a;
    } else {
      var front := b[..|b| - 1];
      ConcatAppend(a, front);
      assert (a + b)[..|a + b| - 1] == a + front;
    }
  }

  lemma ConcatAround(p: seq<seq<Byte>>, x: seq<Byte>, q: seq<seq<Byte>>)
    ensures Concat(p + [x] + q) == Concat(p) + x + Concat(q)
  {
    ConcatAppend(p + [x], q);
    assert (p + [x])[..|p|] == p;
  }

  /** Joined parts that agree everywhere else agree at i too. */
  lemma ConcatCancel(a: seq<seq<Byte>>, b: seq<seq<Byte>>, i: nat)
    requires |a| == |b| && i < |a| && Concat(a) == Concat(b)
    requires forall j :: 0 <= j < |a| && j != i ==> a[j] == b[j]
    ensures a[i] == b[i]
  {
    var p, q := a[..i], a[i + 1..];
    assert a == p + [a[i]] + q && b == p + [b[i]] + q;
    ConcatAround(p, a[i], q);
    ConcatAround(p, b[i], q);
    var from := |Concat(p)|;
    assert |a[i]| == |b[i]|;
    assert a[i] == Concat(a)[from..from + |a[i]|];
    assert b[i] == Concat(b)[from..from + |b[i]|];
  }

  lemma ConcatEmpty(ps: seq<seq<Byte>>, i: nat)
    requires i < |ps| && Concat(ps) == []
    ensures ps[i] == []
  {
    assert ps == ps[..i] + [ps[i]] + ps[i + 1..];
    ConcatAround(ps[..i], ps[i], ps[i + 1..]);
  }

  /** The k-th part of a file cut into n, counting from 1, and nothing beyond the last. */
  function PaddedPart(data: seq<Byte>, n: nat, k: int): seq<Byte>
    requires n > 0 && k >= 1
  {
    if k <= n then Part(data, n, k - 1) else []
  }

  function PaddedParts(data: seq<Byte>, n: nat, t: nat): (ps: seq<seq<Byte>>)
    requires n > 0
    ensures |ps| == t
  {
    seq(t, i requires 0 <= i < t => PaddedPart(data, n, i + 1))
  }

  lemma {:induction false} PaddedWhole(data: seq<Byte>, n: nat, t: nat)
    requires 0 < n <= t
    ensures Concat(PaddedParts(data, n, t)) == data
    decreases t
  {
    if t == n {
      assert PaddedParts(data, n, t) == Parts(data, n);
      PartsMakeWhole(data, n);
    } else {
      PaddedWhole(data, n, t - 1);
      assert PaddedParts(data, n, t)[..t - 1] == PaddedParts(data, n, t - 1);
    }
  }

  // ----- the nodes' records and the orders of asking them

  predicate Opens(net: Network, rec: Option<Stored>) {
    rec.Some? && Decrypt(net, rec.value.cipher).Ok?
  }

  function PlainOf(net: Network, rec: Option<Stored>): seq<Byte>
    requires Opens(net, rec)
  {
    Decrypt(net, rec.value.cipher).value
  }

  function AnswerFrom(rec: Option<Stored>): Option<Reply> {
    match rec
    case Some(s) => Some(Reply(s.part, s.cipher))
    case None => None
  }

  /** The ranks name every node but g, and no other. */
  ghost predicate AllBut(ranks: seq<nat>, size: nat, g: nat) {
    && (forall i :: 0 <= i < |ranks| ==> ranks[i] < size && ranks[i] != g)
    && forall h: nat :: h < size && h != g ==> h in ranks
  }

  /** They do so without repetition: an order in which g may ask the others. */
  ghost predicate IsOrder(ranks: seq<nat>, size: nat, g: nat) {
    AllBut(ranks, size, g) && forall i, j :: 0 <= i < j < |ranks| ==> ranks[i] != ranks[j]
  }

  ghost function AnswersOf(recs: seq<Option<Stored>>, g: nat, ranks: seq<nat>): (answers: seq<Option<Reply>>)
    requires AllBut(ranks, |recs|, g)
    ensures |answers| == |ranks|
  {
    seq(|ranks|, i requires 0 <= i < |ranks| => AnswerFrom(recs[ranks[i]]))
  }

  /** How the fetch of node g ends when the others reply in this order. */
  ghost function FetchAt(net: Network, recs: seq<Option<Stored>>, g: nat, ranks: seq<nat>): Fetch
    requires g < |recs| && AllBut(ranks, |recs|, g)
  {
    FetchOutcome(net, recs[g], AnswersOf(recs, g, ranks))
  }

  predicate Succeeds(f: Fetch) {
    f.Returned? && f.result.Ok?
  }

  /** Success with this file and this name. */
  predicate Brought(f: Fetch, data: seq<Byte>, name: string) {
    f == Returned(Ok((data, name)))
  }

  ghost predicate OthersKeep(recs: seq<Option<Stored>>, g: nat) {
    forall h :: 0 <= h < |recs| && h != g ==> recs[h].Some?
  }

  /** Node h holds something that decrypts, numbered k. */
  predicate NumberedAt(net: Network, recs: seq<Option<Stored>>, h: nat, k: int) {
    h < |recs| && Opens(net, recs[h]) && recs[h].value.part == k
  }

  ghost predicate SomeHas(net: Network, recs: seq<Option<Stored>>, k: int) {
    exists h: nat :: NumberedAt(net, recs, h, k)
  }

  ghost predicate OtherHas(net: Network, recs: seq<Option<Stored>>, g: nat, k: int) {
    exists h: nat :: h != g && NumberedAt(net, recs, h, k)
  }

  // ----- what a fetch collects

  ghost predicate Holds(net: Network, replies: seq<Reply>, i: nat, k: int, v: seq<Byte>) {
    i < |replies| && replies[i].part == k && Decrypt(net, replies[i].cipher) == Ok(v)
  }

  /** Every collected part comes from a reply of its number, or was there before and no reply has that number. */
  lemma {:induction false} CollectedEntry(net: Network, parts: map<int, seq<Byte>>, replies: seq<Reply>, k: int)
    ensures k in Collected(net, parts, replies) <==> k in parts || Brings(net, replies, k)
    ensures Brings(net, replies, k) ==> exists i: nat :: Holds(net, replies, i, k, Collected(net, parts, replies)[k])
    ensures !Brings(net, replies, k) && k in parts ==> Collected(net, parts, replies)[k] == parts[k]
    decreases |replies|
  {
    if replies != [] {
      var front, last := replies[..|replies| - 1], replies[|replies| - 1];
      CollectedEntry(net, parts, front, k);
      BringsLast(net, replies, k);
      if last.part == k && Decrypt(net, last.cipher).Ok? {
        assert Holds(net, replies, |replies| - 1, k, Decrypt(net, last.cipher).value);
      } else if Brings(net, replies, k) {
        var i: nat :| Holds(net, front, i, k, Collected(net, parts, front)[k]);
        assert Holds(net, replies, i, k, Collected(net, parts, front)[k]);
      }
    }
  }

  ghost predicate Ready(net: Network, recs: seq<Option<Stored>>, g: nat, ranks: seq<nat>) {
    g < |recs| && AllBut(ranks, |recs|, g) && OthersKeep(recs, g) && Opens(net, recs[g])
  }

  ghost function RepliesOf(recs: seq<Option<Stored>>, g: nat, ranks: seq<nat>): (replies: seq<Reply>)
    requires AllBut(ranks, |recs|, g) && OthersKeep(recs, g)
    ensures |replies| == |ranks|
    ensures forall i :: 0 <= i < |ranks| ==> recs[ranks[i]].Some?
    ensures forall i :: 0 <= i < |ranks| ==>
              replies[i] == Reply(recs[ranks[i]].value.part, recs[ranks[i]].value.cipher)
  {
    Received(AnswersOf(recs, g, ranks))
  }

  ghost function Gathered(net: Network, recs: seq<Option<Stored>>, g: nat, ranks: seq<nat>): map<int, seq<Byte>>
    requires Ready(net, recs, g, ranks)
  {
    Collected(net, map[recs[g].value.part := PlainOf(net, recs[g])], RepliesOf(recs, g, ranks))
  }

  lemma BringsOther(net: Network, recs: seq<Option<Stored>>, g: nat, ranks: seq<nat>, k: int)
    requires Ready(net, recs, g, ranks)
    ensures Brings(net, RepliesOf(recs, g, ranks), k) <==> OtherHas(net, recs, g, k)
  {
    var replies := RepliesOf(recs, g, ranks);
    if Brings(net, replies, k) {
      var r :| r in replies && r.part == k && Decrypt(net, r.cipher).Ok?;
      var i :| 0 <= i < |replies| && replies[i] == r;
      assert NumberedAt(net, recs, ranks[i], k);
    }
    if OtherHas(net, recs, g, k) {
      var h: nat :| h != g && NumberedAt(net, recs, h, k);
      assert h in ranks;
      var i :| 0 <= i < |ranks| && ranks[i] == h;
      assert replies[i] in replies;
    }
  }

  /** The parts in the end: those of every number on some node, each as another node has it, or as g itself has it when
      no other node has that number. */
  lemma GatheredEntry(net: Network, recs: seq<Option<Stored>>, g: nat, ranks: seq<nat>, k: int)
    requires Ready(net, recs, g, ranks)
    ensures k in Gathered(net, recs, g, ranks) <==> SomeHas(net, recs, k)
    ensures OtherHas(net, recs, g, k) ==> exists h: nat ::
              h != g && NumberedAt(net, recs, h, k) && PlainOf(net, recs[h]) == Gathered(net, recs, g, ranks)[k]
    ensures SomeHas(net, recs, k) && !OtherHas(net, recs, g, k) ==>
              recs[g].value.part == k && Gathered(net, recs, g, ranks)[k] == PlainOf(net, recs[g])
  {
    var parts, replies := map[recs[g].value.part := PlainOf(net, recs[g])], RepliesOf(recs, g, ranks);
    CollectedEntry(net, parts, replies, k);
    BringsOther(net, recs, g, ranks, k);
    assert k == recs[g].value.part <==> NumberedAt(net, recs, g, k);
    if OtherHas(net, recs, g, k) {
      var i: nat :| Holds(net, replies, i, k, Collected(net, parts, replies)[k]);
      assert NumberedAt(net, recs, ranks[i], k);
    }
  }

  // ----- success does not depend on the order

  /** Everybody else has something, g's own part decrypts, and the numbers present are 1 to the total that g recorded.
      */
  ghost predicate Accepted(net: Network, recs: seq<Option<Stored>>, g: nat)
    requires g < |recs|
  {
    && OthersKeep(recs, g) && Opens(net, recs[g]) && recs[g].value.total > 0
    && forall k :: SomeHas(net, recs, k) <==> 1 <= k <= recs[g].value.total
  }

  lemma NumberedIff(parts: map<int, seq<Byte>>, n: nat)
    ensures |parts| == n && Numbered(parts) <==> parts.Keys == Range(n)
  {
    assert |parts| == |parts.Keys|;
    if |parts| == n && Numbered(parts) {
      assert Range(n) <= parts.Keys;
      SubsetCard(Range(n), parts.Keys);
    }
  }

  lemma AllAnswerIff(recs: seq<Option<Stored>>, g: nat, ranks: seq<nat>)
    requires g < |recs| && AllBut(ranks, |recs|, g)
    ensures AllAnswer(AnswersOf(recs, g, ranks)) <==> OthersKeep(recs, g)
  {
    var answers := AnswersOf(recs, g, ranks);
    if AllAnswer(answers) {
      forall h | 0 <= h < |recs| && h != g ensures recs[h].Some? {
        assert h in ranks;
        var i :| 0 <= i < |ranks| && ranks[i] == h;
        assert answers[i].Some?;
      }
    }
  }

  lemma FetchGathers(net: Network, recs: seq<Option<Stored>>, g: nat, ranks: seq<nat>)
    requires Ready(net, recs, g, ranks)
    ensures FetchAt(net, recs, g, ranks) == Returned(Assemble(Gathered(net, recs, g, ranks), recs[g]))
  {
    AllAnswerIff(recs, g, ranks);
    OutcomeGathers(net, recs[g].value, RepliesOf(recs, g, ranks), PlainOf(net, recs[g]));
  }

  lemma GatheredRange(net: Network, recs: seq<Option<Stored>>, g: nat, ranks: seq<nat>, t: nat)
    requires Ready(net, recs, g, ranks)
    ensures Gathered(net, recs, g, ranks).Keys == Range(t) <==> forall k :: SomeHas(net, recs, k) <==> 1 <= k <= t
  {
    var parts := Gathered(net, recs, g, ranks);
    forall k ensures k in parts <==> SomeHas(net, recs, k) {
      GatheredEntry(net, recs, g, ranks, k);
    }
    if forall k :: SomeHas(net, recs, k) <==> 1 <= k <= t {
      assert forall k :: k in parts.Keys <==> k in Range(t);
    }
    if parts.Keys == Range(t) {
      forall k ensures SomeHas(net, recs, k) <==> 1 <= k <= t {
        assert k in parts.Keys <==> k in Range(t);
      }
    }
  }

  /** Whatever the nodes hold and in whatever order they reply: exactly when a fetch succeeds, what it then returns, and
      exactly when it waits for ever. */
  lemma SucceedsIff(net: Network, recs: seq<Option<Stored>>, g: nat, ranks: seq<nat>)
    requires g < |recs| && AllBut(ranks, |recs|, g)
    ensures Succeeds(FetchAt(net, recs, g, ranks)) <==> Accepted(net, recs, g)
    ensures FetchAt(net, recs, g, ranks) == Waiting <==>
              !OthersKeep(recs, g) && (recs[g].None? || Opens(net, recs[g]))
    ensures Accepted(net, recs, g) ==>
              var t, parts := recs[g].value.total, Gathered(net, recs, g, ranks);
              && parts.Keys == Range(t)
              && FetchAt(net, recs, g, ranks) == Returned(Ok((Concat(InOrder(parts, t)), recs[g].value.name)))
  {
    AllAnswerIff(recs, g, ranks);
    if OthersKeep(recs, g) && Opens(net, recs[g]) {
      var parts, t := Gathered(net, recs, g, ranks), recs[g].value.total;
      FetchGathers(net, recs, g, ranks);
      GatheredEntry(net, recs, g, ranks, recs[g].value.part);
      assert NumberedAt(net, recs, g, recs[g].value.part);
      if t > 0 {
        NumberedIff(parts, t);
        GatheredRange(net, recs, g, ranks, t);
      }
    } else if OthersKeep(recs, g) && recs[g].None? {
      FetchWithoutPart(net, RepliesOf(recs, g, ranks));
    }
  }

  // ----- when every order brings the file

  /** The nodes of rank below n hold the parts of this one file; what the others hold is open. */
  ghost predicate IsSpread(net: Network, data: seq<Byte>, name: string, n: nat, recs: seq<Option<Stored>>)
    requires n > 0
  {
    forall h :: 0 <= h < |recs| && h < n ==>
      recs[h].Some? && recs[h].value.part == h + 1 && GenuineLocal(net, data, name, n, recs[h].value)
  }

  /** The record has the bytes that belong at its number: a part of the file, or nothing beyond the last part. */
  ghost predicate Right(net: Network, data: seq<Byte>, n: nat, rec: Option<Stored>)
    requires n > 0 && Opens(net, rec)
  {
    rec.value.part >= 1 && PlainOf(net, rec) == PaddedPart(data, n, rec.value.part)
  }

  ghost predicate AlwaysBrings(net: Network, data: seq<Byte>, name: string, recs: seq<Option<Stored>>, g: nat)
    requires g < |recs|
  {
    forall ranks :: IsOrder(ranks, |recs|, g) ==> Brought(FetchAt(net, recs, g, ranks), data, name)
  }

  /** The fetch is accepted under the file's name, whatever another node has decrypts to what belongs there, and g's own
      part does so too or is replaced by another's. */
  ghost predicate Fits(net: Network, data: seq<Byte>, name: string, n: nat, recs: seq<Option<Stored>>, g: nat)
    requires n > 0 && g < |recs|
  {
    && Accepted(net, recs, g) && recs[g].value.name == name
    && (forall h :: 0 <= h < |recs| && h != g && Opens(net, recs[h]) ==> Right(net, data, n, recs[h]))
    && (Right(net, data, n, recs[g]) || OtherHas(net, recs, g, recs[g].value.part))
  }

  /** An accepted fetch has at least the n parts. */
  lemma TotalEnough(net: Network, data: seq<Byte>, name: string, n: nat, recs: seq<Option<Stored>>, g: nat)
    requires n > 0 && g < |recs| && IsSpread(net, data, name, n, recs) && Accepted(net, recs, g)
    ensures recs[g].value.total >= n && (g < n ==> recs[g].value.total == n)
  {
    if g >= n {
      assert NumberedAt(net, recs, n - 1, n);
      assert SomeHas(net, recs, n);
    }
  }

  lemma FitsBrings(net: Network, data: seq<Byte>, name: string, n: nat, recs: seq<Option<Stored>>, g: nat,
                   ranks: seq<nat>)
    requires n > 0 && g < |recs| && IsSpread(net, data, name, n, recs) && AllBut(ranks, |recs|, g)
    requires Fits(net, data, name, n, recs, g)
    ensures Brought(FetchAt(net, recs, g, ranks), data, name)
  {
    var t, parts := recs[g].value.total, Gathered(net, recs, g, ranks);
    TotalEnough(net, data, name, n, recs, g);
    SucceedsIff(net, recs, g, ranks);
    forall k | 1 <= k <= t ensures parts[k] == PaddedPart(data, n, k) {
      GatheredEntry(net, recs, g, ranks, k);
      assert k in Range(t);
    }
    assert InOrder(parts, t) == PaddedParts(data, n, t);
    PaddedWhole(data, n, t);
  }

  // orders

  lemma {:induction false} RanksWithout(size: nat, out: set<nat>) returns (ranks: seq<nat>)
    ensures forall i :: 0 <= i < |ranks| ==> ranks[i] < size && ranks[i] !in out
    ensures forall h: nat :: h < size && h !in out ==> h in ranks
    ensures forall i, j :: 0 <= i < j < |ranks| ==> ranks[i] != ranks[j]
    decreases size
  {
    if size == 0 {
      ranks := [];
    } else {
      ranks := RanksWithout(size - 1, out);
      if size - 1 !in out { ranks := ranks + [size - 1]; }
    }
  }

  lemma OrderExists(size: nat, g: nat) returns (ranks: seq<nat>)
    ensures IsOrder(ranks, size, g)
  {
    ranks := RanksWithout(size, {g});
  }

  /** Two orders that differ only in which of i and j comes last. */
  lemma OrderEnding(size: nat, g: nat, i: nat, j: nat) returns (front: seq<nat>)
    requires i < size && j < size && i != j && i != g && j != g
    ensures IsOrder(front + [i, j], size, g) && IsOrder(front + [j, i], size, g)
  {
    front := RanksWithout(size, {g, i, j});
    forall h: nat | h < size && h != g ensures h in front + [i, j] && h in front + [j, i] {
      if h == i { assert (front + [i, j])[|front|] == h && (front + [j, i])[|front| + 1] == h; }
      if h == j { assert (front + [j, i])[|front|] == h && (front + [i, j])[|front| + 1] == h; }
    }
  }

  lemma CollectedTwo(net: Network, parts: map<int, seq<Byte>>, front: seq<Reply>, a: Reply, b: Reply)
    requires a.part == b.part && Decrypt(net, a.cipher).Ok? && Decrypt(net, b.cipher).Ok?
    ensures Collected(net, parts, front + [a, b])
            == Collected(net, parts, front)[b.part := Decrypt(net, b.cipher).value]
  {
    var all := front + [a, b];
    assert all[..|all| - 1] == front + [a];
    assert (front + [a])[..|front|] == front;
    assert Collected(net, parts, front + [a]) == AddReply(net, Collected(net, parts, front), a);
  }

  /** What is collected before the last two replies. */
  ghost function FrontParts(net: Network, recs: seq<Option<Stored>>, g: nat, front: seq<nat>): map<int, seq<Byte>>
    requires g < |recs| && OthersKeep(recs, g) && Opens(net, recs[g])
    requires forall h :: 0 <= h < |front| ==> front[h] < |recs| && front[h] != g
  {
    Collected(net, map[recs[g].value.part := PlainOf(net, recs[g])],
              seq(|front|, h requires 0 <= h < |front| =>
                Reply(recs[front[h]].value.part, recs[front[h]].value.cipher)))
  }

  lemma GatheredTwo(net: Network, recs: seq<Option<Stored>>, g: nat, front: seq<nat>, i: nat, j: nat, k: int)
    requires Ready(net, recs, g, front + [i, j]) && NumberedAt(net, recs, i, k) && NumberedAt(net, recs, j, k)
    requires forall h :: 0 <= h < |front| ==> front[h] < |recs| && front[h] != g
    ensures Gathered(net, recs, g, front + [i, j]) == FrontParts(net, recs, g, front)[k := PlainOf(net, recs[j])]
  {
    var ranks := front + [i, j];
    var replies := seq(|front|, h requires 0 <= h < |front| =>
                         Reply(recs[front[h]].value.part, recs[front[h]].value.cipher));
    var a, b := Reply(k, recs[i].value.cipher), Reply(k, recs[j].value.cipher);
    assert RepliesOf(recs, g, ranks) == replies + [a, b] by {
      forall h | 0 <= h < |front| ensures ranks[h] == front[h] {
      }
    }
    CollectedTwo(net, map[recs[g].value.part := PlainOf(net, recs[g])], replies, a, b);
  }

  /** If every order brings the file, other nodes that have the same number have the same bytes. */
  lemma AlwaysAgree(net: Network, data: seq<Byte>, name: string, recs: seq<Option<Stored>>, g: nat,
                    i: nat, j: nat, k: int)
    requires g < |recs| && AlwaysBrings(net, data, name, recs, g)
    requires i != g && j != g && NumberedAt(net, recs, i, k) && NumberedAt(net, recs, j, k)
    ensures PlainOf(net, recs[i]) == PlainOf(net, recs[j])
  {
    if i != j {
      var front := OrderEnding(|recs|, g, i, j);
      var one, two := front + [i, j], front + [j, i];
      SucceedsIff(net, recs, g, one);
      SucceedsIff(net, recs, g, two);
      forall h | 0 <= h < |front| ensures front[h] < |recs| && front[h] != g {
        assert one[h] == front[h];
      }
      GatheredTwo(net, recs, g, front, i, j, k);
      GatheredTwo(net, recs, g, front, j, i, k);
      assert SomeHas(net, recs, k);
      SameLast(FrontParts(net, recs, g, front), k, PlainOf(net, recs[j]), PlainOf(net, recs[i]), recs[g].value.total);
    }
  }

  /** Parts that make up the same whole with either of two pieces at number k. */
  lemma SameLast(parts: map<int, seq<Byte>>, k: int, u: seq<Byte>, v: seq<Byte>, t: nat)
    requires 1 <= k <= t && parts[k := u].Keys == Range(t) && parts[k := v].Keys == Range(t)
    requires Concat(InOrder(parts[k := u], t)) == Concat(InOrder(parts[k := v], t))
    ensures u == v
  {
    var one, two := InOrder(parts[k := u], t), InOrder(parts[k := v], t);
    forall j | 0 <= j < t ensures j == k - 1 || one[j] == two[j] {
      InOrderAt(parts[k := u], t, j);
      InOrderAt(parts[k := v], t, j);
    }
    InOrderAt(parts[k := u], t, k - 1);
    InOrderAt(parts[k := v], t, k - 1);
    ConcatCancel(one, two, k - 1);
  }

  lemma InOrderAt(parts: map<int, seq<Byte>>, t: nat, j: nat)
    requires parts.Keys == Range(t) && j < t
    ensures j + 1 in parts && InOrder(parts, t)[j] == parts[j + 1]
  {
    assert j + 1 in Range(t);
  }

  lemma AlwaysAccepted(net: Network, data: seq<Byte>, name: string, recs: seq<Option<Stored>>, g: nat)
    returns (ranks: seq<nat>)
    requires g < |recs| && AlwaysBrings(net, data, name, recs, g)
    ensures IsOrder(ranks, |recs|, g) && Accepted(net, recs, g) && recs[g].value.name == name
    ensures var t, parts := recs[g].value.total, Gathered(net, recs, g, ranks);
            parts.Keys == Range(t) && Concat(InOrder(parts, t)) == data
  {
    ranks := OrderExists(|recs|, g);
    SucceedsIff(net, recs, g, ranks);
  }

  /** The number k is gathered as another node has it. */
  lemma GatheredAs(net: Network, data: seq<Byte>, name: string, recs: seq<Option<Stored>>, g: nat,
                   ranks: seq<nat>, h: nat)
    requires Ready(net, recs, g, ranks) && AlwaysBrings(net, data, name, recs, g)
    requires h < |recs| && h != g && Opens(net, recs[h])
    ensures recs[h].value.part in Gathered(net, recs, g, ranks)
    ensures Gathered(net, recs, g, ranks)[recs[h].value.part] == PlainOf(net, recs[h])
  {
    var k := recs[h].value.part;
    assert NumberedAt(net, recs, h, k);
    GatheredEntry(net, recs, g, ranks, k);
    var j: nat :| j != g && NumberedAt(net, recs, j, k) && PlainOf(net, recs[j]) == Gathered(net, recs, g, ranks)[k];
    AlwaysAgree(net, data, name, recs, g, h, j, k);
  }

  /** If every order brings the file, every number is gathered with what belongs there. */
  lemma AlwaysPadded(net: Network, data: seq<Byte>, name: string, n: nat, recs: seq<Option<Stored>>, g: nat)
    returns (ranks: seq<nat>)
    requires n > 0 && g < |recs| && IsSpread(net, data, name, n, recs) && AlwaysBrings(net, data, name, recs, g)
    ensures IsOrder(ranks, |recs|, g) && Accepted(net, recs, g) && recs[g].value.name == name
    ensures Gathered(net, recs, g, ranks).Keys == Range(recs[g].value.total)
    ensures var t := recs[g].value.total;
            InOrder(Gathered(net, recs, g, ranks), t) == PaddedParts(data, n, t)
  {
    ranks := AlwaysAccepted(net, data, name, recs, g);
    TotalEnough(net, data, name, n, recs, g);
    EnoughNodes(net, data, name, n, recs, g);
    forall i | 0 <= i < n && i != g
      ensures i + 1 in Gathered(net, recs, g, ranks) && Gathered(net, recs, g, ranks)[i + 1] == Part(data, n, i)
    {
      GatheredPart(net, data, name, n, recs, g, ranks, i);
    }
    PartsPadded(Gathered(net, recs, g, ranks), data, n, recs[g].value.total, g);
  }

  /** Parts that make up a file and are right up to n, save perhaps one, are right everywhere. */
  lemma PartsPadded(parts: map<int, seq<Byte>>, data: seq<Byte>, n: nat, t: nat, g: nat)
    requires 0 < n <= t && (g < n ==> t == n) && parts.Keys == Range(t) && Concat(InOrder(parts, t)) == data
    requires forall i :: 0 <= i < n && i != g ==> i + 1 in parts && parts[i + 1] == Part(data, n, i)
    ensures InOrder(parts, t) == PaddedParts(data, n, t)
  {
    PaddedWhole(data, n, t);
    SameWhole(InOrder(parts, t), PaddedParts(data, n, t), n, g);
  }

  lemma GatheredPart(net: Network, data: seq<Byte>, name: string, n: nat, recs: seq<Option<Stored>>, g: nat,
                     ranks: seq<nat>, i: nat)
    requires n > 0 && Ready(net, recs, g, ranks) && AlwaysBrings(net, data, name, recs, g)
    requires i < n && i < |recs| && i != g && IsSpread(net, data, name, n, recs)
    ensures i + 1 in Gathered(net, recs, g, ranks) && Gathered(net, recs, g, ranks)[i + 1] == Part(data, n, i)
  {
    GatheredAs(net, data, name, recs, g, ranks, i);
  }

  lemma EnoughNodes(net: Network, data: seq<Byte>, name: string, n: nat, recs: seq<Option<Stored>>, g: nat)
    requires n > 0 && g < |recs| && IsSpread(net, data, name, n, recs) && Accepted(net, recs, g)
    ensures |recs| >= n
  {
    TotalEnough(net, data, name, n, recs, g);
    assert SomeHas(net, recs, n);
  }

  lemma SameWhole(got: seq<seq<Byte>>, want: seq<seq<Byte>>, n: nat, g: nat)
    requires |got| == |want| && n <= |got| && Concat(got) == Concat(want)
    requires forall i :: 0 <= i < n && i != g ==> got[i] == want[i]
    requires forall i :: n <= i < |want| ==> want[i] == []
    requires g < n ==> |got| == n
    ensures got == want
  {
    if g < n { ConcatCancel(got, want, g); } else { RestEmpty(got, want, n); }
  }

  /** Parts that make up the same whole and agree on the first n, after which one side has nothing. */
  lemma RestEmpty(got: seq<seq<Byte>>, want: seq<seq<Byte>>, n: nat)
    requires |got| == |want| && n <= |got| && Concat(got) == Concat(want)
    requires forall i :: 0 <= i < n ==> got[i] == want[i]
    requires forall i :: n <= i < |want| ==> want[i] == []
    ensures got == want
  {
    assert got == got[..n] + got[n..] && want == want[..n] + want[n..];
    assert got[..n] == want[..n];
    ConcatAppend(got[..n], got[n..]);
    ConcatAppend(want[..n], want[n..]);
    AllEmpty(want[n..]);
    assert |Concat(got)| == |Concat(got[..n])| + |Concat(got[n..])|;
    forall i | n <= i < |got| ensures got[i] == [] {
      ConcatEmpty(got[n..], i - n);
    }
  }

  lemma {:induction false} AllEmpty(ps: seq<seq<Byte>>)
    requires forall i :: 0 <= i < |ps| ==> ps[i] == []
    ensures Concat(ps) == []
    decreases |ps|
  {
    if ps != [] { AllEmpty(ps[..|ps| - 1]); }
  }

  lemma AlwaysFits(net: Network, data: seq<Byte>, name: string, n: nat, recs: seq<Option<Stored>>, g: nat)
    requires n > 0 && g < |recs| && IsSpread(net, data, name, n, recs) && AlwaysBrings(net, data, name, recs, g)
    ensures Fits(net, data, name, n, recs, g)
  {
    var ranks := AlwaysPadded(net, data, name, n, recs, g);
    var t, parts := recs[g].value.total, Gathered(net, recs, g, ranks);
    forall h | 0 <= h < |recs| && h != g && Opens(net, recs[h]) ensures Right(net, data, n, recs[h]) {
      GatheredAs(net, data, name, recs, g, ranks, h);
      PaddedAt(parts, data, n, t, recs[h].value.part);
    }
    assert NumberedAt(net, recs, g, recs[g].value.part);
    GatheredEntry(net, recs, g, ranks, recs[g].value.part);
    PaddedAt(parts, data, n, t, recs[g].value.part);
  }

  lemma PaddedAt(parts: map<int, seq<Byte>>, data: seq<Byte>, n: nat, t: nat, k: int)
    requires n > 0 && parts.Keys == Range(t) && InOrder(parts, t) == PaddedParts(data, n, t) && k in parts
    ensures k >= 1 && parts[k] == PaddedPart(data, n, k)
  {
    assert k in Range(t);
    assert InOrder(parts, t)[k - 1] == PaddedParts(data, n, t)[k - 1];
  }

  /** Exactly when a fetch brings the file and its name in every order of replies, whatever the nodes without a part of
      this store kept. */
  lemma AlwaysBringsIff(net: Network, data: seq<Byte>, name: string, n: nat, recs: seq<Option<Stored>>, g: nat)
    requires n > 0 && g < |recs| && IsSpread(net, data, name, n, recs)
    ensures AlwaysBrings(net, data, name, recs, g) <==> Fits(net, data, name, n, recs, g)
  {
    if Fits(net, data, name, n, recs, g) {
      forall ranks | IsOrder(ranks, |recs|, g) ensures Brought(FetchAt(net, recs, g, ranks), data, name) {
        FitsBrings(net, data, name, n, recs, g, ranks);
      }
    }
    if AlwaysBrings(net, data, name, recs, g) { AlwaysFits(net, data, name, n, recs, g); }
  }

  /** In no order does the fetch succeed with anything else. */
  ghost predicate NeverWrong(net: Network, data: seq<Byte>, name: string, recs: seq<Option<Stored>>, g: nat)
    requires g < |recs|
  {
    forall ranks :: IsOrder(ranks, |recs|, g) && Succeeds(FetchAt(net, recs, g, ranks)) ==>
      Brought(FetchAt(net, recs, g, ranks), data, name)
  }

  lemma NeverWrongIff(net: Network, data: seq<Byte>, name: string, n: nat, recs: seq<Option<Stored>>, g: nat)
    requires n > 0 && g < |recs| && IsSpread(net, data, name, n, recs)
    ensures NeverWrong(net, data, name, recs, g) <==> !Accepted(net, recs, g) || Fits(net, data, name, n, recs, g)
  {
    AlwaysBringsIff(net, data, name, n, recs, g);
    forall ranks | IsOrder(ranks, |recs|, g)
      ensures Succeeds(FetchAt(net, recs, g, ranks)) <==> Accepted(net, recs, g)
    {
      SucceedsIff(net, recs, g, ranks);
    }
    if Accepted(net, recs, g) && NeverWrong(net, data, name, recs, g) {
      assert AlwaysBrings(net, data, name, recs, g);
    }
  }

  // ----- a node that holds a part; fresh nodes; earlier stores

  ghost predicate IsPart(net: Network, data: seq<Byte>, n: nat, rec: Option<Stored>)
    requires n > 0 && rec.Some?
  {
    Genuine(net, data, n, Reply(rec.value.part, rec.value.cipher))
  }

  /** Nobody lacks a record, and what the nodes without a part of this store kept are parts of this split, as far as it
      decrypts. */
  ghost predicate OnlyThisSplit(net: Network, data: seq<Byte>, n: nat, recs: seq<Option<Stored>>)
    requires n > 0
  {
    forall h :: n <= h < |recs| ==> recs[h].Some? && (Opens(net, recs[h]) ==> IsPart(net, data, n, recs[h]))
  }

  lemma FitsThisSplit(net: Network, data: seq<Byte>, name: string, n: nat, recs: seq<Option<Stored>>, g: nat)
    requires 0 < n && g < |recs| && g < n && IsSpread(net, data, name, n, recs) && Fits(net, data, name, n, recs, g)
    ensures OnlyThisSplit(net, data, n, recs)
  {
    forall h | n <= h < |recs| && Opens(net, recs[h]) ensures IsPart(net, data, n, recs[h]) {
      assert NumberedAt(net, recs, h, recs[h].value.part);
      assert SomeHas(net, recs, recs[h].value.part);
      assert Right(net, data, n, recs[h]);
    }
  }

  lemma ThisSplitFits(net: Network, data: seq<Byte>, name: string, n: nat, recs: seq<Option<Stored>>, g: nat)
    requires 0 < n <= |recs| && g < n && IsSpread(net, data, name, n, recs) && OnlyThisSplit(net, data, n, recs)
    ensures Fits(net, data, name, n, recs, g)
  {
    HolderAccepts(net, data, name, n, recs, g);
    forall h | 0 <= h < |recs| && Opens(net, recs[h]) ensures Right(net, data, n, recs[h]) {
      assert h >= n ==> IsPart(net, data, n, recs[h]);
    }
  }

  /** A node with a part gets the file in every order exactly when no part is missing, and every node without a part of
      this store has a record that is a part of this split or does not decrypt. */
  lemma HolderAlwaysIff(net: Network, data: seq<Byte>, name: string, n: nat, recs: seq<Option<Stored>>, g: nat)
    requires 0 < n && g < |recs| && g < n && IsSpread(net, data, name, n, recs)
    ensures AlwaysBrings(net, data, name, recs, g) <==> |recs| >= n && OnlyThisSplit(net, data, n, recs)
  {
    AlwaysBringsIff(net, data, name, n, recs, g);
    if Fits(net, data, name, n, recs, g) {
      EnoughNodes(net, data, name, n, recs, g);
      FitsThisSplit(net, data, name, n, recs, g);
    }
    if |recs| >= n && OnlyThisSplit(net, data, n, recs) { ThisSplitFits(net, data, name, n, recs, g); }
  }

  /** Numbers 1 to n are present, and no others as far as the records of the other nodes that decrypt go. */
  lemma HolderAccepts(net: Network, data: seq<Byte>, name: string, n: nat, recs: seq<Option<Stored>>, g: nat)
    requires 0 < n <= |recs| && g < n && IsSpread(net, data, name, n, recs)
    requires forall h :: n <= h < |recs| ==>
               recs[h].Some? && (Opens(net, recs[h]) ==> 1 <= recs[h].value.part <= n)
    ensures Accepted(net, recs, g)
  {
    forall k ensures SomeHas(net, recs, k) <==> 1 <= k <= n {
      if 1 <= k <= n { assert NumberedAt(net, recs, k - 1, k); }
    }
  }

  /** When the nodes without a part hold nothing: a fetch brings the file and its name back exactly when there are as
      many nodes as parts. It waits for ever exactly when another node has no part; in the remaining cases it fails.
      */
  lemma SpreadFetchIff(net: Network, data: seq<Byte>, name: string, n: nat, recs: seq<Option<Stored>>, g: nat,
                       ranks: seq<nat>)
    requires n > 0 && g < |recs| && IsSpread(net, data, name, n, recs) && AllBut(ranks, |recs|, g)
    requires forall h :: n <= h < |recs| ==> recs[h].None?
    ensures var f, size := FetchAt(net, recs, g, ranks), |recs|;
            && (Brought(f, data, name) <==> size == n)
            && (f == Waiting <==> size > n && (g < n || size > n + 1))
            && (Succeeds(f) ==> Brought(f, data, name))
  {
    SucceedsIff(net, recs, g, ranks);
    FreshAcceptedIff(net, data, name, n, recs, g);
    if |recs| == n { FitsBrings(net, data, name, n, recs, g, ranks); }
    if |recs| > n {
      assert recs[n].None?;
      assert |recs| > n + 1 ==> recs[n + 1].None?;
    } else {
      assert recs[g].Some?;
    }
  }

  lemma FreshAcceptedIff(net: Network, data: seq<Byte>, name: string, n: nat, recs: seq<Option<Stored>>, g: nat)
    requires n > 0 && g < |recs| && IsSpread(net, data, name, n, recs)
    requires forall h :: n <= h < |recs| ==> recs[h].None?
    ensures Accepted(net, recs, g) <==> |recs| == n
    ensures |recs| == n ==> Fits(net, data, name, n, recs, g)
  {
    if Accepted(net, recs, g) { EnoughNodes(net, data, name, n, recs, g); }
    if |recs| == n { ThisSplitFits(net, data, name, n, recs, g); }
    if |recs| > n { assert recs[n].None?; }
  }

  /** The nodes of rank n on have parts of an earlier store of the same file, cut into m. */
  ghost predicate EarlierParts(net: Network, data: seq<Byte>, m: nat, n: nat, recs: seq<Option<Stored>>)
    requires m > 0
  {
    forall h :: n <= h < |recs| ==> recs[h].Some? && IsPart(net, data, m, recs[h])
  }

  /** What the nodes of rank n on have is numbered 1 to n. */
  ghost predicate NumbersFit(n: nat, recs: seq<Option<Stored>>) {
    forall h :: n <= h < |recs| ==> recs[h].Some? && recs[h].value.part <= n
  }

  /** It is, number by number, the same in both splits. */
  ghost predicate SameParts(data: seq<Byte>, m: nat, n: nat, recs: seq<Option<Stored>>)
    requires m > 0 && n > 0
  {
    forall h :: n <= h < |recs| && recs[h].Some? && 1 <= recs[h].value.part <= m && recs[h].value.part <= n ==>
      Part(data, m, recs[h].value.part - 1) == Part(data, n, recs[h].value.part - 1)
  }

  lemma EarlierThisSplitIff(net: Network, data: seq<Byte>, m: nat, n: nat, recs: seq<Option<Stored>>)
    requires m > 0 && n > 0 && EarlierParts(net, data, m, n, recs)
    ensures OnlyThisSplit(net, data, n, recs) <==> NumbersFit(n, recs) && SameParts(data, m, n, recs)
  {
    forall h | n <= h < |recs| ensures recs[h].Some? && Opens(net, recs[h]) && IsPart(net, data, m, recs[h]) {
    }
  }

  lemma EarlierAcceptedIff(net: Network, data: seq<Byte>, name: string, m: nat, n: nat, recs: seq<Option<Stored>>,
                           g: nat)
    requires m > 0 && 0 < n <= |recs| && g < n
    requires IsSpread(net, data, name, n, recs) && EarlierParts(net, data, m, n, recs)
    ensures Accepted(net, recs, g) <==> NumbersFit(n, recs)
  {
    forall h | n <= h < |recs| ensures recs[h].Some? && Opens(net, recs[h]) && IsPart(net, data, m, recs[h]) {
    }
    if NumbersFit(n, recs) { HolderAccepts(net, data, name, n, recs, g); }
    if Accepted(net, recs, g) {
      forall h | n <= h < |recs| ensures recs[h].value.part <= n {
        assert NumberedAt(net, recs, h, recs[h].value.part);
        assert SomeHas(net, recs, recs[h].value.part);
      }
    }
  }

  /** After an earlier store of the same file for m nodes: a node with a part gets the file in every order exactly when
      the parts that the other nodes kept are, number by number, the same in both splits. It gets a wrong file in some
      order exactly when they are numbered 1 to n and one of them is not. */
  lemma EarlierStoreIff(net: Network, data: seq<Byte>, name: string, m: nat, n: nat, recs: seq<Option<Stored>>, g: nat)
    requires m > 0 && 0 < n <= |recs| && g < n
    requires IsSpread(net, data, name, n, recs) && EarlierParts(net, data, m, n, recs)
    ensures AlwaysBrings(net, data, name, recs, g) <==> NumbersFit(n, recs) && SameParts(data, m, n, recs)
    ensures !NeverWrong(net, data, name, recs, g) <==> NumbersFit(n, recs) && !SameParts(data, m, n, recs)
  {
    HolderAlwaysIff(net, data, name, n, recs, g);
    AlwaysBringsIff(net, data, name, n, recs, g);
    NeverWrongIff(net, data, name, n, recs, g);
    EarlierThisSplitIff(net, data, m, n, recs);
    EarlierAcceptedIff(net, data, name, m, n, recs, g);
  }

  /** Storing again for as many nodes does no harm. */
  lemma SameSplitBrings(net: Network, data: seq<Byte>, name: string, n: nat, recs: seq<Option<Stored>>, g: nat)
    requires 0 < n <= |recs| && g < n && IsSpread(net, data, name, n, recs) && EarlierParts(net, data, n, n, recs)
    ensures AlwaysBrings(net, data, name, recs, g)
  {
    EarlierStoreIff(net, data, name, n, n, recs, g);
    forall h | n <= h < |recs| ensures recs[h].Some? && recs[h].value.part <= n {
      assert IsPart(net, data, n, recs[h]);
    }
  }

  /** A file of at least two bytes first cut in two and then stored again for one node, while the other node still has
      the first half: the half comes back as the whole. */
  lemma StalePartWins(net: Network, data: seq<Byte>, name: string, recs: seq<Option<Stored>>)
    requires |recs| == 2 && |data| >= 2
    requires IsSpread(net, data, name, 1, recs) && EarlierParts(net, data, 2, 1, recs) && recs[1].value.part == 1
    ensures !NeverWrong(net, data, name, recs, 0)
  {
    EarlierStoreIff(net, data, name, 2, 1, recs, 0);
    assert |Part(data, 2, 0)| < |data|;
    OnePart(data);
    assert recs[1].value.part - 1 == 0;
  }

  lemma OnePart(data: seq<Byte>)
    ensures Part(data, 1, 0) == data
  {
    OffsetStep(|data|, 1, 0);
    OffsetEnd(|data|, 1);
  }

  // ----- storing and fetching on the nodes

  predicate Distinct(nodes: seq<FileServer>) {
    forall i, j :: 0 <= i < j < |nodes| ==> nodes[i] != nodes[j]
  }

  /** What the nodes hold under a content ID. */
  function Records(nodes: seq<FileServer>, cid: string): (recs: seq<Option<Stored>>)
    reads nodes
    ensures |recs| == |nodes|
  {
    seq(|nodes|, h requires 0 <= h < |nodes| reads nodes => Held(nodes[h].disk, cid))
  }

  /** Where x stands in the order in which the storing node, first, and its peers received parts. */
  ghost function RankOf(nodes: seq<FileServer>, x: FileServer): (h: nat)
    requires x in nodes
    ensures h < |nodes| && nodes[h] == x
  {
    var h :| 0 <= h < |nodes| && nodes[h] == x; h
  }

  ghost function RanksOf(nodes: seq<FileServer>, others: seq<FileServer>): (ranks: seq<nat>)
    requires forall i :: 0 <= i < |others| ==> others[i] in nodes
    ensures |ranks| == |others| && forall i :: 0 <= i < |others| ==> ranks[i] < |nodes| && nodes[ranks[i]] == others[i]
  {
    seq(|others|, i requires 0 <= i < |others| => RankOf(nodes, others[i]))
  }

  lemma RanksAreAllBut(nodes: seq<FileServer>, g: nat, others: seq<FileServer>)
    requires g < |nodes| && Distinct(nodes)
    requires forall i :: 0 <= i < |others| ==> others[i] in nodes && others[i] != nodes[g]
    requires forall h :: 0 <= h < |nodes| && h != g ==> nodes[h] in others
    ensures AllBut(RanksOf(nodes, others), |nodes|, g)
  {
    var ranks := RanksOf(nodes, others);
    forall h: nat | h < |nodes| && h != g ensures h in ranks {
      var i :| 0 <= i < |others| && others[i] == nodes[h];
      assert ranks[i] == h;
    }
  }

  /** The first node stores a file over the mesh, in the order in which the nodes are listed: the nodes of rank below
      the count then hold its parts, whatever they held before, and the others what they held. */
  method StoreOver(nodes: seq<FileServer>, net: Network, ivs: seq<seq<Byte>>, cid: string, name: string,
                   data: seq<Byte>)
    requires Configured(net) && net.nodes > 0 && GoodVectors(ivs, net.nodes) && nodes != [] && Distinct(nodes)
    modifies nodes
    ensures IsSpread(net, data, name, net.nodes, Records(nodes, cid))
    ensures forall h :: net.nodes <= h < |nodes| ==> Records(nodes, cid)[h] == old(Records(nodes, cid))[h]
  {
    var stored := nodes[0].StoreSplit(net, ivs, cid, name, data, nodes[1..]);
    forall h | 0 <= h < |nodes|
      ensures h < net.nodes ==> Records(nodes, cid)[h] == Some(PartRecord(net, ivs, name, data, net.nodes, h))
      ensures h >= net.nodes ==> nodes[h].disk == old(nodes[h].disk)
    {
      if h > 0 { assert nodes[h] == nodes[1..][h - 1]; }
    }
    forall h | 0 <= h < |nodes| && h < net.nodes
      ensures GenuineLocal(net, data, name, net.nodes, Records(nodes, cid)[h].value)
    {
      PartRecordGenuine(net, ivs, name, data, net.nodes, h);
    }
  }

  /** Then node g fetches the file, asking all others in any order. The records after the store decide how that ends,
      by the theorems above; in particular the file and its name come back whenever there are as many nodes as the
      network lists, whatever any of them held before. */
  method StoreThenGet(nodes: seq<FileServer>, net: Network, ivs: seq<seq<Byte>>, cid: string, name: string,
                      data: seq<Byte>, g: nat, others: seq<FileServer>)
    returns (f: Fetch)
    requires Configured(net) && net.nodes > 0 && GoodVectors(ivs, net.nodes) && g < |nodes| && Distinct(nodes)
    requires forall i :: 0 <= i < |others| ==> others[i] in nodes && others[i] != nodes[g]
    requires forall h :: 0 <= h < |nodes| && h != g ==> nodes[h] in others
    modifies nodes
    ensures IsSpread(net, data, name, net.nodes, Records(nodes, cid))
    ensures forall h :: net.nodes <= h < |nodes| ==> Records(nodes, cid)[h] == old(Records(nodes, cid))[h]
    ensures AllBut(RanksOf(nodes, others), |nodes|, g)
    ensures f == FetchAt(net, Records(nodes, cid), g, RanksOf(nodes, others))
    ensures Succeeds(f) <==> Accepted(net, Records(nodes, cid), g)
    ensures Fits(net, data, name, net.nodes, Records(nodes, cid), g) ==> Brought(f, data, name)
    ensures |nodes| == net.nodes ==> Brought(f, data, name)
    ensures (forall h :: net.nodes <= h < |nodes| ==> old(Records(nodes, cid))[h].None?) ==>
              (Brought(f, data, name) <==> |nodes| == net.nodes) && (Succeeds(f) ==> Brought(f, data, name))
  {
    StoreOver(nodes, net, ivs, cid, name, data);
    ghost var recs, ranks := Records(nodes, cid), RanksOf(nodes, others);
    RanksAreAllBut(nodes, g, others);
    f := nodes[g].GetSplit(net, cid, others);
    forall i | 0 <= i < |others| ensures Answers(others, cid)[i] == AnswersOf(recs, g, ranks)[i] {
      assert nodes[ranks[i]] == others[i];
    }
    assert Answers(others, cid) == AnswersOf(recs, g, ranks);
    SucceedsIff(net, recs, g, ranks);
    if Fits(net, data, name, net.nodes, recs, g) { FitsBrings(net, data, name, net.nodes, recs, g, ranks); }
    if forall h :: net.nodes <= h < |nodes| ==> recs[h].None? {
      SpreadFetchIff(net, data, name, net.nodes, recs, g, ranks);
    }
  }

  /** What an earlier store for m nodes leaves, seen in the order of the later one. */
  lemma LeftOver(net: Network, data: seq<Byte>, name: string, m: nat, was: seq<Option<Stored>>, n: nat,
                 recs: seq<Option<Stored>>, ranks: seq<nat>)
    requires n > 0 && m > 0 && |was| <= m && IsSpread(net.(nodes := m), data, name, m, was) && |ranks| == |recs|
    requires forall h :: n <= h < |recs| ==> ranks[h] < |was| && recs[h] == was[ranks[h]]
    ensures EarlierParts(net, data, m, n, recs)
    ensures NumbersFit(n, recs) <==> forall h :: n <= h < |recs| ==> ranks[h] < n
    ensures (forall h :: n <= h < |recs| ==> ranks[h] < n && Part(data, m, ranks[h]) == Part(data, n, ranks[h])) ==>
              NumbersFit(n, recs) && SameParts(data, m, n, recs)
  {
    forall h | n <= h < |recs|
      ensures recs[h].Some? && recs[h].value.part == ranks[h] + 1 && IsPart(net, data, m, recs[h])
    {
      assert GenuineLocal(net.(nodes := m), data, name, m, was[ranks[h]].value);
    }
    if NumbersFit(n, recs) {
      forall h | n <= h < |recs| ensures ranks[h] < n {
        assert recs[h].value.part <= n;
      }
    }
  }

  lemma RecordsSeen(earlier: seq<FileServer>, nodes: seq<FileServer>, cid: string)
    requires forall h :: 0 <= h < |nodes| ==> nodes[h] in earlier
    ensures forall h :: 0 <= h < |nodes| ==>
              Records(nodes, cid)[h] == Records(earlier, cid)[RanksOf(earlier, nodes)[h]]
  {
  }

  lemma LeftOverEnds(net: Network, data: seq<Byte>, name: string, name': string, m: nat, was: seq<Option<Stored>>,
                     n: nat, recs: seq<Option<Stored>>, ranks: seq<nat>, g: nat)
    requires m > 0 && |was| <= m && IsSpread(net.(nodes := m), data, name, m, was) && |ranks| == |recs|
    requires 0 < n <= |recs| && g < n && IsSpread(net, data, name', n, recs)
    requires forall h :: n <= h < |recs| ==> ranks[h] < |was| && recs[h] == was[ranks[h]]
    ensures Accepted(net, recs, g) <==> forall h :: n <= h < |recs| ==> ranks[h] < n
    ensures (forall h :: n <= h < |recs| ==> ranks[h] < n && Part(data, m, ranks[h]) == Part(data, n, ranks[h])) ==>
              Fits(net, data, name', n, recs, g)
  {
    LeftOver(net, data, name, m, was, n, recs, ranks);
    EarlierAcceptedIff(net, data, name', m, n, recs, g);
    EarlierThisSplitIff(net, data, m, n, recs);
    if OnlyThisSplit(net, data, n, recs) { ThisSplitFits(net, data, name', n, recs, g); }
  }

  /** The same content is stored twice, for m nodes and later for net.nodes, each time with some order of the nodes, and
      the first time everybody gets a part. A node with a part of the later store then succeeds exactly when the others'
      parts of the earlier one are numbered 1 to net.nodes, and gets the file when they are the same in both splits. */
  method StoreTwiceThenGet(earlier: seq<FileServer>, nodes: seq<FileServer>, m: nat, net: Network,
                           ivs: seq<seq<Byte>>, ivs': seq<seq<Byte>>, cid: string, name: string, name': string,
                           data: seq<Byte>, g: nat, others: seq<FileServer>)
    returns (f: Fetch)
    requires Configured(net) && GoodVectors(ivs, m) && GoodVectors(ivs', net.nodes) && 0 < net.nodes <= |nodes|
    requires Distinct(earlier) && Distinct(nodes) && |earlier| <= m && g < net.nodes
    requires forall i :: 0 <= i < |earlier| ==> earlier[i] in nodes
    requires forall h :: 0 <= h < |nodes| ==> nodes[h] in earlier
    requires forall i :: 0 <= i < |others| ==> others[i] in nodes && others[i] != nodes[g]
    requires forall h :: 0 <= h < |nodes| && h != g ==> nodes[h] in others
    modifies nodes
    ensures var ranks := RanksOf(earlier, nodes);
            Succeeds(f) <==> forall h :: net.nodes <= h < |nodes| ==> ranks[h] < net.nodes
    ensures var ranks := RanksOf(earlier, nodes);
            (forall h :: net.nodes <= h < |nodes| ==>
              ranks[h] < net.nodes && Part(data, m, ranks[h]) == Part(data, net.nodes, ranks[h])) ==>
            Brought(f, data, name')
  {
    assert nodes[0] in earlier;
    StoreOver(earlier, net.(nodes := m), ivs, cid, name, data);
    ghost var was, ranks := Records(earlier, cid), RanksOf(earlier, nodes);
    RecordsSeen(earlier, nodes, cid);
    f := StoreThenGet(nodes, net, ivs', cid, name', data, g, others);
    ghost var recs := Records(nodes, cid);
    LeftOverEnds(net, data, name, name', m, was, net.nodes, recs, ranks, g);
  }
}
