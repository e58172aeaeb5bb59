/** Splitting a file over a full mesh of nodes, and collecting the parts again. */
module Mesh {
  import opened Wrappers
  import opened AesStream
  import opened Split

  datatype EncType = Aes | ChaCha | Plain | Unset

  /** The shared network settings, with the two ciphers' keystreams and the number of known nodes. */
  datatype Network = Network(
    enc: EncType, key: seq<Byte>, nonce: seq<Byte>, aes: Keystream, chacha: Keystream, nodes: nat)

  /** A configured network: an encryption type is set and its key has a proper size. */
  predicate Configured(net: Network) {
    match net.enc
    case Aes => ValidKey(net.key)
    case ChaCha => |net.key| == 32 && (|net.nonce| == 12 || |net.nonce| == 24)
    case Plain => true
    case Unset => false
  }

  function Encrypt(net: Network, iv: seq<Byte>, data: seq<Byte>): Result<seq<Byte>>
    requires |iv| == BLOCK
  {
    match net.enc
    case Aes => if ValidKey(net.key) then Ok(Sealed(net.aes, net.key, iv, data)) else Err("invalid key size")
    case ChaCha =>
      if Configured(net) then Ok(Xor(net.chacha, net.key, net.nonce, 0, data)) else Err("invalid key or nonce size")
    case Plain => Ok(data)
    case Unset => Ok([])
  }

  /** Decryption of data held in memory, whose first read delivers up to 16 bytes; nothing at all is an error for AES.
      */
  function Decrypt(net: Network, data: seq<Byte>): Result<seq<Byte>> {
    match net.enc
    case Aes =>
      if !ValidKey(net.key) then Err("invalid key size")
      else if data == [] then Err("no vector")
      else Ok(Opened(net.aes, net.key, data, Min(BLOCK, |data|)))
    case ChaCha =>
      if Configured(net) then Ok(Xor(net.chacha, net.key, net.nonce, 0, data)) else Err("invalid key or nonce size")
    case Plain => Ok(data)
    case Unset => Ok([])
  }

  /** When encryption succeeds, and its output byte by byte. */
  lemma EncryptBytes(net: Network, iv: seq<Byte>, data: seq<Byte>)
    requires |iv| == BLOCK
    ensures Encrypt(net, iv, data).Ok? <==>
            && (net.enc == Aes ==> |net.key| in {16, 24, 32})
            && (net.enc == ChaCha ==> |net.key| == 32 && |net.nonce| in {12, 24})
    ensures var r := Encrypt(net, iv, data);
            r.Ok? ==>
              match net.enc
              case Aes => && |r.value| == 16 + |data| && r.value[..16] == iv
                          && forall i :: 0 <= i < |data| ==> r.value[16 + i] == data[i] ^ net.aes(net.key, iv, i)
              case ChaCha => && |r.value| == |data|
                             && forall i :: 0 <= i < |data| ==>
                                  r.value[i] == data[i] ^ net.chacha(net.key, net.nonce, i)
              case Plain => r.value == data
              case Unset => r.value == []
  {
  }

  /** When decryption succeeds, and its output byte by byte: for AES the first 16 bytes are the vector. */
  lemma DecryptBytes(net: Network, data: seq<Byte>)
    ensures Decrypt(net, data).Ok? <==>
            && (net.enc == Aes ==> |net.key| in {16, 24, 32} && data != [])
            && (net.enc == ChaCha ==> |net.key| == 32 && |net.nonce| in {12, 24})
    ensures var r := Decrypt(net, data);
            r.Ok? ==>
              match net.enc
              case Aes => |data| >= 16 ==>
                            && |r.value| == |data| - 16
                            && forall i :: 0 <= i < |r.value| ==>
                                 r.value[i] == data[16 + i] ^ net.aes(net.key, data[..16], i)
              case ChaCha => && |r.value| == |data|
                             && forall i :: 0 <= i < |data| ==>
                                  r.value[i] == data[i] ^ net.chacha(net.key, net.nonce, i)
              case Plain => r.value == data
              case Unset => r.value == []
  {
    if net.enc == Aes && |data| >= 16 {
      forall i | 16 <= i < |data| ensures Opened(net.aes, net.key, data, 16)[i - 16] ==
                                          data[i] ^ net.aes(net.key, data[..16], i - 16)
      {
        OpenedBytes(net.aes, net.key, data, 16, data[..16], i - 16);
      }
    }
  }

  /** Decryption undoes encryption, unless no encryption type is set and there is something to lose. */
  lemma DecryptEncryptIff(net: Network, iv: seq<Byte>, data: seq<Byte>)
    requires |iv| == BLOCK && Encrypt(net, iv, data).Ok?
    ensures Decrypt(net, Encrypt(net, iv, data).value) == Ok(data) <==> net.enc != Unset || data == []
  {
    match net.enc
    case Aes => OpenedSealedIff(net.aes, net.key, iv, data, BLOCK);
    case ChaCha => XorTwice(net.chacha, net.key, net.nonce, 0, data);
    case Plain =>
    case Unset =>
  }

  // ----- what a node keeps and answers

  datatype Stored = Stored(cipher: seq<Byte>, name: string, part: int, total: int)

  datatype Reply = Reply(part: int, cipher: seq<Byte>)

  /** A node without the file sends nothing. */
  function AnswerOf(disk: map<string, Stored>, cid: string): Option<Reply> {
    if cid in disk then Some(Reply(disk[cid].part, disk[cid].cipher)) else None
  }

  // ----- collecting replies

  /** The parts collected so far, after one more reply; replies that do not decrypt are skipped. */
  function AddReply(net: Network, parts: map<int, seq<Byte>>, reply: Reply): map<int, seq<Byte>> {
    match Decrypt(net, reply.cipher)
    case Ok(d) => parts[reply.part := d]
    case Err(_) => parts
  }

  function Collected(net: Network, parts: map<int, seq<Byte>>, replies: seq<Reply>): map<int, seq<Byte>> {
    if replies == [] then parts
    else AddReply(net, Collected(net, parts, replies[..|replies| - 1]), replies[|replies| - 1])
  }

  /** The end of a split fetch: the local part's metadata says how many parts make the file. */
  function Assemble(parts: map<int, seq<Byte>>, local: Option<Stored>): Result<(seq<Byte>, string)> {
    if |parts| == 0 then Err("no parts received")
    else if local.None? || local.value.total == 0 then Err("missing metadata")
    else if |parts| != local.value.total then Err("incomplete file")
    else if !Numbered(parts) then Err("missing part")
    else Ok((Concat(InOrder(parts, |parts|)), local.value.name))
  }

  /** What a split fetch returns, given the local part if any and one reply per peer, in the order they are read. */
  function Outcome(net: Network, local: Option<Stored>, replies: seq<Reply>): Result<(seq<Byte>, string)> {
    match local
    case None => Assemble(Collected(net, map[], replies), None)
    case Some(s) =>
      match Decrypt(net, s.cipher)
      case Err(e) => Err(e)
      case Ok(d) => Assemble(Collected(net, map[s.part := d], replies), local)
  }

  /** A split fetch returns, or waits for a reply that never comes. */
  datatype Fetch = Returned(result: Result<(seq<Byte>, string)>) | Waiting

  predicate AllAnswer(answers: seq<Option<Reply>>) {
    forall i :: 0 <= i < |answers| ==> answers[i].Some?
  }

  function Received(answers: seq<Option<Reply>>): (rs: seq<Reply>)
    requires AllAnswer(answers)
    ensures |rs| == |answers|
  {
    seq(|answers|, i requires 0 <= i < |answers| => answers[i].value)
  }

  /** How a split fetch ends: a local part that does not decrypt is an error at once; otherwise a silent peer is
      waited for. */
  function FetchOutcome(net: Network, local: Option<Stored>, answers: seq<Option<Reply>>): Fetch {
    if local.Some? && Decrypt(net, local.value.cipher).Err? then
      Returned(Err(Decrypt(net, local.value.cipher).message))
    else if !AllAnswer(answers) then Waiting
    else Returned(Outcome(net, local, Received(answers)))
  }

  // ----- soundness of collecting

  /** The reply carries a part of this one stored file. */
  ghost predicate Genuine(net: Network, data: seq<Byte>, n: nat, reply: Reply)
    requires n > 0
  {
    1 <= reply.part <= n && Decrypt(net, reply.cipher) == Ok(Part(data, n, reply.part - 1))
  }

  ghost predicate GenuineLocal(net: Network, data: seq<Byte>, name: string, n: nat, s: Stored)
    requires n > 0
  {
    Genuine(net, data, n, Reply(s.part, s.cipher)) && s.total == n && s.name == name
  }

  /** Replies of one stored file, in any order and number. Some may be empty and numbered 0: that is what is read from a
      peer that announces a stream and ends it without a part. */
  ghost predicate GenuineReplies(net: Network, data: seq<Byte>, n: nat, replies: seq<Reply>)
    requires n > 0
  {
    forall r :: r in replies ==> r == Reply(0, []) || Genuine(net, data, n, r)
  }

  /** The collected parts are parts of the file, and what an empty reply may have left at number 0. */
  ghost predicate OnlyParts(data: seq<Byte>, n: nat, parts: map<int, seq<Byte>>)
    requires n > 0
  {
    forall k :: k in parts && k != 0 ==> 1 <= k <= n && parts[k] == Part(data, n, k - 1)
  }

  ghost predicate Brings(net: Network, replies: seq<Reply>, k: int) {
    exists r :: r in replies && r.part == k && Decrypt(net, r.cipher).Ok?
  }

  lemma {:induction false} CollectedFacts(net: Network, data: seq<Byte>, n: nat, parts: map<int, seq<Byte>>,
                                          replies: seq<Reply>)
    requires n > 0 && GenuineReplies(net, data, n, replies) && OnlyParts(data, n, parts)
    ensures OnlyParts(data, n, Collected(net, parts, replies))
    ensures forall k :: k in Collected(net, parts, replies) <==> k in parts || Brings(net, replies, k)
    decreases |replies|
  {
    if replies != [] {
      var front, last := replies[..|replies| - 1], replies[|replies| - 1];
      assert last in replies;
      CollectedFacts(net, data, n, parts, front);
      forall k ensures Brings(net, replies, k) <==>
          Brings(net, front, k) || (last.part == k && Decrypt(net, last.cipher).Ok?)
      {
        BringsLast(net, replies, k);
      }
    }
  }

  lemma BringsLast(net: Network, replies: seq<Reply>, k: int)
    requires replies != []
    ensures var front, last := replies[..|replies| - 1], replies[|replies| - 1];
            Brings(net, replies, k) <==> Brings(net, front, k) || (last.part == k && Decrypt(net, last.cipher).Ok?)
  {
    var front, last := replies[..|replies| - 1], replies[|replies| - 1];
    assert replies == front + [last];
  }

  /** Whether an empty reply leaves a trace: it does unless decrypting nothing is an error. */
  ghost predicate Spoiled(net: Network, replies: seq<Reply>) {
    net.enc != Aes && Reply(0, []) in replies
  }

  /** Every part is here or in some reply. */
  ghost predicate Complete(n: nat, local: Stored, replies: seq<Reply>) {
    forall k {:trigger Arrives(local, replies, k)} :: 1 <= k <= n ==> Arrives(local, replies, k)
  }

  ghost predicate Arrives(local: Stored, replies: seq<Reply>, k: int) {
    k == local.part || exists r :: r in replies && r.part == k
  }

  /** Parts of one file are accepted exactly when they are numbered 1 to n. */
  lemma AcceptedIff(data: seq<Byte>, n: nat, parts: map<int, seq<Byte>>)
    requires n > 0 && OnlyParts(data, n, parts)
    ensures |parts| == n && Numbered(parts) <==> parts.Keys == Range(n)
    ensures parts.Keys == Range(n) ==> parts == NumberedParts(data, n)
  {
    assert |parts| == |parts.Keys|;
    if |parts| == n && Numbered(parts) {
      assert Range(n) <= parts.Keys;
      SubsetCard(Range(n), parts.Keys);
    }
  }

  /** The parts that a fetch has collected in the end. */
  lemma GatheredFacts(net: Network, data: seq<Byte>, name: string, n: nat, local: Stored, replies: seq<Reply>)
    requires Configured(net) && n > 0
    requires GenuineLocal(net, data, name, n, local) && GenuineReplies(net, data, n, replies)
    ensures var parts := Collected(net, map[local.part := Part(data, n, local.part - 1)], replies);
            && OnlyParts(data, n, parts)
            && (forall k :: 1 <= k <= n ==> (k in parts <==> Arrives(local, replies, k)))
            && (0 in parts <==> Spoiled(net, replies))
  {
    CollectedFacts(net, data, n, map[local.part := Part(data, n, local.part - 1)], replies);
    forall k | 1 <= k <= n ensures Brings(net, replies, k) <==> exists r :: r in replies && r.part == k {
      forall r | r in replies && r.part == k ensures Decrypt(net, r.cipher).Ok? {
        assert Genuine(net, data, n, r);
      }
    }
    if Brings(net, replies, 0) {
      var r :| r in replies && r.part == 0 && Decrypt(net, r.cipher).Ok?;
      assert r == Reply(0, []);
    }
    if Spoiled(net, replies) {
      assert Decrypt(net, Reply(0, []).cipher).Ok?;
    }
  }

  lemma AssembleIff(data: seq<Byte>, n: nat, parts: map<int, seq<Byte>>, local: Stored)
    requires n > 0 && OnlyParts(data, n, parts) && local.total == n
    ensures var r := Assemble(parts, Some(local));
            && (r.Ok? <==> parts.Keys == Range(n))
            && (r.Ok? ==> r.value == (data, local.name))
  {
    AcceptedIff(data, n, parts);
    CombinedIsWhole(data, n);
    NumberedPartsSize(data, n);
  }

  lemma OutcomeGathers(net: Network, local: Stored, replies: seq<Reply>, d: seq<Byte>)
    requires Decrypt(net, local.cipher) == Ok(d)
    ensures Outcome(net, Some(local), replies) == Assemble(Collected(net, map[local.part := d], replies), Some(local))
  {
  }

  lemma GatheredAllIff(net: Network, data: seq<Byte>, name: string, n: nat, local: Stored, replies: seq<Reply>)
    requires Configured(net) && n > 0
    requires GenuineLocal(net, data, name, n, local) && GenuineReplies(net, data, n, replies)
    ensures var parts := Collected(net, map[local.part := Part(data, n, local.part - 1)], replies);
            && OnlyParts(data, n, parts)
            && (parts.Keys == Range(n) <==> Complete(n, local, replies) && !Spoiled(net, replies))
  {
    var parts := Collected(net, map[local.part := Part(data, n, local.part - 1)], replies);
    GatheredFacts(net, data, name, n, local, replies);
    if Complete(n, local, replies) && !Spoiled(net, replies) {
      forall k ensures k in parts <==> k in Range(n) {
        if 1 <= k <= n { assert Arrives(local, replies, k); }
      }
      assert parts.Keys == Range(n);
    }
    if parts.Keys == Range(n) {
      forall k | 1 <= k <= n ensures Arrives(local, replies, k) {
        assert k in Range(n);
      }
      assert 0 !in Range(n);
    }
  }

  /** Whatever replies of one stored file come in, in whatever order, number and repetition, a fetch by a node that
      holds a part returns the file and its name, or fails; it succeeds exactly when no part is missing and no empty
      reply got in the way. */
  lemma FetchSound(net: Network, data: seq<Byte>, name: string, n: nat, local: Stored, replies: seq<Reply>)
    requires Configured(net) && n > 0
    requires GenuineLocal(net, data, name, n, local) && GenuineReplies(net, data, n, replies)
    ensures var r := Outcome(net, Some(local), replies);
            && (r.Ok? ==> r.value == (data, name))
            && (r.Ok? <==> Complete(n, local, replies) && !Spoiled(net, replies))
  {
    GatheredAllIff(net, data, name, n, local, replies);
    OutcomeGathers(net, local, replies, Part(data, n, local.part - 1));
    AssembleIff(data, n, Collected(net, map[local.part := Part(data, n, local.part - 1)], replies), local);
  }

  /** A node that holds no part of the file fails, whatever its peers reply. */
  lemma FetchWithoutPart(net: Network, replies: seq<Reply>)
    ensures Outcome(net, None, replies).Err?
  {
  }

  // ----- what storing leaves on the nodes

  /** The record of the i-th part, counting from 0, encrypted under its own vector. */
  function PartRecord(net: Network, ivs: seq<seq<Byte>>, name: string, data: seq<Byte>, n: nat, i: nat): Stored
    requires Configured(net) && n > 0 && i < n && GoodVectors(ivs, n)
  {
    Stored(Encrypt(net, ivs[i], Part(data, n, i)).value, name, i + 1, n)
  }

  predicate GoodVectors(ivs: seq<seq<Byte>>, n: nat) {
    |ivs| >= n && forall i :: 0 <= i < n ==> |ivs[i]| == BLOCK
  }

  /** Each part is encrypted under its own vector. */
  lemma PartRecordVector(net: Network, ivs: seq<seq<Byte>>, name: string, data: seq<Byte>, n: nat, i: nat)
    requires Configured(net) && net.enc == Aes && n > 0 && i < n && GoodVectors(ivs, n)
    ensures var cipher := PartRecord(net, ivs, name, data, n, i).cipher;
            |cipher| == 16 + |Part(data, n, i)| && cipher[..16] == ivs[i]
  {
    EncryptBytes(net, ivs[i], Part(data, n, i));
  }

  lemma PartRecordGenuine(net: Network, ivs: seq<seq<Byte>>, name: string, data: seq<Byte>, n: nat, i: nat)
    requires Configured(net) && n > 0 && i < n && GoodVectors(ivs, n)
    ensures GenuineLocal(net, data, name, n, PartRecord(net, ivs, name, data, n, i))
  {
    DecryptEncryptIff(net, ivs[i], Part(data, n, i));
  }

  // ----- the nodes

  class FileServer {
    var disk: map<string, Stored>

    constructor ()
      ensures disk == map[]
    {
      disk := map[];
    }

    /** Writes data to disk, encrypted, with its metadata. */
    method WriteEncrypt(net: Network, iv: seq<Byte>, cid: string, name: string, data: seq<Byte>, part: int, total: int)
      requires Configured(net) && |iv| == BLOCK
      modifies this
      ensures disk == old(disk)[cid := Stored(Encrypt(net, iv, data).value, name, part, total)]
    {
      var cipher := Encrypt(net, iv, data);
      disk := disk[cid := Stored(cipher.value, name, part, total)];
    }

    /** Stores a part announced by a peer: as many bytes as announced are taken from the stream. */
    method HandleStoreFile(net: Network, iv: seq<Byte>, cid: string, name: string, part: int, total: int,
                           size: nat, stream: seq<Byte>)
      requires Configured(net) && |iv| == BLOCK
      modifies this
      ensures disk == old(disk)[cid :=
                Stored(Encrypt(net, iv, stream[..Min(size, |stream|)]).value, name, part, total)]
    {
      var received := stream[..Min(size, |stream|)];
      WriteEncrypt(net, iv, cid, name, received, part, total);
    }

    /** A peer without the file reports an error to itself and sends nothing. */
    method HandleGetFile(cid: string) returns (answer: Option<Reply>)
      ensures answer == AnswerOf(disk, cid)
    {
      if cid !in disk {
        return None;
      }
      return Some(Reply(disk[cid].part, disk[cid].cipher));
    }

    /** Splits a file for all known nodes, keeps the first part and hands one part to each peer while parts last. */
    method StoreSplit(net: Network, ivs: seq<seq<Byte>>, cid: string, name: string, data: seq<Byte>,
                      peers: seq<FileServer>)
      returns (r: Result<string>)
      requires Configured(net) && GoodVectors(ivs, net.nodes)
      requires this !in peers && forall i, j :: 0 <= i < j < |peers| ==> peers[i] != peers[j]
      modifies this, peers
      ensures net.nodes == 0 ==>
                r.Err? && disk == old(disk) && forall i :: 0 <= i < |peers| ==> peers[i].disk == old(peers[i].disk)
      ensures net.nodes > 0 ==>
                r == Ok(cid) && disk == old(disk)[cid := PartRecord(net, ivs, name, data, net.nodes, 0)]
      ensures net.nodes > 0 ==> forall i :: 0 <= i < |peers| ==>
                peers[i].disk == if i + 1 < net.nodes
                                 then old(peers[i].disk)[cid := PartRecord(net, ivs, name, data, net.nodes, i + 1)]
                                 else old(peers[i].disk)
    {
      var split := SplitFile(data, net.nodes);
      if split.Err? {
        return Err("unable to split the file");
      }
      var n := net.nodes;
      var parts := split.value;
      WriteEncrypt(net, ivs[0], cid, name, parts[0], 1, n);
      parts := parts[1..];
      var partIndex := 2;
      var i := 0;
      while i < |peers|
        invariant 0 <= i <= |peers| && i + 1 <= n && partIndex == i + 2
        invariant parts == Parts(data, n)[i + 1..]
        invariant disk == old(disk)[cid := PartRecord(net, ivs, name, data, n, 0)]
        invariant forall j :: 0 <= j < i ==>
          peers[j].disk == old(peers[j].disk)[cid := PartRecord(net, ivs, name, data, n, j + 1)]
        invariant forall j :: i <= j < |peers| ==> peers[j].disk == old(peers[j].disk)
      {
        if |parts| == 0 {
          break;
        }
        var part := parts[0];
        parts := parts[1..];
        peers[i].HandleStoreFile(net, ivs[partIndex - 1], cid, name, partIndex, n, |part|, part);
        assert part[..|part|] == part;
        partIndex := partIndex + 1;
        i := i + 1;
      }
      return Ok(cid);
    }

    /** Collects the local part and one reply per peer, and puts the parts together. */
    method GetSplit(net: Network, cid: string, peers: seq<FileServer>) returns (f: Fetch)
      ensures f == FetchOutcome(net, Held(disk, cid), Answers(peers, cid))
    {
      var parts: map<int, seq<Byte>> := map[];
      var name, total := "", 0;
      if cid in disk {
        var plain := Decrypt(net, disk[cid].cipher);
        if plain.Err? {
          return Returned(Err(plain.message));
        }
        parts := parts[disk[cid].part := plain.value];
        name, total := disk[cid].name, disk[cid].total;
      }
      ghost var before, answers := parts, Answers(peers, cid);
      for i := 0 to |peers|
        invariant AllAnswer(answers[..i])
        invariant parts == Collected(net, before, Received(answers[..i]))
        invariant name == (if cid in disk then disk[cid].name else "")
        invariant total == (if cid in disk then disk[cid].total else 0)
      {
        var answer := peers[i].HandleGetFile(cid);
        assert answers[i] == answer;
        if answer.None? {
          return Waiting;
        }
        CollectedOneMore(net, before, answers, i);
        var reply := answer.value;
        var plain := Decrypt(net, reply.cipher);
        if plain.Err? {
          continue;
        }
        parts := parts[reply.part := plain.value];
        if total == 0 && cid in disk {
          name, total := disk[cid].name, disk[cid].total;
        }
      }
      assert answers[..|peers|] == answers;
      assert FetchOutcome(net, Held(disk, cid), answers) == Returned(Assemble(parts, Held(disk, cid)));
      if |parts| == 0 {
        return Returned(Err("no parts received"));
      }
      if total == 0 {
        return Returned(Err("missing metadata"));
      }
      if |parts| != total {
        return Returned(Err("incomplete file"));
      }
      var combined := CombineFile(parts);
      match combined {
        case Err(e) => return Returned(Err("missing part"));
        case Ok(whole) => return Returned(Ok((whole, name)));
      }
    }
  }

  function Held(disk: map<string, Stored>, cid: string): Option<Stored> {
    if cid in disk then Some(disk[cid]) else None
  }

  lemma CollectedOneMore(net: Network, before: map<int, seq<Byte>>, answers: seq<Option<Reply>>, i: nat)
    requires i < |answers| && AllAnswer(answers[..i]) && answers[i].Some?
    ensures AllAnswer(answers[..i + 1])
    ensures Collected(net, before, Received(answers[..i + 1]))
            == AddReply(net, Collected(net, before, Received(answers[..i])), answers[i].value)
  {
    forall j | 0 <= j < i ensures answers[j] == answers[..i][j] {
    }
    assert Received(answers[..i + 1])[..i] == Received(answers[..i]);
  }

  function Answers(peers: seq<FileServer>, cid: string): (answers: seq<Option<Reply>>)
    reads peers
    ensures |answers| == |peers|
  {
    seq(|peers|, i requires 0 <= i < |peers| reads peers => AnswerOf(peers[i].disk, cid))
  }
}
