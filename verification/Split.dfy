/** Splitting a file into near-equal parts and putting the parts back together. */
module Split {
  import opened Wrappers
  import opened AesStream

  // ----- specification

  /** Size of the i-th of n parts, counting from 0: the remainder goes to the first parts, a byte each. */
  function PartSize(size: nat, n: nat, i: nat): nat
    requires n > 0
  {
    size / n + if i < size % n then 1 else 0
  }

  /** Where the i-th part starts. */
  function Offset(size: nat, n: nat, i: nat): nat
    requires n > 0
  {
    i * (size / n) + Min(i, size % n)
  }

  lemma OffsetStep(size: nat, n: nat, i: nat)
    requires n > 0
    ensures Offset(size, n, i + 1) == Offset(size, n, i) + PartSize(size, n, i)
    ensures Offset(size, n, 0) == 0
  {
    var q := size / n;
    assert (i + 1) * q == i * q + q;
    assert 0 * q == 0;
  }

  lemma OffsetEnd(size: nat, n: nat)
    requires n > 0
    ensures Offset(size, n, n) == size
  {
    assert size == n * (size / n) + size % n;
  }

  lemma {:induction false} OffsetMonotone(size: nat, n: nat, i: nat, j: nat)
    requires n > 0 && i <= j
    ensures Offset(size, n, i) <= Offset(size, n, j)
    decreases j
  {
    if i < j {
      OffsetMonotone(size, n, i, j - 1);
      OffsetStep(size, n, j - 1);
    }
  }

  lemma OffsetInside(size: nat, n: nat, i: nat)
    requires n > 0 && i < n
    ensures Offset(size, n, i) + PartSize(size, n, i) <= size
  {
    OffsetStep(size, n, i);
    OffsetMonotone(size, n, i + 1, n);
    OffsetEnd(size, n);
  }

  /** The i-th of n parts. */
  function Part(data: seq<Byte>, n: nat, i: nat): (p: seq<Byte>)
    requires n > 0 && i < n
    ensures |p| == PartSize(|data|, n, i)
  {
    OffsetInside(|data|, n, i);
    data[Offset(|data|, n, i)..Offset(|data|, n, i) + PartSize(|data|, n, i)]
  }

  function Parts(data: seq<Byte>, n: nat): (ps: seq<seq<Byte>>)
    requires n > 0
    ensures |ps| == n
  {
    seq(n, i requires 0 <= i < n => Part(data, n, i))
  }

  /** Parts differ in size by at most one byte and the larger ones come first. */
  lemma PartsBalanced(data: seq<Byte>, n: nat, i: nat, j: nat)
    requires n > 0 && i < j < n
    ensures |Parts(data, n)[j]| <= |Parts(data, n)[i]| <= |Parts(data, n)[j]| + 1
  {
  }

  function Concat(ps: seq<seq<Byte>>): seq<Byte> {
    if ps == [] then [] else Concat(ps[..|ps| - 1]) + ps[|ps| - 1]
  }

  lemma {:induction false} PartsPrefix(data: seq<Byte>, n: nat, k: nat)
    requires n > 0 && k <= n
    ensures Offset(|data|, n, k) <= |data| && Concat(Parts(data, n)[..k]) == data[..Offset(|data|, n, k)]
    decreases k
  {
    if k == 0 {
      OffsetStep(|data|, n, 0);
    } else {
      PartsPrefix(data, n, k - 1);
      OffsetStep(|data|, n, k - 1);
      OffsetInside(|data|, n, k - 1);
      assert Parts(data, n)[..k][..k - 1] == Parts(data, n)[..k - 1];
    }
  }

  /** The parts of a file, in order, make up the file. */
  lemma PartsMakeWhole(data: seq<Byte>, n: nat)
    requires n > 0
    ensures Concat(Parts(data, n)) == data
  {
    PartsPrefix(data, n, n);
    OffsetEnd(|data|, n);
    assert Parts(data, n)[..n] == Parts(data, n);
  }

  // ----- the splitting loops

  method SplitFile(data: seq<Byte>, numPeers: nat) returns (r: Result<seq<seq<Byte>>>)
    ensures numPeers == 0 ==> r.Err?
    ensures numPeers > 0 ==> r == Ok(Parts(data, numPeers))
  {
    var fileSize := |data|;
    if numPeers == 0 {
      return Err("no peers available to split the file");
    }
    var remainder := fileSize % numPeers;
    var partSize := fileSize / numPeers;
    var lengths := new nat[numPeers];
    for i := 0 to numPeers
      invariant remainder == if i < fileSize % numPeers then fileSize % numPeers - i else 0
      invariant forall j :: 0 <= j < i ==> lengths[j] == PartSize(fileSize, numPeers, j)
    {
      if remainder > 0 {
        lengths[i] := partSize + 1;
        remainder := remainder - 1;
      } else {
        lengths[i] := partSize;
      }
    }
    var readers := new seq<Byte>[numPeers];
    var offset := 0;
    OffsetStep(fileSize, numPeers, 0);
    for i := 0 to numPeers
      invariant offset == Offset(fileSize, numPeers, i)
      invariant forall j :: 0 <= j < numPeers ==> lengths[j] == PartSize(fileSize, numPeers, j)
      invariant forall j :: 0 <= j < i ==> readers[j] == Part(data, numPeers, j)
    {
      OffsetInside(fileSize, numPeers, i);
      OffsetStep(fileSize, numPeers, i);
      readers[i] := data[offset..offset + lengths[i]];
      offset := offset + lengths[i];
    }
    assert readers[..] == Parts(data, numPeers);
    return Ok(readers[..]);
  }

  // ----- combining

  /** The numbered parts 1 to k of the collected ones, in order. */
  function InOrder(parts: map<int, seq<Byte>>, k: nat): seq<seq<Byte>>
    requires forall i :: 1 <= i <= k ==> i in parts
  {
    seq(k, i requires 0 <= i < k => parts[i + 1])
  }

  /** Whether the collected parts are numbered 1 to their count. */
  predicate Numbered(parts: map<int, seq<Byte>>) {
    forall i :: 1 <= i <= |parts| ==> i in parts
  }

  method CombineFile(parts: map<int, seq<Byte>>) returns (r: Result<seq<Byte>>)
    ensures r.Ok? <==> Numbered(parts)
    ensures r.Ok? ==> r.value == Concat(InOrder(parts, |parts|))
  {
    var combined: seq<Byte> := [];
    for i := 1 to |parts| + 1
      invariant forall j :: 1 <= j < i ==> j in parts
      invariant combined == Concat(InOrder(parts, i - 1))
    {
      if i !in parts {
        return Err("missing part");
      }
      assert InOrder(parts, i)[..i - 1] == InOrder(parts, i - 1);
      combined := combined + parts[i];
    }
    return Ok(combined);
  }

  /** The numbers 1 to n. */
  function Range(n: nat): (r: set<int>)
    ensures forall i :: i in r <==> 1 <= i <= n
    ensures |r| == n
  {
    if n == 0 then {} else Range(n - 1) + {n as int}
  }

  /** The parts numbered 1 to n. */
  function NumberedParts(data: seq<Byte>, n: nat): (m: map<int, seq<Byte>>)
    requires n > 0
    ensures m.Keys == Range(n)
  {
    map i | i in Range(n) :: Part(data, n, i - 1)
  }

  lemma NumberedPartsSize(data: seq<Byte>, n: nat)
    requires n > 0
    ensures |NumberedParts(data, n)| == n
  {
    assert |NumberedParts(data, n)| == |NumberedParts(data, n).Keys|;
  }

  /** The parts numbered 1 to n combine to the file they were cut from. */
  lemma CombinedIsWhole(data: seq<Byte>, n: nat)
    requires n > 0
    ensures var parts := NumberedParts(data, n);
            Numbered(parts) && Concat(InOrder(parts, |parts|)) == data
  {
    NumberedPartsSize(data, n);
    assert InOrder(NumberedParts(data, n), n) == Parts(data, n);
    PartsMakeWhole(data, n);
  }

  function Number(ps: seq<seq<Byte>>): map<int, seq<Byte>> {
    map i | i in Range(|ps|) :: ps[i - 1]
  }

  lemma NumberedAre(data: seq<Byte>, n: nat)
    requires n > 0
    ensures Number(Parts(data, n)) == NumberedParts(data, n)
  {
    forall i | i in Range(n) ensures Parts(data, n)[i - 1] == Part(data, n, i - 1) {
    }
  }

  /** Splitting any file for any positive number of nodes and combining the parts numbered from 1 gives the file back.
      */
  method SplitThenCombine(data: seq<Byte>, n: nat) returns (r: Result<seq<Byte>>)
    requires n > 0
    ensures r == Ok(data)
  {
    var split := SplitFile(data, n);
    var parts := Number(split.value);
    NumberedAre(data, n);
    CombinedIsWhole(data, n);
    r := CombineFile(parts);
  }
}
