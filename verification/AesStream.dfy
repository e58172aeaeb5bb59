/** The chunked AES-CTR copy loop: however the readers cut up their data, it XORs the whole message with the
    keystream. */
module AesStream {
  import opened Wrappers

  type Byte = bv8

  const BLOCK: nat := 16
  const BUFFER: nat := 32 * 1024

  /** The keystream of a block cipher in counter mode: key, initialization vector, position. */
  type Keystream = (seq<Byte>, seq<Byte>, nat) -> Byte

  // ----- specification: one XOR over the whole message

  function Xor(ks: Keystream, key: seq<Byte>, iv: seq<Byte>, at: nat, s: seq<Byte>): (r: seq<Byte>)
    ensures |r| == |s|
  {
    seq(|s|, i requires 0 <= i < |s| => s[i] ^ ks(key, iv, at + i))
  }

  lemma XorByte(a: Byte, k: Byte)
    ensures (a ^ k) ^ k == a
  {
  }

  lemma XorTwice(ks: Keystream, key: seq<Byte>, iv: seq<Byte>, at: nat, s: seq<Byte>)
    ensures Xor(ks, key, iv, at, Xor(ks, key, iv, at, s)) == s
  {
    var t := Xor(ks, key, iv, at, Xor(ks, key, iv, at, s));
    forall i | 0 <= i < |s| ensures t[i] == s[i] {
      XorByte(s[i], ks(key, iv, at + i));
    }
  }

  lemma XorConcat(ks: Keystream, key: seq<Byte>, iv: seq<Byte>, at: nat, a: seq<Byte>, b: seq<Byte>)
    ensures Xor(ks, key, iv, at, a + b) == Xor(ks, key, iv, at, a) + Xor(ks, key, iv, at + |a|, b)
  {
  }

  predicate ValidKey(key: seq<Byte>) {
    |key| == 16 || |key| == 24 || |key| == 32
  }

  /** Ciphertext: the initialization vector, then the message XORed with the keystream. */
  function Sealed(ks: Keystream, key: seq<Byte>, iv: seq<Byte>, plain: seq<Byte>): seq<Byte> {
    iv + Xor(ks, key, iv, 0, plain)
  }

  /** What decryption makes of data when its first read delivers k bytes: a short vector is filled up with zeros. */
  function Opened(ks: Keystream, key: seq<Byte>, data: seq<Byte>, k: nat): seq<Byte>
    requires k <= BLOCK && k <= |data|
  {
    Xor(ks, key, data[..k] + seq(BLOCK - k, i => 0), 0, data[k..])
  }

  /** Byte by byte: what follows the first k bytes is XORed with the keystream of the vector that those k bytes make
      when filled up with zeros. */
  lemma OpenedBytes(ks: Keystream, key: seq<Byte>, data: seq<Byte>, k: nat, iv: seq<Byte>, i: nat)
    requires k <= 16 && k + i < |data| && |iv| == 16
    requires forall j :: 0 <= j < 16 ==> iv[j] == if j < k then data[j] else 0
    ensures |Opened(ks, key, data, k)| == |data| - k
    ensures Opened(ks, key, data, k)[i] == data[k + i] ^ ks(key, iv, i)
  {
    assert iv == data[..k] + seq(BLOCK - k, i => 0);
  }

  /** A message of zeros is encrypted to the vector and the bare keystream. */
  lemma SealedZeros(ks: Keystream, key: seq<Byte>, iv: seq<Byte>, n: nat)
    ensures Sealed(ks, key, iv, seq(n, i => 0)) == iv + seq(n, (i: nat) => ks(key, iv, i))
  {
    forall i: nat | i < n ensures (0 as Byte) ^ ks(key, iv, i) == ks(key, iv, i) {
    }
  }

  /** Decryption undoes encryption exactly when the first read delivers the whole vector. */
  lemma OpenedSealedIff(ks: Keystream, key: seq<Byte>, iv: seq<Byte>, plain: seq<Byte>, k: nat)
    requires |iv| == BLOCK && k <= BLOCK
    ensures Opened(ks, key, Sealed(ks, key, iv, plain), k) == plain <==> k == BLOCK
  {
    var data := Sealed(ks, key, iv, plain);
    if k == BLOCK {
      assert data[..k] + seq(BLOCK - k, i => 0) == iv;
      assert data[k..] == Xor(ks, key, iv, 0, plain);
      XorTwice(ks, key, iv, 0, plain);
    } else {
      assert |Opened(ks, key, data, k)| > |plain|;
    }
  }

  // ----- readers and writers

  datatype ReadErr = Nil | EOF | Failed

  /** What the next read does: deliver up to some bytes, perhaps reporting the end together with the last ones, or
      fail. */
  datatype Want = Give(count: nat, early: bool) | Fail(count: nat)

  function Min(a: nat, b: nat): nat {
    if a < b then a else b
  }

  /** The outcome of a read into a buffer of the given size when `left` bytes remain. */
  function ReadOutcome(schedule: seq<Want>, left: nat, size: nat): (r: (nat, ReadErr))
    ensures r.0 <= left && r.0 <= size
    ensures r.1 == EOF ==> r.0 == left
  {
    if left == 0 && (schedule == [] || schedule[0].Give?) then (0, EOF)
    else if schedule == [] then (Min(size, left), Nil)
    else
      match schedule[0]
      case Fail(k) => (Min(k, Min(size, left)), Failed)
      case Give(k, early) =>
        var n := Min(k, Min(size, left));
        (n, if early && n == left then EOF else Nil)
  }

  predicate NeverFails(schedule: seq<Want>) {
    forall w :: w in schedule ==> w.Give?
  }

  /** A reader over fixed data that cuts it up as its schedule says; with no schedule left it fills every buffer. */
  class Reader {
    const data: seq<Byte>
    var pos: nat
    var schedule: seq<Want>

    ghost predicate Valid()
      reads this
    {
      pos <= |data|
    }

    constructor (data: seq<Byte>, schedule: seq<Want>)
      ensures Valid() && this.data == data && this.pos == 0 && this.schedule == schedule
    {
      this.data := data;
      this.pos := 0;
      this.schedule := schedule;
    }

    method Read(buf: array<Byte>) returns (n: nat, err: ReadErr)
      requires Valid()
      modifies this, buf
      ensures Valid() && (n, err) == ReadOutcome(old(schedule), |data| - old(pos), buf.Length)
      ensures pos == old(pos) + n
      ensures schedule == if old(schedule) == [] then [] else old(schedule)[1..]
      ensures NeverFails(old(schedule)) ==> NeverFails(schedule) && err != Failed
      ensures buf[..n] == data[old(pos)..pos] && buf[n..] == old(buf[..])[n..]
    {
      var outcome := ReadOutcome(schedule, |data| - pos, buf.Length);
      n, err := outcome.0, outcome.1;
      forall i | 0 <= i < n {
        buf[i] := data[pos + i];
      }
      pos := pos + n;
      schedule := if schedule == [] then [] else schedule[1..];
    }
  }

  /** A destination whose writes succeed until its budget, if it has one, is used up. */
  class Sink {
    var data: seq<Byte>
    const limited: bool
    var budget: nat

    constructor (limited: bool, budget: nat)
      ensures data == [] && this.limited == limited && this.budget == budget
    {
      this.data := [];
      this.limited := limited;
      this.budget := budget;
    }

    method Write(bytes: seq<Byte>) returns (n: nat, ok: bool)
      modifies this
      ensures ok == !(limited && old(budget) == 0)
      ensures data == (if ok then old(data) + bytes else old(data)) && n == if ok then |bytes| else 0
    {
      if limited && budget == 0 {
        return 0, false;
      }
      budget := if budget > 0 then budget - 1 else 0;
      data := data + bytes;
      return |bytes|, true;
    }
  }

  /** A counter-mode stream: it remembers how much keystream it has used. */
  class CtrStream {
    const ks: Keystream
    const key: seq<Byte>
    const iv: seq<Byte>
    var at: nat

    constructor (ks: Keystream, key: seq<Byte>, iv: seq<Byte>)
      ensures this.ks == ks && this.key == key && this.iv == iv && at == 0
    {
      this.ks := ks;
      this.key := key;
      this.iv := iv;
      this.at := 0;
    }

    /** XORs the first n bytes of the buffer in place. */
    method XorKeyStream(buf: array<Byte>, n: nat)
      requires n <= buf.Length
      modifies this, buf
      ensures at == old(at) + n
      ensures buf[..n] == Xor(ks, key, iv, old(at), old(buf[..n])) && buf[n..] == old(buf[n..])
    {
      forall i | 0 <= i < n {
        buf[i] := buf[i] ^ ks(key, iv, at + i);
      }
      at := at + n;
    }
  }

  /** The copied output after reading data from start to now: those bytes XORed with keystream from `at` on. */
  ghost function Copied(s: CtrStream, at: nat, data: seq<Byte>, start: nat, now: nat): seq<Byte>
    requires start <= now <= |data|
  {
    Xor(s.ks, s.key, s.iv, at, data[start..now])
  }

  lemma CopiedChunk(s: CtrStream, at: nat, data: seq<Byte>, start: nat, before: nat, now: nat, out: seq<Byte>)
    requires start <= before <= now <= |data|
    ensures (out + Copied(s, at, data, start, before))
            + Xor(s.ks, s.key, s.iv, at + (before - start), data[before..now])
         == out + Copied(s, at, data, start, now)
    ensures Copied(s, at, data, start, now)
         == Copied(s, at, data, start, before) + Xor(s.ks, s.key, s.iv, at + (before - start), data[before..now])
  {
    assert data[start..now] == data[start..before] + data[before..now];
    XorConcat(s.ks, s.key, s.iv, at, data[start..before], data[before..now]);
  }

  /** out ends with the data from start on, XORed byte by byte with the keystream from `at` on. */
  ghost predicate EndsXored(out: seq<Byte>, size: nat, data: seq<Byte>, start: nat, s: CtrStream, at: nat) {
    && size <= |out| && start + |out| - size <= |data|
    && forall k :: size <= k < |out| ==> out[k] == data[start + k - size] ^ s.ks(s.key, s.iv, at + k - size)
  }

  /** What has been copied so far is a prefix of the whole, and right byte by byte. */
  lemma CopiedSoFar(s: CtrStream, at: nat, data: seq<Byte>, start: nat, now: nat, before: seq<Byte>, out: seq<Byte>)
    requires start <= now <= |data| && out == before + Copied(s, at, data, start, now)
    ensures before <= out <= before + Copied(s, at, data, start, |data|)
    ensures EndsXored(out, |before|, data, start, s, at)
  {
    CopiedChunk(s, at, data, start, now, |data|, before);
  }

  /** Copies src to dst through the stream, one buffer at a time. */
  method CopyStream(stream: CtrStream, blockSize: nat, src: Reader, dst: Sink) returns (r: Result<nat>)
    requires src.Valid()
    modifies stream, src, dst
    ensures src.Valid() && old(src.pos) <= src.pos
    ensures r.Ok? ==> r.value == blockSize + |src.data| - old(src.pos)
    ensures r.Ok? ==> dst.data == old(dst.data) + Copied(stream, old(stream.at), src.data, old(src.pos), |src.data|)
    ensures r.Err? ==>
              (old(dst.data) <= dst.data
               <= old(dst.data) + Copied(stream, old(stream.at), src.data, old(src.pos), |src.data|))
    ensures NeverFails(old(src.schedule)) && !dst.limited ==> r.Ok?
    ensures r.Ok? ==> |dst.data| - |old(dst.data)| == |src.data| - old(src.pos)
    ensures EndsXored(dst.data, |old(dst.data)|, src.data, old(src.pos), stream, old(stream.at))
  {
    var buf := new Byte[BUFFER](i => 0);
    var nw := blockSize;
    ghost var start, at0, out0 := src.pos, stream.at, dst.data;
    while true
      invariant src.Valid() && start <= src.pos && stream.at == at0 + (src.pos - start)
      invariant nw == blockSize + (src.pos - start)
      invariant dst.data == out0 + Copied(stream, at0, src.data, start, src.pos)
      invariant NeverFails(old(src.schedule)) ==> NeverFails(src.schedule)
      decreases |src.data| - src.pos + |src.schedule|
    {
      ghost var before := src.pos;
      var n, err := src.Read(buf);
      CopiedChunk(stream, at0, src.data, start, before, src.pos, out0);
      ghost var chunk := src.data[before..src.pos];
      assert buf[..n] == chunk && stream.at == at0 + (before - start);
      if n > 0 {
        stream.XorKeyStream(buf, n);
        assert buf[..n] == Xor(stream.ks, stream.key, stream.iv, at0 + (before - start), chunk);
        var nn, ok := dst.Write(buf[..n]);
        if !ok {
          CopiedSoFar(stream, at0, src.data, start, before, out0, dst.data);
          return Err("write failed");
        }
        nw := nw + nn;
      }
      if err == EOF {
        break;
      }
      if err == Failed {
        CopiedSoFar(stream, at0, src.data, start, src.pos, out0, dst.data);
        return Err("read failed");
      }
    }
    CopiedSoFar(stream, at0, src.data, start, src.pos, out0, dst.data);
    return Ok(nw);
  }

  /** Encrypts what src delivers to dst under a fresh vector, if the random source gives one. */
  method EncryptAES(ks: Keystream, key: seq<Byte>, random: Result<seq<Byte>>, src: Reader, dst: Sink)
    returns (r: Result<nat>)
    requires src.Valid() && (random.Ok? ==> |random.value| == BLOCK)
    modifies src, dst
    ensures r.Ok? ==> ValidKey(key) && random.Ok?
    ensures r.Ok? ==> r.value == BLOCK + |src.data| - old(src.pos)
    ensures r.Ok? ==> dst.data == old(dst.data) + Sealed(ks, key, random.value, src.data[old(src.pos)..])
    ensures ValidKey(key) && random.Ok? && NeverFails(old(src.schedule)) && !dst.limited ==> r.Ok?
    ensures |key| !in {16, 24, 32} || random.Err? ==> r.Err? && dst.data == old(dst.data)
    ensures r.Ok? ==> |dst.data| == |old(dst.data)| + 16 + |src.data| - old(src.pos)
    ensures r.Ok? ==> dst.data[..|old(dst.data)| + 16] == old(dst.data) + random.value
    ensures r.Ok? ==> forall i :: 0 <= i < |src.data| - old(src.pos) ==>
              dst.data[|old(dst.data)| + 16 + i] == src.data[old(src.pos) + i] ^ ks(key, random.value, i)
  {
    if !ValidKey(key) {
      return Err("invalid key size");
    }
    if random.Err? {
      return Err("no random bytes");
    }
    var iv := random.value;
    var nn, ok := dst.Write(iv);
    if !ok {
      return Err("write failed");
    }
    var stream := new CtrStream(ks, key, iv);
    ghost var start := src.pos;
    r := CopyStream(stream, BLOCK, src, dst);
    assert src.data[start..|src.data|] == src.data[start..];
    assert r.Ok? ==> dst.data == (old(dst.data) + iv) + Xor(ks, key, iv, 0, src.data[start..]);
  }

  /** Decrypts what src delivers to dst; the vector is whatever one read of 16 bytes returns. */
  method DecryptAES(ks: Keystream, key: seq<Byte>, src: Reader, dst: Sink) returns (r: Result<nat>)
    requires src.Valid()
    modifies src, dst
    ensures var left := |src.data| - old(src.pos);
            var first := ReadOutcome(old(src.schedule), left, BLOCK);
            && (r.Ok? ==> ValidKey(key) && first.1 == Nil && r.value == BLOCK + left - first.0)
            && (r.Ok? ==> dst.data == old(dst.data) + Opened(ks, key, src.data[old(src.pos)..], first.0))
            && (ValidKey(key) && first.1 == Nil && NeverFails(old(src.schedule)) && !dst.limited ==> r.Ok?)
    ensures |key| !in {16, 24, 32} ==> r.Err? && dst.data == old(dst.data)
  {
    if !ValidKey(key) {
      return Err("invalid key size");
    }
    var iv := new Byte[BLOCK](i => 0);
    ghost var start := src.pos;
    var n, err := src.Read(iv);
    if err != Nil {
      return Err("no vector");
    }
    assert iv[..] == iv[..n] + iv[n..];
    assert iv[..] == src.data[start..][..n] + seq(BLOCK - n, i => 0);
    var stream := new CtrStream(ks, key, iv[..]);
    r := CopyStream(stream, BLOCK, src, dst);
    assert src.data[start..][n..] == src.data[start + n..|src.data|];
  }

  /** Encrypt and decrypt any message with readers that never fail but cut their data arbitrarily: both report 16 plus
      the length and the message comes back, exactly when the first decrypting read delivers the whole vector. */
  method EncryptThenDecrypt(ks: Keystream, key: seq<Byte>, iv: seq<Byte>, plain: seq<Byte>,
                            cuts: seq<Want>, cuts': seq<Want>)
    returns (sealed: Result<nat>, unsealed: Result<nat>, cipher: seq<Byte>, out: seq<Byte>)
    requires ValidKey(key) && |iv| == BLOCK && NeverFails(cuts) && NeverFails(cuts')
    ensures sealed == Ok(BLOCK + |plain|) && cipher == Sealed(ks, key, iv, plain)
    ensures unsealed == Ok(BLOCK + |plain|) && out == plain
            <==> ReadOutcome(cuts', BLOCK + |plain|, BLOCK) == (BLOCK, Nil)
  {
    var src := new Reader(plain, cuts);
    var dst := new Sink(false, 0);
    sealed := EncryptAES(ks, key, Ok(iv), src, dst);
    cipher := dst.data;
    assert plain[0..] == plain;
    var src' := new Reader(cipher, cuts');
    var dst' := new Sink(false, 0);
    unsealed := DecryptAES(ks, key, src', dst');
    out := dst'.data;
    assert cipher[0..] == cipher;
    OpenedSealedIff(ks, key, iv, plain, ReadOutcome(cuts', BLOCK + |plain|, BLOCK).0);
  }
}
