/** internal/cryptoutil/rsa.go: Encrypt and Decrypt cut a message into OAEP blocks. The block
    operations are parameters; Oaep states what RSAES-OAEP promises of them (section 7.1 of
    RFC 8017). */
module RsaCodec {
  import opened Metrics

  type byte = x: int | 0 <= x < 256

  type Bytes = seq<byte>

  /** Sealing takes the randomness of the block; None is an error. */
  type Seal = (nat, Bytes) -> Option<Bytes>

  type Open = Bytes -> Option<Bytes>

  const HASH_SIZE := 32

  datatype CodecError = NilKey | KeyTooSmall | BlockFailed | BadLength

  /** With a key of k octets, a message that fits is sealed into k octets, which open to it; a
      longer one is refused. */
  ghost predicate Oaep(seal: Seal, open: Open, k: nat) {
    forall seed, m :: SealsAndOpens(seal, open, k, seed, m)
  }

  ghost predicate SealsAndOpens(seal: Seal, open: Open, k: nat, seed: nat, m: Bytes) {
    match seal(seed, m)
    case None => |m| > k - 2 * HASH_SIZE - 2
    case Some(block) => |m| <= k - 2 * HASH_SIZE - 2 && |block| == k && open(block) == Some(m)
  }

  function Min(a: int, b: int): int {
    if a < b then a else b
  }

  function Prepend(front: Bytes, tail: Option<Bytes>): Option<Bytes> {
    if tail.None? then None else Some(front + tail.value)
  }

  lemma PrependNothing(tail: Option<Bytes>)
    ensures Prepend([], tail) == tail
  {
    assert tail.Some? ==> [] + tail.value == tail.value;
  }

  lemma PrependMore(a: Bytes, b: Bytes, tail: Option<Bytes>)
    ensures Prepend(a, Prepend(b, tail)) == Prepend(a + b, tail)
  {
    assert tail.Some? ==> a + (b + tail.value) == a + b + tail.value;
  }

  /** The message is sealed part by part, the i-th part with the i-th randomness. */
  function SealAll(seal: Seal, n: nat, data: Bytes, i: nat): Option<Bytes>
    requires n > 0
    decreases |data|
  {
    if data == [] then Some([])
    else
      var part := Min(n, |data|);
      var block, rest := seal(i, data[..part]), SealAll(seal, n, data[part..], i + 1);
      if block.None? then None else Prepend(block.value, rest)
  }

  function OpenAll(open: Open, k: nat, data: Bytes): Option<Bytes>
    requires k > 0 && |data| % k == 0
    decreases |data|
  {
    if data == [] then Some([])
    else
      WholeBlocks(|data|, k);
      var block, rest := open(data[..k]), OpenAll(open, k, data[k..]);
      if block.None? then None else Prepend(block.value, rest)
  }

  lemma BigMultiple(n: nat, x: int)
    requires n > 0
    ensures x >= 1 ==> n * x >= n
    ensures x <= -1 ==> n * x <= 0 - n
  {
  }

  lemma DivisionIs(a: nat, n: nat, q: nat)
    requires n > 0 && n * q <= a < n * q + n
    ensures a / n == q && a % n == a - n * q
  {
    BigMultiple(n, a / n - q);
    assert n * (a / n - q) == n * (a / n) - n * q;
  }

  /** Whole blocks stay whole when one is taken off or put in front, and when two runs are joined. */
  lemma WholeBlocks(len: nat, k: nat)
    requires len > 0 && k > 0 && len % k == 0
    ensures len >= k && (len - k) % k == 0
  {
    var q := len / k;
    assert len == k * q;
    BigMultiple(k, q);
    assert len - k == k * (q - 1);
    DivisionIs(len - k, k, q - 1);
  }

  lemma JoinedBlocks(a: nat, b: nat, k: nat)
    requires k > 0 && a % k == 0 && b % k == 0
    ensures (a + b) % k == 0
  {
    var p, q := a / k, b / k;
    assert a == k * p && b == k * q;
    assert a + b == k * (p + q);
    DivisionIs(a + b, k, p + q);
  }

  function EncryptResult(seal: Seal, size: Option<nat>, data: Bytes): Result<Bytes, CodecError> {
    if size.None? then Err(NilKey)
    else if data == [] then Ok([])
    else if size.value - 2 * HASH_SIZE - 2 <= 0 then Err(KeyTooSmall)
    else match SealAll(seal, size.value - 2 * HASH_SIZE - 2, data, 0)
      case None => Err(BlockFailed)
      case Some(out) => Ok(out)
  }

  function DecryptResult(open: Open, size: Option<nat>, data: Bytes): Result<Bytes, CodecError>
    requires size.Some? ==> size.value > 0
  {
    if size.None? then Err(NilKey)
    else if data == [] then Ok([])
    else if |data| % size.value != 0 then Err(BadLength)
    else match OpenAll(open, size.value, data)
      case None => Err(BlockFailed)
      case Some(out) => Ok(out)
  }

  /** The length the code reserves before its loop. */
  function Reserved(len: nat, n: nat, k: nat): nat
    requires n > 0
  {
    ((len + n - 1) / n) * k
  }

  method Encrypt(seal: Seal, size: Option<nat>, data: Bytes) returns (r: Result<Bytes, CodecError>)
    ensures r == EncryptResult(seal, size, data)
  {
    if size.None? {
      return Err(NilKey);
    }
    if |data| == 0 {
      return Ok([]);
    }
    var chunkSize := size.value - 2 * HASH_SIZE - 2;
    if chunkSize <= 0 {
      return Err(KeyTooSmall);
    }
    var encrypted, rest, i := [], data, 0;
    PrependNothing(SealAll(seal, chunkSize, data, 0));
    while |rest| > 0
      invariant SealAll(seal, chunkSize, data, 0) ==
                Prepend(encrypted, SealAll(seal, chunkSize, rest, i))
    {
      var partSize := Min(chunkSize, |rest|);
      var block := seal(i, rest[..partSize]);
      if block.None? {
        return Err(BlockFailed);
      }
      PrependMore(encrypted, block.value, SealAll(seal, chunkSize, rest[partSize..], i + 1));
      encrypted, rest, i := encrypted + block.value, rest[partSize..], i + 1;
    }
    assert encrypted + [] == encrypted;
    return Ok(encrypted);
  }

  method Decrypt(open: Open, size: Option<nat>, data: Bytes) returns (r: Result<Bytes, CodecError>)
    requires size.Some? ==> size.value > 0
    ensures r == DecryptResult(open, size, data)
  {
    if size.None? {
      return Err(NilKey);
    }
    if |data| == 0 {
      return Ok([]);
    }
    var blockSize := size.value;
    if |data| % blockSize != 0 {
      return Err(BadLength);
    }
    var decrypted, rest := [], data;
    PrependNothing(OpenAll(open, blockSize, data));
    while |rest| > 0
      invariant |rest| % blockSize == 0
      invariant OpenAll(open, blockSize, data) ==
                Prepend(decrypted, OpenAll(open, blockSize, rest))
    {
      WholeBlocks(|rest|, blockSize);
      var block := open(rest[..blockSize]);
      if block.None? {
        return Err(BlockFailed);
      }
      PrependMore(decrypted, block.value, OpenAll(open, blockSize, rest[blockSize..]));
      decrypted, rest := decrypted + block.value, rest[blockSize..];
    }
    assert decrypted + [] == decrypted;
    return Ok(decrypted);
  }

  lemma OneMoreBlock(len: nat, n: nat, k: nat)
    requires len > 0 && n > 0
    ensures Reserved(len, n, k) == k + Reserved(len - Min(n, len), n, k)
  {
    if len <= n {
      assert (len + n - 1) / n == 1 by { DivisionIs(len + n - 1, n, 1); }
      assert (n - 1) / n == 0 by { DivisionIs(n - 1, n, 0); }
    } else {
      var q := (len - 1) / n;
      assert len - 1 == n * q + (len - 1) % n;
      assert len + n - 1 == n * (q + 1) + (len - 1) % n;
      DivisionIs(len + n - 1, n, q + 1);
      assert (q + 1) * k == q * k + k;
    }
  }

  /** Every part fits its block, so sealing succeeds; the output has exactly the reserved length,
      is made of whole blocks, and opens to the message. */
  lemma {:induction false} SealedOpens(seal: Seal, open: Open, k: nat, data: Bytes, i: nat)
    requires Oaep(seal, open, k) && k > 2 * HASH_SIZE + 2
    ensures var n := k - 2 * HASH_SIZE - 2;
            var out := SealAll(seal, n, data, i);
            && out.Some? && |out.value| == Reserved(|data|, n, k)
            && |out.value| % k == 0 && OpenAll(open, k, out.value) == Some(data)
    decreases |data|
  {
    hide Oaep, Reserved, OpenAll;
    var n := k - 2 * HASH_SIZE - 2;
    if data == [] {
      NothingReserved(n, k);
      OpenNothing(open, k);
    } else {
      var part := Min(n, |data|);
      SealedOpens(seal, open, k, data[part..], i + 1);
      assert SealsAndOpens(seal, open, k, i, data[..part]) by { OaepAt(seal, open, k, i, data[..part]); }
      OneMoreBlock(|data|, n, k);
      var block, rest := seal(i, data[..part]).value, SealAll(seal, n, data[part..], i + 1).value;
      FirstBlock(open, k, block, rest);
      assert data[..part] + data[part..] == data;
    }
  }

  lemma OpenNothing(open: Open, k: nat)
    requires k > 0
    ensures OpenAll(open, k, []) == Some([])
  {
  }

  lemma NothingReserved(n: nat, k: nat)
    requires n > 0
    ensures Reserved(0, n, k) == 0
  {
    DivisionIs(n - 1, n, 0);
  }

  lemma OaepAt(seal: Seal, open: Open, k: nat, seed: nat, m: Bytes)
    requires Oaep(seal, open, k)
    ensures SealsAndOpens(seal, open, k, seed, m)
  {
  }

  lemma FirstBlock(open: Open, k: nat, block: Bytes, rest: Bytes)
    requires k > 0 && |block| == k && |rest| % k == 0
    ensures |block + rest| % k == 0
    ensures OpenAll(open, k, block + rest) ==
            if open(block).None? then None else Prepend(open(block).value, OpenAll(open, k, rest))
  {
    DivisionIs(k, k, 1);
    JoinedBlocks(k, |rest|, k);
    assert (block + rest)[..k] == block && (block + rest)[k..] == rest;
  }

  /** For every message and every usable key, decryption undoes encryption, whatever the
      randomness; the ciphertext has exactly the length reserved for it. */
  lemma RoundTrip(seal: Seal, open: Open, k: nat, data: Bytes)
    requires Oaep(seal, open, k) && k > 2 * HASH_SIZE + 2
    ensures var c := EncryptResult(seal, Some(k), data);
            && c.Ok? && |c.value| == Reserved(|data|, k - 2 * HASH_SIZE - 2, k)
            && DecryptResult(open, Some(k), c.value) == Ok(data)
  {
    hide Oaep, SealAll, OpenAll, Reserved;
    SealedOpens(seal, open, k, data, 0);
    if data == [] {
      NothingReserved(k - 2 * HASH_SIZE - 2, k);
    } else {
      OneMoreBlock(|data|, k - 2 * HASH_SIZE - 2, k);
    }
  }

  /** A key is usable exactly when it is there and, unless there is nothing to encrypt, has room
      for one octet of message. */
  lemma EncryptFailsExactly(seal: Seal, open: Open, size: Option<nat>, data: Bytes)
    requires size.Some? ==> Oaep(seal, open, size.value)
    ensures EncryptResult(seal, size, data).Ok? <==> size.Some? && (data == [] || size.value > 66)
  {
    hide Oaep, SealAll, OpenAll, Reserved;
    if size.Some? && size.value > 2 * HASH_SIZE + 2 {
      SealedOpens(seal, open, size.value, data, 0);
    }
  }

  /** Ciphertexts of whole blocks can be joined: the result is the messages joined. */
  lemma {:induction false} OpenDistributes(open: Open, k: nat, a: Bytes, b: Bytes)
    requires k > 0 && |a| % k == 0 && |b| % k == 0
    ensures |a + b| % k == 0
    ensures OpenAll(open, k, a + b) ==
            if OpenAll(open, k, a).None? then None else Prepend(OpenAll(open, k, a).value, OpenAll(open, k, b))
    decreases |a|
  {
    JoinedBlocks(|a|, |b|, k);
    if a == [] {
      assert a + b == b;
      PrependNothing(OpenAll(open, k, b));
    } else {
      WholeBlocks(|a|, k);
      hide OpenAll, Prepend;
      OpenDistributes(open, k, a[k..], b);
      FirstBlock(open, k, a[..k], a[k..] + b);
      FirstBlock(open, k, a[..k], a[k..]);
      assert a[..k] + (a[k..] + b) == a + b;
      assert a[..k] + a[k..] == a;
      JoinTwice(open(a[..k]), OpenAll(open, k, a[k..]), OpenAll(open, k, b));
    }
  }

  lemma JoinTwice(x: Option<Bytes>, y: Option<Bytes>, z: Option<Bytes>)
    ensures x.Some? && y.Some? ==> Prepend(x.value, Prepend(y.value, z)) == Prepend(Prepend(x.value, y).value, z)
    ensures x.Some? ==> (Prepend(x.value, y).None? <==> y.None?) && Prepend(x.value, None) == None
  {
    if x.Some? && y.Some? { PrependMore(x.value, y.value, z); }
  }

  lemma DecryptDistributes(open: Open, k: nat, a: Bytes, b: Bytes)
    requires k > 0 && |a| % k == 0 && |b| % k == 0
    ensures DecryptResult(open, Some(k), a + b) ==
            match DecryptResult(open, Some(k), a)
            case Err(_) => Err(BlockFailed)
            case Ok(x) => match DecryptResult(open, Some(k), b) case Err(_) => Err(BlockFailed) case Ok(y) => Ok(x + y)
  {
    OpenDistributes(open, k, a, b);
  }

  // ---- Exactly when decryption fails ----

  /** The input cut into blocks of k octets; what is left over, if anything, is the last. */
  function Cut(data: Bytes, k: nat): seq<Bytes>
    requires k > 0
    decreases |data|
  {
    if data == [] then [] else if |data| <= k then [data] else [data[..k]] + Cut(data[k..], k)
  }

  /** The blocks opened and joined. */
  function Opened(open: Open, blocks: seq<Bytes>): Bytes
    requires forall b :: b in blocks ==> open(b).Some?
  {
    if blocks == [] then [] else open(blocks[0]).value + Opened(open, blocks[1..])
  }

  lemma OneBlockLess(len: nat, k: nat)
    requires k > 0 && len >= k
    ensures (len - k) % k == len % k
  {
    var q := len / k;
    assert len == k * q + len % k;
    BigMultiple(k, q);
    assert len - k == k * (q - 1) + len % k;
    DivisionIs(len - k, k, q - 1);
  }

  lemma {:induction false} CutWhole(data: Bytes, k: nat)
    requires k > 0
    ensures (forall b :: b in Cut(data, k) ==> |b| == k) <==> |data| % k == 0
    decreases |data|
  {
    if data == [] {
      DivisionIs(0, k, 0);
    } else if |data| < k {
      DivisionIs(|data|, k, 0);
      assert data in Cut(data, k);
    } else if |data| == k {
      DivisionIs(k, k, 1);
    } else {
      CutWhole(data[k..], k);
      OneBlockLess(|data|, k);
      assert Cut(data, k) == [data[..k]] + Cut(data[k..], k);
    }
  }

  lemma {:induction false} OpenExactly(open: Open, k: nat, data: Bytes)
    requires k > 0 && |data| % k == 0
    ensures OpenAll(open, k, data).Some? <==> forall b :: b in Cut(data, k) ==> open(b).Some?
    ensures OpenAll(open, k, data).Some? ==> OpenAll(open, k, data).value == Opened(open, Cut(data, k))
    decreases |data|
  {
    if data != [] {
      WholeBlocks(|data|, k);
      OpenExactly(open, k, data[k..]);
      var first, rest := data[..k], Cut(data[k..], k);
      assert Cut(data, k) == [first] + rest by {
        if |data| == k { assert data[k..] == [] && data[..k] == data; }
      }
      assert Cut(data, k)[1..] == rest;
    }
  }

  /** Decryption needs a key, whole blocks, and blocks that all open; it joins what they open to. */
  lemma DecryptExactly(open: Open, size: Option<nat>, data: Bytes)
    requires size.Some? ==> size.value > 0
    ensures size.None? ==> DecryptResult(open, size, data) == Err(NilKey)
    ensures size.Some? ==>
              var blocks := Cut(data, size.value);
              DecryptResult(open, size, data) ==
                if exists b :: b in blocks && |b| != size.value then Err(BadLength)
                else if exists b :: b in blocks && open(b).None? then Err(BlockFailed)
                else Ok(Opened(open, blocks))
  {
    hide OpenAll, Cut, Opened;
    if size.Some? {
      CutWhole(data, size.value);
      CutNothing(size.value);
      if |data| % size.value == 0 { OpenExactly(open, size.value, data); }
      OpenedNothing(open);
      if data == [] { DivisionIs(0, size.value, 0); }
    }
  }

  lemma CutNothing(k: nat)
    requires k > 0
    ensures Cut([], k) == []
  {
  }

  lemma OpenedNothing(open: Open)
    ensures Opened(open, []) == []
  {
  }
}
