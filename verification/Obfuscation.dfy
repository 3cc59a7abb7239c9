/** Peer message obfuscation: a four-byte key in front, then each four-byte block masked with the
    key, which rotates by one bit before every block. */
module Obfuscation {
  import opened Wrappers

  const BLOCK: nat := 4

  /** `to_le_bytes`. */
  function KeyBytes(key: bv32): (bytes: seq<bv8>)
    ensures |bytes| == BLOCK
  {
    [(key & 0xff) as bv8, ((key >> 8) & 0xff) as bv8, ((key >> 16) & 0xff) as bv8, (key >> 24) as bv8]
  }

  /** `from_le_bytes`. */
  function KeyOf(bytes: seq<bv8>): bv32
    requires |bytes| >= BLOCK
  {
    (bytes[0] as bv32) | ((bytes[1] as bv32) << 8) | ((bytes[2] as bv32) << 16) | ((bytes[3] as bv32) << 24)
  }

  lemma KeyBytesRoundTrip(key: bv32)
    ensures KeyOf(KeyBytes(key)) == key
  {
  }

  lemma KeyOfPrefix(bytes: seq<bv8>, rest: seq<bv8>)
    requires |bytes| == BLOCK
    ensures KeyOf(bytes + rest) == KeyOf(bytes)
  {
  }

  lemma KeyOfRoundTrip(bytes: seq<bv8>)
    requires |bytes| == BLOCK
    ensures KeyBytes(KeyOf(bytes)) == bytes
  {
  }

  // ---------------------------------------------------------------- the key stream

  /** The key rotated left by `m` bits. */
  function RotatedLeft(key: bv32, m: bv5): bv32 {
    (key << (m as bv32)) | (key >> (32 - m as bv32))
  }

  /** The rotation after `n` blocks, a five-bit counter: rotations by 32 bits cancel. */
  function Amount(n: nat): bv5 {
    if n == 0 then 0 else Amount(n - 1) + 1
  }

  /** The mask of byte `j`: its place in the block, in the key rotated once for each block so far. */
  function Mask(key: bv32, j: nat): bv8 {
    KeyBytes(RotatedLeft(key, Amount(j / BLOCK + 1)))[j % BLOCK]
  }

  function Masked(key: bv32, data: seq<bv8>): (r: seq<bv8>)
    ensures |r| == |data|
  {
    seq(|data|, j requires 0 <= j < |data| => data[j] ^ Mask(key, j))
  }

  /** The next block's key: right by 31 bits is left by one. */
  function NextKey(key: bv32): bv32 {
    key.RotateRight(31)
  }

  lemma RotateOnce(key: bv32, m: bv5)
    ensures NextKey(RotatedLeft(key, m)) == RotatedLeft(key, m + 1)
    ensures RotatedLeft(key, 0) == key
  {
  }

  lemma {:induction false} AmountRepeats(n: nat)
    ensures Amount(n + 32) == Amount(n)
  {
    if n == 0 {
      assert Amount(4) == 4 && Amount(8) == 8 && Amount(12) == 12 && Amount(16) == 16;
      assert Amount(20) == 20 && Amount(24) == 24 && Amount(28) == 28 && Amount(32) == 0;
    } else {
      AmountRepeats(n - 1);
    }
  }

  /** Rotating right by 31 bits once more, as the loops do, moves on to the next block's mask. */
  lemma RotateOnceMore(key: bv32, n: nat)
    ensures NextKey(RotatedLeft(key, Amount(n))) == RotatedLeft(key, Amount(n + 1))
    ensures RotatedLeft(key, Amount(0)) == key
  {
    hide RotatedLeft, NextKey;
    RotateOnce(key, Amount(n));
    assert Amount(n + 1) == Amount(n) + 1;
  }

  /** The key stream repeats every 32 blocks. */
  lemma KeyStreamRepeats(key: bv32, j: nat)
    ensures Mask(key, j + 32 * BLOCK) == Mask(key, j)
  {
    assert (j + 32 * BLOCK) / BLOCK == j / BLOCK + 32;
    assert (j + 32 * BLOCK) % BLOCK == j % BLOCK;
    AmountRepeats(j / BLOCK + 1);
  }

  // ---------------------------------------------------------------- the two operations

  function Obfuscated(key: bv32, data: seq<bv8>): seq<bv8> {
    KeyBytes(key) + Masked(key, data)
  }

  /** Too short for a key, or the rest masked once more. */
  function Deobfuscated(data: seq<bv8>): Option<seq<bv8>> {
    if |data| < BLOCK then None else Some(Masked(KeyOf(data), data[BLOCK..]))
  }

  method MaskBlock(key: bv32, chunk: seq<bv8>) returns (out: seq<bv8>)
    requires |chunk| <= BLOCK
    ensures |out| == |chunk| && forall i | 0 <= i < |chunk| :: out[i] == chunk[i] ^ KeyBytes(key)[i]
  {
    var keyBytes := KeyBytes(key);
    out := [];
    for i := 0 to |chunk|
      invariant |out| == i && forall j | 0 <= j < i :: out[j] == chunk[j] ^ keyBytes[j]
    {
      out := out + [chunk[i] ^ keyBytes[i]];
    }
  }

  method Obfuscate(data: seq<bv8>, initialKey: bv32) returns (result: seq<bv8>)
    ensures result == Obfuscated(initialKey, data)
  {
    hide KeyBytes, RotatedLeft, NextKey, Amount, Mask, Masked;
    result := KeyBytes(initialKey);
    var key, pos := initialKey, 0;
    RotateOnceMore(initialKey, 0);
    NothingMasked(initialKey);
    while pos < |data|
      invariant pos % BLOCK == 0 && key == RotatedLeft(initialKey, Amount(pos / BLOCK))
      invariant result == Obfuscated(initialKey, data[..if pos < |data| then pos else |data|])
    {
      RotateOnceMore(initialKey, pos / BLOCK);
      key := NextKey(key);
      var end := if pos + BLOCK <= |data| then pos + BLOCK else |data|;
      var block := MaskBlock(key, data[pos..end]);
      MaskedGrows(initialKey, data, pos, end, block);
      result := result + block;
      pos := pos + BLOCK;
    }
    assert data[..|data|] == data;
  }

  method Deobfuscate(data: seq<bv8>) returns (r: Option<seq<bv8>>)
    ensures r == Deobfuscated(data)
  {
    hide KeyBytes, KeyOf, RotatedLeft, NextKey, Amount, Mask, Masked;
    if |data| < BLOCK {
      return None;
    }
    var initialKey := KeyOf(data);
    var (encrypted, result) := (data[BLOCK..], []);
    var key, pos := initialKey, 0;
    RotateOnceMore(initialKey, 0);
    NothingMasked(initialKey);
    while pos < |encrypted|
      invariant pos % BLOCK == 0 && key == RotatedLeft(initialKey, Amount(pos / BLOCK))
      invariant result == Masked(initialKey, encrypted[..if pos < |encrypted| then pos else |encrypted|])
    {
      RotateOnceMore(initialKey, pos / BLOCK);
      key := NextKey(key);
      var end := if pos + BLOCK <= |encrypted| then pos + BLOCK else |encrypted|;
      var block := MaskBlock(key, encrypted[pos..end]);
      MaskedGrows(initialKey, encrypted, pos, end, block);
      result := result + block;
      pos := pos + BLOCK;
    }
    assert encrypted[..|encrypted|] == encrypted;
    r := Some(result);
  }

  lemma NothingMasked(key: bv32)
    ensures Masked(key, []) == []
  {
  }

  /** One block, masked with the key at its turn, extends the masked prefix. */
  lemma MaskedGrows(key: bv32, data: seq<bv8>, pos: nat, end: nat, block: seq<bv8>)
    requires pos % BLOCK == 0 && pos < end <= |data| && end <= pos + BLOCK && |block| == end - pos
    requires var bytes := KeyBytes(RotatedLeft(key, Amount(pos / BLOCK + 1)));
             forall i | 0 <= i < |block| :: block[i] == data[pos..end][i] ^ bytes[i]
    ensures Masked(key, data[..pos]) + block == Masked(key, data[..end])
  {
    hide KeyBytes, RotatedLeft, Amount;
    forall j | pos <= j < end
      ensures block[j - pos] == data[j] ^ Mask(key, j)
    {
      assert j / BLOCK == pos / BLOCK && j % BLOCK == j - pos;
    }
  }

  /** Masking twice with the same key changes nothing. */
  lemma MaskedTwice(key: bv32, data: seq<bv8>)
    ensures Masked(key, Masked(key, data)) == data
  {
    hide Mask;
    forall j | 0 <= j < |data|
      ensures (data[j] ^ Mask(key, j)) ^ Mask(key, j) == data[j]
    {
      XorTwice(data[j], Mask(key, j));
    }
  }

  lemma XorTwice(a: bv8, b: bv8)
    ensures (a ^ b) ^ b == a
  {
  }

  /** Deobfuscation undoes obfuscation for every key and every length of data. */
  lemma DeobfuscateUndoesObfuscate(key: bv32, data: seq<bv8>)
    ensures Deobfuscated(Obfuscated(key, data)) == Some(data)
  {
    hide Masked, KeyBytes, KeyOf;
    KeyBytesRoundTrip(key);
    KeyOfPrefix(KeyBytes(key), Masked(key, data));
    assert Obfuscated(key, data)[BLOCK..] == Masked(key, data);
    MaskedTwice(key, data);
  }

  /** Only obfuscated messages deobfuscate, and they are the obfuscation of what comes out. */
  lemma ObfuscateUndoesDeobfuscate(data: seq<bv8>)
    ensures Deobfuscated(data).Some? <==> |data| >= BLOCK
    ensures Deobfuscated(data).Some? ==> Obfuscated(KeyOf(data), Deobfuscated(data).value) == data
  {
    hide Masked, KeyOf, KeyBytes;
    if |data| >= BLOCK {
      KeyOfRoundTrip(data[..BLOCK]);
      MaskedTwice(KeyOf(data), data[BLOCK..]);
      KeyOfPrefix(data[..BLOCK], data[BLOCK..]);
      assert data == data[..BLOCK] + data[BLOCK..];
    }
  }
}
