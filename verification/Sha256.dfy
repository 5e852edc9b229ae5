/** The streaming hash of inkling_packed.c: buffering and padding around a block function.

    The block function is a parameter.  `Digest` is the hash of a whole message: the block function folded
    over the message padded as in section 5.1.1 of FIPS 180-4.  The class is proved to compute it however
    the message is cut into updates.
*/
module Sha256 {
  import opened Arithmetic
  import opened Counters
  import opened Octets

  // ---------- The hash of a whole message ----------

  /** The block function folded over the 64-byte blocks of `m`. */
  function Fold<S>(compress: (S, Bytes) -> S, start: S, m: Bytes): S
    requires |m| % 64 == 0
  {
    if m == [] then start
    else compress(Fold(compress, start, m[..|m| - 64]), m[|m| - 64..])
  }

  function Zeros(n: nat): (r: Bytes)
    ensures |r| == n
  {
    seq(n, _ => 0)
  }

  /** The `n` low bytes of `v`, most significant first. */
  function BigEndian(v: nat, n: nat): (r: Bytes)
    ensures |r| == n
  {
    if n == 0 then [] else BigEndian(v / 256, n - 1) + [v % 256]
  }

  /** How many bytes the padding of a message of `n` bytes has: one marker, zeros, and eight for the length. */
  function PaddingLength(n: nat): (p: nat)
    ensures 9 <= p <= 72 && (n + p) % 64 == 0
  {
    var used := n % 64;
    (if used < 56 then 56 - used else 120 - used) + 8
  }

  /** The padded message of section 5.1.1: the message, 0x80, the fewest zeros, the length in bits. */
  function Padded(m: Bytes): (r: Bytes)
    ensures |r| % 64 == 0
  {
    m + [0x80] + Zeros(PaddingLength(|m|) - 9) + BigEndian(|m| * 8, 8)
  }

  /** The example of section 5.1.1 of FIPS 180-4: "abc" is followed by 0x80, by 52 zeros and by 24, its length in
      bits. */
  lemma PaddedAbc()
    ensures Padded([0x61, 0x62, 0x63]) == [0x61, 0x62, 0x63, 0x80] + Zeros(52) + [0, 0, 0, 0, 0, 0, 0, 24]
  {
    SmallBigEndian(24);
  }

  lemma SmallBigEndian(v: nat)
    requires v < 256
    ensures BigEndian(v, 8) == [0, 0, 0, 0, 0, 0, 0, v]
  {
    assert BigEndian(0, 1) == [0] && BigEndian(0, 2) == [0, 0] && BigEndian(0, 3) == [0, 0, 0];
    assert BigEndian(0, 4) == [0, 0, 0, 0] && BigEndian(0, 5) == [0, 0, 0, 0, 0];
    assert BigEndian(0, 6) == [0, 0, 0, 0, 0, 0] && BigEndian(0, 7) == [0, 0, 0, 0, 0, 0, 0];
  }

  /** The number of zeros is the smallest that makes the length a multiple of 64 bytes. */
  lemma PaddingIsMinimal(m: Bytes, zeros: nat)
    requires (|m| + 1 + zeros + 8) % 64 == 0
    ensures zeros >= PaddingLength(|m|) - 9
  {
  }

  /** The padding loses nothing: two messages below 2^61 bytes with the same padded form are equal. */
  lemma PaddedInjective(a: Bytes, b: Bytes)
    requires |a| < 0x2000_0000_0000_0000 && |b| < 0x2000_0000_0000_0000 && Padded(a) == Padded(b)
    ensures a == b
  {
    var n := |Padded(a)|;
    assert Padded(a)[n - 8..] == BigEndian(|a| * 8, 8);
    assert Padded(b)[n - 8..] == BigEndian(|b| * 8, 8);
    BigEndianInjective(|a| * 8, |b| * 8, 8);
    assert Padded(a)[..|a|] == a && Padded(b)[..|b|] == b;
  }

  function Pow256(n: nat): nat {
    if n == 0 then 1 else 256 * Pow256(n - 1)
  }

  lemma {:induction false} BigEndianInjective(v: nat, w: nat, n: nat)
    requires v < Pow256(n) && w < Pow256(n) && BigEndian(v, n) == BigEndian(w, n)
    ensures v == w
  {
    if n == 0 {
    } else {
      var a, b := BigEndian(v, n), BigEndian(w, n);
      assert a[..n - 1] == BigEndian(v / 256, n - 1) && b[..n - 1] == BigEndian(w / 256, n - 1);
      assert a[n - 1] == v % 256 && b[n - 1] == w % 256;
      BigEndianInjective(v / 256, w / 256, n - 1);
    }
  }

  function Digest<S>(compress: (S, Bytes) -> S, start: S, m: Bytes): S {
    Fold(compress, start, Padded(m))
  }

  /** `v` shifted right by `n` whole bytes. */
  function Shifted(v: nat, n: nat): nat {
    if n == 0 then v else Shifted(v / 256, n - 1)
  }

  lemma {:induction false} BigEndianAt(v: nat, n: nat, i: nat)
    requires i < n
    ensures BigEndian(v, n)[i] == Shifted(v, n - 1 - i) % 256
  {
    if i < n - 1 {
      BigEndianAt(v / 256, n - 1, i);
    }
  }

  lemma TimesBlock(p: nat, k: nat)
    ensures 256 * p * k == 256 * (p * k)
  {
  }

  lemma LowByte(v: nat, q: nat)
    ensures (v + 256 * q) / 256 == v / 256 + q && (v + 256 * q) % 256 == v % 256
  {
  }

  /** Only the length modulo 2^64 reaches the padding. */
  lemma {:induction false} BigEndianWraps(v: nat, n: nat, k: nat)
    ensures BigEndian(v + Pow256(n) * k, n) == BigEndian(v, n)
  {
    if n == 0 {
    } else {
      TimesBlock(Pow256(n - 1), k);
      LowByte(v, Pow256(n - 1) * k);
      BigEndianWraps(v / 256, n - 1, k);
    }
  }

  /** The 64-bit product of the wrapped byte count and 8 has the bytes of the length in bits. */
  lemma WrappedLength(n: nat)
    ensures BigEndian(n % WORD * 8 % WORD, 8) == BigEndian(n * 8, 8)
  {
    assert Pow256(8) == WORD by {
      assert Pow256(4) == 0x1_0000_0000 && Pow256(8) == 0x1_0000_0000 * Pow256(4);
    }
    var bits := n % WORD * 8;
    var k := bits / WORD + 8 * (n / WORD);
    assert n * 8 == bits % WORD + WORD * k;
    BigEndianWraps(bits % WORD, 8, k);
  }

  // ---------- The stream ----------

  const WORD: nat := 0x1_0000_0000_0000_0000

  /** Sha256: the state, the byte count modulo 2^64, and a block that is not yet full. */
  class Hasher<S(!new)> {
    const compress: (S, Bytes) -> S
    const start: S
    const block: array<Byte>
    var state: S
    var bytes: nat
    var used: nat
    ghost var message: Bytes

    /** The block holds the `used` last bytes of the message and the state covers the whole blocks before. */
    ghost predicate Held()
      reads this`state, this`used, this`message, block
    {
      && block.Length == 64 && used <= 64 && used <= |message| && (|message| - used) % 64 == 0
      && block[..used] == message[|message| - used..]
      && state == Fold(compress, start, message[..|message| - used])
    }

    ghost predicate Valid()
      reads this, block
    {
      Held() && used < 64 && bytes == |message| % WORD
    }

    /** sha_start. */
    constructor (compress: (S, Bytes) -> S, start: S)
      ensures Valid() && message == [] && fresh(block)
      ensures this.compress == compress && this.start == start
    {
      this.compress, this.start, state := compress, start, start;
      block := new Byte[64](_ => 0);
      bytes, used, message := 0, 0, [];
    }

    /** sha_update: the message grows by the data, whatever the sizes. */
    method Update(data: Bytes)
      requires Valid()
      modifies this`state, this`bytes, this`used, this`message, block
      ensures Valid() && message == old(message) + data
    {
      hide Hasher.Held;
      hide Fold;
      bytes := (bytes + |data|) % WORD;
      var done := 0;
      while done < |data|
        modifies this`state, this`used, this`message, block
        invariant done <= |data| && Held() && used < 64 && message == old(message) + data[..done]
        invariant bytes == (|old(message)| + |data|) % WORD
      {
        var next := Fill(data, done);
        assert data[..next] == data[..done] + data[done..next];
        if used == 64 {
          Flush();
        } else {
          BelowFull();
        }
        done := next;
      }
      assert data[..done] == data;
    }

    lemma BelowFull()
      requires Held() && used != 64
      ensures used < 64
    {
    }

    /** Copies what fits into the block. */
    method Fill(data: Bytes, done: nat) returns (next: nat)
      requires Held() && used < 64 && done < |data|
      modifies this`used, this`message, block
      ensures Held() && done < next <= |data| && message == old(message) + data[done..next]
    {
      hide Fold;
      var take := if 64 - used > |data| - done then |data| - done else 64 - used;
      next := done + take;
      CopyIn(data[done..next]);
      TailGrows(message, used, data[done..next]);
      message := message + data[done..next];
      used := used + take;
    }

    /** The copy into the block. */
    method CopyIn(data: Bytes)
      requires block.Length == 64 && used + |data| <= 64
      modifies block
      ensures block[..used + |data|] == old(block[..used]) + data
    {
      for i := 0 to |data|
        invariant block[..used + i] == old(block[..used]) + data[..i]
      {
        block[used + i] := data[i];
        assert block[..used + i + 1] == block[..used + i] + [data[i]];
      }
    }

    /** The last bytes of a message, and what is before them, when more is appended. */
    static lemma TailGrows(m: Bytes, n: nat, more: Bytes)
      requires n <= |m|
      ensures (m + more)[|m + more| - (n + |more|)..] == m[|m| - n..] + more
      ensures (m + more)[..|m + more| - (n + |more|)] == m[..|m| - n]
    {
    }

    /** Folds the full block into the state. */
    method Flush()
      requires Held() && used == 64
      modifies this`state, this`used
      ensures Held() && used == 0
    {
      ghost var whole := message[..|message|];
      assert whole[..|whole| - 64] == message[..|message| - 64] && block[..] == block[..64] == whole[|whole| - 64..];
      state := compress(state, block[..]);
      used := 0;
      assert message[..|message| - 0] == whole;
    }

    /** sha_finish without the hexadecimal digits: the state is the digest of everything absorbed. */
    method Finish()
      requires Valid()
      modifies this`state, this`bytes, this`used, this`message, block
      ensures used == 0 && state == Digest(compress, start, old(message))
    {
      hide Fold, Padded, BigEndian, Zeros, Shifted;
      hide Hasher.Held;
      ghost var before := message;
      WholeBlocks();
      var suffix := Suffix(used, bytes * 8 % WORD);
      SuffixPads(before, used, bytes);
      Update(suffix);
      assert |message| % 64 == 0;
      WholeBlocks();
    }

    /** Between calls `used` is the length modulo 64; at zero the state covers everything. */
    lemma WholeBlocks()
      requires Held() && used < 64
      ensures used == |message| % 64
      ensures used == 0 ==> state == Fold(compress, start, message)
    {
      assert message[..|message| - 0] == message;
    }
  }

  lemma SuffixPads(m: Bytes, used: nat, bytes: nat)
    requires used == |m| % 64 && bytes == |m| % WORD
    ensures m + ([0x80] + Zeros(PaddingLength(used) - 9) + BigEndian(bytes * 8 % WORD, 8)) == Padded(m)
  {
    hide BigEndian, Zeros;
    WrappedLength(|m|);
    PaddingOfRemainder(|m|);
  }

  lemma PaddingOfRemainder(n: nat)
    ensures PaddingLength(n % 64) == PaddingLength(n)
  {
  }

  /** The suffix that sha_finish builds. */
  method Suffix(used: nat, bits: nat) returns (r: Bytes)
    requires used < 64
    ensures r == [0x80] + Zeros(PaddingLength(used) - 9) + BigEndian(bits, 8)
  {
    var suffix := new Byte[72](_ => 0);
    suffix[0] := 0x80;
    var padding := if used < 56 then 56 - used else 120 - used;
    for i := 0 to 8
      invariant suffix[0] == 0x80 && forall k :: 1 <= k < padding ==> suffix[k] == 0
      invariant forall k :: padding <= k < padding + i ==> suffix[k] == BigEndian(bits, 8)[k - padding]
    {
      BigEndianAt(bits, 8, i);
      suffix[padding + i] := Shifted(bits, 7 - i) % 256;
    }
    r := suffix[..padding + 8];
  }

  // ---------- The digests of a packed file ----------

  /** positional_read: fails when the file ends first. */
  predicate Readable(file: Bytes, start: nat, bytes: nat) {
    start + bytes <= |file|
  }

  /** hash_range: reads in pieces of 64 KiB reach the hash as one message. */
  method HashRange<S(!new)>(hash: Hasher<S>, file: Bytes, start: nat, bytes: nat) returns (ok: bool)
    requires hash.Valid()
    modifies hash`state, hash`bytes, hash`used, hash`message, hash.block
    ensures hash.Valid()
    ensures ok <==> bytes == 0 || Readable(file, start, bytes)
    ensures ok && bytes > 0 ==> hash.message == old(hash.message) + file[start..start + bytes]
    ensures ok && bytes == 0 ==> hash.message == old(hash.message)
  {
    hide Hasher.Held;
    hide Fold;
    var done := 0;
    while done < bytes
      invariant done <= bytes && hash.Valid()
      invariant done > 0 ==> start + done <= |file|
      invariant hash.message == old(hash.message) + (if done > 0 then file[start..start + done] else [])
    {
      var take := if bytes - done > 65536 then 65536 else bytes - done;
      if !Readable(file, start + done, take) {
        return false;
      }
      hash.Update(file[start + done..start + done + take]);
      assert file[start..start + done + take]
          == (if done > 0 then file[start..start + done] else []) + file[start + done..start + done + take];
      done := done + take;
    }
    ok := true;
  }

  const HEX_DIGITS: nat := 64

  /** The header with the 64 characters of its own digest replaced by the character '0'. */
  function Blanked(header: Bytes, offset: nat): (r: Bytes)
    requires offset + HEX_DIGITS <= |header|
    ensures |r| == |header|
  {
    header[..offset] + seq(HEX_DIGITS, _ => 0x30) + header[offset + HEX_DIGITS..]
  }

  /** Writing a digest into the blank field and blanking it again gives the header the digest was taken of. */
  lemma BlankingUndoesSigning(header: Bytes, offset: nat, digest: Bytes)
    requires offset + HEX_DIGITS <= |header| && |digest| == HEX_DIGITS && Blanked(header, offset) == header
    ensures Blanked(header[..offset] + digest + header[offset + HEX_DIGITS..], offset) == header
  {
    var signed := header[..offset] + digest + header[offset + HEX_DIGITS..];
    assert signed[..offset] == header[..offset];
    assert signed[offset + HEX_DIGITS..] == header[offset + HEX_DIGITS..];
  }

  /** The field is filled with 64 times the character '0' and nothing else changes. */
  lemma BlankedField(header: Bytes, offset: nat, i: nat)
    requires offset + 64 <= |header| && i < |header|
    ensures Blanked(header, offset)[i] as int == if offset <= i < offset + 64 then '0' as int else header[i] as int
  {
  }

  /** header_identity: three updates hash the blanked header. */
  method HeaderDigest<S(!new)>(compress: (S, Bytes) -> S, start: S, header: Bytes, offset: nat) returns (digest: S)
    requires offset + HEX_DIGITS <= |header|
    ensures digest == Digest(compress, start, Blanked(header, offset))
  {
    var hash := new Hasher(compress, start);
    hash.Update(header[..offset]);
    hash.Update(seq(HEX_DIGITS, _ => 0x30));
    hash.Update(header[offset + HEX_DIGITS..]);
    assert hash.message == Blanked(header, offset);
    hash.Finish();
    digest := hash.state;
  }

  // ---------- Chunk independence ----------

  function Joined(chunks: seq<Bytes>): Bytes {
    if chunks == [] then [] else Joined(chunks[..|chunks| - 1]) + chunks[|chunks| - 1]
  }

  /** Any cut of a message into updates gives the digest of the message. */
  method HashChunks<S(!new)>(compress: (S, Bytes) -> S, start: S, chunks: seq<Bytes>) returns (digest: S)
    ensures digest == Digest(compress, start, Joined(chunks))
  {
    hide Fold, Padded, Digest, BigEndian;
    hide Hasher.Valid;
    hide Hasher.Held;
    var hash := new Hasher(compress, start);
    for i := 0 to |chunks|
      invariant hash.Valid() && hash.message == Joined(chunks[..i])
      invariant fresh(hash) && fresh(hash.block) && hash.compress == compress && hash.start == start
    {
      assert chunks[..i + 1][..i] == chunks[..i];
      hash.Update(chunks[i]);
    }
    assert chunks[..|chunks|] == chunks;
    hash.Finish();
    digest := hash.state;
  }
}
