/** The concatenation key derivation of section 5.8.1 of NIST SP 800-56A. */
module ConcatKdf {
  import opened Prelude
  import opened ByteNumbers
  import opened ByteOrder

  const U32: nat := 0x1_0000_0000

  /** A hash function with outputs of a fixed size. */
  datatype Digest = Digest(size: nat, hash: Bytes -> Bytes) {
    ghost predicate Valid() {
      size > 0 && forall m :: |hash(m)| == size
    }
  }

  datatype Params = Params(alg: Bytes, apu: Bytes, apv: Bytes, pubInfo: Bytes, prvInfo: Bytes)

  // ----- what is hashed -----

  /** A length cut to 32 bits, and the bytes. */
  function Framed(s: Bytes): (r: Bytes)
    ensures |r| == 4 + |s|
  {
    BigEndian(|s| % U32, 4) + s
  }

  function Info(p: Params): Bytes {
    Framed(p.alg) + Framed(p.apu) + Framed(p.apv) + p.pubInfo + p.prvInfo
  }

  /** Distinct numbers below 2^32 have distinct four-byte forms. */
  lemma BigEndianInjective(m: nat, n: nat)
    requires m < U32 && n < U32 && BigEndian(m, 4) == BigEndian(n, 4)
    ensures m == n
  {
    DigitAt(m, n, 0);
    DigitAt(m, n, 1);
    DigitAt(m, n, 2);
    DigitAt(m, n, 3);
    assert Pow256(3 - 3) == 1 && Pow256(3 - 2) == 0x100 && Pow256(3 - 1) == 0x1_0000 && Pow256(3 - 0) == 0x100_0000;
    DigitsDetermine(m, n);
  }

  lemma DigitAt(m: nat, n: nat, i: nat)
    requires i < 4 && BigEndian(m, 4) == BigEndian(n, 4)
    ensures m / Pow256(3 - i) % 256 == n / Pow256(3 - i) % 256
  {
    assert BigEndian(m, 4)[i] == BigEndian(n, 4)[i];
    ByteInjective(m / Pow256(3 - i) % 256, n / Pow256(3 - i) % 256);
  }

  lemma ByteInjective(x: nat, y: nat)
    requires x < 256 && y < 256 && x as bv8 == y as bv8
    ensures x == y
  {
    ByteBack(x);
    ByteBack(y);
  }

  lemma DigitsDetermine(m: nat, n: nat)
    requires m < U32 && n < U32
    requires m % 256 == n % 256 && m / 0x100 % 256 == n / 0x100 % 256
    requires m / 0x1_0000 % 256 == n / 0x1_0000 % 256 && m / 0x100_0000 % 256 == n / 0x100_0000 % 256
    ensures m == n
  {
    DivideTwice(m, 0x1_0000);
    DivideTwice(n, 0x1_0000);
    DigitsAgree(m / 0x1_0000, n / 0x1_0000);
    DivideTwice(m, 0x100);
    DivideTwice(n, 0x100);
    DigitsAgree(m / 0x100, n / 0x100);
    DigitsAgree(m, n);
  }

  lemma DivideTwice(m: nat, k: nat)
    requires k == 0x100 || k == 0x1_0000
    ensures m / k / 256 == m / (256 * k)
  {
  }

  lemma DigitsAgree(m: nat, n: nat)
    requires m % 256 == n % 256 && m / 256 == n / 256
    ensures m == n
  {
  }

  lemma AppendSplits<T>(a: seq<T>, b: seq<T>, a': seq<T>, b': seq<T>)
    requires |a| == |a'| && a + b == a' + b'
    ensures a == a' && b == b'
  {
    assert a == (a + b)[..|a|] && a' == (a' + b')[..|a|];
    assert b == (a + b)[|a|..] && b' == (a' + b')[|a|..];
  }

  lemma FramedRegroups(s: Bytes, more: Bytes)
    requires |s| < U32
    ensures Framed(s) + more == BigEndian(|s|, 4) + (s + more)
  {
  }

  /** A framed field followed by anything determines the field and what follows. */
  lemma FramedSplits(s: Bytes, more: Bytes, s': Bytes, more': Bytes)
    requires |s| < U32 && |s'| < U32 && Framed(s) + more == Framed(s') + more'
    ensures s == s' && more == more'
  {
    FramedRegroups(s, more);
    FramedRegroups(s', more');
    AppendSplits(BigEndian(|s|, 4), s + more, BigEndian(|s'|, 4), s' + more');
    BigEndianInjective(|s|, |s'|);
    AppendSplits(s, more, s', more');
  }

  /** No two parties' parameters are hashed alike: the fields cannot run into one another. */
  lemma InfoDeterminesParams(p: Params, q: Params)
    requires Info(p) == Info(q) && |p.pubInfo| == |q.pubInfo|
    requires |p.alg| < U32 && |p.apu| < U32 && |p.apv| < U32
    requires |q.alg| < U32 && |q.apu| < U32 && |q.apv| < U32
    ensures p == q
  {
    InfoRegroups(p);
    InfoRegroups(q);
    var p2, q2 := p.pubInfo + p.prvInfo, q.pubInfo + q.prvInfo;
    FramedSplits(p.alg, Framed(p.apu) + (Framed(p.apv) + p2), q.alg, Framed(q.apu) + (Framed(q.apv) + q2));
    FramedSplits(p.apu, Framed(p.apv) + p2, q.apu, Framed(q.apv) + q2);
    FramedSplits(p.apv, p2, q.apv, q2);
    AppendSplits(p.pubInfo, p.prvInfo, q.pubInfo, q.prvInfo);
  }

  lemma InfoRegroups(p: Params)
    ensures Info(p) == Framed(p.alg) + (Framed(p.apu) + (Framed(p.apv) + (p.pubInfo + p.prvInfo)))
  {
  }

  lemma EightParts(h: Bytes, a: Bytes, b: Bytes, c: Bytes, d: Bytes, e: Bytes, f: Bytes, g: Bytes, i: Bytes)
    ensures h + a + b + c + d + e + f + g + i == h + ((a + b) + (c + d) + (e + f) + g + i)
  {
  }

  // ----- the derived key -----

  /** The k-th block, from 1: the counter is hashed first, then the shared secret, then the parameters. */
  function Block(d: Digest, z: Bytes, p: Params, k: nat): Bytes {
    d.hash(BigEndian(k, 4) + z + Info(p))
  }

  /** The first n blocks, one after another. */
  function Blocks(d: Digest, z: Bytes, p: Params, n: nat): Bytes {
    if n == 0 then [] else Blocks(d, z, p, n - 1) + Block(d, z, p, n)
  }

  /** The bytes of a derived key, each by its place. */
  ghost function Derived(d: Digest, z: Bytes, p: Params, len: nat): (r: Bytes)
    requires d.Valid()
    ensures |r| == len
  {
    seq(len, i requires 0 <= i < len => Block(d, z, p, i / d.size + 1)[i % d.size])
  }

  /** One more pass extends the key by the start of the next block. */
  lemma DerivedExtends(d: Digest, z: Bytes, p: Params, k: nat, n: nat)
    requires d.Valid() && n <= d.size
    ensures Derived(d, z, p, k * d.size + n) == Derived(d, z, p, k * d.size) + Block(d, z, p, k + 1)[..n]
  {
    var whole, done, block := Derived(d, z, p, k * d.size + n), Derived(d, z, p, k * d.size), Block(d, z, p, k + 1);
    forall i | 0 <= i < |whole| ensures whole[i] == (done + block[..n])[i] {
      if i >= |done| {
        Place(k, d.size, i - |done|);
      }
    }
  }

  /** A derived key is the front of the concatenated blocks, as the standard defines it. */
  lemma {:induction false} DerivedIsConcatenation(d: Digest, z: Bytes, p: Params, len: nat, n: nat)
    requires d.Valid() && len <= n * d.size
    ensures |Blocks(d, z, p, n)| == n * d.size
    ensures Derived(d, z, p, len) == Blocks(d, z, p, n)[..len]
  {
    WholeBlocks(d, z, p, n);
    assert Derived(d, z, p, len) == Derived(d, z, p, n * d.size)[..len];
  }

  lemma {:induction false} WholeBlocks(d: Digest, z: Bytes, p: Params, n: nat)
    requires d.Valid()
    ensures Derived(d, z, p, n * d.size) == Blocks(d, z, p, n)
  {
    if n > 0 {
      WholeBlocks(d, z, p, n - 1);
      DerivedExtends(d, z, p, n - 1, d.size);
      assert n * d.size == (n - 1) * d.size + d.size;
      var block := Block(d, z, p, n);
      assert block[..d.size] == block;
    }
  }

  // ----- the hashing state -----

  /** What the hasher has absorbed since its last reset, and the 32-bit counter of passes. */
  class ConcatKdfHash {
    const digest: Digest
    var hasher: Bytes
    var counter: nat
    /** An increment of the counter did not fit in 32 bits. */
    var overflowed: bool

    ghost predicate Valid()
      reads this
    {
      digest.Valid() && counter < U32
    }

    constructor (d: Digest)
      requires d.Valid()
      ensures Valid() && digest == d && hasher == [] && counter == 1 && !overflowed
    {
      digest := d;
      hasher := [];
      counter := 1;
      overflowed := false;
    }

    method StartPass()
      requires Valid()
      modifies this
      ensures Valid()
      ensures hasher == old(hasher) + BigEndian(old(counter), 4)
      ensures counter == (old(counter) + 1) % U32
      ensures overflowed <==> old(overflowed) || old(counter) == U32 - 1
    {
      hasher := hasher + BigEndian(counter, 4);
      overflowed := overflowed || counter + 1 == U32;
      counter := (counter + 1) % U32;
    }

    method HashMessage(data: Bytes)
      modifies this`hasher
      ensures hasher == old(hasher) + data
    {
      hasher := hasher + data;
    }

    method HashParams(p: Params)
      modifies this`hasher
      ensures hasher == old(hasher) + Info(p)
      ensures hasher == old(hasher) + BigEndian(|p.alg| % 0x1_0000_0000, 4) + p.alg
                        + BigEndian(|p.apu| % 0x1_0000_0000, 4) + p.apu
                        + BigEndian(|p.apv| % 0x1_0000_0000, 4) + p.apv + p.pubInfo + p.prvInfo
    {
      hasher := hasher + BigEndian(|p.alg| % U32, 4);
      hasher := hasher + p.alg;
      hasher := hasher + BigEndian(|p.apu| % U32, 4);
      hasher := hasher + p.apu;
      hasher := hasher + BigEndian(|p.apv| % U32, 4);
      hasher := hasher + p.apv;
      hasher := hasher + p.pubInfo;
      hasher := hasher + p.prvInfo;
      EightParts(old(hasher), BigEndian(|p.alg| % U32, 4), p.alg, BigEndian(|p.apu| % U32, 4), p.apu,
                 BigEndian(|p.apv| % U32, 4), p.apv, p.pubInfo, p.prvInfo);
    }

    method FinishPass() returns (hashed: Bytes)
      requires Valid()
      modifies this`hasher
      ensures hashed == digest.hash(old(hasher)) && |hashed| == digest.size && hasher == []
    {
      hashed := digest.hash(hasher);
      hasher := [];
    }

    /** One whole pass hashes the counter's value, unwrapped, into that block. */
    method Pass(message: Bytes, p: Params) returns (hashed: Bytes)
      requires Valid() && hasher == []
      modifies this
      ensures Valid() && hasher == [] && |hashed| == digest.size
      ensures hashed == Block(digest, message, p, old(counter))
      ensures hashed == digest.hash(BigEndian(old(counter), 4) + message + Info(p))
      ensures counter == (old(counter) + 1) % U32
      ensures overflowed <==> old(overflowed) || old(counter) == U32 - 1
    {
      StartPass();
      HashMessage(message);
      HashParams(p);
      assert hasher == BigEndian(old(counter), 4) + message + Info(p);
      hashed := FinishPass();
    }
  }

  /** The next pass's number still fits in 32 bits; it is the last such only near the limit. */
  lemma PassNumberFits(size: nat, k: nat, len: nat)
    requires k * size < len <= size * (U32 - 1) - 1
    ensures k + 1 < U32
    ensures k + 1 == U32 - 1 ==> len > size * (U32 - 2)
    ensures len > size * (U32 - 2) && len <= (k + 1) * size ==> k + 1 == U32 - 1
  {
    if k >= U32 - 1 {
      Scale(U32 - 1, k, size);
      assert false;
    }
    if len > size * (U32 - 2) && k + 1 < U32 - 1 {
      Scale(k + 1, U32 - 2, size);
    }
  }

  /**
   * Fills the output with the derived key, or refuses its length. The counter overflows only after
   * its last use, and only for the longest outputs.
   */
  method DeriveKey(d: Digest, message: Bytes, p: Params, output: array<bv8>) returns (ok: bool, overflowed: bool)
    requires d.Valid()
    modifies output
    ensures ok <==> output.Length <= d.size * 0xFFFF_FFFF - 1
    ensures ok ==> output[..] == Derived(d, message, p, output.Length)
    ensures !ok ==> output[..] == old(output[..])
    ensures overflowed <==> ok && output.Length > d.size * 0xFFFF_FFFE
  {
    if output.Length > d.size * (U32 - 1) - 1 {
      return false, false;
    }
    var hasher := new ConcatKdfHash(d);
    var len := output.Length;
    var remain := len;
    ghost var k: nat := 0;
    while remain > 0
      invariant 0 <= remain <= len
      invariant remain > 0 ==> len - remain == k * d.size && hasher.counter == k + 1 && !hasher.overflowed
      invariant hasher.Valid() && hasher.digest == d && hasher.hasher == []
      invariant fresh(hasher)
      invariant output[..len - remain] == Derived(d, message, p, len - remain)
      invariant remain == 0 ==> (hasher.overflowed <==> len > d.size * (U32 - 2))
    {
      PassNumberFits(d.size, k, len);
      var size := FillBlock(hasher, message, p, output, len - remain, k);
      k := k + 1;
      remain := remain - size;
    }
    assert output[..] == output[..len];
    return true, hasher.overflowed;
  }

  /** One turn of the loop: as much of the next block as fits. */
  method FillBlock(hasher: ConcatKdfHash, message: Bytes, p: Params, output: array<bv8>, at: nat, ghost k: nat)
      returns (size: nat)
    requires hasher.Valid() && hasher.hasher == [] && hasher.counter == k + 1
    requires at == k * hasher.digest.size < output.Length
    requires output[..at] == Derived(hasher.digest, message, p, at)
    modifies hasher, output
    ensures hasher.Valid() && hasher.hasher == [] && hasher.counter == (k + 2) % U32
    ensures hasher.overflowed <==> old(hasher.overflowed) || k + 1 == U32 - 1
    ensures size == if hasher.digest.size < output.Length - at then hasher.digest.size else output.Length - at
    ensures output[..at + size] == Derived(hasher.digest, message, p, at + size)
  {
    var hashed := hasher.Pass(message, p);
    var remain := output.Length - at;
    size := if |hashed| < remain then |hashed| else remain;
    CopyInto(output, at, hashed[..size]);
    DerivedExtends(hasher.digest, message, p, k, size);
  }

  method CopyInto(output: array<bv8>, at: nat, data: Bytes)
    requires at + |data| <= output.Length
    modifies output
    ensures output[..at + |data|] == old(output[..at]) + data
    ensures output[at + |data|..] == old(output[at + |data|..])
  {
    forall i | 0 <= i < |data| {
      output[at + i] := data[i];
    }
  }
}
