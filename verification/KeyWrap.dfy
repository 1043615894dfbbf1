/** AES key wrap (RFC 3394) over an abstract 16-byte block permutation. */
module KeyWrap {
  import opened Prelude
  import opened Buffers
  import opened KeyWrapPasses

  // ----- bytes, blocks and the cipher -----

  function Xor(a: Bytes, b: Bytes): (r: Bytes)
    requires |a| == |b|
    ensures |r| == |a| && forall i | 0 <= i < |a| :: r[i] == a[i] ^ b[i]
  {
    seq(|a|, i requires 0 <= i < |a| => a[i] ^ b[i])
  }

  lemma XorTwice(a: Bytes, b: Bytes)
    requires |a| == |b|
    ensures Xor(Xor(a, b), b) == a
  {
  }

  /** A keyed block cipher: encryption and decryption of 16-byte blocks. */
  datatype Cipher = Cipher(enc: Bytes -> Bytes, dec: Bytes -> Bytes) {
    function Enc(b: Bytes): (r: Bytes)
      ensures |r| == 16
    {
      Fit(enc(b))
    }

    function Dec(b: Bytes): (r: Bytes)
      ensures |r| == 16
    {
      Fit(dec(b))
    }

    /** Each of the two undoes the other on blocks. */
    ghost predicate Permutes() {
      && (forall b {:trigger Enc(b)} :: |b| == 16 ==> Dec(Enc(b)) == b)
      && (forall b {:trigger Dec(b)} :: |b| == 16 ==> Enc(Dec(b)) == b)
    }
  }

  /** Block operations yield blocks. */
  function Fit(b: Bytes): (r: Bytes)
    ensures |r| == 16
  {
    if |b| == 16 then b else seq(16, _ => 0)
  }

  /** A register: eight bytes. */
  type Half = b: Bytes | |b| == 8 witness [0, 0, 0, 0, 0, 0, 0, 0]

  /** The default initial value of section 2.2.3.1 of RFC 3394. */
  const DEFAULT_IV: Half := [166, 166, 166, 166, 166, 166, 166, 166]

  // ----- the rounds -----

  /** A step of wrapping encrypts both registers and mixes the counter into the first. */
  function Forward(c: Cipher): Round<Half> {
    (a: Half, x: Half, t: nat) =>
      (Xor(c.Enc(a + x)[..8], BigEndian(t, 8)), c.Enc(a + x)[8..])
  }

  /** A step of unwrapping takes the counter out of the first and decrypts both. */
  function Backward(c: Cipher): Round<Half> {
    (a: Half, x: Half, t: nat) =>
      (c.Dec(Xor(a, BigEndian(t, 8)) + x)[..8], c.Dec(Xor(a, BigEndian(t, 8)) + x)[8..])
  }

  lemma RoundsUndo(c: Cipher, a: Half, x: Half, t: nat)
    requires c.Permutes()
    ensures var p := Forward(c)(a, x, t); Backward(c)(p.0, p.1, t) == (a, x)
    ensures var p := Backward(c)(a, x, t); Forward(c)(p.0, p.1, t) == (a, x)
  {
    var k := BigEndian(t, 8);
    var b := c.Enc(a + x);
    XorTwice(b[..8], k);
    assert b[..8] + b[8..] == b;
    assert (a + x)[..8] == a && (a + x)[8..] == x;
    var y := Xor(a, k);
    var d := c.Dec(y + x);
    XorTwice(a, k);
    assert d[..8] + d[8..] == d;
    assert (y + x)[..8] == y && (y + x)[8..] == x;
  }

  /** With a permuting cipher the two rounds undo one another, in either order. */
  lemma RoundsInverse(c: Cipher)
    requires c.Permutes()
    ensures Undoes<Half>(Backward(c), Forward(c)) && Undoes<Half>(Forward(c), Backward(c))
  {
    forall a: Half, x: Half, t: nat
      ensures Backward(c)(Forward(c)(a, x, t).0, Forward(c)(a, x, t).1, t) == (a, x)
    {
      RoundsUndo(c, a, x, t);
    }
    forall a: Half, x: Half, t: nat
      ensures Forward(c)(Backward(c)(a, x, t).0, Backward(c)(a, x, t).1, t) == (a, x)
    {
      RoundsUndo(c, a, x, t);
    }
  }

  // ----- registers laid out in a buffer -----

  function Flatten(r: seq<Half>): Bytes {
    if r == [] then [] else r[0] + Flatten(r[1..])
  }

  function Chunks(data: Bytes): (r: seq<Half>)
    requires |data| % 8 == 0
    ensures |r| == |data| / 8
  {
    if data == [] then [] else [data[..8]] + Chunks(data[8..])
  }

  lemma {:induction false} FlattenChunks(data: Bytes)
    requires |data| % 8 == 0
    ensures Flatten(Chunks(data)) == data
  {
    if data != [] {
      FlattenChunks(data[8..]);
      assert Chunks(data)[1..] == Chunks(data[8..]);
    }
  }

  lemma {:induction false} FlattenLength(r: seq<Half>)
    ensures |Flatten(r)| == 8 * |r|
  {
    if r != [] {
      FlattenLength(r[1..]);
    }
  }

  lemma {:induction false} ChunksFlatten(r: seq<Half>)
    ensures |Flatten(r)| == 8 * |r| && Chunks(Flatten(r)) == r
  {
    FlattenLength(r);
    if r != [] {
      FlattenLength(r[1..]);
      ChunksFlatten(r[1..]);
      var data := Flatten(r);
      assert data[..8] == r[0] && data[8..] == Flatten(r[1..]);
      assert [r[0]] + r[1..] == r;
    }
  }

  /** Reading and overwriting one 8-byte chunk of the buffer is reading and overwriting one register. */
  lemma {:induction false} ChunkOf(r: seq<Half>, i: nat, x: Half)
    requires i < |r|
    ensures |Flatten(r)| == 8 * |r|
    ensures Flatten(r)[8 * i..8 * i + 8] == r[i]
    ensures Flatten(r[i := x]) == Flatten(r)[..8 * i] + x + Flatten(r)[8 * i + 8..]
  {
    FlattenLength(r);
    FlattenLength(r[1..]);
    var data, tail := Flatten(r), Flatten(r[1..]);
    assert data == r[0] + tail;
    if i == 0 {
      assert r[0 := x][1..] == r[1..];
    } else {
      ChunkOf(r[1..], i - 1, x);
      assert r[i := x][1..] == r[1..][i - 1 := x];
      BehindHead(r[0], tail, 8 * (i - 1), x);
      assert 8 * i == 8 + 8 * (i - 1);
    }
  }

  lemma BehindHead<T>(head: seq<T>, flat: seq<T>, at: nat, x: seq<T>)
    requires at + 8 <= |flat|
    ensures var data, lo := head + flat, |head| + at;
      && data[lo..lo + 8] == flat[at..at + 8]
      && data[..lo] + x + data[lo + 8..] == head + (flat[..at] + x + flat[at + 8..])
  {
    var data, lo := head + flat, |head| + at;
    assert data[lo..lo + 8] == flat[at..at + 8];
    assert data[..lo] == head + flat[..at];
    assert data[lo + 8..] == flat[at + 8..];
  }

  // ----- wrapping and unwrapping byte strings -----

  /** Six passes over the registers, from the default initial value. */
  ghost function WrapWith(f: Round<Half>, data: Bytes): Bytes
    requires |data| % 8 == 0
  {
    var s := Passes<Half>(f, |data| / 8, 6, State(DEFAULT_IV, Chunks(data)));
    s.a + Flatten(s.r)
  }

  /** The registers left when wrapped bytes are run backwards. */
  ghost function UnwindWith(g: Round<Half>, data: Bytes): (s: State<Half>)
    requires |data| % 8 == 0 && |data| >= 8
    ensures |s.r| == |data| / 8 - 1
  {
    UnPasses<Half>(g, |data| / 8 - 1, 6, State(data[..8], Chunks(data[8..])))
  }

  ghost function UnwrapWith(g: Round<Half>, data: Bytes): Option<Bytes>
    requires |data| % 8 == 0 && |data| >= 8
  {
    var s := UnwindWith(g, data);
    if s.a == DEFAULT_IV then Some(Flatten(s.r)) else None
  }

  lemma UnwrapWrap(f: Round<Half>, g: Round<Half>, data: Bytes)
    requires Undoes<Half>(g, f) && |data| % 8 == 0
    ensures |WrapWith(f, data)| == |data| + 8
    ensures UnwrapWith(g, WrapWith(f, data)) == Some(data)
  {
    var n, start: State<Half> := |data| / 8, State(DEFAULT_IV, Chunks(data));
    var s: State<Half> := Passes<Half>(f, n, 6, start);
    ChunksFlatten(s.r);
    HeadAndTail(s.a, Flatten(s.r));
    UnPassesPasses<Half>(f, g, n, 6, start);
    FlattenChunks(data);
  }

  lemma HeadAndTail(head: Half, tail: Bytes)
    ensures (head + tail)[..8] == head && (head + tail)[8..] == tail
  {
  }

  lemma WrapUnwrap(f: Round<Half>, g: Round<Half>, data: Bytes)
    requires Undoes<Half>(f, g) && |data| % 8 == 0 && |data| >= 8 && UnwrapWith(g, data).Some?
    ensures var x := UnwrapWith(g, data).value; |x| == |data| - 8 && WrapWith(f, x) == data
  {
    var n, start: State<Half> := |data| / 8 - 1, State(data[..8], Chunks(data[8..]));
    var s: State<Half> := UnPasses<Half>(g, n, 6, start);
    ChunksFlatten(s.r);
    PassesUnPasses<Half>(f, g, n, 6, start);
    FlattenChunks(data[8..]);
    assert State(DEFAULT_IV, s.r) == s;
    assert data[..8] + data[8..] == data;
  }

  ghost function Wrapped(c: Cipher, data: Bytes): Bytes
    requires |data| % 8 == 0
  {
    WrapWith(Forward(c), data)
  }

  ghost function Unwrapped(c: Cipher, data: Bytes): Option<Bytes>
    requires |data| % 8 == 0 && |data| >= 8
  {
    UnwrapWith(Backward(c), data)
  }

  /** Unwrapping a wrapped text returns it, for every whole number of blocks, none included. */
  lemma UnwrapWrapped(c: Cipher, data: Bytes)
    requires c.Permutes() && |data| % 8 == 0
    ensures |Wrapped(c, data)| == |data| + 8
    ensures Unwrapped(c, Wrapped(c, data)) == Some(data)
  {
    RoundsInverse(c);
    UnwrapWrap(Forward(c), Backward(c), data);
  }

  /** Whatever unwrapping accepts is the wrapping of what it returns. */
  lemma WrapUnwrapped(c: Cipher, data: Bytes)
    requires c.Permutes() && |data| % 8 == 0 && |data| >= 8 && Unwrapped(c, data).Some?
    ensures var x := Unwrapped(c, data).value; |x| == |data| - 8 && Wrapped(c, x) == data
  {
    RoundsInverse(c);
    WrapUnwrap(Forward(c), Backward(c), data);
  }

  // ----- the in-place loops -----

  datatype ErrorKind = Unsupported | Encryption

  /** The buffer is eight bytes and then the registers; the integrity register is held apart. */
  ghost predicate Behind(data: Bytes, iv: Half, s: State<Half>) {
    |data| == 8 + 8 * |s.r| && data[8..] == Flatten(s.r) && iv == s.a
  }

  /** The buffer is the registers, one after another. */
  ghost predicate Bare(data: Bytes, iv: Half, s: State<Half>) {
    |data| == 8 * |s.r| && data == Flatten(s.r) && iv == s.a
  }

  method EncryptInPlace(c: Cipher, buffer: Buffer, nonce: Bytes, aad: Bytes) returns (r: Result<nat, ErrorKind>)
    modifies buffer
    ensures r.Ok? <==> nonce == [] && aad == [] && |old(buffer.data)| % 8 == 0
    ensures r.Ok? ==> buffer.data == Wrapped(c, old(buffer.data)) && r.value == |old(buffer.data)| + 8
    ensures r.Err? ==> r.error == Unsupported && buffer.data == old(buffer.data)
  {
    if nonce != [] || aad != [] || |buffer.data| % 8 != 0 {
      return Err(Unsupported);
    }
    var bufLen := |buffer.data|;
    var blocks := bufLen / 8;
    ghost var start: State<Half> := State(DEFAULT_IV, Chunks(buffer.data));
    FlattenChunks(buffer.data);
    buffer.data := seq(8, _ => 0) + buffer.data;
    bufLen := bufLen + 8;
    var iv: Half := DEFAULT_IV;
    ghost var s: State<Half> := start;
    for j := 0 to 6
      invariant |s.r| == blocks && s == Passes<Half>(Forward(c), blocks, j, start)
      invariant Behind(buffer.data, iv, s)
    {
      ProductNat(blocks, j);
      iv := EncryptPass(c, buffer, blocks, blocks * j, iv, s);
      s := Pass<Half>(Forward(c), blocks * j, blocks, s);
    }
    buffer.data := iv + buffer.data[8..];
    return Ok(bufLen);
  }

  /** The inner loop: one pass over the chunks after the first eight bytes. */
  method EncryptPass(c: Cipher, buffer: Buffer, blocks: nat, base: nat, iv0: Half, ghost start: State<Half>)
      returns (iv: Half)
    requires |start.r| == blocks && Behind(buffer.data, iv0, start)
    modifies buffer
    ensures Behind(buffer.data, iv, Pass<Half>(Forward(c), base, blocks, start))
  {
    iv := iv0;
    ghost var s: State<Half> := start;
    for i := 0 to blocks
      invariant |s.r| == blocks && s == Pass<Half>(Forward(c), base, i, start)
      invariant Behind(buffer.data, iv, s)
    {
      iv, s := EncryptTurn(c, buffer, base, i, iv, start, s);
    }
  }

  /** One turn of the inner loop, which does one more step of the pass. */
  method EncryptTurn(c: Cipher, buffer: Buffer, base: nat, i: nat, iv: Half, ghost start: State<Half>,
                     ghost s: State<Half>)
      returns (iv': Half, ghost s': State<Half>)
    requires i < |start.r| && s == Pass<Half>(Forward(c), base, i, start) && Behind(buffer.data, iv, s)
    modifies buffer
    ensures |s'.r| == |s.r| && Behind(buffer.data, iv', s')
    ensures s' == Pass<Half>(Forward(c), base, i + 1, start)
  {
    PassNext<Half>(Forward(c), base, i + 1, base + i + 1, start);
    iv', s' := EncryptChunk(c, buffer, i, base + i + 1, iv, s);
  }

  /** A step on the i-th chunk. */
  method EncryptChunk(c: Cipher, buffer: Buffer, i: nat, t: nat, iv: Half, ghost s: State<Half>)
      returns (iv': Half, ghost s': State<Half>)
    requires i < |s.r| && Behind(buffer.data, iv, s)
    modifies buffer
    ensures s' == Step<Half>(Forward(c), t, i, s) && |s'.r| == |s.r| && Behind(buffer.data, iv', s')
  {
    var lo := 8 + 8 * i;
    s' := Step<Half>(Forward(c), t, i, s);
    ChunkOf(s.r, i, s'.r[i]);
    ghost var head, flat := buffer.data[..8], buffer.data[8..];
    assert buffer.data == head + flat;
    BehindHead(head, flat, 8 * i, s'.r[i]);
    var block := c.Enc(iv + buffer.data[lo..lo + 8]);
    iv' := Xor(block[..8], BigEndian(t, 8));
    buffer.data := buffer.data[..lo] + block[8..] + buffer.data[lo + 8..];
  }

  lemma ProductNat(a: nat, b: nat)
    ensures a * b >= 0
  {
  }

  method DecryptInPlace(c: Cipher, buffer: Buffer, nonce: Bytes, aad: Bytes) returns (r: Result<(), ErrorKind>)
    modifies buffer
    ensures nonce != [] || aad != [] ==> r == Err(Unsupported) && buffer.data == old(buffer.data)
    ensures nonce == [] && aad == [] && (|old(buffer.data)| % 8 != 0 || |old(buffer.data)| < 8) ==>
      r == Err(Encryption) && buffer.data == old(buffer.data)
    ensures nonce == [] && aad == [] && |old(buffer.data)| % 8 == 0 && |old(buffer.data)| >= 8 ==>
      && buffer.data == Flatten(UnwindWith(Backward(c), old(buffer.data)).r)
      && r == if Unwrapped(c, old(buffer.data)).Some? then Ok(()) else Err(Encryption)
  {
    if nonce != [] || aad != [] {
      return Err(Unsupported);
    }
    if |buffer.data| % 8 != 0 {
      return Err(Encryption);
    }
    var blocks := |buffer.data| / 8;
    if blocks < 1 {
      return Err(Encryption);
    }
    blocks := blocks - 1;
    var iv: Half := buffer.data[..8];
    buffer.data := buffer.data[8..];
    FlattenChunks(buffer.data);
    ghost var start: State<Half> := State(iv, Chunks(buffer.data));
    ghost var s: State<Half>, goal: State<Half> := start, UnPasses<Half>(Backward(c), blocks, 6, start);
    for j := 6 downto 0
      invariant |s.r| == blocks && UnPasses<Half>(Backward(c), blocks, j, s) == goal
      invariant Bare(buffer.data, iv, s)
    {
      ProductNat(blocks, j);
      UnPassesNext<Half>(Backward(c), blocks, j, blocks * j, s);
      iv := DecryptPass(c, buffer, blocks, blocks * j, iv, s);
      s := UnPass<Half>(Backward(c), blocks * j, blocks, s);
    }
    return if iv == DEFAULT_IV then Ok(()) else Err(Encryption);
  }

  /** The inner loop backwards: one pass over the chunks, last chunk first. */
  method DecryptPass(c: Cipher, buffer: Buffer, blocks: nat, base: nat, iv0: Half, ghost start: State<Half>)
      returns (iv: Half)
    requires |start.r| == blocks && Bare(buffer.data, iv0, start)
    modifies buffer
    ensures Bare(buffer.data, iv, UnPass<Half>(Backward(c), base, blocks, start))
  {
    iv := iv0;
    ghost var s: State<Half>, goal: State<Half> := start, UnPass<Half>(Backward(c), base, blocks, start);
    for i := blocks downto 0
      invariant |s.r| == blocks && UnPass<Half>(Backward(c), base, i, s) == goal
      invariant Bare(buffer.data, iv, s)
    {
      iv, s := DecryptTurn(c, buffer, base, i, iv, s);
    }
  }

  /** One turn of the inner loop, which leaves one step less to undo. */
  method DecryptTurn(c: Cipher, buffer: Buffer, base: nat, i: nat, iv: Half, ghost s: State<Half>)
      returns (iv': Half, ghost s': State<Half>)
    requires i < |s.r| && Bare(buffer.data, iv, s)
    modifies buffer
    ensures |s'.r| == |s.r| && Bare(buffer.data, iv', s')
    ensures UnPass<Half>(Backward(c), base, i, s') == UnPass<Half>(Backward(c), base, i + 1, s)
  {
    UnPassNext<Half>(Backward(c), base, i, base + i + 1, s);
    iv', s' := DecryptChunk(c, buffer, i, base + i + 1, iv, s);
  }

  /** A step backwards on the i-th chunk. */
  method DecryptChunk(c: Cipher, buffer: Buffer, i: nat, t: nat, iv: Half, ghost s: State<Half>)
      returns (iv': Half, ghost s': State<Half>)
    requires i < |s.r| && Bare(buffer.data, iv, s)
    modifies buffer
    ensures s' == Step<Half>(Backward(c), t, i, s) && |s'.r| == |s.r| && Bare(buffer.data, iv', s')
  {
    var lo := 8 * i;
    s' := Step<Half>(Backward(c), t, i, s);
    ChunkOf(s.r, i, s'.r[i]);
    var block := Xor(iv, BigEndian(t, 8));
    block := c.Dec(block + buffer.data[lo..lo + 8]);
    iv' := block[..8];
    buffer.data := buffer.data[..lo] + block[8..] + buffer.data[lo + 8..];
  }
}
