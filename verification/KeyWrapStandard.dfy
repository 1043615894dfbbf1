/** Key wrap as section 2.2 of RFC 3394 writes it with shifting registers. */
module KeyWrapStandard {
  import opened Prelude
  import opened ByteOrder
  import opened KeyWrapPasses
  import opened KeyWrap

  /** The 64-bit counter, most significant byte first. */
  function Counter(t: nat): Half {
    [ByteOf(t, 0x100_0000_0000_0000), ByteOf(t, 0x1_0000_0000_0000), ByteOf(t, 0x100_0000_0000),
     ByteOf(t, 0x1_0000_0000), ByteOf(t, 0x100_0000), ByteOf(t, 0x1_0000), ByteOf(t, 0x100), ByteOf(t, 1)]
  }

  lemma Powers()
    ensures Pow256(0) == 1 && Pow256(1) == 0x100 && Pow256(2) == 0x1_0000 && Pow256(3) == 0x100_0000
    ensures Pow256(4) == 0x1_0000_0000 && Pow256(5) == 0x100_0000_0000
    ensures Pow256(6) == 0x1_0000_0000_0000 && Pow256(7) == 0x100_0000_0000_0000
  {
    assert Pow256(3) == 256 * Pow256(2) && Pow256(4) == 256 * Pow256(3) && Pow256(5) == 256 * Pow256(4);
  }

  lemma HighBytes(t: nat)
    ensures var a, b := BigEndian(t, 8), Counter(t); a[0] == b[0] && a[1] == b[1] && a[2] == b[2] && a[3] == b[3]
  {
    Powers();
    ByteIs(t, 8, 0, 0x100_0000_0000_0000);
    ByteIs(t, 8, 1, 0x1_0000_0000_0000);
    ByteIs(t, 8, 2, 0x100_0000_0000);
    ByteIs(t, 8, 3, 0x1_0000_0000);
  }

  lemma LowBytes(t: nat)
    ensures var a, b := BigEndian(t, 8), Counter(t); a[4] == b[4] && a[5] == b[5] && a[6] == b[6] && a[7] == b[7]
  {
    Powers();
    ByteIs(t, 8, 4, 0x100_0000);
    ByteIs(t, 8, 5, 0x1_0000);
    ByteIs(t, 8, 6, 0x100);
    ByteIs(t, 8, 7, 1);
  }

  lemma CounterBytes(t: nat)
    ensures BigEndian(t, 8) == Counter(t)
  {
    HighBytes(t);
    LowBytes(t);
    Bytewise(BigEndian(t, 8), Counter(t));
  }

  lemma Bytewise(a: Half, b: Half)
    requires a[0] == b[0] && a[1] == b[1] && a[2] == b[2] && a[3] == b[3]
    requires a[4] == b[4] && a[5] == b[5] && a[6] == b[6] && a[7] == b[7]
    ensures a == b
  {
  }

  /** A[t] = MSB64(B) xor t and R = LSB64(B), where B is the encryption of A | R. */
  function StandardRound(c: Cipher): Round<Half> {
    (a: Half, x: Half, t: nat) => (Xor(c.Enc(a + x)[..8], Counter(t)), c.Enc(a + x)[8..])
  }

  /** A | R is the decryption of (A xor t) | R. */
  function StandardBackRound(c: Cipher): Round<Half> {
    (a: Half, x: Half, t: nat) => (c.Dec(Xor(a, Counter(t)) + x)[..8], c.Dec(Xor(a, Counter(t)) + x)[8..])
  }

  lemma RoundsAreStandard(c: Cipher)
    ensures forall a: Half, x: Half, t: nat :: Forward(c)(a, x, t) == StandardRound(c)(a, x, t)
    ensures forall a: Half, x: Half, t: nat :: Backward(c)(a, x, t) == StandardBackRound(c)(a, x, t)
  {
    forall a: Half, x: Half, t: nat
      ensures Forward(c)(a, x, t) == StandardRound(c)(a, x, t)
      ensures Backward(c)(a, x, t) == StandardBackRound(c)(a, x, t)
    {
      CounterBytes(t);
    }
  }

  /**
   * What is wrapped is the standard's output: 6n shifting steps over the n blocks of the data, from
   * the eight bytes A6. No blocks at all wrap to those eight bytes.
   */
  lemma WrappedIsStandard(c: Cipher, data: Bytes)
    requires |data| % 8 == 0
    ensures data == [] ==> Wrapped(c, data) == [0xA6, 0xA6, 0xA6, 0xA6, 0xA6, 0xA6, 0xA6, 0xA6]
    ensures data != [] ==>
      var start: State<Half> := State([0xA6, 0xA6, 0xA6, 0xA6, 0xA6, 0xA6, 0xA6, 0xA6], Chunks(data));
      var s := ShiftSteps<Half>(StandardRound(c), 6 * (|data| / 8), start);
      Wrapped(c, data) == s.a + Flatten(s.r)
  {
    var n := |data| / 8;
    var start: State<Half> := State([0xA6, 0xA6, 0xA6, 0xA6, 0xA6, 0xA6, 0xA6, 0xA6], Chunks(data));
    if n == 0 {
      NoBlocks(Forward(c), 6, start);
    } else {
      IndexingAgreesWithShifting<Half>(Forward(c), n, 6, 6 * n, start);
      RoundsAreStandard(c);
      ShiftsAlike<Half>(Forward(c), StandardRound(c), 6 * n, start);
    }
  }

  lemma {:induction false} NoBlocks(f: Round<Half>, j: nat, s: State<Half>)
    requires s.r == []
    ensures Passes<Half>(f, 0, j, s) == s && UnPasses<Half>(f, 0, j, s) == s
    decreases j
  {
    if j > 0 {
      NoBlocks(f, j - 1, s);
    }
  }

  /**
   * Unwrapping runs the 6n steps backwards over the n blocks behind the first, and accepts exactly
   * when the register left is the eight bytes A6.
   */
  lemma UnwrappedIsStandard(c: Cipher, data: Bytes)
    requires |data| % 8 == 0 && |data| >= 8
    ensures |data| == 8 ==>
      Unwrapped(c, data) == if data == [0xA6, 0xA6, 0xA6, 0xA6, 0xA6, 0xA6, 0xA6, 0xA6] then Some([]) else None
    ensures |data| > 8 ==>
      var start: State<Half> := State(data[..8], Chunks(data[8..]));
      var s := ShiftBacks<Half>(StandardBackRound(c), 6 * (|data| / 8 - 1), start);
      Unwrapped(c, data)
      == if s.a == [0xA6, 0xA6, 0xA6, 0xA6, 0xA6, 0xA6, 0xA6, 0xA6] then Some(Flatten(s.r)) else None
  {
    var n := |data| / 8 - 1;
    var start: State<Half> := State(data[..8], Chunks(data[8..]));
    if n == 0 {
      NoBlocks(Backward(c), 6, start);
      assert data[..8] == data;
    } else {
      UnwindIsStandard(c, data);
    }
  }

  lemma {:induction false} UnwindIsStandard(c: Cipher, data: Bytes)
    requires |data| % 8 == 0 && |data| > 8
    ensures UnwindWith(Backward(c), data)
         == ShiftBacks<Half>(StandardBackRound(c), 6 * (|data| / 8 - 1), State(data[..8], Chunks(data[8..])))
  {
    var n := |data| / 8 - 1;
    var start: State<Half> := State(data[..8], Chunks(data[8..]));
    UnwindingAgreesWithShifting<Half>(Backward(c), n, 6, 6 * n, start);
    RoundsAreStandard(c);
    BacksAlike<Half>(Backward(c), StandardBackRound(c), 6 * n, start);
  }
}
