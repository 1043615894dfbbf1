/** The order in which the bytes of a number are written. */
module ByteOrder {
  import opened Prelude
  import opened ByteNumbers

  /** The number that bytes spell, the first byte counting most. */
  function Value(s: Bytes): nat {
    if s == [] then 0 else 256 * Value(s[..|s| - 1]) + s[|s| - 1] as nat
  }

  lemma DivideInTurn(n: nat, p: nat)
    requires p > 0
    ensures n / 256 / p == n / (256 * p)
  {
    var q, r := n / 256 / p, n / 256 % p;
    assert n / 256 == q * p + r;
    assert n == q * (256 * p) + (256 * r + n % 256);
    Place(q, 256 * p, 256 * r + n % 256);
  }

  lemma Place(k: nat, size: nat, j: nat)
    requires j < size
    ensures (k * size + j) / size == k && (k * size + j) % size == j
  {
    var q, r := (k * size + j) / size, (k * size + j) % size;
    assert (q - k) * size == j - r;
    if q > k {
      Scale(1, q - k, size);
      assert false;
    } else if q < k {
      Scale(q - k, -1, size);
      assert false;
    }
  }

  lemma Scale(a: int, b: int, size: nat)
    requires a <= b
    ensures a * size <= b * size
  {
  }

  /** The byte of n that counts p-fold. */
  function ByteOf(n: nat, p: nat): bv8
    requires p > 0
  {
    (n / p % 256) as bv8
  }

  lemma ByteIs(n: nat, width: nat, i: nat, p: nat)
    requires i < width && p == Pow256(width - 1 - i)
    ensures BigEndian(n, width)[i] == ByteOf(n, p)
  {
  }

  /** The last byte is the lowest, and the others are those of the number without it. */
  lemma BigEndianEnds(n: nat, width: nat)
    ensures BigEndian(n, width + 1) == BigEndian(n / 256, width) + [(n % 256) as bv8]
  {
    var whole, front := BigEndian(n, width + 1), BigEndian(n / 256, width);
    forall i | 0 <= i < width ensures whole[i] == front[i] {
      ByteIs(n, width + 1, i, 256 * Pow256(width - 1 - i));
      ByteIs(n / 256, width, i, Pow256(width - 1 - i));
      DivideInTurn(n, Pow256(width - 1 - i));
    }
    ByteIs(n, width + 1, width, 1);
    assert n / 1 == n;
  }

  /** A number is written most significant byte first, and cut to the given width. */
  lemma {:induction false} BigEndianSpells(n: nat, width: nat)
    ensures Value(BigEndian(n, width)) == n % Pow256(width)
  {
    if width > 0 {
      var s, front := BigEndian(n, width), BigEndian(n / 256, width - 1);
      BigEndianEnds(n, width - 1);
      assert s[..width - 1] == front && s[width - 1] == (n % 256) as bv8;
      BigEndianSpells(n / 256, width - 1);
      ByteBack(n % 256);
      CutInTurn(n, Pow256(width - 1));
    }
  }

  lemma CutInTurn(n: nat, p: nat)
    requires p > 0
    ensures 256 * (n / 256 % p) + n % 256 == n % (256 * p)
  {
    var q, r := n / 256 / p, n / 256 % p;
    assert n / 256 == q * p + r;
    assert n == q * (256 * p) + (256 * r + n % 256);
    Place(q, 256 * p, 256 * r + n % 256);
  }
}
