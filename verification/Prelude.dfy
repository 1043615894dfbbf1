/** Vocabulary shared by every module: optional results, byte strings and their SQL order. */
module Prelude {
  datatype Option<+T> = None | Some(value: T) {
    function GetOr(default: T): T {
      if Some? then value else default
    }
  }

  datatype Result<+T, +E> = Ok(value: T) | Err(error: E)

  /** A list done so far, followed by the outcome of the rest. */
  ghost function Extend<T>(done: seq<T>, rest: Option<seq<T>>): Option<seq<T>> {
    if rest.None? then None else Some(done + rest.value)
  }

  lemma ExtendEnds<T>(rest: Option<seq<T>>, done: seq<T>)
    ensures Extend([], rest) == rest && Extend(done, Some([])) == Some(done)
  {
    if rest.Some? {
      assert [] + rest.value == rest.value;
    }
    assert done + [] == done;
  }

  lemma AppendAssociative<T>(a: seq<T>, b: seq<T>, c: seq<T>)
    ensures a + b + c == a + (b + c)
  {
  }

  type Bytes = seq<bv8>

  /** Byte-wise lexicographic order, the order a database gives to BLOB values. */
  predicate LexLess(a: Bytes, b: Bytes) {
    if b == [] then false
    else if a == [] then true
    else if a[0] != b[0] then a[0] < b[0]
    else LexLess(a[1..], b[1..])
  }

  /** At the first place where they differ, a has ended or has the lesser element. */
  ghost predicate Precedes<T(!new)>(a: seq<T>, b: seq<T>, less: (T, T) -> bool) {
    exists i :: 0 <= i < |b| && i <= |a| && a[..i] == b[..i] && (i < |a| ==> a[i] != b[i] && less(a[i], b[i]))
  }

  lemma PrecedesFirst<T(!new)>(a: seq<T>, b: seq<T>, less: (T, T) -> bool)
    requires a != [] && b != []
    ensures Precedes(a, b, less) <==>
      if a[0] != b[0] then less(a[0], b[0]) else Precedes(a[1..], b[1..], less)
  {
    if a[0] == b[0] {
      if i :| 0 <= i < |b| && i <= |a| && a[..i] == b[..i] && (i < |a| ==> a[i] != b[i] && less(a[i], b[i])) {
        assert i > 0 ==> a[1..][..i - 1] == a[..i][1..] && b[1..][..i - 1] == b[..i][1..];
        assert i > 0;
      }
      if j :| 0 <= j < |b| - 1 && j <= |a| - 1 && a[1..][..j] == b[1..][..j]
              && (j < |a| - 1 ==> a[1..][j] != b[1..][j] && less(a[1..][j], b[1..][j])) {
        assert a[..j + 1] == [a[0]] + a[1..][..j] && b[..j + 1] == [b[0]] + b[1..][..j];
      }
    } else {
      assert a[..0] == b[..0];
      assert forall i | 0 < i <= |a| && i <= |b| :: a[..i][0] != b[..i][0];
    }
  }

  predicate ByteLess(x: bv8, y: bv8) {
    x < y
  }

  lemma {:induction false} LexLessExactly(a: Bytes, b: Bytes)
    ensures LexLess(a, b) <==> Precedes(a, b, ByteLess)
  {
    if b != [] {
      if a == [] {
        assert a[..0] == b[..0];
      } else {
        PrecedesFirst(a, b, ByteLess);
        LexLessExactly(a[1..], b[1..]);
      }
    }
  }

  /** SQL's SUBSTR(s, 1, n). */
  function Prefix(s: Bytes, n: nat): (p: Bytes)
    ensures p <= s
    ensures |p| == if |s| <= n then |s| else n
  {
    if |s| <= n then s else s[..n]
  }

  lemma {:induction false} LexAsymmetric(a: Bytes, b: Bytes)
    requires LexLess(a, b)
    ensures !LexLess(b, a) && a != b
  {
    if a != [] && a[0] == b[0] {
      LexAsymmetric(a[1..], b[1..]);
    }
  }

  lemma {:induction false} LexTotal(a: Bytes, b: Bytes)
    ensures a == b ==> !LexLess(a, b)
    ensures LexLess(a, b) ==> !LexLess(b, a)
    ensures LexLess(a, b) || LexLess(b, a) || a == b
  {
    if a != [] && b != [] && a[0] == b[0] {
      LexTotal(a[1..], b[1..]);
      assert a == [a[0]] + a[1..] && b == [b[0]] + b[1..];
    }
  }

  /** Truncation never inverts the order: prefixes in strict order come from strings in strict order. */
  lemma {:induction false} PrefixReflectsOrder(a: Bytes, b: Bytes, n: nat)
    requires LexLess(Prefix(a, n), Prefix(b, n))
    ensures LexLess(a, b)
  {
    if a != [] && a[0] == b[0] {
      var n' := if n == 0 then 0 else n - 1;
      assert Prefix(a, n)[1..] == Prefix(a[1..], n');
      assert Prefix(b, n)[1..] == Prefix(b[1..], n');
      PrefixReflectsOrder(a[1..], b[1..], n');
    }
  }

  function Pow256(n: nat): (r: nat)
    ensures r > 0
  {
    if n == 0 then 1 else 256 * Pow256(n - 1)
  }

  /** The big-endian bytes of n, truncated to `width` bytes. */
  function BigEndian(n: nat, width: nat): (r: Bytes)
    ensures |r| == width
  {
    seq(width, i requires 0 <= i < width => (n / Pow256(width - 1 - i) % 256) as bv8)
  }
}
