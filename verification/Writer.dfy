/** Writing into a fixed slice of bytes: what the slice holds is its first `pos` bytes. */
module SliceWriter {
  import opened Prelude

  /** How a call ends; `Panics` stands for an aborted call (a failed bounds check or subtraction). */
  datatype Outcome = Done | ExceededBuffer | Panics

  /** What replacing a range means. */
  function Spliced(s: Bytes, start: nat, end: nat, data: Bytes): (r: Bytes)
    requires start <= end <= |s|
    ensures |r| == |s| + |data| - (end - start)
  {
    s[..start] + data + s[end..]
  }

  /** Splicing the replaced bytes back in restores the contents. */
  lemma SpliceBack(s: Bytes, start: nat, end: nat, data: Bytes)
    requires start <= end <= |s|
    ensures Spliced(Spliced(s, start, end, data), start, start + |data|, s[start..end]) == s
  {
    var r := Spliced(s, start, end, data);
    assert r[..start] == s[..start];
    assert r[start + |data|..] == s[end..];
  }

  /** Two splices, the second clear of the first, may be made in either order. */
  lemma SplicesCommute(s: Bytes, a: nat, b: nat, x: Bytes, c: nat, d: nat, y: Bytes)
    requires a <= b <= c <= d <= |s|
    ensures var shift := |x| - (b - a);
      Spliced(Spliced(s, c, d, y), a, b, x) == Spliced(Spliced(s, a, b, x), c + shift, d + shift, y)
  {
    var shift := |x| - (b - a);
    var left, right := Spliced(s, c, d, y), Spliced(s, a, b, x);
    assert left[..a] == s[..a] && left[b..] == s[b..c] + y + s[d..];
    assert right[..c + shift] == s[..a] + x + s[b..c] && right[d + shift..] == s[d..];
  }

  lemma InsertThenRemove(s: Bytes, at: nat, data: Bytes)
    requires at <= |s|
    ensures Spliced(Spliced(s, at, at, data), at, at + |data|, []) == s
  {
    SpliceBack(s, at, at, data);
    assert s[at..at] == [];
  }

  /**
   * When splicing `n` bytes over a range aborts: the range is backwards, the source of the move
   * would start before the slice or after the written part, or the data runs past the slice.
   */
  predicate SplicePanics(total: nat, pos: nat, start: nat, end: nat, n: nat) {
    || start > end
    || (n > end - start && pos + n - (end - start) <= total
        && (n - (end - start) > end || start + n > total || end - (n - (end - start)) > pos))
    || (n < end - start && end > pos)
    || (n == end - start && end > total && n > 0)
  }

  /** An insertion that fits aborts before as many bytes as it inserts, or too far past the contents. */
  predicate InsertPanics(total: nat, pos: nat, at: nat, n: nat) {
    n > 0 && (n > at || at + n > total || at - n > pos)
  }

  /** Of the ranges within the written part, those that end before the growth abort, and no other. */
  lemma PanicsWithinContents(total: nat, pos: nat, start: nat, end: nat, n: nat)
    requires start <= end <= pos <= total && pos + n - (end - start) <= total
    ensures SplicePanics(total, pos, start, end, n) <==> n - (end - start) > end
    ensures start == end == 0 && n > 0 ==> SplicePanics(total, pos, start, end, n)
  {
  }

  /** The slice after `data` was written over its bytes from `start`. */
  ghost function Overwritten(s: Bytes, start: nat, data: Bytes): Bytes
    requires start + |data| <= |s|
  {
    s[..start] + data + s[start + |data|..]
  }

  /** The slice after the move that makes room for `n` bytes in place of the range. */
  ghost function Moved(s: Bytes, pos: nat, start: nat, end: nat, n: nat): Bytes
    requires start <= end && pos <= |s| && !MovePanics(|s|, pos, start, end, n)
  {
    if n > end - start then
      var diff := n - (end - start);
      s[..end] + s[end - diff..pos] + s[pos + diff..]
    else if n < end - start then
      var diff := end - start - n;
      s[..end - diff] + s[end..pos] + s[pos - diff..]
    else s
  }

  predicate MovePanics(total: nat, pos: nat, start: nat, end: nat, n: nat)
    requires start <= end
  {
    if n > end - start then
      var diff := n - (end - start);
      pos + diff > total || diff > end || end - diff > pos
    else n < end - start && end > pos
  }

  /** The move and then the write splice, although a growing move carries too many bytes along. */
  lemma MoveSplices(s: Bytes, pos: nat, start: nat, end: nat, data: Bytes)
    requires start <= end <= pos <= |s| && !MovePanics(|s|, pos, start, end, |data|)
    ensures var pos' := pos + |data| - (end - start);
      var moved := Moved(s, pos, start, end, |data|);
      && |moved| == |s| && start + |data| <= pos' <= |s|
      && Overwritten(moved, start, data)[..pos'] == Spliced(s[..pos], start, end, data)
      && Overwritten(moved, start, data)[pos'..] == s[pos'..]
  {
    var pos' := pos + |data| - (end - start);
    var moved := Moved(s, pos, start, end, |data|);
    MovedParts(s, pos, start, end, |data|);
    assert Overwritten(moved, start, data) == s[..start] + data + (s[end..pos] + s[pos'..]);
    FourParts(s[..start], data, s[end..pos], s[pos'..]);
    assert s[..pos][..start] == s[..start] && s[..pos][end..] == s[end..pos];
  }

  /** Past the written part the move stays within the bytes that are then written. */
  lemma MoveIsOverwritten(s: Bytes, pos: nat, start: nat, end: nat, data: Bytes)
    requires start <= end && pos <= |s| && pos < end && !MovePanics(|s|, pos, start, end, |data|)
    requires |data| >= end - start && data != [] && start + |data| <= |s|
    ensures |Moved(s, pos, start, end, |data|)| == |s|
    ensures Overwritten(Moved(s, pos, start, end, |data|), start, data) == Overwritten(s, start, data)
  {
    var moved := Moved(s, pos, start, end, |data|);
    assert moved[..start] == s[..start] && moved[start + |data|..] == s[start + |data|..];
  }

  lemma MovedParts(s: Bytes, pos: nat, start: nat, end: nat, n: nat)
    requires start <= end <= pos <= |s| && !MovePanics(|s|, pos, start, end, n)
    ensures var moved, pos' := Moved(s, pos, start, end, n), pos + n - (end - start);
      && |moved| == |s| && start + n <= pos' <= |s|
      && moved[..start] == s[..start] && moved[start + n..] == s[end..pos] + s[pos'..]
  {
  }

  lemma FourParts<T>(a: seq<T>, b: seq<T>, c: seq<T>, d: seq<T>)
    ensures (a + b + (c + d))[..|a| + |b| + |c|] == a + b + c
    ensures (a + b + (c + d))[|a| + |b| + |c|..] == d
  {
  }

  /** What the move and the write have left of the slice. */
  lemma SpliceDone(was: Bytes, pos: nat, start: nat, end: nat, data: Bytes, now: Bytes)
    requires start <= end && pos <= |was| && !MovePanics(|was|, pos, start, end, |data|)
    requires var moved := Moved(was, pos, start, end, |data|);
      && |moved| == |was| && (start <= |was| ==> start + |data| <= |was| && now == Overwritten(moved, start, data))
      && (start > |was| ==> data == [] && now == moved)
    ensures end <= pos ==>
      var pos' := pos + |data| - (end - start);
      0 <= pos' <= |now| && now[..pos'] == Spliced(was[..pos], start, end, data) && now[pos'..] == was[pos'..]
    ensures end > pos && data != [] ==> start + |data| <= |was| && now == Overwritten(was, start, data)
    ensures end > pos && data == [] ==> now == was
  {
    if end <= pos {
      MoveSplices(was, pos, start, end, data);
    } else if data != [] {
      MoveIsOverwritten(was, pos, start, end, data);
    } else if start <= |was| {
      assert Overwritten(was, start, data) == was;
    }
  }

  class Writer {
    const inner: array<bv8>
    var pos: nat

    ghost predicate Valid()
      reads this
    {
      pos <= inner.Length
    }

    ghost function Contents(): Bytes
      reads this, inner
      requires Valid()
    {
      inner[..pos]
    }

    constructor (slice: array<bv8>)
      ensures Valid() && inner == slice && pos == 0 && Contents() == []
    {
      inner := slice;
      pos := 0;
    }

    /** Moves inner[src..srcEnd] to dest; the two may overlap. */
    method CopyWithin(src: nat, srcEnd: nat, dest: nat)
      requires src <= srcEnd <= inner.Length && dest + (srcEnd - src) <= inner.Length
      modifies inner
      ensures inner[..] == old(inner[..dest] + inner[src..srcEnd] + inner[dest + (srcEnd - src)..])
    {
      forall i | 0 <= i < srcEnd - src {
        inner[dest + i] := inner[src + i];
      }
    }

    /** Writes data over the bytes from start, aborting at the first index out of range. */
    method Overwrite(start: nat, data: Bytes) returns (outcome: Outcome)
      modifies inner
      ensures outcome == if data != [] && start + |data| > inner.Length then Panics else Done
      ensures outcome == Done && start <= inner.Length ==>
        start + |data| <= inner.Length && inner[..] == Overwritten(old(inner[..]), start, data)
      ensures outcome == Done && start > inner.Length ==> inner[..] == old(inner[..])
    {
      var idx := 0;
      while idx < |data|
        invariant 0 <= idx <= |data| && (idx > 0 ==> start + idx <= inner.Length)
        invariant forall i :: 0 <= i < inner.Length ==>
          inner[i] == if start <= i < start + idx then data[i - start] else old(inner[i])
      {
        if start + idx >= inner.Length {
          return Panics;
        }
        inner[start + idx] := data[idx];
        idx := idx + 1;
      }
      return Done;
    }

    /** The move of the tail, up or down, and the new position. */
    method MakeRoom(start: nat, end: nat, n: nat) returns (outcome: Outcome)
      requires Valid() && start <= end
      modifies this, inner
      ensures outcome == if n > end - start && old(pos) + n - (end - start) > inner.Length then ExceededBuffer
                         else if MovePanics(inner.Length, old(pos), start, end, n) then Panics else Done
      ensures outcome == Done ==>
        pos == old(pos) + n - (end - start) && inner[..] == Moved(old(inner[..]), old(pos), start, end, n)
      ensures outcome != Done ==> pos == old(pos) && inner[..] == old(inner[..])
    {
      var removed := end - start;
      if n > removed {
        var diff := n - removed;
        if pos + diff > inner.Length {
          return ExceededBuffer;
        }
        if end < diff || end - diff > pos {
          return Panics;
        }
        CopyWithin(end - diff, pos, end);
        pos := pos + diff;
      } else if n < removed {
        var diff := removed - n;
        if end > pos {
          return Panics;
        }
        CopyWithin(end, pos, end - diff);
        pos := pos - diff;
      }
      return Done;
    }

    /**
     * Replaces a range. It aborts exactly in the cases of SplicePanics, fails exactly when the
     * growth does not fit, and else leaves the replaced contents, however the moves overlap.
     */
    method Splice(start: nat, end: nat, data: Bytes) returns (outcome: Outcome)
      requires Valid()
      modifies this, inner
      ensures outcome == Panics <==> SplicePanics(inner.Length, old(pos), start, end, |data|)
      ensures outcome == ExceededBuffer <==>
        start <= end && |data| > end - start && old(pos) + |data| - (end - start) > inner.Length
      ensures outcome == ExceededBuffer ==> pos == old(pos) && inner[..] == old(inner[..])
      ensures outcome == Done ==>
        Valid() && start <= end && pos == old(pos) + |data| - (end - start)
      ensures outcome == Done && end <= old(pos) ==>
        Contents() == Spliced(old(Contents()), start, end, data) && inner[pos..] == old(inner[..])[pos..]
      ensures outcome == Done && end > old(pos) ==>
        inner[..] == if data == [] then old(inner[..]) else Overwritten(old(inner[..]), start, data)
    {
      if end < start {
        return Panics;
      }
      ghost var was := inner[..];
      outcome := MakeRoom(start, end, |data|);
      if outcome == Done {
        outcome := Overwrite(start, data);
        if outcome == Done {
          ghost var now := inner[..];
          SpliceDone(was, old(pos), start, end, data, now);
          assert Contents() == now[..pos] && inner[pos..] == now[pos..] && old(Contents()) == was[..old(pos)];
        }
      }
    }

    method BufferWrite(data: Bytes) returns (outcome: Outcome)
      requires Valid()
      modifies this, inner
      ensures Valid()
      ensures outcome == if old(pos) + |data| > inner.Length then ExceededBuffer else Done
      ensures outcome == Done ==> Contents() == old(Contents()) + data
      ensures outcome != Done ==> pos == old(pos) && inner[..] == old(inner[..])
    {
      if pos + |data| > inner.Length {
        return ExceededBuffer;
      }
      outcome := Overwrite(pos, data);
      pos := pos + |data|;
    }

    method BufferInsert(at: nat, data: Bytes) returns (outcome: Outcome)
      requires Valid()
      modifies this, inner
      ensures outcome == if data != [] && old(pos) + |data| > inner.Length then ExceededBuffer
                         else if InsertPanics(inner.Length, old(pos), at, |data|) then Panics else Done
      ensures outcome == ExceededBuffer ==> pos == old(pos) && inner[..] == old(inner[..])
      ensures outcome == Done ==> Valid() && pos == old(pos) + |data|
      ensures outcome == Done && at <= old(pos) ==> Contents() == Spliced(old(Contents()), at, at, data)
      ensures outcome == Done && at > old(pos) ==>
        inner[..] == if data == [] then old(inner[..]) else Overwritten(old(inner[..]), at, data)
    {
      outcome := Splice(at, at, data);
    }

    method BufferRemove(start: nat, end: nat) returns (outcome: Outcome)
      requires Valid()
      modifies this, inner
      ensures outcome == if start <= end <= old(pos) then Done else Panics
      ensures outcome == Done ==> Valid() && Contents() == Spliced(old(Contents()), start, end, [])
    {
      if end < start || end > pos {
        return Panics;
      }
      CopyWithin(end, pos, start);
      pos := pos - (end - start);
      return Done;
    }

    /** The length asked for is added to the position: the contents get that length only when empty. */
    method BufferResize(len: nat) returns (outcome: Outcome)
      requires Valid()
      modifies this`pos
      ensures Valid()
      ensures outcome == if old(pos) + len > inner.Length then ExceededBuffer else Done
      ensures outcome != Done ==> pos == old(pos)
      ensures outcome == Done ==> old(Contents()) <= Contents() && (|Contents()| == len <==> old(pos) == 0)
      ensures outcome == Done ==> |Contents()| == old(pos) + len
    {
      var total := pos + len;
      if total > inner.Length {
        return ExceededBuffer;
      }
      pos := total;
      return Done;
    }
  }
}
