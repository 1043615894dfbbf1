/** The register machine of RFC 3394, over any kind of block and any round function. */
module KeyWrapPasses {
  /** The integrity register A and the registers R[1..n], here counted from 0. */
  datatype State<T> = State(a: T, r: seq<T>)

  /** What a step does to the integrity register and one other, under a counter value. */
  type Round<!T> = (T, T, nat) -> (T, T)

  /** One round function undoes another. */
  ghost predicate Undoes<T(!new)>(g: Round<T>, f: Round<T>) {
    forall a, x, t :: g(f(a, x, t).0, f(a, x, t).1, t) == (a, x)
  }

  // ----- the indexed algorithm of sections 2.2.1 and 2.2.2 -----

  function Step<T>(f: Round<T>, t: nat, i: nat, s: State<T>): (s': State<T>)
    requires i < |s.r|
    ensures |s'.r| == |s.r|
  {
    State(f(s.a, s.r[i], t).0, s.r[i := f(s.a, s.r[i], t).1])
  }

  lemma StepInverse<T(!new)>(f: Round<T>, g: Round<T>, t: nat, i: nat, s: State<T>)
    requires Undoes(g, f) && i < |s.r|
    ensures Step(g, t, i, Step(f, t, i, s)) == s
  {
    var s' := Step(f, t, i, s);
    assert g(s'.a, s'.r[i], t) == (s.a, s.r[i]);
    assert s'.r[i := s.r[i]] == s.r;
  }

  /** The first i steps of a pass, with counter values base + 1, base + 2, ... */
  ghost function Pass<T>(f: Round<T>, base: nat, i: nat, s: State<T>): (s': State<T>)
    requires i <= |s.r|
    ensures |s'.r| == |s.r|
    decreases i
  {
    if i == 0 then s else Step(f, base + i, i - 1, Pass(f, base, i - 1, s))
  }

  /** The first i steps of a pass undone, last step first. */
  ghost function UnPass<T>(g: Round<T>, base: nat, i: nat, s: State<T>): (s': State<T>)
    requires i <= |s.r|
    ensures |s'.r| == |s.r|
    decreases i
  {
    if i == 0 then s else UnPass(g, base, i - 1, Step(g, base + i, i - 1, s))
  }

  ghost function Passes<T>(f: Round<T>, n: nat, j: nat, s: State<T>): (s': State<T>)
    requires |s.r| == n
    ensures |s'.r| == n
    decreases j, n
  {
    if j == 0 then s else Pass(f, n * (j - 1), n, Passes(f, n, j - 1, s))
  }

  ghost function UnPasses<T>(g: Round<T>, n: nat, j: nat, s: State<T>): (s': State<T>)
    requires |s.r| == n
    ensures |s'.r| == n
    decreases j, n
  {
    if j == 0 then s else UnPasses(g, n, j - 1, UnPass(g, n * (j - 1), n, s))
  }

  lemma {:induction false} UnPassPass<T(!new)>(f: Round<T>, g: Round<T>, base: nat, i: nat, s: State<T>)
    requires Undoes(g, f) && i <= |s.r|
    ensures UnPass(g, base, i, Pass(f, base, i, s)) == s
    decreases i
  {
    if i > 0 {
      StepInverse(f, g, base + i, i - 1, Pass(f, base, i - 1, s));
      UnPassPass(f, g, base, i - 1, s);
    }
  }

  lemma {:induction false} PassUnPass<T(!new)>(f: Round<T>, g: Round<T>, base: nat, i: nat, s: State<T>)
    requires Undoes(f, g) && i <= |s.r|
    ensures Pass(f, base, i, UnPass(g, base, i, s)) == s
    decreases i
  {
    if i > 0 {
      StepInverse(g, f, base + i, i - 1, s);
      PassUnPass(f, g, base, i - 1, Step(g, base + i, i - 1, s));
    }
  }

  /** Running the passes forwards and backwards, in either order, restores the registers. */
  lemma {:induction false} UnPassesPasses<T(!new)>(f: Round<T>, g: Round<T>, n: nat, j: nat, s: State<T>)
    requires Undoes(g, f) && |s.r| == n
    ensures UnPasses(g, n, j, Passes(f, n, j, s)) == s
    decreases j
  {
    if j > 0 {
      UnPassPass(f, g, n * (j - 1), n, Passes(f, n, j - 1, s));
      UnPassesPasses(f, g, n, j - 1, s);
    }
  }

  lemma {:induction false} PassesUnPasses<T(!new)>(f: Round<T>, g: Round<T>, n: nat, j: nat, s: State<T>)
    requires Undoes(f, g) && |s.r| == n
    ensures Passes(f, n, j, UnPasses(g, n, j, s)) == s
    decreases j
  {
    if j > 0 {
      PassUnPass(f, g, n * (j - 1), n, s);
      PassesUnPasses(f, g, n, j - 1, UnPass(g, n * (j - 1), n, s));
    }
  }

  lemma PassNext<T>(f: Round<T>, base: nat, i: nat, t: nat, s: State<T>)
    requires 0 < i <= |s.r| && t == base + i
    ensures Pass(f, base, i, s) == Step(f, t, i - 1, Pass(f, base, i - 1, s))
  {
  }

  lemma UnPassNext<T>(g: Round<T>, base: nat, i: nat, t: nat, s: State<T>)
    requires i < |s.r| && t == base + i + 1
    ensures UnPass(g, base, i + 1, s) == UnPass(g, base, i, Step(g, t, i, s))
  {
  }

  lemma UnPassesNext<T>(g: Round<T>, n: nat, j: nat, base: nat, s: State<T>)
    requires |s.r| == n && base == n * j
    ensures UnPasses(g, n, j + 1, s) == UnPasses(g, n, j, UnPass(g, base, n, s))
  {
  }

  // ----- the shift-register formulation of the same section -----

  /** One step of the shifting form: the first register is used and its successor joins the end. */
  function ShiftStep<T>(f: Round<T>, t: nat, s: State<T>): (s': State<T>)
    requires s.r != []
    ensures |s'.r| == |s.r|
  {
    State(f(s.a, s.r[0], t).0, s.r[1..] + [f(s.a, s.r[0], t).1])
  }

  ghost function ShiftSteps<T>(f: Round<T>, t: nat, s: State<T>): (s': State<T>)
    requires s.r != []
    ensures |s'.r| == |s.r|
    decreases t
  {
    if t == 0 then s else ShiftStep(f, t, ShiftSteps(f, t - 1, s))
  }

  lemma ShiftNext<T>(f: Round<T>, t: nat, s: State<T>)
    requires s.r != [] && t > 0
    ensures ShiftSteps(f, t, s) == ShiftStep(f, t, ShiftSteps(f, t - 1, s))
  {
  }

  /** The registers as the shifting form holds them i steps into a pass. */
  function Rotate<T>(s: State<T>, i: nat): State<T>
    requires i <= |s.r|
  {
    State(s.a, s.r[i..] + s.r[..i])
  }

  lemma ShiftRotates<T>(f: Round<T>, t: nat, i: nat, s: State<T>)
    requires i < |s.r|
    ensures ShiftStep(f, t, Rotate(s, i)) == Rotate(Step(f, t, i, s), i + 1)
  {
    var shifted, x := Rotate(s, i).r, f(s.a, s.r[i], t).1;
    assert shifted[0] == s.r[i];
    assert shifted[1..] + [x] == s.r[i := x][i + 1..] + s.r[i := x][..i + 1];
  }

  lemma RotateWhole<T>(s: State<T>)
    ensures Rotate(s, |s.r|) == s && Rotate(s, 0) == s
  {
    assert s.r[|s.r|..] + s.r[..|s.r|] == s.r && s.r[0..] + s.r[..0] == s.r;
  }

  lemma ShiftingTurn<T>(f: Round<T>, t: nat, i: nat, shift: State<T>, shift': State<T>, p: State<T>, p': State<T>)
    requires 0 < i <= |p.r| && shift == Rotate(p, i - 1)
    requires shift' == ShiftStep(f, t, shift) && p' == Step(f, t, i - 1, p)
    ensures shift' == Rotate(p', i)
  {
    ShiftRotates(f, t, i - 1, p);
  }

  lemma {:induction false} ShiftingPass<T>(f: Round<T>, base: nat, i: nat, t: nat, from: State<T>, s: State<T>)
    requires from.r != [] && i <= |s.r| == |from.r| && t == base + i && ShiftSteps(f, base, from) == s
    ensures ShiftSteps(f, t, from) == Rotate(Pass(f, base, i, s), i)
    decreases i
  {
    if i == 0 {
      RotateWhole(s);
    } else {
      ShiftingPass(f, base, i - 1, t - 1, from, s);
      ShiftNext(f, t, from);
      PassNext(f, base, i, t, s);
      ShiftingTurn(f, t, i, ShiftSteps(f, t - 1, from), ShiftSteps(f, t, from),
                   Pass(f, base, i - 1, s), Pass(f, base, i, s));
    }
  }

  lemma TimesPlus(n: nat, j: nat)
    requires j > 0
    ensures n * j == n * (j - 1) + n
  {
  }

  lemma OnePassMore<T>(f: Round<T>, n: nat, j: nat, base: nat, t: nat, s: State<T>)
    requires |s.r| == n > 0 && 0 < j && base == n * (j - 1) && t == base + n
    requires Passes(f, n, j - 1, s) == ShiftSteps(f, base, s)
    ensures Passes(f, n, j, s) == ShiftSteps(f, t, s)
  {
    var s0 := Passes(f, n, j - 1, s);
    ShiftingPass(f, base, n, t, s, s0);
    RotateWhole(Pass(f, base, n, s0));
  }

  /** After any number of passes both formulations of the standard hold the same registers. */
  lemma {:induction false} IndexingAgreesWithShifting<T>(f: Round<T>, n: nat, j: nat, t: nat, s: State<T>)
    requires |s.r| == n > 0 && t == n * j
    ensures Passes(f, n, j, s) == ShiftSteps(f, t, s)
    decreases j
  {
    if j > 0 {
      TimesPlus(n, j);
      IndexingAgreesWithShifting(f, n, j - 1, t - n, s);
      OnePassMore(f, n, j, t - n, t, s);
    }
  }

  /** One step of the shifting form backwards: the last register is used and goes to the front. */
  function ShiftBack<T>(g: Round<T>, t: nat, s: State<T>): (s': State<T>)
    requires s.r != []
    ensures |s'.r| == |s.r|
  {
    var last := |s.r| - 1;
    State(g(s.a, s.r[last], t).0, [g(s.a, s.r[last], t).1] + s.r[..last])
  }

  ghost function ShiftBacks<T>(g: Round<T>, t: nat, s: State<T>): (s': State<T>)
    requires s.r != []
    ensures |s'.r| == |s.r|
    decreases t
  {
    if t == 0 then s else ShiftBacks(g, t - 1, ShiftBack(g, t, s))
  }

  lemma {:induction false} ShiftBacksNext<T>(g: Round<T>, t: nat, s: State<T>)
    requires s.r != [] && t > 0
    ensures ShiftBacks(g, t, s) == ShiftBacks(g, t - 1, ShiftBack(g, t, s))
  {
  }

  lemma ShiftBackRotates<T>(g: Round<T>, t: nat, i: nat, s: State<T>)
    requires i < |s.r|
    ensures ShiftBack(g, t, Rotate(s, i + 1)) == Rotate(Step(g, t, i, s), i)
  {
    var shifted, x := Rotate(s, i + 1).r, g(s.a, s.r[i], t).1;
    assert shifted[|s.r| - 1] == s.r[i];
    assert [x] + shifted[..|s.r| - 1] == s.r[i := x][i..] + s.r[i := x][..i];
  }

  lemma BackTurn<T>(g: Round<T>, t: nat, i: nat, shift: State<T>, shift': State<T>, s: State<T>, s': State<T>)
    requires 0 < i <= |s.r| && shift == Rotate(s, i)
    requires shift' == ShiftBack(g, t, shift) && s' == Step(g, t, i - 1, s)
    ensures shift' == Rotate(s', i - 1)
  {
    ShiftBackRotates(g, t, i - 1, s);
  }

  lemma {:induction false} ShiftingBackPass<T>(g: Round<T>, base: nat, i: nat, t: nat, shift: State<T>, s: State<T>)
    requires s.r != [] && i <= |s.r| && t == base + i && shift == Rotate(s, i)
    ensures ShiftBacks(g, t, shift) == ShiftBacks(g, base, UnPass(g, base, i, s))
    decreases i
  {
    if i == 0 {
      RotateWhole(s);
    } else {
      var shift', s' := ShiftBack(g, t, shift), Step(g, t, i - 1, s);
      BackTurn(g, t, i, shift, shift', s, s');
      ShiftingBackPass(g, base, i - 1, t - 1, shift', s');
      OneStepBack(g, base, i, t, shift, s);
    }
  }

  lemma {:induction false} OneStepBack<T>(g: Round<T>, base: nat, i: nat, t: nat, shift: State<T>, s: State<T>)
    requires 0 < i <= |s.r| && shift.r != [] && t == base + i
    requires ShiftBacks(g, t - 1, ShiftBack(g, t, shift))
          == ShiftBacks(g, base, UnPass(g, base, i - 1, Step(g, t, i - 1, s)))
    ensures ShiftBacks(g, t, shift) == ShiftBacks(g, base, UnPass(g, base, i, s))
  {
    ShiftBacksNext(g, t, shift);
    UnPassNext(g, base, i - 1, t, s);
  }

  lemma {:induction false} OnePassBack<T>(g: Round<T>, n: nat, j: nat, base: nat, t: nat, s: State<T>)
    requires |s.r| == n > 0 && 0 < j && base == n * (j - 1) && t == base + n
    requires UnPasses(g, n, j - 1, UnPass(g, base, n, s)) == ShiftBacks(g, base, UnPass(g, base, n, s))
    ensures UnPasses(g, n, j, s) == ShiftBacks(g, t, s)
  {
    RotateWhole(s);
    ShiftingBackPass(g, base, n, t, s, s);
    UnPassesNext(g, n, j - 1, base, s);
  }

  /** Backwards, too, both formulations leave the same registers. */
  lemma {:induction false} UnwindingAgreesWithShifting<T>(g: Round<T>, n: nat, j: nat, t: nat, s: State<T>)
    requires |s.r| == n > 0 && t == n * j
    ensures UnPasses(g, n, j, s) == ShiftBacks(g, t, s)
    decreases j
  {
    if j > 0 {
      TimesPlus(n, j);
      UnwindingAgreesWithShifting(g, n, j - 1, t - n, UnPass(g, t - n, n, s));
      OnePassBack(g, n, j, t - n, t, s);
    }
  }

  /** Rounds that agree everywhere move the registers alike. */
  lemma {:induction false} ShiftsAlike<T(!new)>(f: Round<T>, f': Round<T>, t: nat, s: State<T>)
    requires s.r != [] && forall a, x, k :: f(a, x, k) == f'(a, x, k)
    ensures ShiftSteps(f, t, s) == ShiftSteps(f', t, s)
    decreases t
  {
    if t > 0 {
      ShiftsAlike(f, f', t - 1, s);
    }
  }

  lemma {:induction false} BacksAlike<T(!new)>(g: Round<T>, g': Round<T>, t: nat, s: State<T>)
    requires s.r != [] && forall a, x, k :: g(a, x, k) == g'(a, x, k)
    ensures ShiftBacks(g, t, s) == ShiftBacks(g', t, s)
    decreases t
  {
    if t > 0 {
      BacksAlike(g, g', t - 1, ShiftBack(g, t, s));
    }
  }
}
