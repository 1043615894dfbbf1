/** The scanners that rewrite `$n` and `$$` in a filter into a backend's own placeholders. */
module Placeholders {
  import opened Prelude

  predicate IsDigit(ch: char) {
    '0' <= ch <= '9'
  }

  predicate AllDigits(s: string) {
    forall i | 0 <= i < |s| :: IsDigit(s[i])
  }

  function DigitChar(d: nat): (ch: char)
    requires d < 10
    ensures IsDigit(ch)
  {
    ('0' as int + d) as char
  }

  function DigitValue(ch: char): nat
    requires IsDigit(ch)
  {
    ch as int - '0' as int
  }

  /** Decimal printing of an argument index. */
  function Decimal(n: nat): (s: string)
    ensures |s| > 0 && AllDigits(s)
  {
    if n < 10 then [DigitChar(n)] else Decimal(n / 10) + [DigitChar(n % 10)]
  }

  /** Reading of a run of decimal digits. */
  function ReadDecimal(s: string): nat
    requires AllDigits(s)
  {
    if s == [] then 0 else ReadDecimal(s[..|s| - 1]) * 10 + DigitValue(s[|s| - 1])
  }

  lemma {:induction false} DecimalRoundTrip(n: nat)
    ensures ReadDecimal(Decimal(n)) == n
  {
    var s := Decimal(n);
    if n < 10 {
      assert s[..0] == [];
    } else {
      DecimalRoundTrip(n / 10);
      assert s[..|s| - 1] == Decimal(n / 10);
    }
  }

  /** Length of the run of digits at the start of s. */
  function DigitRun(s: string): (k: nat)
    ensures k <= |s| && forall i | 0 <= i < k :: IsDigit(s[i])
    ensures k < |s| ==> !IsDigit(s[k])
  {
    if s == [] || !IsDigit(s[0]) then 0 else 1 + DigitRun(s[1..])
  }

  lemma {:induction false} DigitRunOf(digits: string, rest: string)
    requires AllDigits(digits)
    requires rest == [] || !IsDigit(rest[0])
    ensures DigitRun(digits + rest) == |digits|
  {
    if digits == [] {
      assert digits + rest == rest;
    } else {
      assert (digits + rest)[1..] == digits[1..] + rest;
      DigitRunOf(digits[1..], rest);
    }
  }

  /**
   * The text after scanning: `$$` takes the running index, `$n` takes n counted from start,
   * every placeholder advances the running index, and any other `$` is kept.
   */
  function Rewrite(s: string, start: int, index: int, placeholder: int -> string): string
    decreases |s|
  {
    if s == [] then []
    else if s[0] != '$' then [s[0]] + Rewrite(s[1..], start, index, placeholder)
    else if |s| > 1 && s[1] == '$' then placeholder(index) + Rewrite(s[2..], start, index + 1, placeholder)
    else if |s| > 1 && IsDigit(s[1]) then
      var end := 1 + DigitRun(s[1..]);
      placeholder(ReadDecimal(s[1..end]) + start - 1) + Rewrite(s[end..], start, index + 1, placeholder)
    else ['$'] + Rewrite(s[1..], start, index, placeholder)
  }

  lemma {:induction false} RewriteSkips(plain: string, rest: string, start: int, index: int, placeholder: int -> string)
    requires '$' !in plain
    ensures Rewrite(plain + rest, start, index, placeholder) == plain + Rewrite(rest, start, index, placeholder)
  {
    if plain == [] {
      assert plain + rest == rest;
    } else {
      assert plain[0] in plain;
      assert (plain + rest)[1..] == plain[1..] + rest;
      RewriteSkips(plain[1..], rest, start, index, placeholder);
    }
  }

  /** `str::find('$')`. */
  method FindDollar(s: string) returns (at: Option<nat>)
    ensures at.None? ==> '$' !in s
    ensures at.Some? ==> at.value < |s| && s[at.value] == '$' && '$' !in s[..at.value]
  {
    for i := 0 to |s|
      invariant '$' !in s[..i]
    {
      if s[i] == '$' {
        return Some(i);
      }
    }
    assert s == s[..|s|];
    return None;
  }

  /** End of the digit run that starts at `from`. */
  method DigitsEnd(s: string, from: nat) returns (end: nat)
    requires from < |s| && IsDigit(s[from])
    ensures from < end <= |s| && AllDigits(s[from..end]) && (end == |s| || !IsDigit(s[end]))
  {
    end := from + 1;
    while end < |s| && IsDigit(s[end])
      invariant from < end <= |s|
      invariant forall i | from <= i < end :: IsDigit(s[i])
    {
      end := end + 1;
    }
  }

  lemma Slices(s: string, offs: nat, end: nat)
    requires offs < end <= |s|
    ensures s == s[..offs] + s[offs..]
    ensures s[offs..][1..end - offs] == s[offs + 1..end] && s[offs..][end - offs..] == s[end..]
    ensures s[offs..][1..] == s[offs + 1..] && s[..offs + 1] == s[..offs] + [s[offs]]
  {
  }

  lemma DollarSplit(s: string, offs: nat, end: nat)
    requires offs < end <= |s| && s[offs] == '$'
    ensures s[offs..] == "$" + s[offs + 1..end] + s[end..]
  {
  }

  /** A turn of the scan loop at `$$`. */
  lemma RewriteAnonymous(s: string, offs: nat, start: int, index: int, placeholder: int -> string)
    requires offs + 1 < |s| && s[offs] == '$' && '$' !in s[..offs] && s[offs + 1] == '$'
    ensures Rewrite(s, start, index, placeholder) ==
            s[..offs] + (placeholder(index) + Rewrite(s[offs + 2..], start, index + 1, placeholder))
  {
    Slices(s, offs, offs + 2);
    RewriteSkips(s[..offs], s[offs..], start, index, placeholder);
  }

  lemma RewriteDigits(digits: string, rest: string, start: int, index: int, placeholder: int -> string)
    requires digits != [] && AllDigits(digits) && (rest == [] || !IsDigit(rest[0]))
    ensures Rewrite("$" + digits + rest, start, index, placeholder)
         == placeholder(ReadDecimal(digits) + start - 1) + Rewrite(rest, start, index + 1, placeholder)
  {
    var s := "$" + digits + rest;
    var end := 1 + |digits|;
    assert s[1..] == digits + rest && s[1..end] == digits && s[end..] == rest;
    assert s[1] == digits[0];
    DigitRunOf(digits, rest);
  }

  /** The same, for a text known only to be a dollar sign and digits. */
  lemma RewriteDollar(text: string, digits: string, rest: string, start: int, index: int, placeholder: int -> string)
    requires text == "$" + digits && digits != [] && AllDigits(digits) && (rest == [] || !IsDigit(rest[0]))
    ensures Rewrite(text + rest, start, index, placeholder)
         == placeholder(ReadDecimal(digits) + start - 1) + Rewrite(rest, start, index + 1, placeholder)
  {
    RewriteDigits(digits, rest, start, index, placeholder);
  }

  /** A turn of the scan loop at `$` and a number. */
  lemma RewriteNumbered(s: string, offs: nat, end: nat, start: int, index: int, placeholder: int -> string)
    requires offs + 1 < end <= |s| && s[offs] == '$' && '$' !in s[..offs]
    requires AllDigits(s[offs + 1..end]) && (end == |s| || !IsDigit(s[end]))
    ensures Rewrite(s, start, index, placeholder) ==
            s[..offs] + (placeholder(ReadDecimal(s[offs + 1..end]) + start - 1)
                         + Rewrite(s[end..], start, index + 1, placeholder))
  {
    Slices(s, offs, end);
    RewriteSkips(s[..offs], s[offs..], start, index, placeholder);
    DollarSplit(s, offs, end);
    RewriteDigits(s[offs + 1..end], s[end..], start, index, placeholder);
  }

  lemma RewriteLoneDollar(tail: string, start: int, index: int, placeholder: int -> string)
    requires tail != [] && tail[0] == '$' && (|tail| == 1 || (tail[1] != '$' && !IsDigit(tail[1])))
    ensures Rewrite(tail, start, index, placeholder) == ['$'] + Rewrite(tail[1..], start, index, placeholder)
  {
  }

  /** A turn of the scan loop at a `$` that starts no placeholder: it is copied. */
  lemma RewriteStray(s: string, offs: nat, start: int, index: int, placeholder: int -> string)
    requires offs < |s| && s[offs] == '$' && '$' !in s[..offs]
    requires offs + 1 == |s| || (s[offs + 1] != '$' && !IsDigit(s[offs + 1]))
    ensures Rewrite(s, start, index, placeholder) == s[..offs + 1] + Rewrite(s[offs + 1..], start, index, placeholder)
  {
    Slices(s, offs, offs + 1);
    RewriteSkips(s[..offs], s[offs..], start, index, placeholder);
    RewriteLoneDollar(s[offs..], start, index, placeholder);
  }

  lemma RewriteEnd(s: string, start: int, index: int, placeholder: int -> string)
    requires '$' !in s
    ensures Rewrite(s, start, index, placeholder) == s
  {
    RewriteSkips(s, [], start, index, placeholder);
    assert s + [] == s;
  }

  lemma Regroup(a: string, b: string, c: string, d: string)
    ensures a + (b + (c + d)) == a + b + c + d
  {
  }

  method ReplaceArgPlaceholders(filter: string, start: int, placeholder: int -> string) returns (buffer: string)
    ensures buffer == Rewrite(filter, start, start, placeholder)
  {
    var index := start;
    buffer := "";
    var remain := filter;
    var found: Option<nat> := FindDollar(remain);
    while found.Some?
      invariant found.None? ==> '$' !in remain
      invariant found.Some? ==>
        found.value < |remain| && remain[found.value] == '$' && '$' !in remain[..found.value]
      invariant buffer + Rewrite(remain, start, index, placeholder) == Rewrite(filter, start, start, placeholder)
      decreases |remain|
    {
      var offs := found.value;
      if offs + 1 < |remain| && remain[offs + 1] == '$' {
        RewriteAnonymous(remain, offs, start, index, placeholder);
        Regroup(buffer, remain[..offs], placeholder(index), Rewrite(remain[offs + 2..], start, index + 1, placeholder));
        buffer := buffer + remain[..offs] + placeholder(index);
        remain := remain[offs + 2..];
        index := index + 1;
      } else if offs + 1 < |remain| && IsDigit(remain[offs + 1]) {
        var end := DigitsEnd(remain, offs + 1);
        RewriteNumbered(remain, offs, end, start, index, placeholder);
        var sub := placeholder(ReadDecimal(remain[offs + 1..end]) + start - 1);
        Regroup(buffer, remain[..offs], sub, Rewrite(remain[end..], start, index + 1, placeholder));
        buffer := buffer + remain[..offs] + sub;
        remain := remain[end..];
        index := index + 1;
      } else {
        RewriteStray(remain, offs, start, index, placeholder);
        buffer := buffer + remain[..offs + 1];
        remain := remain[offs + 1..];
      }
      found := FindDollar(remain);
    }
    RewriteEnd(remain, start, index, placeholder);
    buffer := buffer + remain;
  }

  /** ODBC has positional placeholders only. */
  function Positional(index: int): string {
    "?"
  }

  method ReplaceOdbcArgPlaceholders(filter: string) returns (buffer: string)
    ensures buffer == Rewrite(filter, 1, 1, Positional)
  {
    ghost var index := 1;
    buffer := "";
    var remain := filter;
    var found: Option<nat> := FindDollar(remain);
    while found.Some?
      invariant found.None? ==> '$' !in remain
      invariant found.Some? ==>
        found.value < |remain| && remain[found.value] == '$' && '$' !in remain[..found.value]
      invariant buffer + Rewrite(remain, 1, index, Positional) == Rewrite(filter, 1, 1, Positional)
      decreases |remain|
    {
      var offs := found.value;
      if offs + 1 < |remain| && remain[offs + 1] == '$' {
        RewriteAnonymous(remain, offs, 1, index, Positional);
        Regroup(buffer, remain[..offs], "?", Rewrite(remain[offs + 2..], 1, index + 1, Positional));
        buffer := buffer + remain[..offs] + "?";
        remain := remain[offs + 2..];
        index := index + 1;
      } else if offs + 1 < |remain| && IsDigit(remain[offs + 1]) {
        var end := DigitsEnd(remain, offs + 1);
        RewriteNumbered(remain, offs, end, 1, index, Positional);
        Regroup(buffer, remain[..offs], "?", Rewrite(remain[end..], 1, index + 1, Positional));
        buffer := buffer + remain[..offs] + "?";
        remain := remain[end..];
        index := index + 1;
      } else {
        RewriteStray(remain, offs, 1, index, Positional);
        buffer := buffer + remain[..offs + 1];
        remain := remain[offs + 1..];
      }
      found := FindDollar(remain);
    }
    RewriteEnd(remain, 1, index, Positional);
    buffer := buffer + remain;
  }
}
