/**
 * Python `str` operations the scripts rely on: `startswith`, `endswith`,
 * `replace`, `strip`, `int(...)` on a decimal string and `f"{n}"` on a
 * non-negative integer. Strings are sequences of characters.
 */
module Text {
  import opened Wrappers

  predicate StartsWith(s: string, prefix: string) {
    |prefix| <= |s| && s[..|prefix|] == prefix
  }

  predicate EndsWith(s: string, suffix: string) {
    |suffix| <= |s| && s[|s| - |suffix|..] == suffix
  }

  /** `pat in s`: the pattern occurs somewhere in `s`. */
  predicate Occurs(s: string, pat: string)
    decreases |s|
  {
    StartsWith(s, pat) || (s != [] && Occurs(s[1..], pat))
  }

  /** A string shorter than the pattern cannot contain it. */
  lemma {:induction false} OccursShort(s: string, pat: string)
    requires |s| < |pat|
    ensures !Occurs(s, pat)
    decreases |s|
  {
    if s != [] {
      OccursShort(s[1..], pat);
    }
  }

  lemma EndsWithConcat(s: string, t: string)
    ensures EndsWith(s + t, t)
  {
    assert (s + t)[|s + t| - |t|..] == t;
  }

  /** A string that ends with `a + b` ends with `b`. */
  lemma EndsWithLonger(s: string, a: string, b: string)
    requires EndsWith(s, a + b)
    ensures EndsWith(s, b)
  {
    assert s[|s| - |b|..] == s[|s| - |a + b|..][|a|..];
  }

  lemma EndsWithTrans(s: string, t: string, u: string)
    requires EndsWith(s, t) && EndsWith(t, u)
    ensures EndsWith(s, u)
  {
    assert s[|s| - |u|..] == s[|s| - |t|..][|t| - |u|..];
  }

  /** `s + t` ends with `u` exactly when `t` does, provided `t` is at least as long as `u`. */
  lemma EndsWithConcatLong(s: string, t: string, u: string)
    requires |u| <= |t|
    ensures EndsWith(s + t, u) <==> EndsWith(t, u)
  {
    assert (s + t)[|s + t| - |u|..] == t[|t| - |u|..];
  }

  /** Two strings that end with different characters `k` places from the end differ in their endings. */
  lemma EndingsDiffer(s: string, u: string, k: nat)
    requires 0 < k <= |u| && k <= |s| && s[|s| - k] != u[|u| - k]
    ensures !EndsWith(s, u)
  {
    if |u| <= |s| {
      assert s[|s| - |u|..][|u| - k] == s[|s| - k];
    }
  }

  /** `s + t` does not end with `u` when `t` and `u` end in different characters. */
  lemma LastCharDiffers(s: string, t: string, u: string)
    requires t != [] && u != [] && t[|t| - 1] != u[|u| - 1]
    ensures !EndsWith(s + t, u)
  {
    assert (s + t)[|s + t| - 1] == t[|t| - 1];
  }

  /** A character in neither part is not in their concatenation. */
  lemma NotInConcat(a: string, b: string, c: char)
    requires c !in a && c !in b
    ensures c !in a + b
  {
    assert forall x :: x in a + b ==> x in a || x in b;
  }

  /** `s + t` starts with `u` exactly when `s` does, provided `s` is at least as long as `u`. */
  lemma StartsWithConcatLong(s: string, t: string, u: string)
    requires |u| <= |s|
    ensures StartsWith(s + t, u) <==> StartsWith(s, u)
  {
    assert (s + t)[..|u|] == s[..|u|];
  }

  /**
   * Python's `s.replace(pat, rep)`: every non-overlapping occurrence of `pat`,
   * scanning from the left, is replaced by `rep`. An empty pattern matches
   * before every character and at the end.
   */
  function ReplaceAll(s: string, pat: string, rep: string): string
    decreases |s|
  {
    if pat == [] then
      (if s == [] then rep else rep + [s[0]] + ReplaceAll(s[1..], pat, rep))
    else if |s| < |pat| then s
    else if s[..|pat|] == pat then rep + ReplaceAll(s[|pat|..], pat, rep)
    else [s[0]] + ReplaceAll(s[1..], pat, rep)
  }

  /** Replacing a pattern that does not occur changes nothing. */
  lemma {:induction false} ReplaceAllAbsent(s: string, pat: string, rep: string)
    requires pat != [] && !Occurs(s, pat)
    ensures ReplaceAll(s, pat, rep) == s
    decreases |s|
  {
    if |s| >= |pat| {
      assert s[..|pat|] != pat;
      ReplaceAllAbsent(s[1..], pat, rep);
      assert s == [s[0]] + s[1..];
    }
  }

  /**
   * When `p + pat` first contains `pat` at its very end, replacing `pat` in
   * `p + pat + rest` keeps `p`, rewrites that occurrence and goes on in `rest`.
   */
  lemma {:induction false} ReplaceAllFirst(p: string, pat: string, rep: string, rest: string)
    requires pat != [] && !Occurs(p + pat[..|pat| - 1], pat)
    ensures ReplaceAll(p + pat + rest, pat, rep) == p + rep + ReplaceAll(rest, pat, rep)
    decreases |p|
  {
    if p == [] {
      ReplaceAllAtPattern(pat, rep, rest);
    } else {
      ReplaceAllFirstStep(p, pat, rep, rest);
      ReplaceAllFirst(p[1..], pat, rep, rest);
      ReplaceAllFirstCons(p, pat, rep, rest);
    }
  }

  /** Puts the kept first character back in front of the rewritten remainder. */
  lemma ReplaceAllFirstCons(p: string, pat: string, rep: string, rest: string)
    requires pat != [] && p != [] && !Occurs(p + pat[..|pat| - 1], pat)
    requires ReplaceAll(p[1..] + pat + rest, pat, rep) == p[1..] + rep + ReplaceAll(rest, pat, rep)
    ensures ReplaceAll(p + pat + rest, pat, rep) == p + rep + ReplaceAll(rest, pat, rep)
  {
    ReplaceAllFirstStep(p, pat, rep, rest);
    var t := rep + ReplaceAll(rest, pat, rep);
    assert p[1..] + rep + ReplaceAll(rest, pat, rep) == p[1..] + t;
    assert p + rep + ReplaceAll(rest, pat, rep) == p + t;
    ConsSplit(p, t);
  }

  lemma ConsSplit(p: string, t: string)
    requires p != []
    ensures [p[0]] + (p[1..] + t) == p + t
  {
    assert p == [p[0]] + p[1..];
  }

  /** A string that starts with the pattern has that occurrence rewritten first. */
  lemma ReplaceAllAtPattern(pat: string, rep: string, rest: string)
    requires pat != []
    ensures ReplaceAll([] + pat + rest, pat, rep) == [] + rep + ReplaceAll(rest, pat, rep)
  {
    assert [] + pat + rest == pat + rest;
    var s := pat + rest;
    assert s[..|pat|] == pat;
    assert s[|pat|..] == rest;
  }

  /** One step of `ReplaceAllFirst`: the first character of a non-empty `p` is kept. */
  lemma ReplaceAllFirstStep(p: string, pat: string, rep: string, rest: string)
    requires pat != [] && p != [] && !Occurs(p + pat[..|pat| - 1], pat)
    ensures !Occurs(p[1..] + pat[..|pat| - 1], pat)
    ensures ReplaceAll(p + pat + rest, pat, rep) == [p[0]] + ReplaceAll(p[1..] + pat + rest, pat, rep)
  {
    var s := p + pat + rest;
    var q := p + pat[..|pat| - 1];
    assert q[..|pat|] == s[..|pat|];
    assert q[1..] == p[1..] + pat[..|pat| - 1];
    assert s[1..] == p[1..] + pat + rest;
    ReplaceAllSkip(s, pat, rep);
  }

  /** A string that does not start with the pattern keeps its first character. */
  lemma ReplaceAllSkip(s: string, pat: string, rep: string)
    requires pat != [] && |s| >= |pat| && s[..|pat|] != pat
    ensures ReplaceAll(s, pat, rep) == [s[0]] + ReplaceAll(s[1..], pat, rep)
  {
  }

  /**
   * When `p + pat` contains `pat` only at its very end, replacing `pat`
   * rewrites that last occurrence and nothing else.
   */
  lemma ReplaceAllTrailing(p: string, pat: string, rep: string)
    requires pat != [] && !Occurs(p + pat[..|pat| - 1], pat)
    ensures ReplaceAll(p + pat, pat, rep) == p + rep
  {
    ReplaceAllFirst(p, pat, rep, []);
    assert p + pat + [] == p + pat;
    assert ReplaceAll([], pat, rep) == [];
  }

  // ---- decimal digits -------------------------------------------------------

  predicate IsDigit(c: char) { '0' <= c <= '9' }

  predicate AllDigits(s: string) {
    forall i :: 0 <= i < |s| ==> IsDigit(s[i])
  }

  function DigitChar(d: nat): (c: char)
    requires d < 10
    ensures IsDigit(c)
  {
    ('0' as int + d) as char
  }

  function DigitValue(c: char): (d: nat)
    requires IsDigit(c)
    ensures d < 10
  {
    c as int - '0' as int
  }

  /** The value of a string of decimal digits, most significant first. */
  function DigitsValue(s: string): nat
    requires AllDigits(s)
  {
    if s == [] then 0 else DigitsValue(s[..|s| - 1]) * 10 + DigitValue(s[|s| - 1])
  }

  /** Python's `str(n)` / `f"{n}"` for `n >= 0`: the shortest decimal numeral. */
  function NatToString(n: nat): (s: string)
    ensures s != [] && AllDigits(s)
    ensures |s| > 1 ==> s[0] != '0'
    decreases n
  {
    if n < 10 then [DigitChar(n)] else NatToString(n / 10) + [DigitChar(n % 10)]
  }

  /** Reading back the numeral `NatToString` prints gives the number printed. */
  lemma {:induction false} DigitsValueOfNatToString(n: nat)
    ensures DigitsValue(NatToString(n)) == n
    decreases n
  {
    var s := NatToString(n);
    if n >= 10 {
      DigitsValueOfNatToString(n / 10);
      assert s[..|s| - 1] == NatToString(n / 10);
    }
  }

  // ---- whitespace and int(...) ----------------------------------------------

  /** The whitespace that Python's `int()` skips around a numeral. */
  predicate IsSpace(c: char) {
    c == ' ' || c == '\t' || c == '\n' || c == '\r' || c == '\U{B}' || c == '\U{C}'
  }

  function StripLeft(s: string): (r: string)
    ensures r == [] || !IsSpace(r[0])
    ensures |r| <= |s| && r == s[|s| - |r|..]
    decreases |s|
  {
    if s != [] && IsSpace(s[0]) then StripLeft(s[1..]) else s
  }

  function StripRight(s: string): (r: string)
    ensures r == [] || !IsSpace(r[|r| - 1])
    ensures |r| <= |s| && r == s[..|r|]
    decreases |s|
  {
    if s != [] && IsSpace(s[|s| - 1]) then StripRight(s[..|s| - 1]) else s
  }

  /**
   * Python's `s.strip()` over the whitespace of `IsSpace`; the further
   * characters `str.strip()` removes are not modelled.
   */
  function Strip(s: string): string {
    StripRight(StripLeft(s))
  }

  /**
   * Python's `int(s)` on a string: surrounding whitespace is ignored, an
   * optional sign is followed by at least one decimal digit; anything else
   * raises `ValueError`, modelled as `None`.
   */
  function ParseInt(s: string): (r: Option<int>)
    ensures r.Some? ==> Strip(s) != []
  {
    var t := Strip(s);
    if |t| >= 2 && (t[0] == '-' || t[0] == '+') && AllDigits(t[1..]) then
      var v: int := DigitsValue(t[1..]);
      Some(if t[0] == '-' then -v else v)
    else if t != [] && AllDigits(t) then Some(DigitsValue(t))
    else None
  }

  lemma StripDigits(s: string)
    requires s != [] && AllDigits(s)
    ensures Strip(s) == s
  {
    assert !IsSpace(s[0]);
    assert StripLeft(s) == s;
    assert !IsSpace(s[|s| - 1]);
  }

  /** `int(str(n)) == n`: parsing what `f"{n}"` prints gives `n` back. */
  lemma ParseIntOfNatToString(n: nat)
    ensures ParseInt(NatToString(n)) == Some(n)
  {
    var s := NatToString(n);
    StripDigits(s);
    assert !(s[0] == '-' || s[0] == '+');
    DigitsValueOfNatToString(n);
  }
}
