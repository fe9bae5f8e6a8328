/** String helpers of the DAC: `stripPrefix` and `stripSuffix` from
    src/utils.ts, together with the three JavaScript string primitives the
    DAC relies on (`String.prototype.slice`, `String(n)` for a page number and
    `String.prototype.replace` with a string pattern). */
module Strings {

  datatype Option<T> = None | Some(value: T)

  /** `str.startsWith(prefix)`: the first characters of `str` are those of
      `prefix`, one by one. */
  function StartsWith(str: string, prefix: string): (r: bool)
    ensures r <==> |prefix| <= |str| && forall i :: 0 <= i < |prefix| ==> str[i] == prefix[i]
    ensures r ==> str == prefix + str[|prefix|..]
  {
    |prefix| <= |str| && str[..|prefix|] == prefix
  }

  /** `str.endsWith(suffix)`: the last characters of `str` are those of
      `suffix`, one by one. */
  function EndsWith(str: string, suffix: string): (r: bool)
    ensures r <==> |suffix| <= |str| && forall i :: 0 <= i < |suffix| ==> str[|str| - |suffix| + i] == suffix[i]
    ensures r ==> str == str[..|str| - |suffix|] + suffix
  {
    |suffix| <= |str| && str[|str| - |suffix|..] == suffix
  }

  /** How `slice` resolves one of its arguments: a negative index counts back
      from the end, and the result is clamped to `[0, len]`. Since integers
      have no signed zero, `-0` is `0` here exactly as JavaScript treats it. */
  function SliceIndex(k: int, len: nat): (r: nat)
    ensures r <= len
    ensures 0 <= k <= len ==> r == k
    ensures -(len as int) <= k < 0 ==> r == len + k
    ensures k > len ==> r == len
    ensures k < -(len as int) ==> r == 0
  {
    if k < 0 then (if len + k < 0 then 0 else len + k)
    else if k < len then k
    else len
  }

  /** `str.slice(start, end)`: the characters between the two resolved
      indices, or the empty string when they cross. */
  function Slice(str: string, start: int, end: int): (r: string)
    ensures |r| <= |str|
    ensures SliceIndex(start, |str|) <= SliceIndex(end, |str|) ==>
              r == str[SliceIndex(start, |str|)..SliceIndex(end, |str|)]
    ensures SliceIndex(end, |str|) <= SliceIndex(start, |str|) ==> r == ""
  {
    var from, to := SliceIndex(start, |str|), SliceIndex(end, |str|);
    if from < to then str[from..to] else ""
  }

  /** `stripPrefix(str, prefix)`: drops `prefix` when `str` starts with it.
      The result is always a suffix of `str`. */
  function StripPrefix(str: string, prefix: string): (r: string)
    ensures StartsWith(str, prefix) ==> prefix + r == str
    ensures !StartsWith(str, prefix) ==> r == str
    ensures |r| <= |str| && r == str[|str| - |r|..]
  {
    if StartsWith(str, prefix) then Slice(str, |prefix|, |str|) else str
  }

  /** `stripSuffix(str, suffix)`: `str.slice(0, -suffix.length)` when `str`
      ends with `suffix`. For the empty suffix, `endsWith` holds and the slice
      is `slice(0, -0)`, that is `slice(0, 0)`, so the result is empty rather
      than `str`. The result is always a prefix of `str`. */
  function StripSuffix(str: string, suffix: string): (r: string)
    ensures suffix != "" && EndsWith(str, suffix) ==> r + suffix == str
    ensures !EndsWith(str, suffix) ==> r == str
    ensures suffix == "" ==> r == ""
    ensures |r| <= |str| && r == str[..|r|]
  {
    if EndsWith(str, suffix) then Slice(str, 0, -|suffix|) else str
  }

  // ---------------------------------------------------------------------
  // Decimal rendering of a page number: `String(n)`

  predicate IsDigit(c: char) {
    '0' <= c <= '9'
  }

  predicate AllDigits(s: string) {
    forall i :: 0 <= i < |s| ==> IsDigit(s[i])
  }

  function DigitChar(d: nat): (c: char)
    requires d < 10
    ensures IsDigit(c)
  {
    ('0' as int + d) as char
  }

  function DigitValue(c: char): (d: nat)
    requires IsDigit(c)
    ensures d < 10
  {
    c as int - '0' as int
  }

  /** `String(n)` for a non-negative integer: its decimal digits, most
      significant first, without leading zeros. */
  function NatToString(n: nat): (s: string)
    ensures |s| > 0 && AllDigits(s)
    ensures s[0] == '0' ==> n == 0
    decreases n
  {
    if n < 10 then [DigitChar(n)] else NatToString(n / 10) + [DigitChar(n % 10)]
  }

  /** Reads a string of decimal digits back as a number; the reference
      against which `NatToString` is checked. */
  function ParseNat(s: string): nat
    requires AllDigits(s)
    decreases |s|
  {
    if s == "" then 0 else ParseNat(s[..|s| - 1]) * 10 + DigitValue(s[|s| - 1])
  }

  lemma {:induction false} ParseNatToString(n: nat)
    ensures ParseNat(NatToString(n)) == n
    decreases n
  {
    var s := NatToString(n);
    if n < 10 {
      assert s[..|s| - 1] == "";
    } else {
      ParseNatToString(n / 10);
      assert s[..|s| - 1] == NatToString(n / 10);
    }
  }

  /** Distinct page numbers render as distinct strings. */
  lemma NatToStringInjective(m: nat, n: nat)
    ensures NatToString(m) == NatToString(n) ==> m == n
  {
    ParseNatToString(m);
    ParseNatToString(n);
  }

  // ---------------------------------------------------------------------
  // First-occurrence search and replacement: `indexOf` and `replace`

  predicate OccursAt(s: string, pat: string, i: int) {
    0 <= i && i + |pat| <= |s| && s[i..i + |pat|] == pat
  }

  function Shift(o: Option<nat>, k: nat): Option<nat> {
    match o
    case None => None
    case Some(i) => Some(i + k)
  }

  /** `s.indexOf(pat)`: the first position at which `pat` occurs, or `None`
      (JavaScript's `-1`) when it occurs nowhere. `IndexOfOccurs` and
      `IndexOfIsFirst` show the position is an occurrence and the least
      one. */
  function IndexOf(s: string, pat: string): (r: Option<nat>)
    ensures r.Some? ==> r.value + |pat| <= |s|
    decreases |s|
  {
    if OccursAt(s, pat, 0) then Some(0)
    else if s == "" then None
    else Shift(IndexOf(s[1..], pat), 1)
  }

  /** An occurrence at position `j + 1` of `s` is one at `j` of its tail. */
  lemma OccursAtTail(s: string, pat: string, j: nat)
    requires |s| > 0
    ensures OccursAt(s, pat, j + 1) == OccursAt(s[1..], pat, j)
  {
    if j + 1 + |pat| <= |s| {
      assert s[j + 1..j + 1 + |pat|] == s[1..][j..j + |pat|];
    }
  }

  /** `IndexOf` answers a position where `pat` occurs. */
  lemma {:induction false} IndexOfOccurs(s: string, pat: string)
    ensures IndexOf(s, pat).Some? ==> OccursAt(s, pat, IndexOf(s, pat).value)
    decreases |s|
  {
    if !OccursAt(s, pat, 0) && s != "" && IndexOf(s, pat).Some? {
      IndexOfOccurs(s[1..], pat);
      OccursAtTail(s, pat, IndexOf(s[1..], pat).value);
    }
  }

  /** `IndexOf` finds the least occurrence, and finds none only when there
      is none. */
  lemma {:induction false} IndexOfIsFirst(s: string, pat: string, j: nat)
    ensures IndexOf(s, pat).Some? && j < IndexOf(s, pat).value ==> !OccursAt(s, pat, j)
    ensures IndexOf(s, pat).None? ==> !OccursAt(s, pat, j)
    decreases |s|
  {
    if !OccursAt(s, pat, 0) && s != "" && j > 0 {
      OccursAtTail(s, pat, j - 1);
      IndexOfIsFirst(s[1..], pat, j - 1);
    }
  }

  /** `s.replace(pat, rep)` with a string pattern: only the first occurrence
      is replaced, and `s` is returned unchanged when `pat` does not occur.
      (`rep` is taken to be free of `$` patterns, which holds for the digit
      strings the DAC passes.) */
  function ReplaceFirst(s: string, pat: string, rep: string): string
  {
    match IndexOf(s, pat)
    case None => s
    case Some(i) => s[..i] + rep + s[i + |pat|..]
  }

  lemma ShiftAdd(o: Option<nat>, j: nat, k: nat)
    ensures Shift(Shift(o, j), k) == Shift(o, j + k)
  {
  }

  /** One step of the search: past a non-occurrence at 0, the search goes
      on in the tail. */
  lemma IndexOfStep(s: string, pat: string)
    requires s != "" && !OccursAt(s, pat, 0)
    ensures IndexOf(s, pat) == Shift(IndexOf(s[1..], pat), 1)
  {
  }

  /** The empty string holds no non-empty pattern. */
  lemma IndexOfEmpty(pat: string)
    requires |pat| > 0
    ensures IndexOf("", pat) == None
  {
  }

  lemma ShiftZero(o: Option<nat>)
    ensures Shift(o, 0) == o
  {
  }

  /** With `b[0]` outside `pat`, an occurrence at 0 of `a + b` is one of
      `a`. */
  lemma OccursAtSeam(a: string, b: string, pat: string)
    requires |pat| > 0 && |b| > 0 && b[0] !in pat
    ensures OccursAt(a + b, pat, 0) == OccursAt(a, pat, 0)
  {
    var s := a + b;
    if |pat| <= |a| {
      assert s[..|pat|] == a[..|pat|];
    } else if |pat| <= |s| {
      assert pat[|a|] in pat;
      assert s[..|pat|][|a|] == b[0];
    }
  }

  /** When `b` starts with a character that cannot begin or continue `pat`,
      no occurrence of `pat` in `a + b` straddles the seam: the first
      occurrence is `a`'s own, or else `b`'s shifted past `a`. */
  lemma {:induction false} IndexOfConcat(a: string, b: string, pat: string)
    requires |pat| > 0 && |b| > 0 && b[0] !in pat
    ensures IndexOf(a, pat).Some? ==> IndexOf(a + b, pat) == IndexOf(a, pat)
    ensures IndexOf(a, pat).None? ==> IndexOf(a + b, pat) == Shift(IndexOf(b, pat), |a|)
    decreases |a|
  {
    OccursAtSeam(a, b, pat);
    if a == "" {
      assert a + b == b;
      IndexOfEmpty(pat);
      ShiftZero(IndexOf(b, pat));
    } else if !OccursAt(a, pat, 0) {
      var s := a + b;
      IndexOfStep(s, pat);
      IndexOfStep(a, pat);
      assert s[1..] == a[1..] + b;
      IndexOfConcat(a[1..], b, pat);
      ShiftAdd(IndexOf(b, pat), |a| - 1, 1);
    }
  }

  /** A prefix containing no occurrence of `pat`'s first character is
      skipped by the search. */
  lemma {:induction false} IndexOfSkip(c: string, x: string, pat: string)
    requires |pat| > 0 && pat[0] !in c
    ensures IndexOf(c + x, pat) == Shift(IndexOf(x, pat), |c|)
    decreases |c|
  {
    var s := c + x;
    if c == "" {
      assert s == x;
      ShiftZero(IndexOf(x, pat));
    } else {
      assert c[0] in c;
      assert s[0] == c[0];
      assert !OccursAt(s, pat, 0);
      IndexOfStep(s, pat);
      assert s[1..] == c[1..] + x;
      assert pat[0] !in c[1..];
      IndexOfSkip(c[1..], x, pat);
      ShiftAdd(IndexOf(x, pat), |c| - 1, 1);
    }
  }

  /** `ReplaceFirst` at a known first occurrence. */
  lemma ReplaceFirstAt(s: string, pat: string, rep: string, i: nat)
    requires IndexOf(s, pat) == Some(i)
    ensures i + |pat| <= |s|
    ensures ReplaceFirst(s, pat, rep) == s[..i] + rep + s[i + |pat|..]
  {
  }

  /** `replace` leaves a string without the pattern as it is; otherwise it
      keeps the text before and after the first occurrence and swaps the
      pattern for `rep`. */
  lemma ReplaceFirstKeepsAround(s: string, pat: string, rep: string)
    ensures IndexOf(s, pat).None? ==> ReplaceFirst(s, pat, rep) == s
    ensures IndexOf(s, pat).Some? ==>
      var i, r := IndexOf(s, pat).value, ReplaceFirst(s, pat, rep);
      |r| == |s| - |pat| + |rep| && r[..i] == s[..i] && r[i..i + |rep|] == rep && r[i + |rep|..] == s[i + |pat|..]
  {
    if IndexOf(s, pat).Some? {
      ReplaceFirstAt(s, pat, rep, IndexOf(s, pat).value);
    }
  }

  lemma SpliceInHead(a: string, b: string, rep: string, i: nat, k: nat)
    requires i + k <= |a|
    ensures (a + b)[..i] + rep + (a + b)[i + k..] == a[..i] + rep + a[i + k..] + b
  {
    assert (a + b)[..i] == a[..i];
    assert (a + b)[i + k..] == a[i + k..] + b;
  }

  lemma SpliceInTail(c: string, x: string, rep: string, i: nat, k: nat)
    requires i + k <= |x|
    ensures (c + x)[..|c| + i] + rep + (c + x)[|c| + i + k..] == c + (x[..i] + rep + x[i + k..])
  {
    assert (c + x)[..|c| + i] == c + x[..i];
    assert (c + x)[|c| + i + k..] == x[i + k..];
  }

  /** Replacing in `a + b` where the first occurrence lies in `a`. */
  lemma ReplaceFirstInHead(a: string, b: string, pat: string, rep: string)
    requires |pat| > 0 && |b| > 0 && b[0] !in pat
    requires IndexOf(a, pat).Some?
    ensures ReplaceFirst(a + b, pat, rep) == ReplaceFirst(a, pat, rep) + b
  {
    IndexOfConcat(a, b, pat);
    ReplaceFirstKept(a, b, pat, rep);
  }

  /** Replacing in `a + b` when the search stops inside `a`. */
  lemma ReplaceFirstKept(a: string, b: string, pat: string, rep: string)
    requires IndexOf(a, pat).Some? && IndexOf(a + b, pat) == IndexOf(a, pat)
    ensures ReplaceFirst(a + b, pat, rep) == ReplaceFirst(a, pat, rep) + b
  {
    var i := IndexOf(a, pat).value;
    ReplaceFirstAt(a + b, pat, rep, i);
    ReplaceFirstAt(a, pat, rep, i);
    SpliceInHead(a, b, rep, i, |pat|);
  }

  /** Replacing in `a + b` where `a` holds no occurrence. */
  lemma ReplaceFirstInTail(a: string, b: string, pat: string, rep: string)
    requires |pat| > 0 && |b| > 0 && b[0] !in pat
    requires IndexOf(a, pat).None?
    ensures ReplaceFirst(a + b, pat, rep) == a + ReplaceFirst(b, pat, rep)
  {
    IndexOfConcat(a, b, pat);
    ReplaceFirstShifted(a, b, pat, rep);
  }

  /** `ReplaceFirst` when the pattern does not occur. */
  lemma ReplaceFirstNone(s: string, pat: string, rep: string)
    requires IndexOf(s, pat) == None
    ensures ReplaceFirst(s, pat, rep) == s
  {
  }

  /** Replacing in `c + x` when the search skips all of `c`. */
  lemma ReplaceFirstShifted(c: string, x: string, pat: string, rep: string)
    requires IndexOf(c + x, pat) == Shift(IndexOf(x, pat), |c|)
    ensures ReplaceFirst(c + x, pat, rep) == c + ReplaceFirst(x, pat, rep)
  {
    var o := IndexOf(x, pat);
    if o.Some? {
      ReplaceFirstShiftedAt(c, x, pat, rep, o.value);
    } else {
      ReplaceFirstNone(x, pat, rep);
      ReplaceFirstNone(c + x, pat, rep);
    }
  }

  lemma ReplaceFirstShiftedAt(c: string, x: string, pat: string, rep: string, i: nat)
    requires IndexOf(x, pat) == Some(i) && IndexOf(c + x, pat) == Some(|c| + i)
    ensures ReplaceFirst(c + x, pat, rep) == c + ReplaceFirst(x, pat, rep)
  {
    ReplaceFirstAt(c + x, pat, rep, |c| + i);
    ReplaceFirstAt(x, pat, rep, i);
    SplicedInTail(c, x, rep, i, |pat|, ReplaceFirst(c + x, pat, rep), ReplaceFirst(x, pat, rep));
  }

  lemma SplicedInTail(c: string, x: string, rep: string, i: nat, k: nat, whole: string, part: string)
    requires i + k <= |x|
    requires whole == (c + x)[..|c| + i] + rep + (c + x)[|c| + i + k..]
    requires part == x[..i] + rep + x[i + k..]
    ensures whole == c + part
  {
    SpliceInTail(c, x, rep, i, k);
  }

  /** Replacing in `c + x` where `c` holds no character that starts `pat`. */
  lemma ReplaceFirstSkip(c: string, x: string, pat: string, rep: string)
    requires |pat| > 0 && pat[0] !in c
    ensures ReplaceFirst(c + x, pat, rep) == c + ReplaceFirst(x, pat, rep)
  {
    IndexOfSkip(c, x, pat);
    ReplaceFirstShifted(c, x, pat, rep);
  }

  /** Replacing a pattern that occurs: the untouched text around it
      determines the replacement, so distinct replacements give distinct
      results. */
  lemma ReplaceFirstInjective(s: string, pat: string, r1: string, r2: string)
    requires IndexOf(s, pat).Some?
    ensures ReplaceFirst(s, pat, r1) == ReplaceFirst(s, pat, r2) ==> r1 == r2
  {
    var i := IndexOf(s, pat).value;
    var t1, t2 := ReplaceFirst(s, pat, r1), ReplaceFirst(s, pat, r2);
    if t1 == t2 {
      assert |r1| == |r2|;
      assert r1 == t1[i..i + |r1|];
      assert r2 == t2[i..i + |r2|];
    }
  }
}
