/** The handful of Python `str` operations the bot relies on, over `seq<char>`:
    whitespace and `strip`, slicing, `in`, `split(..)[0]`, `replace`, `startswith`,
    `endswith`, ASCII `lower`, `"\n".join`, and decimal conversion between
    integers and digit strings (`str(n)` and `int(s)`). */
module Text {
  import opened Wrappers

  /** Python's `str.isspace`, which is also what `\s` and `strip()` use. */
  predicate IsSpace(c: char)
  {
    c == ' ' || '\t' <= c <= '\r' || '\U{1c}' <= c <= '\U{1f}' || c == '\U{85}' || c == '\U{a0}'
    || c == '\U{1680}' || '\U{2000}' <= c <= '\U{200a}' || c == '\U{2028}' || c == '\U{2029}'
    || c == '\U{202f}' || c == '\U{205f}' || c == '\U{3000}'
  }

  /** `not s.strip()`: the text is empty or whitespace only. */
  predicate IsBlank(s: string)
  {
    forall i :: 0 <= i < |s| ==> IsSpace(s[i])
  }

  function TrimLeft(s: string): (r: string)
    ensures |r| <= |s| && r == s[|s| - |r|..]
    ensures IsBlank(s[..|s| - |r|])
    ensures r == [] || !IsSpace(r[0])
  {
    if |s| > 0 && IsSpace(s[0]) then
      var r := TrimLeft(s[1..]);
      var k := |s| - |r|;
      assert s[1..][k - 1..] == s[k..];
      assert forall i :: 0 < i < k ==> s[..k][i] == s[1..][..k - 1][i - 1];
      r
    else s
  }

  function TrimRight(s: string): (r: string)
    ensures |r| <= |s| && r == s[..|r|]
    ensures IsBlank(s[|r|..])
    ensures r == [] || !IsSpace(r[|r| - 1])
  {
    if |s| > 0 && IsSpace(s[|s| - 1]) then
      var r := TrimRight(s[..|s| - 1]);
      assert s[..|s| - 1][..|r|] == s[..|r|];
      assert forall i :: 0 <= i < |s| - 1 - |r| ==> s[|r|..][i] == s[..|s| - 1][|r|..][i];
      r
    else s
  }

  /** `s.strip()` */
  function Strip(s: string): string
  {
    TrimRight(TrimLeft(s))
  }

  /** `s.strip()` is empty exactly when `s` is blank, so `not s.strip()` and
      `IsBlank(s)` are the same test. */
  lemma StripEmptyIffBlank(s: string)
    ensures Strip(s) == [] <==> IsBlank(s)
  {
    var l := TrimLeft(s);
    var k := |s| - |l|;
    assert |l| > 0 ==> l[0] == s[k];
    if Strip(s) == [] {
      assert IsBlank(l[0..]);
      assert l[0..] == l;
      assert IsBlank(l);
      assert s[..k] == s;
    }
  }

  /** `s[:n]` for a non-negative `n`. */
  function Take(s: string, n: nat): (r: string)
    ensures |r| == if n <= |s| then n else |s|
    ensures r == s[..|r|]
  {
    if n <= |s| then s[..n] else s
  }

  /** `t` occurs in `s` at index `j`. */
  predicate OccursAt(s: string, t: string, j: nat)
  {
    j + |t| <= |s| && s[j..j + |t|] == t
  }

  function IndexFrom(s: string, t: string, k: nat): (r: Option<nat>)
    requires k <= |s| + 1
    ensures r.Some? ==> k <= r.value && OccursAt(s, t, r.value)
    ensures r.Some? ==> forall j :: k <= j < r.value ==> !OccursAt(s, t, j)
    ensures r.None? ==> forall j :: k <= j ==> !OccursAt(s, t, j)
    decreases |s| + 1 - k
  {
    if k + |t| > |s| then None
    else if s[k..k + |t|] == t then Some(k)
    else IndexFrom(s, t, k + 1)
  }

  /** `s.find(t)`: the first index at which `t` occurs in `s`, if any. */
  function IndexOf(s: string, t: string): (r: Option<nat>)
    ensures r.Some? ==> OccursAt(s, t, r.value) && forall j :: 0 <= j < r.value ==> !OccursAt(s, t, j)
    ensures r.None? ==> forall j :: !OccursAt(s, t, j)
  {
    IndexFrom(s, t, 0)
  }

  /** Python's `t in s`. */
  predicate Contains(s: string, t: string)
  {
    IndexOf(s, t).Some?
  }

  /** `s.split(t)[0]`: the text before the first occurrence of `t`, or all of `s`. */
  function Before(s: string, t: string): (r: string)
    ensures Contains(s, t) ==> r == s[..IndexOf(s, t).value]
    ensures !Contains(s, t) ==> r == s
    ensures |t| > 0 ==> !Contains(r, t)
  {
    match IndexOf(s, t)
    case None => s
    case Some(i) =>
      assert forall j: nat :: OccursAt(s[..i], t, j) ==> OccursAt(s, t, j) && (|t| > 0 ==> j < i) by {
        forall j: nat | OccursAt(s[..i], t, j) ensures OccursAt(s, t, j) && (|t| > 0 ==> j < i) {
          assert s[..i][j..j + |t|] == s[j..j + |t|];
        }
      }
      s[..i]
  }

  /** `s.startswith(p)` */
  predicate StartsWith(s: string, p: string)
  {
    p <= s
  }

  /** `s.endswith(p)` */
  predicate EndsWith(s: string, p: string)
  {
    |p| <= |s| && s[|s| - |p|..] == p
  }

  /** `s.replace(pat, rep)` for a non-empty `pat`: every non-overlapping occurrence,
      scanned from the left, is replaced. */
  function Replace(s: string, pat: string, rep: string): string
    requires |pat| > 0
    decreases |s|
  {
    if |s| < |pat| then s
    else if pat <= s then rep + Replace(s[|pat|..], pat, rep)
    else [s[0]] + Replace(s[1..], pat, rep)
  }

  /** `s.split(pat)` for a non-empty `pat`: the pieces between occurrences. */
  function Split(s: string, pat: string): (r: seq<string>)
    requires |pat| > 0
    ensures |r| > 0
    decreases |s|
  {
    match IndexOf(s, pat)
    case None => [s]
    case Some(i) => [s[..i]] + Split(s[i + |pat|..], pat)
  }

  /** The first piece of `s.split(pat)` is the text before the first `pat`, and
      no piece contains `pat`. */
  lemma {:induction false} SplitPieces(s: string, pat: string)
    requires |pat| > 0
    ensures Split(s, pat)[0] == Before(s, pat)
    ensures forall k :: 0 <= k < |Split(s, pat)| ==> !Contains(Split(s, pat)[k], pat)
    decreases |s|
  {
    match IndexOf(s, pat)
    case None =>
    case Some(i) =>
      var rest := s[i + |pat|..];
      SplitPieces(rest, pat);
      var r := Split(s, pat);
      forall k | 0 < k < |r| ensures r[k] == Split(rest, pat)[k - 1] {
      }
  }

  /** Joining the pieces of `s.split(pat)` with `pat` gives `s` back. */
  lemma {:induction false} JoinSplit(s: string, pat: string)
    requires |pat| > 0
    ensures Join(Split(s, pat), pat) == s
    decreases |s|
  {
    match IndexOf(s, pat)
    case None =>
    case Some(i) =>
      var rest := s[i + |pat|..];
      JoinSplit(rest, pat);
      assert s == s[..i] + pat + rest by {
        assert s[i..i + |pat|] == pat;
      }
  }

  /** Where `pat` does not occur at the front, the first character is kept. */
  lemma ReplaceSkip(s: string, pat: string, rep: string)
    requires |pat| > 0 && |s| > 0 && !OccursAt(s, pat, 0)
    ensures Replace(s, pat, rep) == [s[0]] + Replace(s[1..], pat, rep)
  {
    if |s| >= |pat| {
      assert s[..|pat|] == s[0..|pat|];
    } else {
      assert s == [s[0]] + s[1..];
    }
  }

  lemma OccursShift(s: string, pat: string, j: nat)
    requires |s| > 0
    ensures OccursAt(s[1..], pat, j) <==> OccursAt(s, pat, j + 1)
  {
    if j + 1 + |pat| <= |s| {
      assert s[1..][j..j + |pat|] == s[j + 1..j + 1 + |pat|];
    }
  }

  lemma {:induction false} ReplaceCopies(s: string, pat: string, rep: string, i: nat)
    requires |pat| > 0 && i <= |s|
    requires forall j :: 0 <= j < i ==> !OccursAt(s, pat, j)
    ensures Replace(s, pat, rep) == s[..i] + Replace(s[i..], pat, rep)
    decreases i
  {
    if i > 0 {
      var t := s[1..];
      ReplaceSkip(s, pat, rep);
      forall j | 0 <= j < i - 1 ensures !OccursAt(t, pat, j) {
        OccursShift(s, pat, j);
      }
      ReplaceCopies(t, pat, rep, i - 1);
      calc {
        Replace(s, pat, rep);
        [s[0]] + (t[..i - 1] + Replace(t[i - 1..], pat, rep));
        { assert t[i - 1..] == s[i..]; }
        [s[0]] + (t[..i - 1] + Replace(s[i..], pat, rep));
        ([s[0]] + t[..i - 1]) + Replace(s[i..], pat, rep);
        { assert [s[0]] + t[..i - 1] == s[..i]; }
        s[..i] + Replace(s[i..], pat, rep);
      }
    }
  }

  lemma ConcatAssoc<T>(a: seq<T>, b: seq<T>, c: seq<T>)
    ensures a + b + c == a + (b + c)
  {
  }

  /** `s.replace(pat, rep) == rep.join(s.split(pat))`: every occurrence of `pat`,
      and nothing else, is replaced. */
  lemma {:induction false} ReplaceIsJoinSplit(s: string, pat: string, rep: string)
    requires |pat| > 0
    ensures Replace(s, pat, rep) == Join(Split(s, pat), rep)
    decreases |s|
  {
    match IndexOf(s, pat)
    case None =>
      ReplaceCopies(s, pat, rep, |s|);
      assert s[..|s|] == s && s[|s|..] == [];
      assert Split(s, pat) == [s];
    case Some(i) =>
      var rest := s[i + |pat|..];
      var pieces := Split(rest, pat);
      ReplaceCopies(s, pat, rep, i);
      ReplaceAtFront(s[i..], pat, rep);
      assert s[i..][|pat|..] == rest;
      ReplaceIsJoinSplit(rest, pat, rep);
      ConcatAssoc(s[..i], rep, Join(pieces, rep));
      JoinCons(s[..i], pieces, rep);
      assert Split(s, pat) == [s[..i]] + pieces;
  }

  /** Where `pat` occurs at the front, it is replaced and the scan goes on after it. */
  lemma ReplaceAtFront(s: string, pat: string, rep: string)
    requires |pat| > 0 && OccursAt(s, pat, 0)
    ensures Replace(s, pat, rep) == rep + Replace(s[|pat|..], pat, rep)
  {
    assert s[..|pat|] == s[0..|pat|];
  }

  lemma JoinCons(a: string, ps: seq<string>, sep: string)
    requires |ps| > 0
    ensures Join([a] + ps, sep) == a + sep + Join(ps, sep)
  {
    assert ([a] + ps)[1..] == ps;
  }

  /** Replacing a text that does not occur changes nothing. */
  lemma ReplaceAbsent(s: string, pat: string, rep: string)
    requires |pat| > 0 && !Contains(s, pat)
    ensures Replace(s, pat, rep) == s
  {
    ReplaceIsJoinSplit(s, pat, rep);
  }

  /** Replacing a whole text by `rep` gives `rep`. */
  lemma ReplaceWhole(s: string, rep: string)
    requires |s| > 0
    ensures Replace(s, s, rep) == rep
  {
    assert s[|s|..] == "";
  }

  /** ASCII part of `str.lower()`. */
  function LowerChar(c: char): char
  {
    if 'A' <= c <= 'Z' then (c as int + 32) as char else c
  }

  function Lower(s: string): (r: string)
    ensures |r| == |s| && forall i :: 0 <= i < |s| ==> r[i] == LowerChar(s[i])
  {
    seq(|s|, i requires 0 <= i < |s| => LowerChar(s[i]))
  }

  /** `sep.join(xs)` */
  function Join(xs: seq<string>, sep: string): string
  {
    if |xs| == 0 then ""
    else if |xs| == 1 then xs[0]
    else xs[0] + sep + Join(xs[1..], sep)
  }

  /** An ASCII decimal digit: what `\d`, `isdigit` and `int` accept in this model. */
  predicate IsDigit(c: char)
  {
    '0' <= c <= '9'
  }

  predicate AllDigits(s: string)
  {
    forall i :: 0 <= i < |s| ==> IsDigit(s[i])
  }

  /** The value of a string of decimal digits, read most significant first. */
  function DigitsValue(s: string): nat
    requires AllDigits(s)
  {
    if |s| == 0 then 0 else DigitsValue(s[..|s| - 1]) * 10 + (s[|s| - 1] as int - '0' as int)
  }

  /** `str(n)` for a non-negative integer. */
  function NatToString(n: nat): (r: string)
    ensures |r| > 0 && AllDigits(r)
  {
    if n < 10 then [('0' as int + n) as char]
    else NatToString(n / 10) + [('0' as int + n % 10) as char]
  }

  /** `str(i)` */
  function IntToString(i: int): string
  {
    if i < 0 then "-" + NatToString(-i) else NatToString(i)
  }

  /** `int(str(n)) == n`: reading back a printed number gives the number. */
  lemma {:induction false} DigitsValueOfNatToString(n: nat)
    ensures DigitsValue(NatToString(n)) == n
  {
    if n >= 10 {
      var s := NatToString(n);
      DigitsValueOfNatToString(n / 10);
      assert s[..|s| - 1] == NatToString(n / 10);
    }
  }
  /** `int(s)` on text: optional surrounding whitespace, an optional sign, then
      one or more decimal digits; anything else raises `ValueError`, here None. */
  function PyInt(s: string): Option<int>
  {
    ReadInt(Strip(s))
  }

  /** `int` on text that has been stripped. */
  function ReadInt(t: string): Option<int>
  {
    if |t| > 0 && (t[0] == '-' || t[0] == '+') then
      if |t| > 1 && AllDigits(t[1..]) then
        var v: int := DigitsValue(t[1..]);
        Some(if t[0] == '-' then -v else v)
      else None
    else if |t| > 0 && AllDigits(t) then Some(DigitsValue(t))
    else None
  }

  /** A printed number has no whitespace to strip. */
  lemma StripNumber(s: string)
    requires forall i :: 0 <= i < |s| ==> IsDigit(s[i]) || s[i] == '-'
    ensures Strip(s) == s
  {
    if |s| > 0 {
      assert !IsSpace(s[0]) && !IsSpace(s[|s| - 1]);
    }
  }

  lemma ReadDigits(t: string)
    requires |t| > 0 && AllDigits(t)
    ensures ReadInt(t) == Some(DigitsValue(t))
    ensures ReadInt("-" + t) == Some(-(DigitsValue(t) as int))
  {
    assert IsDigit(t[0]);
    assert ("-" + t)[1..] == t;
  }

  lemma PyIntOfDigits(t: string)
    requires |t| > 0 && AllDigits(t)
    ensures PyInt(t) == Some(DigitsValue(t))
  {
    StripNumber(t);
    ReadDigits(t);
  }

  lemma PyIntOfMinusDigits(t: string)
    requires |t| > 0 && AllDigits(t)
    ensures PyInt("-" + t) == Some(-(DigitsValue(t) as int))
  {
    var u := "-" + t;
    forall i | 0 <= i < |u| ensures IsDigit(u[i]) || u[i] == '-' {
      if i > 0 {
        assert u[i] == t[i - 1];
      }
    }
    StripNumber(u);
    ReadDigits(t);
  }

  lemma PyIntOfNatToString(n: nat)
    ensures PyInt(NatToString(n)) == Some(n)
  {
    PyIntOfDigits(NatToString(n));
    DigitsValueOfNatToString(n);
  }

  lemma PyIntOfNegative(n: int)
    requires n < 0
    ensures PyInt(IntToString(n)) == Some(n)
  {
    var m: nat := -n;
    var d := NatToString(m);
    calc {
      PyInt(IntToString(n));
      { assert IntToString(n) == "-" + d; }
      PyInt("-" + d);
      { PyIntOfMinusDigits(d); }
      Some(-(DigitsValue(d) as int));
      { DigitsValueOfNatToString(m); }
      Some(n);
    }
  }

  /** `int(str(n)) == n` for every integer, negative ones included. */
  lemma PyIntOfIntToString(n: int)
    ensures PyInt(IntToString(n)) == Some(n)
  {
    if n < 0 {
      PyIntOfNegative(n);
    } else {
      PyIntOfNatToString(n);
    }
  }

  /** Splitting at a one-character separator undoes joining pieces that do not
      contain it. */
  lemma {:induction false} SplitJoin(ps: seq<string>, c: char)
    requires |ps| > 0
    requires forall i :: 0 <= i < |ps| ==> !Contains(ps[i], [c])
    ensures Split(Join(ps, [c]), [c]) == ps
    decreases |ps|
  {
    if |ps| > 1 {
      var a, rest := ps[0], Join(ps[1..], [c]);
      var s := a + [c] + rest;
      assert Join(ps, [c]) == s;
      assert OccursAt(s, [c], |a|);
      forall j | 0 <= j < |a| ensures !OccursAt(s, [c], j) {
        assert !OccursAt(a, [c], j);
        assert s[j] == a[j];
      }
      var i := IndexOf(s, [c]).value;
      assert i == |a|;
      assert s[..i] == a && s[i + 1..] == rest;
      SplitJoin(ps[1..], c);
    }
  }
}
