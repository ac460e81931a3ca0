/** The left-to-right scan behind Python's `re.sub` and `re.findall`, for a
    pattern given by its anchored matcher: a function that returns the length of
    the match starting at the front of a text, 0 when none starts there. The
    patterns the bot uses never match the empty text, so a length of 0 always
    means "no match here": the scan copies one character and moves on. */
module Scan {

  /** The matcher never reports more characters than the text has. */
  ghost predicate Anchored(m: string -> nat)
  {
    forall x :: m(x) <= |x|
  }

  /** `re.sub(pattern, repl, s)`: every match, scanned from the left without
      overlap, is replaced by `rep` of the matched text. */
  function Substitute(m: string -> nat, rep: string -> string, s: string): string
    requires Anchored(m)
    decreases |s|
  {
    if |s| == 0 then ""
    else if m(s) > 0 then rep(s[..m(s)]) + Substitute(m, rep, s[m(s)..])
    else [s[0]] + Substitute(m, rep, s[1..])
  }

  /** `re.findall(pattern, s)` for a pattern without groups: the matched texts,
      left to right, without overlap. */
  function Matches(m: string -> nat, s: string): seq<string>
    requires Anchored(m)
    decreases |s|
  {
    if |s| == 0 then []
    else if m(s) > 0 then [s[..m(s)]] + Matches(m, s[m(s)..])
    else Matches(m, s[1..])
  }

  /** Length of the match starting at index `i` of `s`. */
  function At(m: string -> nat, s: string, i: nat): nat
    requires i <= |s|
  {
    m(s[i..])
  }

  /** No match starts anywhere in `s`. */
  predicate Clean(m: string -> nat, s: string)
  {
    forall i :: 0 <= i < |s| ==> At(m, s, i) == 0
  }

  lemma CleanTail(m: string -> nat, s: string)
    requires |s| > 0 && Clean(m, s)
    ensures At(m, s, 0) == 0 && Clean(m, s[1..])
  {
    forall i | 0 <= i < |s| - 1 ensures At(m, s[1..], i) == 0 {
      assert s[1..][i..] == s[i + 1..];
      assert At(m, s, i + 1) == 0;
    }
  }

  /** Where nothing matches, `re.sub` returns its input unchanged. */
  lemma {:induction false} SubstituteClean(m: string -> nat, rep: string -> string, s: string)
    requires Anchored(m) && Clean(m, s)
    ensures Substitute(m, rep, s) == s
    decreases |s|
  {
    if |s| > 0 {
      CleanTail(m, s);
      assert s[0..] == s;
      SubstituteClean(m, rep, s[1..]);
    }
  }

  /** `re.findall` finds nothing exactly when no match starts anywhere. */
  lemma {:induction false} MatchesEmptyIffClean(m: string -> nat, s: string)
    requires Anchored(m)
    ensures Matches(m, s) == [] <==> Clean(m, s)
    decreases |s|
  {
    if |s| > 0 {
      assert s[0..] == s;
      assert At(m, s, 0) == m(s);
      MatchesEmptyIffClean(m, s[1..]);
      if m(s) == 0 {
        forall i | 0 <= i < |s| - 1 ensures At(m, s[1..], i) == At(m, s, i + 1) {
          assert s[1..][i..] == s[i + 1..];
        }
        if Clean(m, s[1..]) {
          forall i | 0 <= i < |s| ensures At(m, s, i) == 0 {
            if i > 0 {
              assert At(m, s[1..], i - 1) == 0;
            }
          }
        }
      }
    }
  }

  /** Every text `re.findall` reports is the match at some position, so a
      property of all matches carries over to all reports. */
  lemma {:induction false} MatchesSatisfy(m: string -> nat, s: string, p: string -> bool)
    requires Anchored(m)
    requires forall x :: 0 < m(x) <= |x| ==> p(x[..m(x)])
    ensures forall u :: u in Matches(m, s) ==> p(u)
    decreases |s|
  {
    if |s| > 0 {
      if m(s) > 0 {
        MatchesSatisfy(m, s[m(s)..], p);
      } else {
        MatchesSatisfy(m, s[1..], p);
      }
    }
  }

  lemma DropTail<T>(s: seq<T>, j: nat)
    requires 1 <= j <= |s|
    ensures s[1..][j - 1..] == s[j..]
    ensures [s[0]] + s[1..][..j - 1] == s[..j]
  {
  }

  /** Where no match starts before `j`, `re.sub` copies the first `j` characters. */
  lemma {:induction false} SubstituteCopies(m: string -> nat, rep: string -> string, s: string, j: nat)
    requires Anchored(m)
    requires 1 <= j <= |s|
    requires forall i :: 0 <= i < j ==> At(m, s, i) == 0
    ensures Substitute(m, rep, s) == s[..j] + Substitute(m, rep, s[j..])
    decreases j
  {
    assert s[0..] == s;
    assert At(m, s, 0) == 0;
    var t := s[1..];
    if j == 1 {
      assert s[..1] == [s[0]];
    } else {
      forall i | 0 <= i < j - 1 ensures At(m, t, i) == 0 {
        assert t[i..] == s[i + 1..];
        assert At(m, s, i + 1) == 0;
      }
      SubstituteCopies(m, rep, t, j - 1);
      DropTail(s, j);
    }
  }

  /** When no match starts at the front of `s`, `re.sub` copies `s` up to the
      next match and replaces that match; with no next match it returns `s`. */
  lemma SubstituteUpToNext(m: string -> nat, rep: string -> string, s: string)
    requires Anchored(m) && 0 < |s| && m(s) == 0
    ensures var j := NextAt(m, s, 1); var o := Substitute(m, rep, s);
      (j == |s| ==> o == s)
      && (j < |s| ==> var t := s[j..];
            o == s[..j] + (rep(t[..m(t)]) + Substitute(m, rep, t[m(t)..])))
  {
    var j := NextAt(m, s, 1);
    assert s[0..] == s;
    SubstituteCopies(m, rep, s, j);
    if j == |s| {
      assert s[j..] == [];
      assert s[..j] == s;
    } else {
      var t := s[j..];
      assert At(m, s, j) == m(t) > 0;
      assert Substitute(m, rep, t) == rep(t[..m(t)]) + Substitute(m, rep, t[m(t)..]);
    }
  }

  /** The first position at or after `j` where a match starts, or `|s|`. */
  function NextAt(m: string -> nat, s: string, j: nat): (r: nat)
    requires j <= |s|
    ensures j <= r <= |s|
    ensures forall i :: j <= i < r ==> At(m, s, i) == 0
    ensures r < |s| ==> At(m, s, r) > 0
    decreases |s| - j
  {
    if j == |s| || At(m, s, j) > 0 then j else NextAt(m, s, j + 1)
  }

  /** No match starts inside the replacement of the match at the front of `x`,
      whatever follows the replacement. */
  predicate Blocks(m: string -> nat, rep: string -> string, x: string, i: nat, rest: string)
    requires Anchored(m)
  {
    0 < m(x) && i < |rep(x[..m(x)])| ==> m(rep(x[..m(x)])[i..] + rest) == 0
  }

  /** A text that starts with no match still starts with no match after `re.sub`. */
  predicate FrontKept(m: string -> nat, rep: string -> string, x: string)
    requires Anchored(m)
  {
    0 < |x| && m(x) == 0 ==> m(Substitute(m, rep, x)) == 0
  }

  /** When replacements block matches and a front without a match stays without
      one, `re.sub` leaves nothing its pattern matches. */
  lemma {:induction false} SubstituteLeavesClean(m: string -> nat, rep: string -> string, s: string)
    requires Anchored(m)
    requires forall x, i: nat, rest :: Blocks(m, rep, x, i, rest)
    requires forall x :: FrontKept(m, rep, x)
    ensures Clean(m, Substitute(m, rep, s))
    decreases |s|
  {
    if |s| > 0 {
      var n := m(s);
      var o := Substitute(m, rep, s);
      if n > 0 {
        var r := rep(s[..n]);
        var rest := Substitute(m, rep, s[n..]);
        assert o == r + rest;
        SubstituteLeavesClean(m, rep, s[n..]);
        forall i | 0 <= i < |o| ensures At(m, o, i) == 0 {
          if i < |r| {
            assert o[i..] == r[i..] + rest;
            assert Blocks(m, rep, s, i, rest);
          } else {
            assert o[i..] == rest[i - |r|..];
            assert At(m, rest, i - |r|) == 0;
          }
        }
      } else {
        var rest := Substitute(m, rep, s[1..]);
        assert o == [s[0]] + rest;
        SubstituteLeavesClean(m, rep, s[1..]);
        forall i | 0 <= i < |o| ensures At(m, o, i) == 0 {
          if i > 0 {
            assert o[i..] == rest[i - 1..];
            assert At(m, rest, i - 1) == 0;
          } else {
            assert o[0..] == o;
            assert FrontKept(m, rep, s);
          }
        }
      }
    }
  }
}
