/** The two regular expressions the message normaliser applies, hand-coded as
    anchored matchers, and the left-to-right scan that `re.sub` and `re.findall`
    perform with them:

      Link:  `https?://\S+`   (a web link, up to the next whitespace)
      Emoji: `<a?:\w+:\d+>`   (a custom emoji token such as `<:pepe:123>`)

    Neither pattern matches the empty text, so the scan either consumes a whole
    match or copies one character and moves on. */
module Pattern {
  import opened Wrappers
  import opened Text
  import opened Scan

  datatype Kind = Link | Emoji

  /** `\w` on ASCII: letters, digits and underscore. */
  predicate IsWordChar(c: char)
  {
    'a' <= c <= 'z' || 'A' <= c <= 'Z' || IsDigit(c) || c == '_'
  }

  /** Length of the longest prefix of `s` whose characters satisfy the class;
      what each run covers is stated by the lemmas after them. */
  function NonSpaceRun(s: string): (r: nat)
    ensures r <= |s|
  {
    if |s| == 0 || IsSpace(s[0]) then 0 else 1 + NonSpaceRun(s[1..])
  }

  function WordRun(s: string): (r: nat)
    ensures r <= |s|
  {
    if |s| == 0 || !IsWordChar(s[0]) then 0 else 1 + WordRun(s[1..])
  }

  function DigitRun(s: string): (r: nat)
    ensures r <= |s|
  {
    if |s| == 0 || !IsDigit(s[0]) then 0 else 1 + DigitRun(s[1..])
  }

  /** `\S+` is greedy: the run holds no whitespace and stops at whitespace or the end. */
  lemma {:induction false} NonSpaceRunSpec(s: string)
    ensures forall i :: 0 <= i < NonSpaceRun(s) ==> !IsSpace(s[i])
    ensures NonSpaceRun(s) < |s| ==> IsSpace(s[NonSpaceRun(s)])
  {
    if |s| > 0 && !IsSpace(s[0]) {
      NonSpaceRunSpec(s[1..]);
    }
  }

  lemma {:induction false} WordRunSpec(s: string)
    ensures forall i :: 0 <= i < WordRun(s) ==> IsWordChar(s[i])
    ensures WordRun(s) < |s| ==> !IsWordChar(s[WordRun(s)])
  {
    if |s| > 0 && IsWordChar(s[0]) {
      WordRunSpec(s[1..]);
    }
  }

  lemma {:induction false} DigitRunSpec(s: string)
    ensures forall i :: 0 <= i < DigitRun(s) ==> IsDigit(s[i])
    ensures DigitRun(s) < |s| ==> !IsDigit(s[DigitRun(s)])
  {
    if |s| > 0 && IsDigit(s[0]) {
      DigitRunSpec(s[1..]);
    }
  }

  /** Length of `https://` or `http://` at the start of `s`, 0 if neither. */
  function SchemeLen(s: string): nat
  {
    if StartsWith(s, "https://") then 8 else if StartsWith(s, "http://") then 7 else 0
  }

  /** Length of the `https?://\S+` match anchored at the start of `s`, 0 if none. */
  function LinkLen(s: string): (r: nat)
    ensures r <= |s|
  {
    var k := SchemeLen(s);
    if k == 0 then 0
    else
      var n := NonSpaceRun(s[k..]);
      if n == 0 then 0 else k + n
  }

  /** Length of the `<a?:\w+:\d+>` match anchored at the start of `s`, 0 if none. */
  function EmojiLen(s: string): (r: nat)
    ensures r <= |s|
  {
    if |s| == 0 || s[0] != '<' then 0
    else
      var a := if |s| > 1 && s[1] == 'a' then 2 else 1;
      if a >= |s| || s[a] != ':' then 0
      else
        var w := WordRun(s[a + 1..]);
        var p := a + 1 + w;
        if w == 0 || p >= |s| || s[p] != ':' then 0
        else
          var d := DigitRun(s[p + 1..]);
          var q := p + 1 + d;
          if d == 0 || q >= |s| || s[q] != '>' then 0 else q + 1
  }

  function MatchLen(k: Kind, s: string): (r: nat)
    ensures r <= |s|
  {
    match k
    case Link => LinkLen(s)
    case Emoji => EmojiLen(s)
  }

  /** The link simplifier's `domain_replacer`: the text between the first `://`
      and the next `/`; the whole match if it has no `://` (the `except` path). */
  function DomainOf(url: string): string
  {
    match IndexOf(url, "://")
    case None => url
    case Some(i) => Before(url[i + 3..], "/")
  }

  /** What a match is replaced by. */
  function Replacement(k: Kind, matched: string): string
  {
    match k
    case Link => "(連結 " + DomainOf(matched) + ")"
    case Emoji => "(貼圖)"
  }

  /** The anchored matcher of a pattern, as the scan takes it. */
  function Matcher(k: Kind): (m: string -> nat)
    ensures Anchored(m)
  {
    x => MatchLen(k, x)
  }

  function Replacer(k: Kind): string -> string
  {
    x => Replacement(k, x)
  }

  /** `re.sub(pattern, replacer, s)` */
  function Sub(k: Kind, s: string): string
  {
    Substitute(Matcher(k), Replacer(k), s)
  }

  /** `re.findall(pattern, s)` */
  function FindAll(k: Kind, s: string): seq<string>
  {
    Matches(Matcher(k), s)
  }

  /** No match of the pattern starts anywhere in `s`. */
  predicate NoMatch(k: Kind, s: string)
  {
    Clean(Matcher(k), s)
  }

  /** A whole link match: `http://` or `https://`, at least one more character,
      and no whitespace. */
  predicate IsLinkText(u: string)
  {
    (StartsWith(u, "http://") || StartsWith(u, "https://"))
    && |u| > SchemeLen(u) > 0
    && forall j :: 0 <= j < |u| ==> !IsSpace(u[j])
  }

  lemma LinkMatchIsLinkText(s: string)
    requires LinkLen(s) > 0
    ensures IsLinkText(s[..LinkLen(s)])
  {
    var n := LinkLen(s);
    var k := SchemeLen(s);
    var u := s[..n];
    var scheme := if k == 8 then "https://" else "http://";
    NonSpaceRunSpec(s[k..]);
    assert scheme <= s;
    assert u[..k] == s[..k] == scheme;
    assert scheme <= u;
    assert SchemeLen(u) == k;
    forall j | 0 <= j < |u| ensures !IsSpace(u[j]) {
      if j >= k {
        assert u[j] == s[k..][j - k];
      } else {
        assert u[j] == scheme[j];
      }
    }
  }

  lemma SchemeHasNoSeparator(u: string, j: nat)
    requires j + 3 < SchemeLen(u)
    ensures !OccursAt(u, "://", j)
  {
    var k := SchemeLen(u);
    var scheme := if k == 8 then "https://" else "http://";
    assert u[..k] == scheme;
    assert u[j] == scheme[j] != ':';
    if j + 3 <= |u| {
      assert u[j..j + 3][0] == u[j];
    }
  }

  /** The host a link is reduced to holds no `/` and no whitespace. */
  lemma DomainOfLink(u: string)
    requires SchemeLen(u) > 0
    requires forall j :: 0 <= j < |u| ==> !IsSpace(u[j])
    ensures DomainOf(u) == Before(u[SchemeLen(u)..], "/")
    ensures forall j :: 0 <= j < |DomainOf(u)| ==> DomainOf(u)[j] != '/' && !IsSpace(DomainOf(u)[j])
  {
    var k := SchemeLen(u);
    assert OccursAt(u, "://", k - 3);
    forall j: nat | j < k - 3 ensures !OccursAt(u, "://", j) {
      SchemeHasNoSeparator(u, j);
    }
    var d := DomainOf(u);
    var rest := u[k..];
    forall j | 0 <= j < |d| ensures d[j] != '/' && !IsSpace(d[j]) {
      assert d[j] == rest[j] == u[k + j];
      assert !OccursAt(d, "/", j);
      assert d[j..j + 1] == [d[j]];
    }
  }

  /** Every link `re.findall` reports is a whole link match: a scheme, at
      least one more character, no whitespace. */
  lemma FoundLinksAreLinks(s: string)
    ensures forall u :: u in FindAll(Link, s) ==> IsLinkText(u)
  {
    var m := Matcher(Link);
    forall x | 0 < m(x) <= |x| ensures IsLinkText(x[..m(x)]) {
      LinkMatchIsLinkText(x);
    }
    MatchesSatisfy(m, s, u => IsLinkText(u));
  }

  // ---------------------------------------------------------------------------
  // Nothing the pattern matches survives `re.sub`.

  /** A scheme cannot start inside `(連結 host)` when the host has no `/`. */
  lemma LinkReplacementHasNoScheme(d: string, i: nat, rest: string, p: string)
    requires p == "http://" || p == "https://"
    requires forall j :: 0 <= j < |d| ==> d[j] != '/'
    requires i < |d| + 5
    ensures !StartsWith(("(連結 " + d + ")")[i..] + rest, p)
  {
    var r := "(連結 " + d + ")";
    var x := r[i..] + rest;
    if i < 4 {
      assert x[0] == "(連結 "[i];
    } else {
      var e := |r| - 1 - i;
      if e >= 6 {
        assert x[6] == r[i + 6];
      } else {
        assert x[e] == r[|r| - 1] == ')';
      }
    }
  }

  /** No match starts inside a replacement, whatever follows it. */
  lemma ReplacementBlocks(k: Kind, u: string, i: nat, rest: string)
    requires k == Link ==> IsLinkText(u)
    requires i < |Replacement(k, u)|
    ensures MatchLen(k, Replacement(k, u)[i..] + rest) == 0
  {
    var r := Replacement(k, u);
    var x := r[i..] + rest;
    assert x[0] == r[i];
    match k
    case Emoji =>
      assert r == "(貼圖)";
    case Link =>
      var d := DomainOf(u);
      DomainOfLink(u);
      LinkReplacementHasNoScheme(d, i, rest, "http://");
      LinkReplacementHasNoScheme(d, i, rest, "https://");
  }

  lemma {:induction false} WordRunPrefix(x: string, y: string)
    requires WordRun(x) < |x| && WordRun(x) < |y|
    requires x[..WordRun(x) + 1] == y[..WordRun(x) + 1]
    ensures WordRun(y) == WordRun(x)
    decreases |x|
  {
    var w := WordRun(x);
    assert x[0] == y[0];
    if w > 0 {
      assert x[1..][..w] == y[1..][..w];
      WordRunPrefix(x[1..], y[1..]);
    }
  }

  lemma {:induction false} DigitRunPrefix(x: string, y: string)
    requires DigitRun(x) < |x| && DigitRun(x) < |y|
    requires x[..DigitRun(x) + 1] == y[..DigitRun(x) + 1]
    ensures DigitRun(y) == DigitRun(x)
    decreases |x|
  {
    var w := DigitRun(x);
    assert x[0] == y[0];
    if w > 0 {
      assert x[1..][..w] == y[1..][..w];
      DigitRunPrefix(x[1..], y[1..]);
    }
  }

  /** Two texts that agree on their first `n` characters agree on every slice inside them. */
  lemma SliceAgree(x: string, y: string, n: nat, lo: nat, len: nat)
    requires lo + len <= n <= |x| && n <= |y| && x[..n] == y[..n]
    ensures x[lo..][..len] == y[lo..][..len]
  {
    forall j | 0 <= j < len ensures x[lo..][..len][j] == y[lo..][..len][j] {
      assert x[lo + j] == x[..n][lo + j];
      assert y[lo + j] == y[..n][lo + j];
    }
  }

  /** The parts of an emoji match: where the name starts, where the second `:`
      and the closing `>` stand. */
  datatype EmojiParts = EmojiParts(a: nat, p: nat, q: nat)

  function EmojiSplit(x: string): (e: EmojiParts)
    requires EmojiLen(x) > 0
    ensures e.a < e.p < e.q < |x| && EmojiLen(x) == e.q + 1
    ensures x[0] == '<' && x[e.a] == ':' && x[e.p] == ':' && x[e.q] == '>'
    ensures e.a == 1 || (e.a == 2 && x[1] == 'a')
    ensures WordRun(x[e.a + 1..]) == e.p - e.a - 1 > 0
    ensures DigitRun(x[e.p + 1..]) == e.q - e.p - 1 > 0
  {
    var a := if |x| > 1 && x[1] == 'a' then 2 else 1;
    assert x[0] == '<' && a < |x| && x[a] == ':';
    var w := WordRun(x[a + 1..]);
    var p := a + 1 + w;
    assert w > 0 && p < |x| && x[p] == ':';
    var d := DigitRun(x[p + 1..]);
    assert d > 0 && p + 1 + d < |x| && x[p + 1 + d] == '>';
    EmojiParts(a, p, p + 1 + d)
  }

  /** The name and number runs of an emoji match hold no `(`. */
  lemma EmojiPartsHaveNoParen(x: string, a: nat, p: nat, q: nat)
    requires a < p < q < |x| && x[0] == '<' && x[a] == ':' && x[p] == ':' && x[q] == '>'
    requires a == 1 || (a == 2 && x[1] == 'a')
    requires WordRun(x[a + 1..]) == p - a - 1 && DigitRun(x[p + 1..]) == q - p - 1
    ensures forall j :: 0 <= j <= q ==> x[j] != '('
  {
    WordRunSpec(x[a + 1..]);
    DigitRunSpec(x[p + 1..]);
    forall j | 0 <= j <= q ensures x[j] != '(' {
      if a + 1 <= j < p {
        assert x[j] == x[a + 1..][j - a - 1];
      } else if p + 1 <= j < q {
        assert x[j] == x[p + 1..][j - p - 1];
      }
    }
  }

  /** None of the characters an emoji match covers is `(`. */
  lemma EmojiMatchHasNoParen(x: string)
    requires EmojiLen(x) > 0
    ensures forall j :: 0 <= j < EmojiLen(x) ==> x[j] != '('
  {
    var e := EmojiSplit(x);
    EmojiPartsHaveNoParen(x, e.a, e.p, e.q);
  }

  /** Texts that agree up to the closing `>` agree on the name and number runs. */
  lemma EmojiPartsAgree(x: string, y: string, a: nat, p: nat, q: nat)
    requires a < p < q < |x| && q < |y| && x[..q + 1] == y[..q + 1]
    requires WordRun(x[a + 1..]) == p - a - 1 && DigitRun(x[p + 1..]) == q - p - 1
    ensures WordRun(y[a + 1..]) == p - a - 1 && DigitRun(y[p + 1..]) == q - p - 1
  {
    SliceAgree(x, y, q + 1, a + 1, p - a);
    WordRunPrefix(x[a + 1..], y[a + 1..]);
    SliceAgree(x, y, q + 1, p + 1, q - p);
    DigitRunPrefix(x[p + 1..], y[p + 1..]);
  }

  /** Texts that agree on a whole emoji match agree on its name and number runs. */
  lemma EmojiRunsAgree(x: string, y: string)
    requires EmojiLen(x) > 0
    requires EmojiLen(x) <= |y| && x[..EmojiLen(x)] == y[..EmojiLen(x)]
    ensures WordRun(y[EmojiSplit(x).a + 1..]) == WordRun(x[EmojiSplit(x).a + 1..])
    ensures DigitRun(y[EmojiSplit(x).p + 1..]) == DigitRun(x[EmojiSplit(x).p + 1..])
  {
    var e := EmojiSplit(x);
    EmojiPartsAgree(x, y, e.a, e.p, e.q);
  }

  /** Text laid out as `<`, `a` or nothing, `:`, a name, `:`, a number and
      `>` starts an emoji match that ends at the `>`. */
  lemma EmojiLenOfParts(y: string, a: nat, p: nat, q: nat)
    requires a < p < q < |y| && y[0] == '<' && y[a] == ':' && y[p] == ':' && y[q] == '>'
    requires a == 1 || (a == 2 && y[1] == 'a')
    requires WordRun(y[a + 1..]) == p - a - 1 > 0 && DigitRun(y[p + 1..]) == q - p - 1 > 0
    ensures EmojiLen(y) == q + 1
  {
  }

  /** An emoji match is decided by the characters it covers. */
  lemma EmojiMatchIsLocal(x: string, y: string)
    requires EmojiLen(x) > 0
    requires EmojiLen(x) <= |y| && x[..EmojiLen(x)] == y[..EmojiLen(x)]
    ensures EmojiLen(y) == EmojiLen(x)
  {
    var e := EmojiSplit(x);
    var n := e.q + 1;
    EmojiPartsAgree(x, y, e.a, e.p, e.q);
    assert y[0] == x[..n][0] && y[1] == x[..n][1];
    assert y[e.a] == x[..n][e.a] && y[e.p] == x[..n][e.p] && y[e.q] == x[..n][e.q];
    EmojiLenOfParts(y, e.a, e.p, e.q);
  }

  lemma EmojiAgreeingPrefixBlocks(s: string, o: string, m: nat)
    requires 1 <= m < |s| && m < |o|
    requires o[..m] == s[..m] && o[m] == '('
    requires EmojiLen(s) == 0
    ensures EmojiLen(o) == 0
  {
    if EmojiLen(o) > 0 {
      EmojiMatchHasNoParen(o);
      EmojiMatchIsLocal(o, s);
    }
  }

  /** A scheme is `h`, `t`, `t`, `p`, ...: it starts with `h` and holds no `(` and no whitespace. */
  lemma SchemeShape(x: string)
    ensures SchemeLen(x) <= |x|
    ensures SchemeLen(x) > 0 ==> x[0] == 'h'
    ensures forall j :: 0 <= j < SchemeLen(x) ==> x[j] != '(' && !IsSpace(x[j])
  {
    var K := SchemeLen(x);
    if K > 0 {
      var p := if K == 8 then "https://" else "http://";
      assert p <= x;
      forall j | 0 <= j < K ensures x[j] == p[j] {
      }
    }
  }

  /** Two texts that agree on a whole scheme have the same scheme. */
  lemma SchemeAgrees(x: string, y: string, n: nat)
    requires 0 < SchemeLen(x) <= n <= |x| && n <= |y| && x[..n] == y[..n]
    ensures SchemeLen(y) == SchemeLen(x)
  {
    var K := SchemeLen(x);
    assert x[..K] == x[..n][..K] == y[..n][..K] == y[..K];
    if K == 8 {
      assert "https://" <= x;
      assert x[..8] == "https://";
      assert "https://" <= y;
    } else {
      assert "http://" <= x;
      assert x[..7] == "http://";
      assert "http://" <= y;
      assert y[4] == x[4] == ':';
    }
  }

  lemma LinkAgreeingPrefixBlocks(s: string, o: string, m: nat)
    requires 1 <= m < |s| && m < |o|
    requires o[..m] == s[..m] && o[m] == '(' && !IsSpace(s[m])
    requires LinkLen(s) == 0
    ensures LinkLen(o) == 0
  {
    SchemeShape(o);
    var K := SchemeLen(o);
    if 0 < K {
      SchemeAgrees(o, s, m);
      assert s[K..][0] == s[K];
      if K < m {
        assert o[..m][K] == s[..m][K];
        assert o[K..][0] == o[K];
      }
    }
  }

  /** A text that starts like `s` up to a match at `m`, and then has `(` where
      `s` has that match, starts no match when `s` starts none. */
  lemma AgreeingPrefixBlocks(k: Kind, s: string, o: string, m: nat)
    requires 1 <= m < |s| && m < |o|
    requires o[..m] == s[..m] && o[m] == '('
    requires MatchLen(k, s[m..]) > 0
    requires MatchLen(k, s) == 0
    ensures MatchLen(k, o) == 0
  {
    match k
    case Emoji =>
      EmojiAgreeingPrefixBlocks(s, o, m);
    case Link =>
      SchemeShape(s[m..]);
      assert s[m..][0] == s[m];
      LinkAgreeingPrefixBlocks(s, o, m);
  }

  /** Every replacement starts with `(`. */
  lemma ReplacementOpens(k: Kind, u: string)
    ensures |Replacement(k, u)| > 0 && Replacement(k, u)[0] == '('
  {
  }

  /** If no match starts at the front of `s`, none starts at the front of `re.sub`'s result. */
  lemma FrontStaysUnmatched(k: Kind, s: string)
    ensures FrontKept(Matcher(k), Replacer(k), s)
  {
    var m := Matcher(k);
    if 0 < |s| && MatchLen(k, s) == 0 {
      var j := NextAt(m, s, 1);
      SubstituteUpToNext(m, Replacer(k), s);
      var o := Sub(k, s);
      if j < |s| {
        var t := s[j..];
        var r := Replacement(k, t[..MatchLen(k, t)]);
        var rest := Substitute(m, Replacer(k), t[MatchLen(k, t)..]);
        assert o == s[..j] + (r + rest);
        ReplacementOpens(k, t[..MatchLen(k, t)]);
        assert o[..j] == s[..j];
        assert o[j] == (r + rest)[0] == r[0];
        AgreeingPrefixBlocks(k, s, o, j);
      }
    }
  }

  /** After `re.sub`, no match starts anywhere in the result: every link has been
      reduced to `(連結 host)` and every custom emoji to `(貼圖)`. */
  lemma NothingSurvivesSub(k: Kind, s: string)
    ensures NoMatch(k, Sub(k, s))
  {
    var m := Matcher(k);
    var rep := Replacer(k);
    forall x, i: nat, rest ensures Blocks(m, rep, x, i, rest) {
      var n := MatchLen(k, x);
      if 0 < n && i < |Replacement(k, x[..n])| {
        if k == Link {
          LinkMatchIsLinkText(x);
        }
        ReplacementBlocks(k, x[..n], i, rest);
      }
    }
    forall x ensures FrontKept(m, rep, x) {
      FrontStaysUnmatched(k, x);
    }
    SubstituteLeavesClean(m, rep, s);
  }
}
