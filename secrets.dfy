/** The identifiers the scheduled job reads from its environment
    (`get_secrets` in `server.py`): a comma-separated list of source channels
    and two optional target channels. An unset variable is None; a set one is
    its text. */
module Secrets {
  import opened Wrappers
  import opened Text

  /** `[strip(x) for x in ps if strip(x)]`: the pieces that are not blank,
      each stripped, in order. */
  function NonBlank(ps: seq<string>, strip: string -> string): (r: seq<string>)
    ensures |r| <= |ps|
    ensures forall i :: 0 <= i < |r| ==> r[i] != ""
    decreases |ps|
  {
    if |ps| == 0 then []
    else
      var p := strip(ps[|ps| - 1]);
      NonBlank(ps[..|ps| - 1], strip) + (if p != "" then [p] else [])
  }

  /** `[read(x) for x in xs]`: None as soon as one of them raises. */
  function ReadAll(xs: seq<string>, read: string -> Option<int>): (r: Option<seq<int>>)
    ensures r.Some? <==> forall i :: 0 <= i < |xs| ==> read(xs[i]).Some?
    ensures r.Some? ==> |r.value| == |xs| && forall i :: 0 <= i < |xs| ==> r.value[i] == read(xs[i]).value
    decreases |xs|
  {
    if |xs| == 0 then Some([])
    else match (ReadAll(xs[..|xs| - 1], read), read(xs[|xs| - 1]))
      case (Some(ids), Some(n)) => Some(ids + [n])
      case _ => None
  }

  /** `SOURCE_CHANNEL_IDS`: unset or empty gives no channel; a piece that is
      not an integer gives no channel at all. */
  function SourceChannelIds(env: Option<string>): seq<int>
  {
    if env.None? || env.value == "" then []
    else match ReadAll(NonBlank(Split(env.value, ","), Strip), PyInt)
      case None => []
      case Some(ids) => ids
  }

  /** The channels are the non-blank pieces read as integers, in order; one
      piece that is not an integer empties the whole list. */
  lemma SourceChannelIdsCases(env: string)
    requires env != ""
    ensures var pieces := NonBlank(Split(env, ","), Strip);
      var r := SourceChannelIds(Some(env));
      ((exists i :: 0 <= i < |pieces| && PyInt(pieces[i]).None?) ==> r == [])
      && ((forall i :: 0 <= i < |pieces| ==> PyInt(pieces[i]).Some?) ==>
            |r| == |pieces| && forall i :: 0 <= i < |r| ==> r[i] == PyInt(pieces[i]).value)
  {
    var q := ReadAll(NonBlank(Split(env, ","), Strip), PyInt);
    assert SourceChannelIds(Some(env)) == if q.None? then [] else q.value;
  }

  function Printed(ids: seq<int>): (r: seq<string>)
    ensures |r| == |ids| && forall i :: 0 <= i < |ids| ==> r[i] == IntToString(ids[i])
  {
    seq(|ids|, i requires 0 <= i < |ids| => IntToString(ids[i]))
  }

  lemma NumberChars(n: int)
    ensures forall i :: 0 <= i < |IntToString(n)| ==> IsDigit(IntToString(n)[i]) || IntToString(n)[i] == '-'
  {
    var s := IntToString(n);
    if n < 0 {
      var d := NatToString(-n);
      assert s == "-" + d;
      assert forall i :: 1 <= i < |s| ==> s[i] == d[i - 1];
    }
  }

  lemma NoCommaInNumber(n: int)
    ensures !Contains(IntToString(n), ",")
  {
    var s := IntToString(n);
    NumberChars(n);
    forall j: nat | j + 1 <= |s| ensures !OccursAt(s, ",", j) {
      assert s[j..j + 1][0] == s[j];
    }
  }

  lemma StripPrinted(n: int)
    ensures Strip(IntToString(n)) == IntToString(n) != ""
  {
    NumberChars(n);
    StripNumber(IntToString(n));
    assert |NatToString(if n < 0 then -n else n)| > 0;
  }

  lemma {:induction false} NonBlankKeepsAll(ps: seq<string>, strip: string -> string)
    requires forall i :: 0 <= i < |ps| ==> strip(ps[i]) == ps[i] != ""
    ensures NonBlank(ps, strip) == ps
    decreases |ps|
  {
    if |ps| > 0 {
      NonBlankKeepsAll(ps[..|ps| - 1], strip);
    }
  }

  /** Printing channel ids with commas between them and reading the variable
      back gives the same ids, in the same order. */
  lemma SourceChannelIdsRoundTrip(ids: seq<int>)
    ensures SourceChannelIds(Some(Join(Printed(ids), ","))) == ids
  {
    var ps := Printed(ids);
    if |ids| > 0 {
      var env := Join(ps, ",");
      SplitPrinted(ids);
      KeptPrinted(ids);
      ReadPrinted(ids);
      StripPrinted(ids[0]);
      JoinFirst(ps, ",");
      assert env != "";
      assert SourceChannelIds(Some(env)) == ReadAll(ps, PyInt).value;
    }
  }

  lemma SplitPrinted(ids: seq<int>)
    requires |ids| > 0
    ensures Split(Join(Printed(ids), ","), ",") == Printed(ids)
  {
    var ps := Printed(ids);
    forall i | 0 <= i < |ps| ensures !Contains(ps[i], [',']) {
      NoCommaInNumber(ids[i]);
    }
    SplitJoin(ps, ',');
  }

  lemma KeptPrinted(ids: seq<int>)
    ensures NonBlank(Printed(ids), Strip) == Printed(ids)
  {
    var ps := Printed(ids);
    forall i | 0 <= i < |ps| ensures Strip(ps[i]) == ps[i] != "" {
      StripPrinted(ids[i]);
    }
    NonBlankKeepsAll(ps, Strip);
  }

  lemma ReadPrinted(ids: seq<int>)
    ensures ReadAll(Printed(ids), PyInt) == Some(ids)
  {
    var ps := Printed(ids);
    forall i | 0 <= i < |ps| ensures PyInt(ps[i]) == Some(ids[i]) {
      PyIntOfIntToString(ids[i]);
    }
    ReadAllExact(ps, PyInt, ids);
  }

  lemma ReadAllExact(xs: seq<string>, read: string -> Option<int>, vals: seq<int>)
    requires |xs| == |vals| && forall i :: 0 <= i < |xs| ==> read(xs[i]) == Some(vals[i])
    ensures ReadAll(xs, read) == Some(vals)
  {
    var q := ReadAll(xs, read);
    assert q.Some?;
    assert |q.value| == |vals|;
    forall i | 0 <= i < |vals| ensures q.value[i] == vals[i] {
      assert read(xs[i]) == Some(vals[i]);
    }
    assert q.value == vals;
  }

  /** A join starts with its first piece. */
  lemma JoinFirst(xs: seq<string>, sep: string)
    requires |xs| > 0
    ensures |Join(xs, sep)| >= |xs[0]|
  {
  }

  /** `TARGET_CHANNEL_ID` and `TARGET_PREVIEW_ID`: a set, non-empty value read
      as an integer, None when unset, empty or not an integer. */
  function OptionalId(env: Option<string>): (r: Option<int>)
    ensures r.Some? ==> env.Some? && env.value != "" && PyInt(env.value) == r
    ensures env.Some? && env.value != "" && PyInt(env.value).Some? ==> r == PyInt(env.value)
  {
    if env.None? || env.value == "" then None else PyInt(env.value)
  }

  /** A printed id reads back as itself. */
  lemma OptionalIdRoundTrip(n: int)
    ensures OptionalId(Some(IntToString(n))) == Some(n)
  {
    PyIntOfIntToString(n);
  }
}
