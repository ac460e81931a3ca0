/** The daily quote job (`run_daily_quote` in `server.py`): at hour zero (when
    so configured) it scans one calendar day of every source channel for the
    message with the most reactions and posts it as a report. Times are local
    seconds, counted so that a multiple of 86400 is a local midnight. */
module DailyQuote {
  import opened Wrappers
  import opened Text
  import opened Normalizer

  datatype Reaction = Reaction(emoji: string, count: nat)

  /** A channel message as the server jobs see it: the message, its jump URL,
      its author's mention and user name, and its reactions. */
  datatype Post = Post(msg: RawMessage, jumpUrl: string, authorMention: string, authorUser: string, reactions: seq<Reaction>)

  const Day := 86400

  /** `now.hour` */
  function HourOf(t: int): (h: int)
    ensures 0 <= h < 24
  {
    (t % Day) / 3600
  }

  /** The job runs when it is not restricted to midnight, or when it is hour 0. */
  predicate MayRun(zeroClockOnly: bool, now: int)
  {
    !zeroClockOnly || HourOf(now) == 0
  }

  /** Midnight of the day `daysAgo` days before `now`. */
  function WindowStart(now: int, daysAgo: int): int
  {
    var t := now - daysAgo * Day;
    t - t % Day
  }

  /** The window is one whole local day: it starts at a midnight, ends exactly
      one day later, and holds the instant `daysAgo` days before `now`. */
  lemma WindowIsThatDay(now: int, daysAgo: int)
    ensures WindowStart(now, daysAgo) % Day == 0
    ensures WindowStart(now, daysAgo) <= now - daysAgo * Day < WindowStart(now, daysAgo) + Day
    ensures daysAgo == 0 && HourOf(now) == 0 ==> now - WindowStart(now, daysAgo) < 3600
  {
    var t := now - daysAgo * Day;
    assert t == (t / Day) * Day + t % Day;
    assert t - t % Day == (t / Day) * Day;
  }

  /** `sum(r.count for r in reactions)` */
  function Total(rs: seq<Reaction>): nat
    decreases |rs|
  {
    if |rs| == 0 then 0 else Total(rs[..|rs| - 1]) + rs[|rs| - 1].count
  }

  /** `best_message` and `max_reactions` during the scan. */
  datatype Choice = Choice(best: Option<Post>, max: nat)

  /** One message of the scan: skipped without reactions, taken on a strictly
      greater total. */
  function Consider(c: Choice, p: Post): Choice
  {
    if |p.reactions| == 0 then c
    else if Total(p.reactions) > c.max then Choice(Some(p), Total(p.reactions))
    else c
  }

  /** The scan over the messages in order, from no message and 0. */
  function Scan(ps: seq<Post>): Choice
    decreases |ps|
  {
    if |ps| == 0 then Choice(None, 0) else Consider(Scan(ps[..|ps| - 1]), ps[|ps| - 1])
  }

  /** The scanned messages of the channels that resolved, channel by channel. */
  function Flatten(chs: seq<Option<seq<Post>>>): seq<Post>
    decreases |chs|
  {
    if |chs| == 0 then []
    else Flatten(chs[..|chs| - 1]) + (if chs[|chs| - 1].Some? then chs[|chs| - 1].value else [])
  }

  /** The maximum is the largest total (0 when no message has a reaction),
      and a message is chosen exactly when the maximum is positive. */
  lemma {:induction false} ScanIsMax(ps: seq<Post>)
    ensures forall i :: 0 <= i < |ps| ==> Total(ps[i].reactions) <= Scan(ps).max
    ensures Scan(ps).best.Some? <==> Scan(ps).max > 0
    ensures Scan(ps).max > 0 ==> exists i :: 0 <= i < |ps| && Total(ps[i].reactions) == Scan(ps).max
    decreases |ps|
  {
    if |ps| > 0 {
      var init, p := ps[..|ps| - 1], ps[|ps| - 1];
      ScanIsMax(init);
      assert forall i :: 0 <= i < |init| ==> ps[i] == init[i];
      if |p.reactions| == 0 {
        assert Total(p.reactions) == 0;
      }
      if Scan(ps).max > 0 && Scan(ps) == Scan(init) {
        var i :| 0 <= i < |init| && Total(init[i].reactions) == Scan(init).max;
        assert ps[i] == init[i];
      }
    }
  }

  /** The chosen message is the first one whose total is the maximum. */
  lemma {:induction false} ScanPicksFirst(ps: seq<Post>)
    requires Scan(ps).best.Some?
    ensures exists i :: (0 <= i < |ps| && ps[i] == Scan(ps).best.value && Total(ps[i].reactions) == Scan(ps).max
                         && (forall j :: 0 <= j < i ==> Total(ps[j].reactions) < Scan(ps).max))
    decreases |ps|
  {
    var init, p := ps[..|ps| - 1], ps[|ps| - 1];
    var c0 := Scan(init);
    ScanIsMax(init);
    assert forall i :: 0 <= i < |init| ==> ps[i] == init[i];
    if |p.reactions| > 0 && Total(p.reactions) > c0.max {
      assert ps[|ps| - 1] == p;
    } else {
      ScanPicksFirst(init);
      var i :| 0 <= i < |init| && init[i] == c0.best.value && Total(init[i].reactions) == c0.max
        && (forall j :: 0 <= j < i ==> Total(init[j].reactions) < c0.max);
      assert ps[i] == init[i];
    }
  }

  lemma ScanStep(ps: seq<Post>, p: Post)
    ensures Scan(ps + [p]) == Consider(Scan(ps), p)
  {
    assert (ps + [p])[..|ps|] == ps;
  }

  lemma FlattenStep(chs: seq<Option<seq<Post>>>, k: nat)
    requires k < |chs|
    ensures Flatten(chs[..k + 1]) == Flatten(chs[..k]) + (if chs[k].Some? then chs[k].value else [])
  {
    assert chs[..k + 1][..k] == chs[..k];
  }

  /** The inner selection loop over one channel's messages, continuing the scan
      of the messages `seen` before them: the best is replaced only on a
      strictly greater total. */
  method SelectInChannel(best0: Option<Post>, max0: nat, ghost seen: seq<Post>, h: seq<Post>)
    returns (best: Option<Post>, max: nat)
    requires Choice(best0, max0) == Scan(seen)
    ensures Choice(best, max) == Scan(seen + h)
  {
    best, max := best0, max0;
    assert seen + h[..0] == seen;
    for j := 0 to |h|
      invariant Choice(best, max) == Scan(seen + h[..j])
    {
      ScanStep(seen + h[..j], h[j]);
      assert seen + h[..j + 1] == seen + h[..j] + [h[j]];
      var p := h[j];
      if |p.reactions| > 0 {
        var count := Total(p.reactions);
        if count > max {
          max := count;
          best := Some(p);
        }
      }
    }
    assert h[..|h|] == h;
  }

  /** The selection loops: channels in order, messages in order. */
  method SelectBest(chs: seq<Option<seq<Post>>>) returns (best: Option<Post>, max: nat)
    ensures Choice(best, max) == Scan(Flatten(chs))
  {
    best, max := None, 0;
    for k := 0 to |chs|
      invariant Choice(best, max) == Scan(Flatten(chs[..k]))
    {
      FlattenStep(chs, k);
      if chs[k].Some? {
        best, max := SelectInChannel(best, max, Flatten(chs[..k]), chs[k].value);
      } else {
        assert Flatten(chs[..k]) + [] == Flatten(chs[..k]);
      }
    }
    assert chs[..|chs|] == chs;
  }

  // ---------------------------------------------------------------------------
  // The report

  function Prefixed(prefix: string, xs: seq<string>): (r: seq<string>)
    ensures |r| == |xs| && forall i :: 0 <= i < |xs| ==> r[i] == prefix + xs[i]
  {
    seq(|xs|, i requires 0 <= i < |xs| => prefix + xs[i])
  }

  /** The notes for the forwarded messages: their text, then their files. */
  function SnapshotExtras(ss: seq<Snapshot>): seq<string>
    decreases |ss|
  {
    if |ss| == 0 then []
    else
      var s := ss[|ss| - 1];
      SnapshotExtras(ss[..|ss| - 1]) + (if s.content != "" then ["🔄 [轉發]: " + s.content] else [])
      + Prefixed("📎 [轉發附件]: ", s.attachments)
  }

  /** `extras`: the forwarded notes, then one note per own file. */
  function Extras(m: RawMessage): seq<string>
  {
    SnapshotExtras(m.snapshots) + Prefixed("📎 [附件]: ", m.attachments)
  }

  /** The quoted text: the content (or a link to the message when it has none)
      with mentions shown by full display name, then the notes. */
  function QuoteText(p: Post): string
  {
    var base := if p.msg.content != "" then p.msg.content else "[**查看詳細**](" + p.jumpUrl + ")";
    var named := ReplaceMentions(base, p.msg.mentions, None);
    var extras := Extras(p.msg);
    if |extras| > 0 then named + "\n\n" + Join(extras, "\n") else named
  }

  function ReactionNote(r: Reaction): string
  {
    r.emoji + " x" + IntToString(r.count)
  }

  function EmojiDetail(rs: seq<Reaction>): string
  {
    Join(seq(|rs|, i requires 0 <= i < |rs| => ReactionNote(rs[i])), " ")
  }

  function Report(date: string, p: Post, max: nat): string
  {
    "# 🏆 **" + date + " 每日金句**\n"
    + "🔗 " + p.jumpUrl + "\n"
    + "👨‍💻 " + p.authorMention + "\n\n"
    + ">>> " + QuoteText(p) + "\n\n"
    + "🔥 **表情總數：" + IntToString(max) + "** (" + EmojiDetail(p.reactions) + ")\n"
  }

  /** Replacing with a non-empty text never empties a text. */
  lemma ReplaceKeepsNonEmpty(s: string, pat: string, rep: string)
    requires |pat| > 0 && s != "" && rep != ""
    ensures Replace(s, pat, rep) != ""
  {
  }

  lemma {:induction false} MentionsKeepNonEmpty(s: string, users: seq<User>)
    requires s != ""
    ensures ReplaceMentions(s, users, None) != ""
    decreases |users|
  {
    if |users| > 0 {
      var u := users[0];
      var at := "@" + u.displayName;
      ReplaceKeepsNonEmpty(s, MentionTag(u), at);
      ReplaceKeepsNonEmpty(Replace(s, MentionTag(u), at), NicknameTag(u), at);
      MentionsKeepNonEmpty(ReplaceMention(s, u, None), users[1..]);
    }
  }

  /** The quoted text is never empty, and it ends with the notes when there
      are any. */
  lemma QuoteTextShape(p: Post)
    ensures QuoteText(p) != ""
    ensures |Extras(p.msg)| > 0 ==> EndsWith(QuoteText(p), "\n\n" + Join(Extras(p.msg), "\n"))
  {
    var base := if p.msg.content != "" then p.msg.content else "[**查看詳細**](" + p.jumpUrl + ")";
    MentionsKeepNonEmpty(base, p.msg.mentions);
  }

  /** What the job posts: nothing outside its hour, nothing without a
      positive maximum or a target channel, else the one report. */
  function QuoteJob(zeroClockOnly: bool, now: int, daysAgo: int, chs: seq<Option<seq<Post>>>,
                    targetFound: bool, clock: (int, string) -> string): seq<string>
  {
    if !MayRun(zeroClockOnly, now) then []
    else
      var c := Scan(Flatten(chs));
      if c.best.Some? && targetFound
      then [Report(clock(WindowStart(now, daysAgo), "%Y年%m月%d日 %A"), c.best.value, c.max)]
      else []
  }

  method RunDailyQuote(zeroClockOnly: bool, now: int, daysAgo: int, chs: seq<Option<seq<Post>>>,
                       targetFound: bool, clock: (int, string) -> string) returns (sent: seq<string>)
    ensures sent == QuoteJob(zeroClockOnly, now, daysAgo, chs, targetFound, clock)
  {
    if zeroClockOnly && HourOf(now) != 0 {
      return [];
    }
    var start := WindowStart(now, daysAgo);
    var date := clock(start, "%Y年%m月%d日 %A");
    var best, max := SelectBest(chs);
    sent := [];
    if best.Some? && targetFound {
      sent := [Report(date, best.value, max)];
    }
  }

  /** A report is posted only when some message has a positive total, and it
      names the largest total of the day. */
  lemma QuotePostedIffReacted(zeroClockOnly: bool, now: int, daysAgo: int, chs: seq<Option<seq<Post>>>,
                              targetFound: bool, clock: (int, string) -> string)
    requires MayRun(zeroClockOnly, now) && targetFound
    ensures var ps := Flatten(chs);
      |QuoteJob(zeroClockOnly, now, daysAgo, chs, targetFound, clock)| == 1
      <==> exists i :: 0 <= i < |ps| && Total(ps[i].reactions) > 0
  {
    ScanIsMax(Flatten(chs));
  }
}
