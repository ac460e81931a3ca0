/** The first mention bot (`old/tagged_reply_v1.py`): the user may ask for a
    number of messages, in Arabic or Chinese numerals; the replied-to message's
    surroundings form a sorted block; the newest messages are collected newest
    first and reversed; five models are tried in order. */
module LegacyReply {
  import opened Wrappers
  import opened Text
  import opened Sorting
  import opened Pattern
  import opened Normalizer
  import opened History
  import opened Fallback
  import opened TaggedReply

  const LegacyModels := ["gemma-3-27b-it", "gemma-3-12b-it", "gemma-3-4b-it", "gemma-3-2b-it", "gemma-3-1b-it"]
  const LegacyToken := "> 🤖 "
  const DefaultCount := 30

  // ---------------------------------------------------------------------------
  // parse_chinese_number

  /** The numeral table; these are also exactly the characters the count
      pattern accepts as Chinese numerals. */
  function NumeralValue(c: char): Option<nat>
  {
    if c == '一' || c == '壹' then Some(1)
    else if c == '二' || c == '貳' || c == '兩' then Some(2)
    else if c == '三' || c == '參' then Some(3)
    else if c == '四' || c == '肆' then Some(4)
    else if c == '五' || c == '伍' then Some(5)
    else if c == '六' || c == '陸' then Some(6)
    else if c == '七' || c == '柒' then Some(7)
    else if c == '八' || c == '捌' then Some(8)
    else if c == '九' || c == '玖' then Some(9)
    else if c == '十' || c == '拾' then Some(10)
    else if c == '廿' then Some(20)
    else None
  }

  predicate IsNumeral(c: char)
  {
    NumeralValue(c).Some?
  }

  /** `total` and `current_val` of the numeral loop. */
  datatype Acc = Acc(total: nat, current: nat)

  /** One character: a unit (10 or more) multiplies the pending digit, or 1,
      into the total; a digit becomes the pending digit; others are ignored. */
  function Step(a: Acc, c: char): Acc
  {
    match NumeralValue(c)
    case None => a
    case Some(v) =>
      if v >= 10 then Acc(a.total + (if a.current == 0 then 1 else a.current) * v, 0)
      else Acc(a.total, v)
  }

  /** The loop state after the characters of `s`. */
  function Fold(s: string): Acc
    decreases |s|
  {
    if |s| == 0 then Acc(0, 0) else Step(Fold(s[..|s| - 1]), s[|s| - 1])
  }

  /** `parse_chinese_number(s)`: digits parse to their value, anything else
      to at least 1. */
  function ParseNumber(s: string): (r: int)
    ensures |s| > 0 && AllDigits(s) ==> r == DigitsValue(s)
    ensures |s| == 0 || !AllDigits(s) ==> r >= 1
  {
    if |s| == 0 then 1
    else if AllDigits(s) then DigitsValue(s)
    else if |s| == 1 && IsNumeral(s[0]) && NumeralValue(s[0]).value < 10 then NumeralValue(s[0]).value
    else
      var a := Fold(s);
      if a.total + a.current > 0 then a.total + a.current else 1
  }

  /** The parser as written: the shortcuts, then the accumulator loop. */
  method ParseChineseNumber(s: string) returns (n: int)
    ensures n == ParseNumber(s)
  {
    if |s| == 0 {
      return 1;
    }
    if AllDigits(s) {
      return DigitsValue(s);
    }
    if |s| == 1 && IsNumeral(s[0]) && NumeralValue(s[0]).value < 10 {
      return NumeralValue(s[0]).value;
    }
    var total: nat := 0;
    var current: nat := 0;
    var k := 0;
    while k < |s|
      invariant k <= |s|
      invariant Fold(s[..k]) == Acc(total, current)
    {
      assert s[..k + 1][..k] == s[..k];
      var c := s[k];
      assert Fold(s[..k + 1]) == Step(Acc(total, current), c);
      if IsNumeral(c) {
        var v := NumeralValue(c).value;
        if v >= 10 {
          if current == 0 {
            current := 1;
          }
          total := total + current * v;
          current := 0;
        } else {
          current := v;
        }
      }
      k := k + 1;
    }
    assert s[..k] == s;
    total := total + current;
    n := if total > 0 then total else 1;
  }

  /** Characters outside the table leave the loop state as it was. */
  function Known(s: string): (r: string)
    ensures forall i :: 0 <= i < |r| ==> IsNumeral(r[i])
    decreases |s|
  {
    if |s| == 0 then ""
    else Known(s[..|s| - 1]) + (if IsNumeral(s[|s| - 1]) then [s[|s| - 1]] else [])
  }

  lemma {:induction false} FoldIgnoresUnknown(s: string)
    ensures Fold(s) == Fold(Known(s))
    decreases |s|
  {
    if |s| > 0 {
      var init, c := s[..|s| - 1], s[|s| - 1];
      FoldIgnoresUnknown(init);
      if IsNumeral(c) {
        assert (Known(init) + [c])[..|Known(init)|] == Known(init);
      } else {
        assert Known(s) == Known(init) + [] == Known(init);
      }
    }
  }

  /** A unit after a digit multiplies it; a unit with nothing pending counts
      once; a digit after a unit is added. */
  lemma TensAndUnits(d: char, e: char)
    requires IsNumeral(d) && NumeralValue(d).value < 10
    requires IsNumeral(e) && NumeralValue(e).value < 10
    ensures ParseNumber([d, '十', e]) == 10 * NumeralValue(d).value + NumeralValue(e).value
  {
    var s := [d, '十', e];
    var vd, ve := NumeralValue(d).value, NumeralValue(e).value;
    assert !IsDigit(s[1]);
    assert s[..2] == [d, '十'] && s[..2][..1] == [d] && s[..2][..1][..0] == [];
    assert Fold([d]) == Acc(0, vd);
    assert Fold([d, '十']) == Acc(10 * vd, 0);
    assert Fold(s) == Acc(10 * vd, ve);
  }

  lemma TensOnly(d: char)
    requires IsNumeral(d) && NumeralValue(d).value < 10
    ensures ParseNumber([d, '十']) == 10 * NumeralValue(d).value
    ensures ParseNumber([d]) == NumeralValue(d).value
  {
    var s := [d, '十'];
    var vd := NumeralValue(d).value;
    assert !IsDigit(s[1]);
    assert s[..1] == [d] && s[..1][..0] == [];
    assert Fold([d]) == Acc(0, vd);
    assert Fold(s) == Acc(10 * vd, 0);
  }

  lemma TenAndUnit(e: char)
    requires IsNumeral(e) && NumeralValue(e).value < 10
    ensures ParseNumber(['十', e]) == 10 + NumeralValue(e).value
  {
    var s := ['十', e];
    assert !IsDigit(s[0]);
    assert s[..1] == ['十'] && s[..1][..0] == [];
    assert Fold(['十']) == Acc(10, 0);
    assert Fold(s) == Acc(10, NumeralValue(e).value);
  }

  /** 十 is 10, 三十 is 30, 二十五 is 25, 廿 is 20. */
  lemma NumeralExamples()
    ensures ParseNumber("十") == 10 && ParseNumber("三十") == 30
    ensures ParseNumber("二十五") == 25 && ParseNumber("廿") == 20
    ensures ParseNumber("") == 1
  {
    TensAndUnits('二', '五');
    TensOnly('三');
    assert "十"[..0] == [] && "廿"[..0] == [];
    assert !IsDigit("十"[0]) && !IsDigit("廿"[0]);
  }

  // ---------------------------------------------------------------------------
  // The requested count

  function NumeralRun(s: string): (n: nat)
    ensures n <= |s| && forall i :: 0 <= i < n ==> IsNumeral(s[i])
    ensures n < |s| ==> !IsNumeral(s[n])
  {
    if |s| > 0 && IsNumeral(s[0]) then 1 + NumeralRun(s[1..]) else 0
  }

  /** Group 1 of `re.search(r'(\d+|[numerals]+)\s*(?:m|msg|...)?', s)`: the
      longest run of digits, or of numerals, at the first character that is
      either. The optional suffix never changes group 1. */
  function CountToken(s: string): (r: Option<string>)
    decreases |s|
  {
    if |s| == 0 then None
    else if IsDigit(s[0]) then Some(s[..DigitRun(s)])
    else if IsNumeral(s[0]) then Some(s[..NumeralRun(s)])
    else CountToken(s[1..])
  }

  /** Neither an ASCII digit nor a numeral. */
  predicate Plain(c: char)
  {
    !IsDigit(c) && !IsNumeral(c)
  }

  predicate AllNumerals(t: string)
  {
    forall j :: 0 <= j < |t| ==> IsNumeral(t[j])
  }

  /** `t` is found at `i`, after only plain characters, and is a run of digits
      or of numerals that the next character does not continue. */
  predicate TokenAt(s: string, i: int, t: string)
  {
    0 <= i && 0 < |t| && i + |t| <= |s| && s[i..i + |t|] == t
    && (forall j :: 0 <= j < i ==> Plain(s[j]))
    && ((AllDigits(t) && (i + |t| == |s| || !IsDigit(s[i + |t|])))
        || (AllNumerals(t) && (i + |t| == |s| || !IsNumeral(s[i + |t|]))))
  }

  lemma TokenShift(c: char, s: string, i: int, t: string)
    requires Plain(c) && TokenAt(s, i, t)
    ensures TokenAt([c] + s, i + 1, t)
  {
    var s' := [c] + s;
    assert s'[i + 1..i + 1 + |t|] == s[i..i + |t|];
    assert forall j :: 1 <= j < |s'| ==> s'[j] == s[j - 1];
  }

  /** The token starts at the first digit or numeral and is the longest run of
      its class there; without one, the text has neither. */
  lemma {:induction false} CountTokenSpec(s: string)
    ensures CountToken(s).None? ==> forall i :: 0 <= i < |s| ==> Plain(s[i])
    ensures CountToken(s).Some? ==> exists i :: TokenAt(s, i, CountToken(s).value)
    decreases |s|
  {
    if |s| > 0 {
      if IsDigit(s[0]) {
        DigitRunSpec(s);
        assert s[0..DigitRun(s)] == CountToken(s).value;
        assert TokenAt(s, 0, CountToken(s).value);
      } else if IsNumeral(s[0]) {
        assert s[0..NumeralRun(s)] == CountToken(s).value;
        assert TokenAt(s, 0, CountToken(s).value);
      } else {
        CountTokenSpec(s[1..]);
        assert s == [s[0]] + s[1..];
        if CountToken(s).Some? {
          var i :| TokenAt(s[1..], i, CountToken(s[1..]).value);
          TokenShift(s[0], s[1..], i, CountToken(s).value);
        } else {
          assert forall i :: 1 <= i < |s| ==> s[i] == s[1..][i - 1];
        }
      }
    }
  }

  /** `raw_limit_str`: the search result, else the whole text when it is all
      digits or all numerals. */
  function RawLimit(clean: string): Option<string>
  {
    match CountToken(clean)
    case Some(t) => Some(t)
    case None =>
      if |clean| > 0 && AllDigits(clean) then Some(clean)
      else if |clean| > 0 && AllNumerals(clean) then Some(clean)
      else None
  }

  /** The fallback after a failed search never fires: a text it would accept
      contains a digit or a numeral, so the search has already matched. */
  lemma FallbackUnreachable(clean: string)
    ensures RawLimit(clean) == CountToken(clean)
  {
    CountTokenSpec(clean);
    if CountToken(clean).None? && |clean| > 0 {
      assert Plain(clean[0]);
    }
  }

  /** `max(5, min(n, 500))` */
  function Clamp(n: int): (r: int)
    ensures 5 <= r <= 500
    ensures 5 <= n <= 500 ==> r == n
    ensures n < 5 ==> r == 5
    ensures n > 500 ==> r == 500
  {
    var m := if n < 500 then n else 500;
    if 5 > m then 5 else m
  }

  /** The number of newest messages to read: the parsed request, 30 by default,
      clamped to [5, 500]. */
  function RequestedCount(clean: string): (r: int)
    ensures 5 <= r <= 500
    ensures RawLimit(clean).None? ==> r == DefaultCount
  {
    match RawLimit(clean)
    case None => Clamp(DefaultCount)
    case Some(t) => Clamp(ParseNumber(t))
  }

  // ---------------------------------------------------------------------------
  // The around block

  /** One message around the replied-to one: eligibility on the raw content,
      every ignore token removed, stripped, no cap, full display name. */
  function AroundEntryV1(h: RawMessage, clock: (int, string) -> string): Option<Entry>
  {
    if IsBlank(h.content) && |h.attachments| == 0 then None
    else
      var body := Strip(Replace(h.content, LegacyToken, "")) + (if |h.attachments| > 0 then " (含附件)" else "");
      Some(Entry(h.id, h.createdAt, h.authorName + "@" + clock(h.createdAt, "%H:%M") + ": " + body))
  }

  function AroundEntriesV1(hs: seq<RawMessage>, clock: (int, string) -> string): seq<Entry>
    decreases |hs|
  {
    if |hs| == 0 then [] else AroundEntriesV1(hs[..|hs| - 1], clock) + OptSeq(AroundEntryV1(hs[|hs| - 1], clock))
  }

  /** The block before the newest messages: the around lines sorted by time
      under a header naming half the reference budget, or nothing at all. */
  function AroundBlock(entries: seq<Entry>, refLimit: int): string
  {
    if |entries| == 0 then ""
    else
      var header := "\n[被回覆訊息的時間點上下文 (±" + IntToString(refLimit / 2) + "則)]\n";
      header + Join(Lines(Ordered(entries)), "\n") + "\n--------------------\n"
  }

  /** The block is present exactly when some line was kept, its header names
      half the reference budget, and its lines are every kept line once,
      oldest first. */
  lemma AroundBlockSpec(entries: seq<Entry>, refLimit: int, t: int)
    ensures AroundBlock(entries, refLimit) == "" <==> |entries| == 0
    ensures |entries| > 0 ==>
      StartsWith(AroundBlock(entries, refLimit), "\n[被回覆訊息的時間點上下文 (±" + IntToString(refLimit / 2))
      && EndsWith(AroundBlock(entries, refLimit), "\n--------------------\n")
    ensures SortedBy(Ordered(entries), Ts) && multiset(Ordered(entries)) == multiset(entries)
    ensures WithKey(Ordered(entries), Ts, t) == WithKey(entries, Ts, t)
  {
    OrderedIsSortedPermutation(entries, t);
  }

  // ---------------------------------------------------------------------------
  // The newest messages

  function RecentEntryV1(m: RawMessage, trigger: nat, fmt: string, clock: (int, string) -> string): (r: Option<Entry>)
    ensures r.Some? ==> r.value.ts == m.createdAt
  {
    if m.id == trigger then None
    else match Normalize(m, LegacyConfig, clock(m.createdAt, fmt))
      case None => None
      case Some(l) => Some(Entry(m.id, m.createdAt, l.text))
  }

  function RecentEntriesV1(ms: seq<RawMessage>, trigger: nat, fmt: string, clock: (int, string) -> string): seq<Entry>
    decreases |ms|
  {
    if |ms| == 0 then []
    else RecentEntriesV1(ms[..|ms| - 1], trigger, fmt, clock) + OptSeq(RecentEntryV1(ms[|ms| - 1], trigger, fmt, clock))
  }

  /** A mentioned user's name, shortened as the bot's lines shorten names. */
  function MentionName(u: User): string
  {
    Take(u.displayName, LegacyConfig.nameLimit)
  }

  /** `u_name` after the loop: the short name of the last user mentioned by the
      last non-trigger message with mentions, kept or not; unset if none. */
  function LastMentioned(ms: seq<RawMessage>, trigger: nat): Option<string>
    decreases |ms|
  {
    if |ms| == 0 then None
    else
      var m := ms[|ms| - 1];
      if m.id != trigger && |m.mentions| > 0 then Some(MentionName(m.mentions[|m.mentions| - 1]))
      else LastMentioned(ms[..|ms| - 1], trigger)
  }

  lemma RecentV1Step(recent: seq<RawMessage>, k: nat, trigger: nat, fmt: string, clock: (int, string) -> string)
    requires k < |recent|
    ensures RecentEntriesV1(recent[..k + 1], trigger, fmt, clock)
         == RecentEntriesV1(recent[..k], trigger, fmt, clock) + OptSeq(RecentEntryV1(recent[k], trigger, fmt, clock))
    ensures LastMentioned(recent[..k + 1], trigger)
         == if recent[k].id != trigger && |recent[k].mentions| > 0
            then Some(MentionName(recent[k].mentions[|recent[k].mentions| - 1]))
            else LastMentioned(recent[..k], trigger)
  {
    assert recent[..k + 1][..k] == recent[..k];
  }

  lemma LinesSnoc(es: seq<Entry>, o: Option<Entry>)
    ensures Lines(es + OptSeq(o)) == Lines(es) + (if o.Some? then [o.value.line] else [])
  {
  }

  /** The newest-messages loop, with `u_name` leaking out of its mention loop. */
  method CollectRecentV1(recent: seq<RawMessage>, trigger: nat, fmt: string, clock: (int, string) -> string)
    returns (lines: seq<string>, uName: Option<string>)
    ensures lines == Lines(RecentEntriesV1(recent, trigger, fmt, clock))
    ensures uName == LastMentioned(recent, trigger)
  {
    lines := [];
    uName := None;
    var k := 0;
    while k < |recent|
      invariant k <= |recent|
      invariant lines == Lines(RecentEntriesV1(recent[..k], trigger, fmt, clock))
      invariant uName == LastMentioned(recent[..k], trigger)
    {
      var m := recent[k];
      RecentV1Step(recent, k, trigger, fmt, clock);
      LinesSnoc(RecentEntriesV1(recent[..k], trigger, fmt, clock), RecentEntryV1(m, trigger, fmt, clock));
      if m.id != trigger {
        var j := 0;
        while j < |m.mentions|
          invariant j <= |m.mentions|
          invariant uName == if j == 0 then LastMentioned(recent[..k], trigger) else Some(MentionName(m.mentions[j - 1]))
        {
          uName := Some(MentionName(m.mentions[j]));
          j := j + 1;
        }
        var e := RecentEntryV1(m, trigger, fmt, clock);
        if e.Some? {
          lines := lines + [e.value.line];
        }
      }
      k := k + 1;
    }
    assert recent[..k] == recent;
  }

  function Reverse<T>(xs: seq<T>): (r: seq<T>)
    ensures |r| == |xs| && forall i :: 0 <= i < |xs| ==> r[i] == xs[|xs| - 1 - i]
  {
    if |xs| == 0 then [] else [xs[|xs| - 1]] + Reverse(xs[..|xs| - 1])
  }

  predicate NewestFirst(ms: seq<RawMessage>)
  {
    forall i, j :: 0 <= i < j < |ms| ==> ms[i].createdAt >= ms[j].createdAt
  }

  predicate Descending(es: seq<Entry>)
  {
    forall i, j :: 0 <= i < j < |es| ==> es[i].ts >= es[j].ts
  }

  /** A kept line carries its message's time, so no line is older than the
      oldest message. */
  lemma {:induction false} KeptNotOlder(ms: seq<RawMessage>, b: int, trigger: nat, fmt: string, clock: (int, string) -> string)
    requires forall i :: 0 <= i < |ms| ==> ms[i].createdAt >= b
    ensures forall e :: e in RecentEntriesV1(ms, trigger, fmt, clock) ==> e.ts >= b
    decreases |ms|
  {
    if |ms| > 0 {
      var init := ms[..|ms| - 1];
      assert forall i :: 0 <= i < |init| ==> init[i] == ms[i];
      KeptNotOlder(init, b, trigger, fmt, clock);
    }
  }

  lemma {:induction false} KeptStayNewestFirst(ms: seq<RawMessage>, trigger: nat, fmt: string, clock: (int, string) -> string)
    requires NewestFirst(ms)
    ensures Descending(RecentEntriesV1(ms, trigger, fmt, clock))
    decreases |ms|
  {
    if |ms| > 0 {
      var init := ms[..|ms| - 1];
      assert NewestFirst(init);
      KeptStayNewestFirst(init, trigger, fmt, clock);
      KeptNotOlder(init, ms[|ms| - 1].createdAt, trigger, fmt, clock);
      var es := RecentEntriesV1(init, trigger, fmt, clock);
      var last := RecentEntryV1(ms[|ms| - 1], trigger, fmt, clock);
      var all := es + OptSeq(last);
      assert RecentEntriesV1(ms, trigger, fmt, clock) == all;
      forall i, j | 0 <= i < j < |all| ensures all[i].ts >= all[j].ts {
        if j >= |es| {
          assert all[j] == last.value && all[i] == es[i];
          assert es[i] in es;
        }
      }
    }
  }

  /** Reversing the lines collected from a newest-first history gives them
      oldest first. */
  lemma ReversedIsOldestFirst(ms: seq<RawMessage>, trigger: nat, fmt: string, clock: (int, string) -> string)
    requires NewestFirst(ms)
    ensures SortedBy(Reverse(RecentEntriesV1(ms, trigger, fmt, clock)), Ts)
    ensures Reverse(Lines(RecentEntriesV1(ms, trigger, fmt, clock))) == Lines(Reverse(RecentEntriesV1(ms, trigger, fmt, clock)))
  {
    KeptStayNewestFirst(ms, trigger, fmt, clock);
    ReverseDescending(RecentEntriesV1(ms, trigger, fmt, clock));
  }

  /** Entries newest first, reversed, are oldest first, and reversing commutes
      with taking their lines. */
  lemma ReverseDescending(es: seq<Entry>)
    requires Descending(es)
    ensures SortedBy(Reverse(es), Ts)
    ensures Reverse(Lines(es)) == Lines(Reverse(es))
  {
    var r := Reverse(es);
    forall i, j | 0 <= i < j < |r| ensures Ts(r[i]) <= Ts(r[j]) {
      assert r[i] == es[|es| - 1 - i] && r[j] == es[|es| - 1 - j];
    }
  }

  // ---------------------------------------------------------------------------
  // The reply

  function FooterV1(used: string, msgLimit: int): string
  {
    "\n> 🤖 以上回覆由「" + used + "」模型根據此頻道最新 " + IntToString(msgLimit) + " 則訊息回覆。\n"
    + "> 🤓 AI 內容僅供參考，不代表本社群立場，敬請核實。\n"
    + "> 📖 此次回應不包含附件內容、其他頻道、網路資料、伺服器內暱稱、訊息表情。\n"
    + "> 💡 可以指定使用 5~500 (預設30) 則對話紀錄。"
  }

  function ErrorReply(e: string): string
  {
    "❌ 發生錯誤: " + e
  }

  /** The whole handler; `unbound` is the text of the error Python raises when
      `u_name` was never set. */
  function RespondV1(trigger: RawMessage, botId: nat, ref: Reference, channel: seq<RawMessage>, hasClient: bool,
                     ask: (string, Prompt) -> Outcome, fmt: string, clock: (int, string) -> string, unbound: string): string
  {
    var clean := ContentClean(trigger.content, botId);
    var limit := RequestedCount(clean);
    var refContext := if ref.Readable? then RefNote(ref.msg, None) else "";
    var block := if ref.Readable? then AroundBlock(AroundEntriesV1(ref.around, clock), limit) else "";
    var recent := Newest(channel, limit);
    var lines := Lines(RecentEntriesV1(recent, trigger.id, fmt, clock));
    if |lines| == 0 then EmptyReply(limit)
    else if !hasClient then NoClientReply
    else match LastMentioned(recent, trigger.id)
      case None => ErrorReply(unbound)
      case Some(uName) =>
        var context := block + "\n[最新對話]\n" + Join(Reverse(lines), "\n");
        var a := Run(LegacyModels, Prompt(limit, context, uName, clean + refContext), ask, 0, None);
        if a.reply.Some? && a.reply.value != "" && a.used.Some? && a.used.value != ""
        then a.reply.value + FooterV1(a.used.value, limit)
        else NoResponse
  }

  /** `on_message` of the first bot for a message that mentions it. */
  method OnMessageV1(trigger: RawMessage, botId: nat, ref: Reference, channel: seq<RawMessage>, hasClient: bool,
                     ask: (string, Prompt) -> Outcome, fmt: string, clock: (int, string) -> string, unbound: string)
    returns (reply: string)
    ensures reply == RespondV1(trigger, botId, ref, channel, hasClient, ask, fmt, clock, unbound)
  {
    var clean := ContentClean(trigger.content, botId);
    var raw := RawLimit(clean);
    var limit := DefaultCount;
    if raw.Some? {
      limit := ParseChineseNumber(raw.value);
    }
    limit := Clamp(limit);
    assert limit == RequestedCount(clean);
    var refContext := "";
    if ref.Readable? {
      refContext := RefNote(ref.msg, None);
    }
    var block := "";
    if ref.Readable? {
      block := AroundBlock(AroundEntriesV1(ref.around, clock), limit);
    }
    assert refContext == if ref.Readable? then RefNote(ref.msg, None) else "";
    assert block == if ref.Readable? then AroundBlock(AroundEntriesV1(ref.around, clock), limit) else "";
    var lines, uName := CollectRecentV1(Newest(channel, limit), trigger.id, fmt, clock);
    if |lines| == 0 {
      return EmptyReply(limit);
    }
    if !hasClient {
      return NoClientReply;
    }
    if uName.None? {
      return ErrorReply(unbound);
    }
    var context := block + "\n[最新對話]\n" + Join(Reverse(lines), "\n");
    var a := TryModels(LegacyModels, Prompt(limit, context, uName.value, clean + refContext), ask);
    if a.reply.Some? && a.reply.value != "" && a.used.Some? && a.used.value != "" {
      return a.reply.value + FooterV1(a.used.value, limit);
    }
    return NoResponse;
  }

  /** When no message in the window mentions anyone, `u_name` is unbound: every
      conversation with lines and a client ends in the error reply, and no
      model is asked. */
  lemma UnboundNameAsksNoModel(trigger: RawMessage, botId: nat, ref: Reference, channel: seq<RawMessage>,
                               ask1: (string, Prompt) -> Outcome, ask2: (string, Prompt) -> Outcome,
                               fmt: string, clock: (int, string) -> string, unbound: string)
    requires var recent := Newest(channel, RequestedCount(ContentClean(trigger.content, botId)));
      forall i :: 0 <= i < |recent| ==> recent[i].mentions == []
    requires |RecentEntriesV1(Newest(channel, RequestedCount(ContentClean(trigger.content, botId))), trigger.id, fmt, clock)| > 0
    ensures RespondV1(trigger, botId, ref, channel, true, ask1, fmt, clock, unbound)
         == RespondV1(trigger, botId, ref, channel, true, ask2, fmt, clock, unbound)
         == ErrorReply(unbound)
  {
    var recent := Newest(channel, RequestedCount(ContentClean(trigger.content, botId)));
    NoMentionsNoName(recent, trigger.id);
  }

  lemma {:induction false} NoMentionsNoName(ms: seq<RawMessage>, trigger: nat)
    requires forall i :: 0 <= i < |ms| ==> ms[i].mentions == []
    ensures LastMentioned(ms, trigger) == None
    decreases |ms|
  {
    if |ms| > 0 {
      NoMentionsNoName(ms[..|ms| - 1], trigger);
    }
  }
}
