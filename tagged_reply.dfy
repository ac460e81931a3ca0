/** The mention handler of the current bot (`tagged_reply.py`, `on_message`).

    Given the triggering message, what Discord delivers (the replied-to message
    and the messages around it, the channel's newest messages) and what the
    models answer, it computes the bot's reply: the message budget is split,
    the transcript is collected into a dict keyed by message id, sorted by time,
    and handed with the request to the model chain. */
module TaggedReply {
  import opened Wrappers
  import opened Text
  import opened Normalizer
  import opened History
  import opened Fallback

  const TotalMsgLimit := 50
  const ExecKeyword := "update_bot"
  const ModelPriority := ["gemma-3-27b-it"]

  // ---------------------------------------------------------------------------
  // Budget

  datatype Budget = Budget(msgLimit: int, refLimit: int)

  /** In reply mode a third of the total (at least 5) goes to the newest
      messages and the rest to the replied-to message's surroundings; otherwise
      all of it goes to the newest messages. */
  function SplitBudget(total: int, replyMode: bool): (b: Budget)
    ensures b.msgLimit + b.refLimit == total
    ensures !replyMode ==> b.msgLimit == total && b.refLimit == 0
    ensures replyMode ==> b.msgLimit >= 5 && b.msgLimit >= total / 3
    ensures replyMode ==> b.msgLimit == 5 || b.msgLimit == total / 3
  {
    if replyMode then
      var part := total / 3;
      var msg := if part >= 5 then part else 5;
      Budget(msg, total - msg)
    else Budget(total, 0)
  }

  /** From a total of 15 on, the newest messages get exactly a third (rounded
      down) and the surroundings at least twice as much; with the configured
      total of 50 that is 16 and 34. */
  lemma ReplyModeShares(total: int)
    requires total >= 15
    ensures var b := SplitBudget(total, true);
      b.msgLimit == total / 3 && 2 * b.msgLimit <= b.refLimit <= 2 * b.msgLimit + 2
    ensures SplitBudget(TotalMsgLimit, true) == Budget(16, 34)
  {
  }

  // ---------------------------------------------------------------------------
  // The replied-to message

  /** The reference of the triggering message: none, one whose fetch raised, or
      the fetched message with the messages delivered around it (empty when that
      second fetch raised; the delivered part when it raised midway). */
  datatype Reference = NoReference | Unreadable | Readable(msg: RefMessage, around: seq<RawMessage>)

  function RefContext(ref: Reference): (r: string)
    ensures r != "" <==> ref.Readable?
  {
    if ref.Readable? then RefNote(ref.msg, TaggedConfig.maxLength) else ""
  }

  /** One message around the replied-to one: eligibility is judged on the raw
      content; the body drops every ignore token, is stripped and capped; the
      author is the full display name and the time is `%H:%M`. */
  function AroundEntry(h: RawMessage, clock: (int, string) -> string): Option<Entry>
  {
    if IsBlank(h.content) && |h.attachments| == 0 then None
    else
      var body := Cap(Strip(Replace(h.content, "> -# 🤖", "")), TaggedConfig.maxLength);
      Some(Entry(h.id, h.createdAt,
        h.authorName + "@" + clock(h.createdAt, "%H:%M") + ": " + body
        + AttachmentSuffix(h.attachments, TaggedConfig.showAttachments)))
  }

  /** Because eligibility looks at the raw content, a message that is only the
      ignore token still yields a line, with an empty body. */
  lemma TokenOnlyMessageKept(h: RawMessage, clock: (int, string) -> string)
    requires h.content == "> -# 🤖" && h.attachments == []
    ensures AroundEntry(h, clock) == Some(Entry(h.id, h.createdAt, h.authorName + "@" + clock(h.createdAt, "%H:%M") + ": "))
  {
    assert h.content[0] == '>';
    ReplaceWhole(h.content, "");
    assert Strip("") == "";
    assert Cap(Strip(Replace(h.content, "> -# 🤖", "")), TaggedConfig.maxLength) == "";
    var head := h.authorName + "@" + clock(h.createdAt, "%H:%M") + ": ";
    assert head + "" + AttachmentSuffix(h.attachments, TaggedConfig.showAttachments) == head;
  }

  function OptSeq<T>(o: Option<T>): seq<T>
  {
    if o.Some? then [o.value] else []
  }

  function AroundEntries(hs: seq<RawMessage>, clock: (int, string) -> string): seq<Entry>
    decreases |hs|
  {
    if |hs| == 0 then [] else AroundEntries(hs[..|hs| - 1], clock) + OptSeq(AroundEntry(hs[|hs| - 1], clock))
  }

  /** The around context is fetched only when the reference could be read. */
  function AroundOf(ref: Reference, clock: (int, string) -> string): seq<Entry>
  {
    if ref.Readable? then AroundEntries(ref.around, clock) else []
  }

  // ---------------------------------------------------------------------------
  // The newest messages

  /** `channel.history(limit=n)`: the newest `n` messages, newest first. */
  function Newest(channel: seq<RawMessage>, n: int): (r: seq<RawMessage>)
    ensures r <= channel && |r| <= (if n < 0 then 0 else n)
  {
    if n <= 0 then [] else if n < |channel| then channel[..n] else channel
  }

  /** A newest message as a line: the trigger itself is skipped, every other
      message goes through the normaliser with the mention bot's settings. */
  function RecentLine(m: RawMessage, trigger: nat, fmt: string, clock: (int, string) -> string): Option<Line>
  {
    if m.id == trigger then None else Normalize(m, TaggedConfig, clock(m.createdAt, fmt))
  }

  function RecentEntry(m: RawMessage, trigger: nat, fmt: string, clock: (int, string) -> string): (r: Option<Entry>)
    ensures r.Some? ==> r.value.id == m.id && m.id != trigger
  {
    match RecentLine(m, trigger, fmt, clock)
    case None => None
    case Some(l) => Some(Entry(m.id, m.createdAt, l.text))
  }

  function RecentEntries(ms: seq<RawMessage>, trigger: nat, fmt: string, clock: (int, string) -> string): (r: seq<Entry>)
    ensures forall i :: 0 <= i < |r| ==> r[i].id != trigger
    decreases |ms|
  {
    if |ms| == 0 then []
    else RecentEntries(ms[..|ms| - 1], trigger, fmt, clock) + OptSeq(RecentEntry(ms[|ms| - 1], trigger, fmt, clock))
  }

  /** The "previous line" note: the first (newest) message that yields a line. */
  function PrevNote(ms: seq<RawMessage>, trigger: nat, fmt: string, clock: (int, string) -> string): string
    decreases |ms|
  {
    if |ms| == 0 then ""
    else match RecentLine(ms[0], trigger, fmt, clock)
      case Some(l) => " (上一句 " + l.author + ": " + l.body + ")"
      case None => PrevNote(ms[1..], trigger, fmt, clock)
  }

  lemma PutAllSnoc(d: seq<Entry>, es: seq<Entry>, o: Option<Entry>)
    ensures PutAll(d, es + OptSeq(o)) == if o.Some? then Put(PutAll(d, es), o.value) else PutAll(d, es)
  {
    if o.Some? {
      assert (es + [o.value])[..|es|] == es;
    } else {
      assert es + [] == es;
    }
  }

  lemma RecentStep(recent: seq<RawMessage>, k: nat, trigger: nat, fmt: string, clock: (int, string) -> string)
    requires k < |recent|
    ensures RecentEntries(recent[..k + 1], trigger, fmt, clock)
         == RecentEntries(recent[..k], trigger, fmt, clock) + OptSeq(RecentEntry(recent[k], trigger, fmt, clock))
    ensures PrevNote(recent[k..], trigger, fmt, clock) == match RecentLine(recent[k], trigger, fmt, clock)
      case Some(l) => " (上一句 " + l.author + ": " + l.body + ")"
      case None => PrevNote(recent[k + 1..], trigger, fmt, clock)
  {
    assert recent[..k + 1][..k] == recent[..k];
    assert recent[k..][1..] == recent[k + 1..];
  }

  lemma AroundStep(hs: seq<RawMessage>, k: nat, clock: (int, string) -> string)
    requires k < |hs|
    ensures AroundEntries(hs[..k + 1], clock) == AroundEntries(hs[..k], clock) + OptSeq(AroundEntry(hs[k], clock))
  {
    assert hs[..k + 1][..k] == hs[..k];
  }

  /** The around-context loop. */
  method CollectAround(hs: seq<RawMessage>, clock: (int, string) -> string) returns (d: seq<Entry>)
    ensures d == PutAll([], AroundEntries(hs, clock))
  {
    d := [];
    var k := 0;
    while k < |hs|
      invariant k <= |hs|
      invariant d == PutAll([], AroundEntries(hs[..k], clock))
    {
      var e := AroundEntry(hs[k], clock);
      AroundStep(hs, k, clock);
      PutAllSnoc([], AroundEntries(hs[..k], clock), e);
      if e.Some? {
        d := Put(d, e.value);
      }
      k := k + 1;
    }
    assert hs[..k] == hs;
  }

  /** The newest-messages loop: each kept line is stored under its id, and the
      first kept line becomes the "previous line". */
  method CollectRecent(base: seq<Entry>, recent: seq<RawMessage>, trigger: nat, fmt: string, clock: (int, string) -> string)
    returns (d: seq<Entry>, prev: string)
    ensures d == PutAll(base, RecentEntries(recent, trigger, fmt, clock))
    ensures prev == PrevNote(recent, trigger, fmt, clock)
  {
    d := base;
    prev := "";
    var found := false;
    var k := 0;
    while k < |recent|
      invariant k <= |recent|
      invariant d == PutAll(base, RecentEntries(recent[..k], trigger, fmt, clock))
      invariant !found ==> prev == ""
      invariant (if found then prev else PrevNote(recent[k..], trigger, fmt, clock)) == PrevNote(recent, trigger, fmt, clock)
    {
      var m := recent[k];
      var line := RecentLine(m, trigger, fmt, clock);
      RecentStep(recent, k, trigger, fmt, clock);
      PutAllSnoc(base, RecentEntries(recent[..k], trigger, fmt, clock), RecentEntry(m, trigger, fmt, clock));
      if line.Some? {
        var l := line.value;
        d := Put(d, Entry(m.id, m.createdAt, l.text));
        if !found {
          prev := " (上一句 " + l.author + ": " + l.body + ")";
          found := true;
        }
      }
      k := k + 1;
    }
    assert recent[..k] == recent;
    assert recent[k..] == [];
  }

  /** What both loops leave in the dict. */
  function Collected(ref: Reference, recent: seq<RawMessage>, trigger: nat, fmt: string, clock: (int, string) -> string): seq<Entry>
  {
    PutAll(PutAll([], AroundOf(ref, clock)), RecentEntries(recent, trigger, fmt, clock))
  }

  /** Each id holds at most one line, the last one stored for it; the trigger
      is never stored by the newest-messages loop, so it is present only if the
      around context delivered it; the dict is empty exactly when neither loop
      kept a message. */
  lemma CollectedSpec(ref: Reference, recent: seq<RawMessage>, trigger: nat, fmt: string,
                      clock: (int, string) -> string, k: nat)
    ensures var d := Collected(ref, recent, trigger, fmt, clock);
      var around := AroundOf(ref, clock);
      var news := RecentEntries(recent, trigger, fmt, clock);
      UniqueIds(d)
      && Lookup(d, k) == (match LastWith(news, k)
                          case Some(i) => Some(news[i])
                          case None => Lookup(PutAll([], around), k))
      && Lookup(d, trigger) == Lookup(PutAll([], around), trigger)
      && (|d| == 0 <==> |around| == 0 && |news| == 0)
  {
    var around := AroundOf(ref, clock);
    var news := RecentEntries(recent, trigger, fmt, clock);
    PutAllLookup([], around, k);
    PutAllLookup(PutAll([], around), news, k);
    PutAllLookup(PutAll([], around), news, trigger);
    PutAllEmpty([], around);
    PutAllEmpty(PutAll([], around), news);
  }

  // ---------------------------------------------------------------------------
  // The reply

  /** The request with the bot's own mention tags removed and stripped. */
  function ContentClean(content: string, botId: nat): string
  {
    Strip(Replace(Replace(content, "<@" + NatToString(botId) + ">", ""), "<@!" + NatToString(botId) + ">", ""))
  }

  /** The prompt template's arguments; the template text is not modelled. */
  datatype Prompt = Prompt(msgLimit: int, context: string, uName: string, request: string)

  /** The reference note when there is one, otherwise the "previous line". */
  function Suffix(refContext: string, prev: string): string
  {
    if refContext != "" then refContext else prev
  }

  function EmptyReply(msgLimit: int): string
  {
    "❌ 過去 " + IntToString(msgLimit) + " 則內沒有足夠的對話內容可以分析。"
  }

  const NoClientReply := "❌ 無法回應：未設定 GEMINI_API_KEY。"

  function Footer(used: string): string
  {
    "\n> -# 🤖 以上訊息由 Google Gemma 開放權重模型「" + used + "」驅動。\n"
    + "> -# 🤓 AI 內容僅供參考，不代表本社群立場，敬請核實。\n"
    + "> -# 📖 回應內容不會參考附件內容、其他頻道、網路資料、訊息表情。"
  }

  /** The answer with the footer, or the classified error when no model answered. */
  function Finish(a: Attempt): string
  {
    if a.reply.Some? && a.reply.value != "" && a.used.Some? && a.used.value != ""
    then a.reply.value + Footer(a.used.value)
    else Classify(a.lastError)
  }

  datatype Handled = Restarted | Replied(text: string)

  /** The whole handler for a triggering message. */
  function Respond(trigger: RawMessage, botId: nat, ref: Reference, channel: seq<RawMessage>, hasClient: bool,
                   ask: (string, Prompt) -> Outcome, fmt: string, clock: (int, string) -> string): Handled
  {
    var clean := ContentClean(trigger.content, botId);
    if Contains(clean, ExecKeyword) then Restarted
    else
      var b := SplitBudget(TotalMsgLimit, ref != NoReference);
      var recent := Newest(channel, b.msgLimit);
      var d := Collected(ref, recent, trigger.id, fmt, clock);
      if |d| == 0 then Replied(EmptyReply(b.msgLimit))
      else if !hasClient then Replied(NoClientReply)
      else
        var request := clean + Suffix(RefContext(ref), PrevNote(recent, trigger.id, fmt, clock));
        var prompt := Prompt(b.msgLimit, Render(d), Take(trigger.authorName, TaggedConfig.nameLimit), request);
        Replied(Finish(Run(ModelPriority, prompt, ask, 0, None)))
  }

  /** `on_message` for a message that mentions or replies to the bot. */
  method OnMessage(trigger: RawMessage, botId: nat, ref: Reference, channel: seq<RawMessage>, hasClient: bool,
                   ask: (string, Prompt) -> Outcome, fmt: string, clock: (int, string) -> string)
    returns (h: Handled)
    ensures h == Respond(trigger, botId, ref, channel, hasClient, ask, fmt, clock)
  {
    var clean := ContentClean(trigger.content, botId);
    if Contains(clean, ExecKeyword) {
      return Restarted;
    }
    var uName := Take(trigger.authorName, TaggedConfig.nameLimit);
    var budget := SplitBudget(TotalMsgLimit, ref != NoReference);
    var refContext := RefContext(ref);
    var recent := Newest(channel, budget.msgLimit);
    var around: seq<Entry> := [];
    if ref.Readable? {
      around := CollectAround(ref.around, clock);
    }
    var d, prev := CollectRecent(around, recent, trigger.id, fmt, clock);
    if |d| == 0 {
      return Replied(EmptyReply(budget.msgLimit));
    }
    if !hasClient {
      return Replied(NoClientReply);
    }
    var prompt := Prompt(budget.msgLimit, Render(d), uName, clean + Suffix(refContext, prev));
    var attempt := TryModels(ModelPriority, prompt, ask);
    return Replied(Finish(attempt));
  }

  /** An empty collection is answered with the error line, and no model is asked:
      the reply is the same whatever the models would say. */
  lemma EmptyCollectionAsksNoModel(trigger: RawMessage, botId: nat, ref: Reference, channel: seq<RawMessage>,
                                   hasClient: bool, ask1: (string, Prompt) -> Outcome, ask2: (string, Prompt) -> Outcome,
                                   fmt: string, clock: (int, string) -> string)
    requires !Contains(ContentClean(trigger.content, botId), ExecKeyword)
    requires var b := SplitBudget(TotalMsgLimit, ref != NoReference);
      AroundOf(ref, clock) == [] && RecentEntries(Newest(channel, b.msgLimit), trigger.id, fmt, clock) == []
    ensures Respond(trigger, botId, ref, channel, hasClient, ask1, fmt, clock)
         == Respond(trigger, botId, ref, channel, hasClient, ask2, fmt, clock)
         == Replied(EmptyReply(SplitBudget(TotalMsgLimit, ref != NoReference).msgLimit))
  {
    var b := SplitBudget(TotalMsgLimit, ref != NoReference);
    PutAllEmpty([], []);
    assert Collected(ref, Newest(channel, b.msgLimit), trigger.id, fmt, clock) == [];
  }

  /** With the configured single model: its non-empty answer is sent with the
      footer naming it; its error is classified; an empty answer gets the
      no-response line. The request carries the reference note when the
      replied-to message was read, the "previous line" otherwise. */
  lemma ReplyCases(prompt: Prompt, ask: (string, Prompt) -> Outcome)
    ensures var o := ask(ModelPriority[0], prompt);
      Finish(Run(ModelPriority, prompt, ask, 0, None))
        == if Answers(o) then o.text + Footer(ModelPriority[0])
           else if o.Raised? then Classify(Some(o.error))
           else NoResponse
  {
    var os := Outcomes(ModelPriority, prompt, ask);
    FirstAnswerWins(ModelPriority, prompt, ask);
    assert os[..0] == [];
    assert os == [ask(ModelPriority[0], prompt)];
  }

  lemma SuffixChoice(ref: Reference, prev: string)
    ensures ref.Readable? ==> Suffix(RefContext(ref), prev) == RefNote(ref.msg, TaggedConfig.maxLength)
    ensures !ref.Readable? ==> Suffix(RefContext(ref), prev) == prev
  {
  }
}
