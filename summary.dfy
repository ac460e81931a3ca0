/** The scheduled summary job (`run_ai_summary` in `server.py`): the recent
    messages of every source channel become transcript lines, grouped under a
    `--[#name]` header per channel, and the joined text is handed to the model.
    The report the job means to send refers to names that do not exist, so a
    model answer always ends in the failure notice. */
module Summary {
  import opened Wrappers
  import opened Text
  import opened Pattern
  import opened Normalizer
  import opened Fallback

  /** A source channel that resolved: its name and its messages of the last
      hours, oldest first. */
  datatype Channel = Channel(name: string, history: seq<RawMessage>)

  const SummaryModel := "gemini-3-flash-preview"
  const FailurePrefix := "⚠️ Gemini 總結失敗: "
  /** The text of the `NameError` raised while formatting the report. */
  const ReportError := "name 'recent_msg_hours' is not defined"

  /** The line of one message, as a list of zero or one lines. */
  function LineOf(m: RawMessage, fmt: string, clock: (int, string) -> string): seq<string>
  {
    match Normalize(m, ServerConfig, clock(m.createdAt, fmt))
    case None => []
    case Some(l) => [l.text]
  }

  /** The line function of a run, with the time format and clock fixed. */
  function Liner(fmt: string, clock: (int, string) -> string): RawMessage -> seq<string>
  {
    m => LineOf(m, fmt, clock)
  }

  /** `channel_msgs` after the scan of one channel. */
  function ChannelLines(ms: seq<RawMessage>, line: RawMessage -> seq<string>): seq<string>
    decreases |ms|
  {
    if |ms| == 0 then [] else ChannelLines(ms[..|ms| - 1], line) + line(ms[|ms| - 1])
  }

  function Header(name: string): string
  {
    "--[#" + name + "]"
  }

  /** A channel's part of the output: its header and lines, or nothing when it
      has no line. */
  function Section(ch: Channel, line: RawMessage -> seq<string>): seq<string>
  {
    var lines := ChannelLines(ch.history, line);
    if |lines| == 0 then [] else [Header(ch.name)] + lines
  }

  /** `collected_output`: the sections of the channels that resolved, in the
      configured order. */
  function Sections(chs: seq<Option<Channel>>, line: RawMessage -> seq<string>): seq<string>
    decreases |chs|
  {
    if |chs| == 0 then []
    else Sections(chs[..|chs| - 1], line) + (if chs[|chs| - 1].Some? then Section(chs[|chs| - 1].value, line) else [])
  }

  lemma LinesStep(ms: seq<RawMessage>, j: nat, line: RawMessage -> seq<string>)
    requires j < |ms|
    ensures ChannelLines(ms[..j + 1], line) == ChannelLines(ms[..j], line) + line(ms[j])
  {
    assert ms[..j + 1][..j] == ms[..j];
  }

  lemma SectionsStep(chs: seq<Option<Channel>>, k: nat, line: RawMessage -> seq<string>)
    requires k < |chs|
    ensures Sections(chs[..k + 1], line)
         == Sections(chs[..k], line) + (if chs[k].Some? then Section(chs[k].value, line) else [])
  {
    assert chs[..k + 1][..k] == chs[..k];
  }

  /** The inner loop: one channel's messages, oldest first, as lines. */
  method ChannelSummary(history: seq<RawMessage>, fmt: string, clock: (int, string) -> string)
    returns (lines: seq<string>)
    ensures lines == ChannelLines(history, Liner(fmt, clock))
  {
    lines := [];
    for j := 0 to |history|
      invariant lines == ChannelLines(history[..j], Liner(fmt, clock))
    {
      LinesStep(history, j, Liner(fmt, clock));
      var m := history[j];
      assert Liner(fmt, clock)(m) == LineOf(m, fmt, clock);
      lines := lines + LineOf(m, fmt, clock);
    }
    assert history[..|history|] == history;
  }

  /** The collection loops: channels in order, each channel's lines appended
      after its header once the channel has been scanned. */
  method CollectSummary(chs: seq<Option<Channel>>, fmt: string, clock: (int, string) -> string) returns (out: seq<string>)
    ensures out == Sections(chs, Liner(fmt, clock))
  {
    out := [];
    for k := 0 to |chs|
      invariant out == Sections(chs[..k], Liner(fmt, clock))
    {
      SectionsStep(chs, k, Liner(fmt, clock));
      if chs[k].Some? {
        var ch := chs[k].value;
        var lines := ChannelSummary(ch.history, fmt, clock);
        if |lines| > 0 {
          out := out + [Header(ch.name)] + lines;
        }
      }
    }
    assert chs[..|chs|] == chs;
  }

  /** A summary line has no cut and no cap: it is credited to the shortened
      display name, and no custom emoji token is left in its body. */
  lemma SummaryLineShape(m: RawMessage, stamp: string)
    requires Normalize(m, ServerConfig, stamp).Some?
    ensures var l := Normalize(m, ServerConfig, stamp).value;
      l.author == Take(m.authorName, 4) && NoMatch(Emoji, l.body)
      && l.text == l.author + "@" + stamp + ": " + l.body + AttachmentSuffix(m.attachments, false)
  {
    AuthorChoice(m, ServerConfig, stamp);
    NormalizeEligibility(m, ServerConfig, stamp);
    UncappedBodyHasNoEmoji(m, ServerConfig);
  }

  /** The joined text is empty exactly when no resolved channel produced a
      line; otherwise it opens with the header of the first such channel. */
  lemma {:induction false} SectionsEmpty(chs: seq<Option<Channel>>, line: RawMessage -> seq<string>)
    ensures Sections(chs, line) == [] <==>
      forall k :: 0 <= k < |chs| && chs[k].Some? ==> ChannelLines(chs[k].value.history, line) == []
    ensures Sections(chs, line) != [] ==> StartsWith(Sections(chs, line)[0], "--[#")
    decreases |chs|
  {
    if |chs| > 0 {
      var init := chs[..|chs| - 1];
      SectionsEmpty(init, line);
      assert forall k :: 0 <= k < |init| ==> init[k] == chs[k];
    }
  }

  lemma JoinEmpty(xs: seq<string>, sep: string)
    requires |xs| > 0 && |xs[0]| > 0
    ensures Join(xs, sep) != ""
  {
  }

  /** Whether the job posts, and what: nothing unless there is text, a truthy
      target id, a target channel and a key; then a model answer leads to the
      report whose formatting raises, and an error to its own text, both under
      the failure prefix. An empty answer posts nothing. */
  function Delivery(text: string, targetId: Option<int>, targetFound: bool, key: Option<string>, answer: Outcome): seq<string>
  {
    if text == "" || targetId.None? || targetId.value == 0 then []
    else if !targetFound || key.None? || key.value == "" then []
    else match answer
      case Answer(t) => if t == "" then [] else [FailurePrefix + ReportError]
      case Raised(e) => [FailurePrefix + e]
  }

  /** The job never posts a summary: at most one message, always the failure
      notice, and it is posted exactly when every precondition holds and the
      model gave text or raised. */
  lemma DeliveryPostsOnlyFailures(text: string, targetId: Option<int>, targetFound: bool, key: Option<string>, answer: Outcome)
    ensures var d := Delivery(text, targetId, targetFound, key, answer);
      |d| <= 1 && (forall s :: s in d ==> StartsWith(s, FailurePrefix))
      && (d != [] <==> text != "" && targetId.Some? && targetId.value != 0 && targetFound
                       && key.Some? && key.value != "" && (answer.Raised? || answer.text != ""))
  {
  }

  function SummaryPrompt(format: string, text: string): string
  {
    "請用繁體中文總結以下聊天內容\n" + format + "\n\n" + text
  }

  /** The whole job: disabled posts nothing; otherwise the collected text goes
      to the model and the outcome to the target channel. */
  function SummaryJob(enabled: bool, chs: seq<Option<Channel>>, showDate: bool, showSeconds: bool,
                      clock: (int, string) -> string, targetId: Option<int>, targetFound: bool,
                      key: Option<string>, format: string, ask: (string, string) -> Outcome): seq<string>
  {
    if !enabled then []
    else
      var text := Join(Sections(chs, Liner(TimeFormat(showDate, showSeconds), clock)), "\n");
      Delivery(text, targetId, targetFound, key, ask(SummaryModel, SummaryPrompt(format, text)))
  }

  method RunSummary(enabled: bool, chs: seq<Option<Channel>>, showDate: bool, showSeconds: bool,
                    clock: (int, string) -> string, targetId: Option<int>, targetFound: bool,
                    key: Option<string>, format: string, ask: (string, string) -> Outcome)
    returns (sent: seq<string>)
    ensures sent == SummaryJob(enabled, chs, showDate, showSeconds, clock, targetId, targetFound, key, format, ask)
  {
    if !enabled {
      return [];
    }
    var fmt := TimeFormat(showDate, showSeconds);
    var out := CollectSummary(chs, fmt, clock);
    var text := Join(out, "\n");
    sent := [];
    if text != "" && targetId.Some? && targetId.value != 0 {
      if targetFound && key.Some? && key.value != "" {
        var answer := ask(SummaryModel, SummaryPrompt(format, text));
        match answer {
          case Answer(t) =>
            if t != "" {
              sent := [FailurePrefix + ReportError];
            }
          case Raised(e) =>
            sent := [FailurePrefix + e];
        }
      }
    }
  }

  /** With no line in any resolved channel, the model is never asked and
      nothing is posted. */
  lemma QuietChannelsPostNothing(chs: seq<Option<Channel>>, showDate: bool, showSeconds: bool,
                                 clock: (int, string) -> string, targetId: Option<int>, targetFound: bool,
                                 key: Option<string>, format: string, ask: (string, string) -> Outcome)
    requires forall k :: 0 <= k < |chs| && chs[k].Some? ==>
      ChannelLines(chs[k].value.history, Liner(TimeFormat(showDate, showSeconds), clock)) == []
    ensures SummaryJob(true, chs, showDate, showSeconds, clock, targetId, targetFound, key, format, ask) == []
  {
    SectionsEmpty(chs, Liner(TimeFormat(showDate, showSeconds), clock));
  }

  /** Some line in some resolved channel makes the text non-empty. */
  lemma BusyChannelGivesText(chs: seq<Option<Channel>>, line: RawMessage -> seq<string>, k: nat)
    requires k < |chs| && chs[k].Some? && ChannelLines(chs[k].value.history, line) != []
    ensures Join(Sections(chs, line), "\n") != ""
  {
    SectionsEmpty(chs, line);
    JoinEmpty(Sections(chs, line), "\n");
  }
}
