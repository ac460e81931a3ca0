/** The scheduled bot of `server.py`: once logged in (`MyClient.on_ready`) it
    runs the summary, the daily quote and the link previews, one after the
    other, and closes. The channels, the clock, the model and the simulator
    are the inputs of one run. */
module Server {
  import opened Wrappers
  import opened Text
  import opened Fallback
  import opened Device
  import opened Summary
  import opened DailyQuote
  import opened LinkScreenshot

  /** The switches and values of `get_settings` that the jobs read. */
  datatype Settings = Settings(summaryEnabled: bool, linkEnabled: bool, zeroClockOnly: bool, daysAgo: int,
                               showDate: bool, showSeconds: bool, summaryFormat: string)

  /** The values `get_settings` returns; the summary format text is passed in. */
  function DefaultSettings(summaryFormat: string): Settings
  {
    Settings(true, true, true, 1, false, false, summaryFormat)
  }

  /** The secrets the jobs read, as `get_secrets` leaves them. */
  datatype Ids = Ids(key: Option<string>, targetId: Option<int>, previewId: Option<int>)

  /** What the outside world answers during one run: the time, the clock
      format, the model, the channel histories each job fetches (one entry
      per configured source id, None for an unresolved channel), whether the
      target and preview channels resolve, the simulator listing and the
      simulator's answers. */
  datatype World = World(now: int, clock: (int, string) -> string, ask: (string, string) -> Outcome,
                         summaryChannels: seq<Option<Channel>>, quoteChannels: seq<Option<seq<Post>>>,
                         linkChannels: seq<Option<seq<Post>>>, targetFound: bool, previewFound: bool,
                         sims: seq<Sim>, open: (string, nat) -> int, shot: nat -> bool)

  /** What the bot does, in order: its posts, tagged by job, then closing. */
  datatype Event = Summarised(text: string) | Quoted(text: string) | Previewed(preview: Preview) | Closed

  function Summaries(xs: seq<string>): (r: seq<Event>)
    ensures |r| == |xs| && forall i :: 0 <= i < |xs| ==> r[i] == Summarised(xs[i])
  {
    seq(|xs|, i requires 0 <= i < |xs| => Summarised(xs[i]))
  }

  function Quotes(xs: seq<string>): (r: seq<Event>)
    ensures |r| == |xs| && forall i :: 0 <= i < |xs| ==> r[i] == Quoted(xs[i])
  {
    seq(|xs|, i requires 0 <= i < |xs| => Quoted(xs[i]))
  }

  function PreviewEvents(xs: seq<Preview>): (r: seq<Event>)
    ensures |r| == |xs| && forall i :: 0 <= i < |xs| ==> r[i] == Previewed(xs[i])
  {
    seq(|xs|, i requires 0 <= i < |xs| => Previewed(xs[i]))
  }

  function SummaryPosts(s: Settings, ids: Ids, w: World): seq<string>
  {
    SummaryJob(s.summaryEnabled, w.summaryChannels, s.showDate, s.showSeconds, w.clock,
               ids.targetId, w.targetFound, ids.key, s.summaryFormat, w.ask)
  }

  function QuotePosts(s: Settings, w: World): seq<string>
  {
    QuoteJob(s.zeroClockOnly, w.now, s.daysAgo, w.quoteChannels, w.targetFound, w.clock)
  }

  function LinkPosts(s: Settings, ids: Ids, w: World): seq<Preview>
  {
    LinkJob(s.linkEnabled, w.sims, w.linkChannels, ids.previewId, w.previewFound, w.open, w.shot, w.clock)
  }

  /** The run: the three jobs in their fixed order, then the client closes. */
  function ReadyLog(s: Settings, ids: Ids, w: World): seq<Event>
  {
    Summaries(SummaryPosts(s, ids, w)) + Quotes(QuotePosts(s, w)) + PreviewEvents(LinkPosts(s, ids, w)) + [Closed]
  }

  method OnReady(s: Settings, ids: Ids, w: World) returns (log: seq<Event>)
    ensures log == ReadyLog(s, ids, w)
  {
    var summary := RunSummary(s.summaryEnabled, w.summaryChannels, s.showDate, s.showSeconds, w.clock,
                              ids.targetId, w.targetFound, ids.key, s.summaryFormat, w.ask);
    log := Summaries(summary);
    var quote := RunDailyQuote(s.zeroClockOnly, w.now, s.daysAgo, w.quoteChannels, w.targetFound, w.clock);
    log := log + Quotes(quote);
    var previews := RunLinkScreenshot(s.linkEnabled, w.sims, w.linkChannels, ids.previewId, w.previewFound,
                                      w.open, w.shot, w.clock);
    log := log + PreviewEvents(previews);
    log := log + [Closed];
  }

  function Stage(e: Event): nat
  {
    match e
    case Summarised(_) => 0
    case Quoted(_) => 1
    case Previewed(_) => 2
    case Closed => 3
  }

  /** The order of a log made of the three jobs' posts and the close. */
  lemma StagesInOrder(xs: seq<string>, ys: seq<string>, zs: seq<Preview>)
    ensures var log := Summaries(xs) + Quotes(ys) + PreviewEvents(zs) + [Closed];
      (forall i, j :: 0 <= i < j < |log| ==> Stage(log[i]) <= Stage(log[j]))
      && (forall i :: 0 <= i < |log| - 1 ==> log[i] != Closed)
  {
    var a, b, c := Summaries(xs), Quotes(ys), PreviewEvents(zs);
    var log := a + b + c + [Closed];
    forall i | 0 <= i < |log|
      ensures Stage(log[i]) == if i < |a| then 0 else if i < |a| + |b| then 1 else if i < |a| + |b| + |c| then 2 else 3
    {
      if i < |a| {
        assert log[i] == a[i];
      } else if i < |a| + |b| {
        assert log[i] == b[i - |a|];
      } else if i < |a| + |b| + |c| {
        assert log[i] == c[i - |a| - |b|];
      }
    }
  }

  /** No post of a later job comes before a post of an earlier one, the
      client closes last and only once, and each job contributes exactly its
      own posts. */
  lemma JobOrder(s: Settings, ids: Ids, w: World)
    ensures var log := ReadyLog(s, ids, w);
      (forall i, j :: 0 <= i < j < |log| ==> Stage(log[i]) <= Stage(log[j]))
      && log[|log| - 1] == Closed
      && (forall i :: 0 <= i < |log| - 1 ==> log[i] != Closed)
      && |log| == |SummaryPosts(s, ids, w)| + |QuotePosts(s, w)| + |LinkPosts(s, ids, w)| + 1
  {
    StagesInOrder(SummaryPosts(s, ids, w), QuotePosts(s, w), LinkPosts(s, ids, w));
  }

  /** The bot runs only with a token: without one nothing happens at all. */
  function Launch(token: Option<string>, s: Settings, ids: Ids, w: World): seq<Event>
  {
    if token.None? || token.value == "" then [] else ReadyLog(s, ids, w)
  }

  /** With a token the run always ends by closing the client. */
  lemma LaunchCloses(token: Option<string>, s: Settings, ids: Ids, w: World)
    ensures Launch(token, s, ids, w) != [] <==> token.Some? && token.value != ""
    ensures Launch(token, s, ids, w) != [] ==> Launch(token, s, ids, w)[|Launch(token, s, ids, w)| - 1] == Closed
  {
  }
}
