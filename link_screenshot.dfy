/** The link-preview job (`run_link_screenshot` in `server.py`): every link in
    the recent messages of the source channels is opened on an iPad simulator,
    with at most two attempts, and its screenshot is posted to the preview
    channel. The simulator is reduced to two answers: the return code of an
    open attempt and whether the screenshot file exists. */
module LinkScreenshot {
  import opened Wrappers
  import opened Text
  import opened Pattern
  import opened Device
  import opened DailyQuote

  /** One entry of `captured_links`: a link and the message it was found in. */
  datatype Captured = Captured(url: string, post: Post)

  /** `re.findall(r'(https?://\S+)', ...)` */
  function LinkFinder(): string -> seq<string>
  {
    s => FindAll(Link, s)
  }

  /** The entries of one message, one per match of `find`, in text order. */
  function LinksOf(p: Post, find: string -> seq<string>): seq<Captured>
  {
    var us := find(p.msg.content);
    seq(|us|, i requires 0 <= i < |us| => Captured(us[i], p))
  }

  /** `captured_links` after the scan of the messages `ps`. */
  function Captures(ps: seq<Post>, find: string -> seq<string>): seq<Captured>
    decreases |ps|
  {
    if |ps| == 0 then [] else Captures(ps[..|ps| - 1], find) + LinksOf(ps[|ps| - 1], find)
  }

  lemma CapturesStep(ps: seq<Post>, p: Post, find: string -> seq<string>)
    ensures Captures(ps + [p], find) == Captures(ps, find) + LinksOf(p, find)
  {
    assert (ps + [p])[..|ps|] == ps;
  }

  /** The inner loop for one message: its matches in text order. */
  method CaptureMessage(p: Post) returns (out: seq<Captured>)
    ensures out == LinksOf(p, LinkFinder())
  {
    var urls := FindAll(Link, p.msg.content);
    assert urls == LinkFinder()(p.msg.content);
    out := [];
    for u := 0 to |urls|
      invariant |out| == u
      invariant forall i :: 0 <= i < u ==> out[i] == Captured(urls[i], p)
    {
      out := out + [Captured(urls[u], p)];
    }
  }

  /** The loop over one channel's messages, oldest first. */
  method CaptureChannel(h: seq<Post>) returns (out: seq<Captured>)
    ensures out == Captures(h, LinkFinder())
  {
    out := [];
    for j := 0 to |h|
      invariant out == Captures(h[..j], LinkFinder())
    {
      CapturesStep(h[..j], h[j], LinkFinder());
      assert h[..j + 1] == h[..j] + [h[j]];
      var links := CaptureMessage(h[j]);
      out := out + links;
    }
    assert h[..|h|] == h;
  }

  /** The capture loops: channels in order, messages in order, matches in
      order, duplicates kept. */
  method CaptureLinks(chs: seq<Option<seq<Post>>>) returns (captured: seq<Captured>)
    ensures captured == Captures(Flatten(chs), LinkFinder())
  {
    captured := [];
    for k := 0 to |chs|
      invariant captured == Captures(Flatten(chs[..k]), LinkFinder())
    {
      FlattenStep(chs, k);
      if chs[k].Some? {
        var h := chs[k].value;
        CapturesAppend(Flatten(chs[..k]), h, LinkFinder());
        var links := CaptureChannel(h);
        captured := captured + links;
      } else {
        assert Flatten(chs[..k]) + [] == Flatten(chs[..k]);
      }
    }
    assert chs[..|chs|] == chs;
  }

  /** The capture is compositional: the links of later messages come after
      those of earlier ones. */
  lemma {:induction false} CapturesAppend(a: seq<Post>, b: seq<Post>, find: string -> seq<string>)
    ensures Captures(a + b, find) == Captures(a, find) + Captures(b, find)
    decreases |b|
  {
    if |b| == 0 {
      assert a + b == a;
    } else {
      var init, last := b[..|b| - 1], b[|b| - 1];
      assert b == init + [last];
      assert a + b == (a + init) + [last];
      CapturesAppend(a, init, find);
      CapturesStep(a + init, last, find);
      CapturesStep(init, last, find);
    }
  }

  /** Every captured entry holds a link match (a scheme, then no whitespace)
      of one of the scanned messages. */
  lemma {:induction false} CapturedAreLinks(ps: seq<Post>)
    ensures forall c :: c in Captures(ps, LinkFinder()) ==> IsLinkText(c.url) && c.post in ps
    decreases |ps|
  {
    if |ps| > 0 {
      var init, p := ps[..|ps| - 1], ps[|ps| - 1];
      CapturedAreLinks(init);
      FoundLinksAreLinks(p.msg.content);
      var us := FindAll(Link, p.msg.content);
      var links := LinksOf(p, LinkFinder());
      assert us == LinkFinder()(p.msg.content);
      forall c | c in links ensures IsLinkText(c.url) && c.post == p {
        var i :| 0 <= i < |links| && links[i] == c;
        assert c.url == us[i];
      }
      forall c | c in init ensures c in ps {
        var i :| 0 <= i < |init| && init[i] == c;
        assert ps[i] == c;
      }
    }
  }

  // ---------------------------------------------------------------------------
  // Opening and posting

  /** Whether the link opens: one of the two attempts returns 0. `open(url, t)`
      is the return code of attempt `t`. */
  predicate Opens(url: string, open: (string, nat) -> int)
  {
    open(url, 0) == 0 || open(url, 1) == 0
  }

  /** The retry loop: at most two attempts, stopping at the first that returns
      0; `tries` is the number of attempts made. */
  method OpenWithRetry(url: string, open: (string, nat) -> int) returns (ok: bool, tries: nat)
    ensures ok <==> Opens(url, open)
    ensures 1 <= tries <= 2
    ensures ok ==> open(url, tries - 1) == 0
    ensures forall t :: 0 <= t < tries - 1 ==> open(url, t) != 0
    ensures !ok ==> tries == 2
  {
    ok, tries := false, 0;
    while tries < 2 && !ok
      invariant 0 <= tries <= 2
      invariant ok ==> 1 <= tries && open(url, tries - 1) == 0
      invariant forall t :: 0 <= t < (if ok then tries - 1 else tries) ==> open(url, t) != 0
      decreases 2 - tries, !ok
    {
      var code := open(url, tries);
      tries := tries + 1;
      if code == 0 {
        ok := true;
      }
    }
  }

  /** What the preview channel receives for one link: the caption with the
      screenshot file, or the caption with the failure note. */
  datatype Preview = Screenshot(caption: string, file: string) | Failed(text: string)

  const PreviewFormat := "%Y年%m月%d日 %A %H:%M"

  function Caption(c: Captured, clock: (int, string) -> string): string
  {
    "📸 **網頁預覽** " + clock(c.post.msg.createdAt, PreviewFormat) + "\n"
    + ">>> 💬 @" + c.post.authorUser + " 傳送到 " + c.post.jumpUrl + "\n"
    + " 原始連結: <" + c.url + ">\n"
  }

  function ShotFile(idx: nat): string
  {
    "screenshot_temp_" + NatToString(idx) + ".png"
  }

  /** The post for link number `idx` once it has opened; `shot(idx)` says
      whether its screenshot file exists. */
  function PreviewOf(idx: nat, c: Captured, shot: nat -> bool, clock: (int, string) -> string): Preview
  {
    if shot(idx) then Screenshot(Caption(c, clock), ShotFile(idx))
    else Failed(Caption(c, clock) + "\n(❌ 截圖失敗)")
  }

  /** The posts for the links `cs`: links that never open are skipped, and
      nothing is posted without a preview channel. */
  function Previews(cs: seq<Captured>, open: (string, nat) -> int, shot: nat -> bool,
                    clock: (int, string) -> string, target: bool): seq<Preview>
    decreases |cs|
  {
    if |cs| == 0 then []
    else
      var idx := |cs| - 1;
      Previews(cs[..idx], open, shot, clock, target)
      + (if Opens(cs[idx].url, open) && target then [PreviewOf(idx, cs[idx], shot, clock)] else [])
  }

  /** The links of `cs` that open. */
  function Opened(cs: seq<Captured>, open: (string, nat) -> int): (r: nat)
    ensures r <= |cs|
    decreases |cs|
  {
    if |cs| == 0 then 0
    else Opened(cs[..|cs| - 1], open) + (if Opens(cs[|cs| - 1].url, open) then 1 else 0)
  }

  lemma PreviewsStep(cs: seq<Captured>, k: nat, open: (string, nat) -> int, shot: nat -> bool,
                     clock: (int, string) -> string, target: bool)
    requires k < |cs|
    ensures Previews(cs[..k + 1], open, shot, clock, target)
         == Previews(cs[..k], open, shot, clock, target)
            + (if Opens(cs[k].url, open) && target then [PreviewOf(k, cs[k], shot, clock)] else [])
  {
    assert cs[..k + 1][..k] == cs[..k];
  }

  /** The processing loop: every link is tried, a failed one skipped, and an
      opened one posted when there is a preview channel. */
  method ProcessLinks(cs: seq<Captured>, open: (string, nat) -> int, shot: nat -> bool,
                      clock: (int, string) -> string, target: bool) returns (posts: seq<Preview>)
    ensures posts == Previews(cs, open, shot, clock, target)
  {
    posts := [];
    for idx := 0 to |cs|
      invariant posts == Previews(cs[..idx], open, shot, clock, target)
    {
      PreviewsStep(cs, idx, open, shot, clock, target);
      var c := cs[idx];
      var ok, _ := OpenWithRetry(c.url, open);
      if !ok {
        continue;
      }
      if target {
        var caption := Caption(c, clock);
        if shot(idx) {
          posts := posts + [Screenshot(caption, ShotFile(idx))];
        } else {
          posts := posts + [Failed(caption + "\n(❌ 截圖失敗)")];
        }
      }
    }
    assert cs[..|cs|] == cs;
  }

  /** One post per link that opens when there is a preview channel, none
      without one. */
  lemma {:induction false} PreviewCount(cs: seq<Captured>, open: (string, nat) -> int, shot: nat -> bool,
                                        clock: (int, string) -> string, target: bool)
    ensures |Previews(cs, open, shot, clock, target)| == if target then Opened(cs, open) else 0
    decreases |cs|
  {
    if |cs| > 0 {
      PreviewCount(cs[..|cs| - 1], open, shot, clock, target);
    }
  }

  /** Every link is posted exactly when every link opens. */
  lemma {:induction false} AllOpenedIff(cs: seq<Captured>, open: (string, nat) -> int)
    ensures Opened(cs, open) == |cs| <==> forall i :: 0 <= i < |cs| ==> Opens(cs[i].url, open)
    decreases |cs|
  {
    if |cs| > 0 {
      var init := cs[..|cs| - 1];
      AllOpenedIff(init, open);
      assert forall i :: 0 <= i < |init| ==> init[i] == cs[i];
    }
  }

  /** The whole job: nothing when disabled or without a simulator; otherwise
      the links of the recent messages, processed in capture order. The
      preview channel is looked up only for a truthy id. */
  function LinkJob(enabled: bool, sims: seq<Sim>, chs: seq<Option<seq<Post>>>, previewId: Option<int>,
                   previewFound: bool, open: (string, nat) -> int, shot: nat -> bool,
                   clock: (int, string) -> string): seq<Preview>
  {
    if !enabled || PickDevice(sims).None? then []
    else
      var target := previewId.Some? && previewId.value != 0 && previewFound;
      Previews(Captures(Flatten(chs), LinkFinder()), open, shot, clock, target)
  }

  method RunLinkScreenshot(enabled: bool, sims: seq<Sim>, chs: seq<Option<seq<Post>>>, previewId: Option<int>,
                           previewFound: bool, open: (string, nat) -> int, shot: nat -> bool,
                           clock: (int, string) -> string) returns (posts: seq<Preview>)
    ensures posts == LinkJob(enabled, sims, chs, previewId, previewFound, open, shot, clock)
  {
    if !enabled {
      return [];
    }
    var device := PickDevice(sims);
    if device.None? {
      return [];
    }
    var captured := CaptureLinks(chs);
    var target := false;
    if previewId.Some? && previewId.value != 0 {
      target := previewFound;
    }
    posts := ProcessLinks(captured, open, shot, clock, target);
  }

  /** The job posts at most one preview per captured link, and none when no
      simulator is listed or no preview channel is found. */
  lemma LinkJobBounds(enabled: bool, sims: seq<Sim>, chs: seq<Option<seq<Post>>>, previewId: Option<int>,
                      previewFound: bool, open: (string, nat) -> int, shot: nat -> bool,
                      clock: (int, string) -> string)
    ensures var posts := LinkJob(enabled, sims, chs, previewId, previewFound, open, shot, clock);
      |posts| <= |Captures(Flatten(chs), LinkFinder())|
      && (|sims| == 0 || !previewFound ==> posts == [])
  {
    PickDeviceChoice(sims);
    var target := previewId.Some? && previewId.value != 0 && previewFound;
    PreviewCount(Captures(Flatten(chs), LinkFinder()), open, shot, clock, target);
  }
}
