/** The one-shot sender of `sender/sender.py` (`OnceSender.on_ready`): it
    resolves one target channel, posts the prepared text unless it is blank,
    then posts the images of its `img` folder in name order, one failure not
    stopping the rest, and closes. */
module Sender {
  import opened Wrappers
  import opened Text

  /** `SPECIFIED_CHANNEL_ID` as shipped; 0 stands for an empty setting. */
  const ShippedChannelId: int := 1463956373619347642

  /** The program starts only with a token and some channel id: the one in the
      environment or the one in the code. */
  predicate MayStart(token: Option<string>, targetEnv: Option<string>, specified: int)
  {
    token.Some? && token.value != "" && ((targetEnv.Some? && targetEnv.value != "") || specified != 0)
  }

  /** `int(SPECIFIED_CHANNEL_ID) if SPECIFIED_CHANNEL_ID else int(TARGET_CHANNEL_ID)`;
      None when `int` raises, which happens before the guarded lookup. */
  function TargetId(specified: int, targetEnv: Option<string>): (r: Option<int>)
    ensures specified != 0 ==> r == Some(specified)
    ensures specified == 0 && r.Some? ==> targetEnv.Some? && PyInt(targetEnv.value) == r
  {
    if specified != 0 then Some(specified)
    else if targetEnv.None? then None
    else PyInt(targetEnv.value)
  }

  /** The id in the code wins; without one, a printed id in the environment
      is read back as itself. */
  lemma TargetIdChoice(specified: int, n: int)
    ensures TargetId(specified, Some(IntToString(n))) == Some(if specified != 0 then specified else n)
  {
    PyIntOfIntToString(n);
  }

  // ---------------------------------------------------------------------------
  // Image names

  /** `f.lower().endswith(image_extensions)` */
  predicate IsImageName(f: string)
  {
    var l := Lower(f);
    EndsWith(l, ".png") || EndsWith(l, ".jpg") || EndsWith(l, ".jpeg")
    || EndsWith(l, ".gif") || EndsWith(l, ".webp") || EndsWith(l, ".heic")
  }

  /** The image names among the folder entries, in listing order. */
  function ImageNames(files: seq<string>): (r: seq<string>)
    ensures forall x :: x in r <==> x in files && IsImageName(x)
    ensures multiset(r) <= multiset(files)
    decreases |files|
  {
    if |files| == 0 then []
    else
      assert files == [files[0]] + files[1..];
      (if IsImageName(files[0]) then [files[0]] else []) + ImageNames(files[1..])
  }

  /** Python's ordering of strings: code point by code point, a proper prefix
      first. */
  predicate LexLe(a: string, b: string)
    decreases |a|
  {
    |a| == 0 || (|b| > 0 && (a[0] < b[0] || (a[0] == b[0] && LexLe(a[1..], b[1..]))))
  }

  lemma {:induction false} LexTotal(a: string, b: string)
    ensures LexLe(a, b) || LexLe(b, a)
    decreases |a|
  {
    if |a| > 0 && |b| > 0 && a[0] == b[0] {
      LexTotal(a[1..], b[1..]);
    }
  }

  lemma {:induction false} LexTrans(a: string, b: string, c: string)
    requires LexLe(a, b) && LexLe(b, c)
    ensures LexLe(a, c)
    decreases |a|
  {
    if |a| > 0 && a[0] == b[0] && b[0] == c[0] {
      LexTrans(a[1..], b[1..], c[1..]);
    }
  }

  lemma {:induction false} LexAntisym(a: string, b: string)
    requires LexLe(a, b) && LexLe(b, a)
    ensures a == b
    decreases |a|
  {
    if |a| > 0 {
      LexAntisym(a[1..], b[1..]);
      assert a == [a[0]] + a[1..];
      assert b == [b[0]] + b[1..];
    }
  }

  predicate NamesSorted(xs: seq<string>)
  {
    forall i, j :: 0 <= i < j < |xs| ==> LexLe(xs[i], xs[j])
  }

  /** `x` placed before the first name that sorts after it. */
  function InsertName(x: string, ys: seq<string>): seq<string>
    decreases |ys|
  {
    if |ys| == 0 || LexLe(x, ys[0]) then [x] + ys else [ys[0]] + InsertName(x, ys[1..])
  }

  /** `sorted(names)` */
  function SortNames(xs: seq<string>): seq<string>
    decreases |xs|
  {
    if |xs| == 0 then [] else InsertName(xs[0], SortNames(xs[1..]))
  }

  lemma {:induction false} InsertNameSorted(x: string, ys: seq<string>)
    requires NamesSorted(ys)
    ensures NamesSorted(InsertName(x, ys))
    ensures multiset(InsertName(x, ys)) == multiset(ys) + multiset{x}
    ensures |InsertName(x, ys)| > 0 && (InsertName(x, ys)[0] == x || (|ys| > 0 && InsertName(x, ys)[0] == ys[0]))
    decreases |ys|
  {
    if |ys| == 0 || LexLe(x, ys[0]) {
      var r := [x] + ys;
      forall i, j | 0 <= i < j < |r| ensures LexLe(r[i], r[j]) {
        if i == 0 {
          if j > 1 {
            LexTrans(x, ys[0], ys[j - 1]);
          }
        }
      }
    } else {
      var rest := ys[1..];
      assert NamesSorted(rest) by {
        forall i, j | 0 <= i < j < |rest| ensures LexLe(rest[i], rest[j]) {
          assert rest[i] == ys[i + 1] && rest[j] == ys[j + 1];
        }
      }
      InsertNameSorted(x, rest);
      var t := InsertName(x, rest);
      var r := [ys[0]] + t;
      LexTotal(x, ys[0]);
      forall i, j | 0 <= i < j < |r| ensures LexLe(r[i], r[j]) {
        if i == 0 {
          assert r[j] == t[j - 1];
          assert t[j - 1] in multiset(rest) + multiset{x};
          if t[j - 1] == x {
          } else {
            assert t[j - 1] in rest;
            var k :| 0 <= k < |rest| && rest[k] == t[j - 1];
            assert ys[k + 1] == rest[k];
          }
        }
      }
      assert ys == [ys[0]] + rest;
    }
  }

  /** The sort orders the names and keeps each of them as often as it
      occurs. */
  lemma {:induction false} SortNamesSorts(xs: seq<string>)
    ensures NamesSorted(SortNames(xs)) && multiset(SortNames(xs)) == multiset(xs)
    decreases |xs|
  {
    if |xs| > 0 {
      SortNamesSorts(xs[1..]);
      InsertNameSorted(xs[0], SortNames(xs[1..]));
      assert xs == [xs[0]] + xs[1..];
    }
  }

  lemma SortedTail(a: seq<string>)
    requires |a| > 0 && NamesSorted(a)
    ensures NamesSorted(a[1..])
  {
    forall x, y | 0 <= x < y < |a[1..]| ensures LexLe(a[1..][x], a[1..][y]) {
      assert a[1..][x] == a[x + 1] && a[1..][y] == a[y + 1];
    }
  }

  /** Two ordered arrangements of the same names start with the same name. */
  lemma SortedHeads(a: seq<string>, b: seq<string>)
    requires |a| > 0 && NamesSorted(a) && NamesSorted(b) && multiset(a) == multiset(b)
    ensures |b| > 0 && a[0] == b[0]
  {
    assert a[0] in multiset(b);
    assert b[0] in multiset(a);
    var j :| 0 <= j < |b| && b[j] == a[0];
    var i :| 0 <= i < |a| && a[i] == b[0];
    if i > 0 && j > 0 {
      assert LexLe(b[0], b[j]);
      assert LexLe(a[0], a[i]);
      LexAntisym(a[0], b[0]);
    }
  }

  /** There is only one ordered arrangement of a multiset of names, so the
      order does not depend on how the sort works. */
  lemma {:induction false} SortedIsUnique(a: seq<string>, b: seq<string>)
    requires NamesSorted(a) && NamesSorted(b) && multiset(a) == multiset(b)
    ensures a == b
    decreases |a|
  {
    if |a| == 0 {
      assert |b| == |multiset(b)| == 0;
    } else {
      SortedHeads(a, b);
      var ta, tb := a[1..], b[1..];
      assert a == [a[0]] + ta;
      assert b == [b[0]] + tb;
      assert multiset(a) == multiset{a[0]} + multiset(ta);
      assert multiset(b) == multiset{a[0]} + multiset(tb);
      assert multiset(ta) == multiset(a) - multiset{a[0]} == multiset(tb);
      SortedTail(a);
      SortedTail(b);
      SortedIsUnique(ta, tb);
    }
  }

  /** `images`: the image names of the folder, sorted. */
  function Images(files: seq<string>): seq<string>
  {
    SortNames(ImageNames(files))
  }

  /** The images are exactly the folder's image names, each as often as it is
      listed, in ascending order. */
  lemma ImagesSpec(files: seq<string>)
    ensures NamesSorted(Images(files))
    ensures multiset(Images(files)) == multiset(ImageNames(files))
    ensures forall x :: x in Images(files) <==> x in files && IsImageName(x)
  {
    SortNamesSorts(ImageNames(files));
    forall x ensures x in Images(files) <==> x in ImageNames(files) {
      assert x in Images(files) <==> x in multiset(Images(files));
      assert x in ImageNames(files) <==> x in multiset(ImageNames(files));
    }
  }

  // ---------------------------------------------------------------------------
  // The run

  /** What the sender does, in order. */
  datatype Event = TextSent(text: string) | ImageSent(name: string) | ImageFailed(name: string) | Closed

  /** The event of one image: `send(name)` says whether the upload worked. */
  function ImageEvent(name: string, send: string -> bool): Event
  {
    if send(name) then ImageSent(name) else ImageFailed(name)
  }

  /** The per-image loop: every image is tried once, in order, whatever
      happened to the ones before. */
  method SendImages(images: seq<string>, send: string -> bool) returns (log: seq<Event>)
    ensures |log| == |images|
    ensures forall i :: 0 <= i < |images| ==> log[i] == ImageEvent(images[i], send)
  {
    log := [];
    for idx := 0 to |images|
      invariant |log| == idx
      invariant forall i :: 0 <= i < idx ==> log[i] == ImageEvent(images[i], send)
    {
      var name := images[idx];
      if send(name) {
        log := log + [ImageSent(name)];
      } else {
        log := log + [ImageFailed(name)];
      }
    }
  }

  function ImageEvents(images: seq<string>, send: string -> bool): (r: seq<Event>)
    ensures |r| == |images| && forall i :: 0 <= i < |images| ==> r[i] == ImageEvent(images[i], send)
  {
    seq(|images|, i requires 0 <= i < |images| => ImageEvent(images[i], send))
  }

  /** The text, unless it is blank (`MESSAGE_TO_SEND.strip()` is empty). */
  function TextPart(message: string): seq<Event>
  {
    if IsBlank(message) then [] else [TextSent(message)]
  }

  /** One event per image of the folder, in ascending name order. */
  function ImagePart(folder: Option<seq<string>>, send: string -> bool): seq<Event>
  {
    if folder.Some? then ImageEvents(Images(folder.value), send) else []
  }

  /** With a folder, one event per image name listed, for the names in
      ascending order. */
  lemma ImagePartSpec(folder: Option<seq<string>>, send: string -> bool)
    ensures folder.None? ==> ImagePart(folder, send) == []
    ensures folder.Some? ==>
      |ImagePart(folder, send)| == |ImageNames(folder.value)| == |Images(folder.value)|
      && forall i :: 0 <= i < |ImagePart(folder, send)| ==>
        ImagePart(folder, send)[i].name == Images(folder.value)[i] && !ImagePart(folder, send)[i].TextSent?
  {
    if folder.Some? {
      SortNamesSorts(ImageNames(folder.value));
      assert |Images(folder.value)| == |multiset(Images(folder.value))| == |ImageNames(folder.value)|;
    }
  }

  /** What a resolved channel receives: the text, the images, and closing. */
  function Deliver(message: string, folder: Option<seq<string>>, send: string -> bool): seq<Event>
  {
    TextPart(message) + ImagePart(folder, send) + [Closed]
  }

  /** `on_ready`: an unreadable environment id raises before anything else and
      the client stays open (no event); a channel found neither in the cache
      nor by the API closes the client; otherwise the text unless blank, the
      images when the folder exists, then closing. */
  function Run(message: string, specified: int, targetEnv: Option<string>, cached: int -> bool,
               fetchable: int -> bool, folder: Option<seq<string>>, send: string -> bool): seq<Event>
  {
    match TargetId(specified, targetEnv)
    case None => []
    case Some(id) => if !cached(id) && !fetchable(id) then [Closed] else Deliver(message, folder, send)
  }

  /** The sends once the channel is known. */
  method DeliverTo(message: string, folder: Option<seq<string>>, send: string -> bool) returns (log: seq<Event>)
    ensures log == Deliver(message, folder, send)
  {
    var stripped := Strip(message);
    StripEmptyIffBlank(message);
    log := [];
    if stripped != "" {
      log := log + [TextSent(message)];
    }
    assert log == TextPart(message);
    if folder.Some? {
      var images := Images(folder.value);
      var sent := SendImages(images, send);
      assert sent == ImageEvents(images, send);
      log := log + sent;
    }
    assert log == TextPart(message) + ImagePart(folder, send);
    log := log + [Closed];
  }

  method OnReady(message: string, specified: int, targetEnv: Option<string>, cached: int -> bool,
                 fetchable: int -> bool, folder: Option<seq<string>>, send: string -> bool)
    returns (log: seq<Event>)
    ensures log == Run(message, specified, targetEnv, cached, fetchable, folder, send)
  {
    var target := TargetId(specified, targetEnv);
    if target.None? {
      return [];
    }
    var id := target.value;
    if !cached(id) && !fetchable(id) {
      return [Closed];
    }
    log := DeliverTo(message, folder, send);
  }

  /** The layout of a log made of at most one text, then events that are not
      texts, then closing. */
  lemma Layout(a: seq<Event>, b: seq<Event>)
    requires |a| <= 1 && forall i :: 0 <= i < |a| ==> a[i].TextSent?
    requires forall i :: 0 <= i < |b| ==> !b[i].TextSent?
    ensures var log := a + b + [Closed];
      |log| == |a| + |b| + 1 && log[|log| - 1] == Closed
      && (forall i :: 0 <= i < |log| ==> (log[i].TextSent? <==> |a| == 1 && i == 0))
      && (forall i :: |a| <= i < |a| + |b| ==> log[i] == b[i - |a|])
  {
    var log := a + b + [Closed];
    forall i | 0 <= i < |log| ensures log[i].TextSent? <==> |a| == 1 && i == 0 {
      if i < |a| {
        assert log[i] == a[i];
      } else if i < |a| + |b| {
        assert log[i] == b[i - |a|];
      }
    }
  }

  /** Once the channel resolves, the text goes out exactly when it is not
      blank, and first; then one event per image of the folder, in ascending
      name order, failures included; then the client closes. */
  lemma DeliverShape(message: string, folder: Option<seq<string>>, send: string -> bool)
    ensures var log := Deliver(message, folder, send);
      var t := if IsBlank(message) then 0 else 1;
      var n := if folder.Some? then |ImageNames(folder.value)| else 0;
      |log| == t + n + 1 && log[|log| - 1] == Closed
      && (t == 1 ==> log[0] == TextSent(message))
      && (forall i :: 0 <= i < |log| ==> (log[i].TextSent? <==> t == 1 && i == 0))
      && (folder.Some? ==> forall i :: t <= i < t + n ==> log[i].name == Images(folder.value)[i - t])
  {
    ImagePartSpec(folder, send);
    Layout(TextPart(message), ImagePart(folder, send));
  }

  /** Without a readable id nothing happens; without a channel only the
      closing. */
  lemma NoChannelNoSend(message: string, specified: int, targetEnv: Option<string>, cached: int -> bool,
                        fetchable: int -> bool, folder: Option<seq<string>>, send: string -> bool)
    ensures TargetId(specified, targetEnv).None? ==> Run(message, specified, targetEnv, cached, fetchable, folder, send) == []
    ensures TargetId(specified, targetEnv).Some?
            && !cached(TargetId(specified, targetEnv).value) && !fetchable(TargetId(specified, targetEnv).value)
            ==> Run(message, specified, targetEnv, cached, fetchable, folder, send) == [Closed]
  {
  }

  /** The whole program: `exit(1)` without a token or a channel id. */
  function Launch(token: Option<string>, message: string, specified: int, targetEnv: Option<string>,
                  cached: int -> bool, fetchable: int -> bool, folder: Option<seq<string>>,
                  send: string -> bool): Option<seq<Event>>
  {
    if !MayStart(token, targetEnv, specified) then None
    else Some(Run(message, specified, targetEnv, cached, fetchable, folder, send))
  }

  /** With the id in the code, a token is all the program needs to start and
      to aim at that id. */
  lemma ShippedIdStarts(token: string, targetEnv: Option<string>)
    requires token != ""
    ensures MayStart(Some(token), targetEnv, ShippedChannelId)
    ensures TargetId(ShippedChannelId, targetEnv) == Some(ShippedChannelId)
  {
  }
}
