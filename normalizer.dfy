/** The per-message normaliser shared by the three collectors: it turns one
    Discord message into a transcript line `author@time: body`, or drops it.

    The steps, in the order every variant applies them:
      1. ignore-token cut (the mention bots only): keep the text before the
         token and credit the line to the bot;
      2. mention tags `<@id>` and `<@!id>` become `@` + the short display name;
      3. forwarded snapshots are appended;
      4. link simplification: embed titles stand in for their URLs, then every
         remaining `https?://\S+` becomes `(連結 host)`;
      5. custom emoji tokens become `(貼圖)`;
      6. length cap (the current mention bot only);
      7. eligibility: a blank body without attachments yields no line;
      8. the attachment suffix.

    The variants differ only in two settings, so they are one function with an
    optional token and an optional cap. */
module Normalizer {
  import opened Wrappers
  import opened Text
  import opened Pattern

  datatype User = User(id: nat, displayName: string)

  /** A forwarded message: its text ("" when it has none) and the URLs of its files. */
  datatype Snapshot = Snapshot(content: string, attachments: seq<string>)

  /** A link preview; "" stands for a missing title or URL, which Python treats as false. */
  datatype Embed = Embed(title: string, url: string)

  datatype RawMessage = RawMessage(
    id: nat,
    authorName: string,
    content: string,
    createdAt: int,
    mentions: seq<User>,
    snapshots: seq<Snapshot>,
    embeds: seq<Embed>,
    attachments: seq<string>)

  datatype Config = Config(
    nameLimit: nat,
    showAttachments: bool,
    simplifyLinks: bool,
    botName: string,
    ignoreToken: Option<string>,
    maxLength: Option<nat>)

  /** An ignore token is a non-empty marker (Python's `split` rejects an empty separator). */
  predicate ValidConfig(cfg: Config)
  {
    cfg.ignoreToken.Some? ==> |cfg.ignoreToken.value| > 0
  }

  /** The settings of the current mention bot, `tagged_reply.py`. */
  const TaggedConfig := Config(4, false, true, "🤖機器人", Some("> -# 🤖"), Some(100))

  /** The settings of the scheduled summary job in `server.py`: no cut, no cap. */
  const ServerConfig := Config(4, false, true, "🤖機器人", None, None)

  /** The settings of the first mention bot, `old/tagged_reply_v1.py`: a cut, no cap. */
  const LegacyConfig := Config(4, false, true, "🤖機器人", Some("> 🤖 "), None)

  /** The `strftime` pattern: `%Y年%m月%d日 %A ` when dates are shown, then
      `%H:%M`, then `:%S` when seconds are shown. */
  function TimeFormat(showDate: bool, showSeconds: bool): (r: string)
    ensures showDate <==> StartsWith(r, "%Y年%m月%d日 %A ")
    ensures showSeconds <==> EndsWith(r, ":%S")
    ensures Contains(r, "%H:%M")
  {
    var date := if showDate then "%Y年%m月%d日 %A " else "";
    var secs := if showSeconds then ":%S" else "";
    var r := date + "%H:%M" + secs;
    assert r[|date|..|date| + 5] == "%H:%M";
    assert OccursAt(r, "%H:%M", |date|);
    assert !showSeconds ==> r[|r| - 1] == 'M';
    r
  }

  // ---------------------------------------------------------------------------
  // 1. Ignore-token cut

  datatype Cut = Cut(text: string, byBot: bool)

  /** `if token in content: content = content.split(token)[0]` */
  function CutAtToken(content: string, token: Option<string>): (r: Cut)
    requires token.Some? ==> |token.value| > 0
    ensures r.byBot <==> token.Some? && Contains(content, token.value)
    ensures r.byBot ==> r.text <= content && !Contains(r.text, token.value)
    ensures r.byBot ==> Contains(content[|r.text|..], token.value)
    ensures !r.byBot ==> r.text == content
  {
    if token.Some? && Contains(content, token.value) then
      var i := IndexOf(content, token.value).value;
      assert content[i..][..|token.value|] == content[i..i + |token.value|];
      assert OccursAt(content[i..], token.value, 0);
      Cut(Before(content, token.value), true)
    else Cut(content, false)
  }

  // ---------------------------------------------------------------------------
  // 2. Mentions

  function MentionTag(u: User): string
  {
    "<@" + NatToString(u.id) + ">"
  }

  function NicknameTag(u: User): string
  {
    "<@!" + NatToString(u.id) + ">"
  }

  /** `name[:limit]`, or the whole name when there is no limit. */
  function ShortName(name: string, limit: Option<nat>): string
  {
    match limit
    case None => name
    case Some(n) => Take(name, n)
  }

  function ReplaceMention(content: string, u: User, limit: Option<nat>): string
  {
    var at := "@" + ShortName(u.displayName, limit);
    Replace(Replace(content, MentionTag(u), at), NicknameTag(u), at)
  }

  /** The mention loop: the users in the order the message lists them. */
  function ReplaceMentions(content: string, users: seq<User>, limit: Option<nat>): string
    decreases |users|
  {
    if |users| == 0 then content
    else ReplaceMentions(ReplaceMention(content, users[0], limit), users[1..], limit)
  }

  predicate NoAngle(s: string)
  {
    forall i :: 0 <= i < |s| ==> s[i] != '<'
  }

  lemma NoAngleConcat(a: string, b: string)
    requires NoAngle(a) && NoAngle(b)
    ensures NoAngle(a + b)
  {
    forall i | 0 <= i < |a + b| ensures (a + b)[i] != '<' {
      if i >= |a| {
        assert (a + b)[i] == b[i - |a|];
      }
    }
  }

  /** Both tag forms have their only `<` in front. */
  lemma TagShape(u: User)
    ensures MentionTag(u)[0] == '<' && NoAngle(MentionTag(u)[1..])
    ensures NicknameTag(u)[0] == '<' && NoAngle(NicknameTag(u)[1..])
    ensures MentionTag(u)[2] != '!' && NicknameTag(u)[2] == '!'
  {
    var d := NatToString(u.id);
    assert MentionTag(u)[1..] == "@" + d + ">";
    assert NicknameTag(u)[1..] == "@!" + d + ">";
    assert MentionTag(u)[2] == d[0];
  }

  /** In `a + x + b`, where only `x` starts with `<`, a text that starts with `<`
      can occur only at the position of `x`. */
  lemma OnlyAtTag(a: string, x: string, b: string, t: string)
    requires NoAngle(a) && NoAngle(b) && |x| > 0 && NoAngle(x[1..])
    requires |t| > 0 && t[0] == '<'
    ensures forall j :: 0 <= j && OccursAt(a + x + b, t, j) ==> j == |a|
  {
    var s := a + x + b;
    forall j: nat | j != |a| ensures !OccursAt(s, t, j) {
      if j + |t| <= |s| {
        assert s[j..j + |t|][0] == s[j];
        if j < |a| {
          assert s[j] == a[j];
        } else if j < |a| + |x| {
          assert s[j] == x[1..][j - |a| - 1];
        } else {
          assert s[j] == b[j - |a| - |x|];
        }
      }
    }
  }

  lemma NoAngleNoTag(s: string, t: string)
    requires NoAngle(s) && |t| > 0 && t[0] == '<'
    ensures !Contains(s, t)
  {
    forall j: nat ensures !OccursAt(s, t, j) {
      if j + |t| <= |s| {
        assert s[j..j + |t|][0] == s[j];
      }
    }
  }

  /** Text without `<` holds no mention tag, so the mention loop leaves it alone. */
  lemma {:induction false} MentionsWithoutTags(content: string, users: seq<User>, limit: Option<nat>)
    requires NoAngle(content)
    ensures ReplaceMentions(content, users, limit) == content
    decreases |users|
  {
    if |users| > 0 {
      var u := users[0];
      var at := "@" + ShortName(u.displayName, limit);
      TagShape(u);
      NoAngleNoTag(content, MentionTag(u));
      ReplaceAbsent(content, MentionTag(u), at);
      NoAngleNoTag(content, NicknameTag(u));
      ReplaceAbsent(content, NicknameTag(u), at);
      MentionsWithoutTags(content, users[1..], limit);
    }
  }

  /** When the first occurrence of `pat` is the one after `a`, and `b` holds none,
      replacing `pat` rewrites exactly that occurrence. */
  lemma ReplaceSingle(a: string, pat: string, b: string, rep: string)
    requires |pat| > 0
    requires IndexOf(a + pat + b, pat) == Some(|a|)
    requires !Contains(b, pat)
    ensures Replace(a + pat + b, pat, rep) == a + rep + b
  {
    var s := a + pat + b;
    ReplaceIsJoinSplit(s, pat, rep);
    assert s[..|a|] == a;
    assert s[|a| + |pat|..] == b;
    assert Split(b, pat) == [b];
  }

  /** The tag after tag-free text `a`, followed by tag-free text `b`, is replaced alone. */
  lemma ReplaceTagBetween(a: string, tag: string, b: string, rep: string)
    requires NoAngle(a) && NoAngle(b) && |tag| > 0 && tag[0] == '<' && NoAngle(tag[1..])
    ensures Replace(a + tag + b, tag, rep) == a + rep + b
  {
    var s := a + tag + b;
    assert s[|a|..|a| + |tag|] == tag;
    assert OccursAt(s, tag, |a|);
    OnlyAtTag(a, tag, b, tag);
    assert IndexOf(s, tag).Some?;
    NoAngleNoTag(b, tag);
    ReplaceSingle(a, tag, b, rep);
  }

  lemma ShortNameNoAngle(name: string, limit: Option<nat>)
    requires NoAngle(name)
    ensures NoAngle("@" + ShortName(name, limit))
  {
    var short := ShortName(name, limit);
    assert NoAngle(short) by {
      forall i | 0 <= i < |short| ensures short[i] != '<' {
        assert short[i] == name[i];
      }
    }
    NoAngleConcat("@", short);
  }

  /** The plain tag does not occur around a lone nickname tag: the only `<` is
      the nickname tag's, and a `!` follows it. */
  lemma PlainTagAbsent(a: string, b: string, u: User)
    requires NoAngle(a) && NoAngle(b)
    ensures !Contains(a + NicknameTag(u) + b, MentionTag(u))
  {
    var plain, nickTag := MentionTag(u), NicknameTag(u);
    var s := a + nickTag + b;
    TagShape(u);
    OnlyAtTag(a, nickTag, b, plain);
    if |a| + |plain| <= |s| {
      assert s[|a|..|a| + |plain|][2] == s[|a| + 2] == nickTag[2];
    }
  }

  /** A nickname tag `<@!id>` inside text with no other `<` becomes `@` followed
      by the shortened display name; the plain-tag pass finds nothing there. */
  lemma NicknameBecomesName(a: string, b: string, u: User, limit: Option<nat>)
    requires NoAngle(a) && NoAngle(b)
    ensures ReplaceMention(a + NicknameTag(u) + b, u, limit) == a + "@" + ShortName(u.displayName, limit) + b
  {
    var at := "@" + ShortName(u.displayName, limit);
    var plain, nickTag := MentionTag(u), NicknameTag(u);
    var s := a + nickTag + b;
    TagShape(u);
    PlainTagAbsent(a, b, u);
    ReplaceAbsent(s, plain, at);
    assert Replace(s, plain, at) == s;
    ReplaceTagBetween(a, nickTag, b, at);
  }

  /** A plain mention tag `<@id>` inside text with no other `<` becomes `@`
      followed by the shortened display name, when that name has no `<` either. */
  lemma MentionBecomesName(a: string, b: string, u: User, limit: Option<nat>)
    requires NoAngle(a) && NoAngle(b) && NoAngle(u.displayName)
    ensures ReplaceMention(a + MentionTag(u) + b, u, limit) == a + "@" + ShortName(u.displayName, limit) + b
  {
    var at := "@" + ShortName(u.displayName, limit);
    TagShape(u);
    ShortNameNoAngle(u.displayName, limit);
    NoAngleConcat(a, at);
    NoAngleConcat(a + at, b);
    ReplaceTagBetween(a, MentionTag(u), b, at);
    NoAngleNoTag(a + at + b, NicknameTag(u));
    ReplaceAbsent(a + at + b, NicknameTag(u), at);
  }

  // The whole mention loop, on a body seen as plain runs and mention tags.

  /** A message body as the mention loop sees it: runs of plain text and the
      tags `<@id>` (`nick` false) and `<@!id>` (`nick` true), in order. */
  datatype Piece = Plain(text: string) | Tag(id: nat, nick: bool)

  function TagText(id: nat, nick: bool): string
  {
    "<@" + (if nick then "!" else "") + NatToString(id) + ">"
  }

  function PieceText(p: Piece): string
  {
    match p
    case Plain(s) => s
    case Tag(id, nick) => TagText(id, nick)
  }

  function PiecesText(ps: seq<Piece>): string
    decreases |ps|
  {
    if |ps| == 0 then "" else PieceText(ps[0]) + PiecesText(ps[1..])
  }

  /** No mention tag starts inside `s`: each `<` is followed, within `s`, by
      something other than `@`. Emoji tags `<:name:id>` qualify. */
  predicate NoMentionStart(s: string)
  {
    forall i :: 0 <= i < |s| && s[i] == '<' ==> i + 1 < |s| && s[i + 1] != '@'
  }

  predicate PlainRuns(ps: seq<Piece>)
  {
    forall i :: 0 <= i < |ps| && ps[i].Plain? ==> NoMentionStart(ps[i].text)
  }

  /** The first listed user with the given id. */
  function FirstWithId(users: seq<User>, id: nat): (r: Option<User>)
    ensures r.Some? <==> exists k :: 0 <= k < |users| && users[k].id == id
    ensures r.Some? ==> r.value in users && r.value.id == id
    decreases |users|
  {
    if |users| == 0 then None
    else if users[0].id == id then Some(users[0])
    else
      var r := FirstWithId(users[1..], id);
      assert forall k :: 1 <= k < |users| ==> users[k] == users[1..][k - 1];
      r
  }

  /** What the mention loop is meant to do to one piece: a tag of a listed user
      becomes `@` and the short display name of the first user listed with that
      id; plain text and the tags of unlisted users stay. */
  function Resolve(p: Piece, users: seq<User>, limit: Option<nat>): Piece
  {
    match p
    case Plain(_) => p
    case Tag(id, _) =>
      match FirstWithId(users, id)
      case None => p
      case Some(u) => Plain("@" + ShortName(u.displayName, limit))
  }

  function ResolveAll(ps: seq<Piece>, users: seq<User>, limit: Option<nat>): seq<Piece>
  {
    seq(|ps|, i requires 0 <= i < |ps| => Resolve(ps[i], users, limit))
  }

  /** One `str.replace` of a tag: that exact tag becomes the text `rep`. */
  function SubTag(ps: seq<Piece>, id: nat, nick: bool, rep: string): seq<Piece>
  {
    seq(|ps|, i requires 0 <= i < |ps| => if ps[i] == Tag(id, nick) then Plain(rep) else ps[i])
  }

  lemma TagTextShape(id: nat, nick: bool)
    ensures |TagText(id, nick)| >= 4
    ensures TagText(id, nick)[0] == '<' && TagText(id, nick)[1] == '@'
    ensures forall k :: 1 <= k < |TagText(id, nick)| ==> TagText(id, nick)[k] != '<'
    ensures TagText(id, nick)[2] == '!' <==> nick
    ensures MentionTag(User(id, "")) == TagText(id, false)
    ensures NicknameTag(User(id, "")) == TagText(id, true)
  {
    var t := TagText(id, nick);
    var o := if nick then "<@!" else "<@";
    var d := NatToString(id);
    assert t == o + d + ">";
    assert t[2] == (if nick then '!' else d[0]);
    forall k | 1 <= k < |t| ensures t[k] != '<' {
      if |o| <= k < |o| + |d| {
        assert t[k] == d[k - |o|];
      }
    }
  }

  /** A run of digits closed by `>` is determined by any text it begins. */
  lemma DigitsClosed(d: string, d2: string, rest: string)
    requires AllDigits(d) && AllDigits(d2) && d + ">" <= d2 + ">" + rest
    ensures d == d2
  {
    var a, b := d + ">", d2 + ">" + rest;
    var m := if |d| < |d2| then |d| else |d2|;
    assert a[m] == b[m];
    assert d == a[..|d|] == b[..|d|] == d2;
  }

  lemma TagDigits(id: nat, nick: bool)
    ensures TagText(id, nick)[if nick then 3 else 2..] == NatToString(id) + ">"
  {
  }

  lemma PrefixDrop(p: string, s: string, k: nat)
    requires p <= s && k <= |p|
    ensures p[k..] <= s[k..]
  {
    assert s[k..][..|p| - k] == p[k..];
  }

  /** A tag followed by anything starts with another tag only when the two are
      the same: the digits of the id end at the `>`. */
  lemma TagPrefix(id: nat, nick: bool, id2: nat, nick2: bool, rest: string)
    requires TagText(id, nick) <= TagText(id2, nick2) + rest
    ensures id == id2 && nick == nick2
  {
    var p, t := TagText(id, nick), TagText(id2, nick2);
    var s := t + rest;
    var k := if nick then 3 else 2;
    TagTextShape(id, nick);
    TagTextShape(id2, nick2);
    assert p[2] == s[2] == t[2];
    TagDigits(id, nick);
    TagDigits(id2, nick2);
    assert s[k..] == t[k..] + rest;
    PrefixDrop(p, s, k);
    DigitsClosed(NatToString(id), NatToString(id2), rest);
    DigitsValueOfNatToString(id);
    DigitsValueOfNatToString(id2);
  }

  lemma NoAngleNoMentionStart(s: string)
    requires NoAngle(s)
    ensures NoMentionStart(s)
  {
  }

  /** In plain text followed by anything, a tag can start only after the text. */
  lemma NoTagInPlain(x: string, rest: string, pat: string)
    requires NoMentionStart(x) && |pat| >= 2 && pat[0] == '<' && pat[1] == '@'
    ensures forall j :: 0 <= j < |x| ==> !OccursAt(x + rest, pat, j)
  {
    var s := x + rest;
    forall j | 0 <= j < |x| ensures !OccursAt(s, pat, j) {
      if j + |pat| <= |s| {
        assert s[j..j + |pat|][0] == s[j] == x[j];
        assert s[j..j + |pat|][1] == s[j + 1];
        assert j + 1 < |x| ==> s[j + 1] == x[j + 1];
      }
    }
  }

  /** In one tag followed by anything, another tag can start only after it. */
  lemma NoTagInOtherTag(id2: nat, nick2: bool, rest: string, id: nat, nick: bool)
    requires Tag(id2, nick2) != Tag(id, nick)
    ensures forall j :: 0 <= j < |TagText(id2, nick2)| ==> !OccursAt(TagText(id2, nick2) + rest, TagText(id, nick), j)
  {
    var x, pat := TagText(id2, nick2), TagText(id, nick);
    var s := x + rest;
    TagTextShape(id2, nick2);
    TagTextShape(id, nick);
    forall j | 0 <= j < |x| ensures !OccursAt(s, pat, j) {
      if j == 0 {
        if |pat| <= |s| && s[..|pat|] == pat {
          TagPrefix(id, nick, id2, nick2, rest);
        }
      } else if j + |pat| <= |s| {
        assert s[j..j + |pat|][0] == s[j] == x[j];
      }
    }
  }

  /** Replacing one tag in a rendered body replaces exactly the pieces that are
      that tag, when the plain runs start no tag and `rep` has no `<`. */
  lemma {:induction false} ReplaceTagInPieces(ps: seq<Piece>, id: nat, nick: bool, rep: string)
    requires PlainRuns(ps) && NoAngle(rep)
    ensures Replace(PiecesText(ps), TagText(id, nick), rep) == PiecesText(SubTag(ps, id, nick, rep))
    decreases |ps|
  {
    var pat := TagText(id, nick);
    var out := SubTag(ps, id, nick, rep);
    TagTextShape(id, nick);
    if |ps| > 0 {
      var x := PieceText(ps[0]);
      var rest := PiecesText(ps[1..]);
      var s := x + rest;
      assert PlainRuns(ps[1..]) by {
        forall i | 0 <= i < |ps[1..]| && ps[1..][i].Plain? ensures NoMentionStart(ps[1..][i].text) {
          assert ps[1..][i] == ps[i + 1];
        }
      }
      ReplaceTagInPieces(ps[1..], id, nick, rep);
      assert out[1..] == SubTag(ps[1..], id, nick, rep);
      assert s[|x|..] == rest;
      if ps[0] == Tag(id, nick) {
        assert s[0..|pat|] == pat;
        ReplaceAtFront(s, pat, rep);
        assert PieceText(out[0]) == rep;
      } else {
        match ps[0] {
          case Plain(_) => NoTagInPlain(x, rest, pat);
          case Tag(id2, nick2) => NoTagInOtherTag(id2, nick2, rest, id, nick);
        }
        ReplaceCopies(s, pat, rep, |x|);
        assert s[..|x|] == x == PieceText(out[0]);
      }
    }
  }

  lemma ResolvedRuns(ps: seq<Piece>, users: seq<User>, limit: Option<nat>)
    requires PlainRuns(ps)
    requires forall k :: 0 <= k < |users| ==> NoAngle(users[k].displayName)
    ensures PlainRuns(ResolveAll(ps, users, limit))
  {
    var out := ResolveAll(ps, users, limit);
    forall i | 0 <= i < |out| && out[i].Plain? ensures NoMentionStart(out[i].text) {
      if ps[i].Tag? {
        var u := FirstWithId(users, ps[i].id).value;
        var k :| 0 <= k < |users| && users[k] == u;
        ShortNameNoAngle(u.displayName, limit);
      }
    }
  }

  /** One round of the loop: both tags of one user become `@` and the short name. */
  lemma MentionRound(ps: seq<Piece>, u: User, limit: Option<nat>)
    requires PlainRuns(ps) && NoAngle(u.displayName)
    ensures ReplaceMention(PiecesText(ps), u, limit) == PiecesText(ResolveAll(ps, [u], limit))
  {
    var at := "@" + ShortName(u.displayName, limit);
    TagTextShape(u.id, false);
    assert MentionTag(u) == TagText(u.id, false) && NicknameTag(u) == TagText(u.id, true);
    ShortNameNoAngle(u.displayName, limit);
    var ps1 := SubTag(ps, u.id, false, at);
    ReplaceTagInPieces(ps, u.id, false, at);
    ReplaceTagInPieces(ps1, u.id, true, at);
    assert SubTag(ps1, u.id, true, at) == ResolveAll(ps, [u], limit);
  }

  /** Resolving against one user and then the rest is resolving against all. */
  lemma ResolveInTurn(ps: seq<Piece>, u: User, users: seq<User>, limit: Option<nat>)
    ensures ResolveAll(ResolveAll(ps, [u], limit), users, limit) == ResolveAll(ps, [u] + users, limit)
  {
    assert ([u] + users)[1..] == users;
  }

  /** The mention loop over the listed users, on a body whose plain runs start
      no tag and whose users' display names have no `<`: every tag of a listed
      user, plain or nickname, however often it occurs and next to whatever
      other tags or emoji, becomes `@` and the short display name of the first
      user listed with that id; everything else is kept, in order. */
  lemma {:induction false} MentionsBecomeNames(ps: seq<Piece>, users: seq<User>, limit: Option<nat>)
    requires PlainRuns(ps)
    requires forall k :: 0 <= k < |users| ==> NoAngle(users[k].displayName)
    ensures ReplaceMentions(PiecesText(ps), users, limit) == PiecesText(ResolveAll(ps, users, limit))
    decreases |users|
  {
    if |users| == 0 {
      assert ResolveAll(ps, users, limit) == ps;
    } else {
      var ps1 := ResolveAll(ps, [users[0]], limit);
      MentionRound(ps, users[0], limit);
      ResolvedRuns(ps, [users[0]], limit);
      MentionsBecomeNames(ps1, users[1..], limit);
      ResolveInTurn(ps, users[0], users[1..], limit);
      assert [users[0]] + users[1..] == users;
    }
  }

  // ---------------------------------------------------------------------------
  // 3. Forwarded snapshots

  function SnapshotText(s: Snapshot): string
  {
    (if |s.content| > 0 then "[轉發內容]: " + s.content else "")
    + (if |s.attachments| > 0 then " (轉發附件)" else "")
  }

  /** The notes of all snapshots, one after another. */
  function SnapshotsText(snaps: seq<Snapshot>): string
    decreases |snaps|
  {
    if |snaps| == 0 then "" else SnapshotText(snaps[0]) + SnapshotsText(snaps[1..])
  }

  /** The snapshot loop appends, in order, each snapshot's text and file note. */
  function InlineSnapshots(content: string, snaps: seq<Snapshot>): (r: string)
    ensures r == content + SnapshotsText(snaps)
    ensures content <= r
    ensures |snaps| == 0 ==> r == content
    decreases |snaps|
  {
    if |snaps| == 0 then content
    else
      var note := SnapshotText(snaps[0]);
      assert content + note + SnapshotsText(snaps[1..]) == content + SnapshotsText(snaps);
      InlineSnapshots(content + note, snaps[1..])
  }

  // ---------------------------------------------------------------------------
  // 4. Link simplification

  function TitleTag(title: string): string
  {
    "(連結 " + title + ")"
  }

  /** One embed with a title: its URL, if present in the text, becomes the title
      tag; otherwise a text that starts with `http` is replaced by the tag as a whole. */
  function ApplyEmbed(content: string, e: Embed): string
  {
    if |e.title| == 0 then content
    else if |e.url| > 0 && Contains(content, e.url) then Replace(content, e.url, TitleTag(e.title))
    else if StartsWith(Strip(content), "http") then TitleTag(e.title)
    else content
  }

  function ApplyEmbeds(content: string, embeds: seq<Embed>): string
    decreases |embeds|
  {
    if |embeds| == 0 then content else ApplyEmbeds(ApplyEmbed(content, embeds[0]), embeds[1..])
  }

  /** Embeds without a title leave the text as it is. */
  lemma {:induction false} UntitledEmbedsChangeNothing(content: string, embeds: seq<Embed>)
    requires forall i :: 0 <= i < |embeds| ==> embeds[i].title == ""
    ensures ApplyEmbeds(content, embeds) == content
    decreases |embeds|
  {
    if |embeds| > 0 {
      UntitledEmbedsChangeNothing(content, embeds[1..]);
    }
  }

  function SimplifyLinks(content: string, embeds: seq<Embed>, enabled: bool): string
  {
    if enabled then Sub(Link, ApplyEmbeds(content, embeds)) else content
  }

  // ---------------------------------------------------------------------------
  // 6. Length cap

  /** `if len(c) > limit: c = c[:limit] + "..."` */
  function Cap(content: string, limit: Option<nat>): (r: string)
    ensures limit.None? || |content| <= limit.value ==> r == content
    ensures limit.Some? && |content| > limit.value ==>
      r == content[..limit.value] + "..." && |r| == limit.value + 3
  {
    match limit
    case None => content
    case Some(n) => if |content| > n then content[..n] + "..." else content
  }

  /** Capping twice is capping once. */
  lemma CapIdempotent(content: string, limit: Option<nat>)
    ensures Cap(Cap(content, limit), limit) == Cap(content, limit)
  {
    if limit.Some? && |content| > limit.value {
      var n := limit.value;
      var c := Cap(content, limit);
      assert c[..n] == content[..n];
    }
  }

  // ---------------------------------------------------------------------------
  // The replied-to message

  /** The message a mention replies to, as far as the prompt uses it. */
  datatype RefMessage = RefMessage(authorName: string, content: string, hasAttachments: bool, hasEmbeds: bool)

  /** `" (" + ", ".join(extras) + ")"` for the extras present, or "". */
  function RefExtras(hasAttachments: bool, hasEmbeds: bool): (r: string)
    ensures r == "" <==> !hasAttachments && !hasEmbeds
    ensures hasAttachments && hasEmbeds ==> r == " (附件, 連結/Embed)"
  {
    var extras := (if hasAttachments then ["附件"] else []) + (if hasEmbeds then ["連結/Embed"] else []);
    assert Join(["附件", "連結/Embed"], ", ") == "附件" + ", " + Join(["連結/Embed"], ", ");
    if |extras| == 0 then "" else " (" + Join(extras, ", ") + ")"
  }

  /** The note appended to the request: who is being replied to and what they
      wrote, capped, with the extras marked. */
  function RefNote(r: RefMessage, limit: Option<nat>): (note: string)
    ensures |note| > 0
  {
    " (使用者正在回覆 " + r.authorName + " 的訊息：『" + Cap(r.content, limit) + RefExtras(r.hasAttachments, r.hasEmbeds) + "』)"
  }

  // ---------------------------------------------------------------------------
  // The whole normaliser

  /** Python's `repr` of a list of URL strings, as the attachment note prints it. */
  function ListRepr(urls: seq<string>): string
  {
    "[" + Join(seq(|urls|, i requires 0 <= i < |urls| => "'" + urls[i] + "'"), ", ") + "]"
  }

  function AttachmentSuffix(urls: seq<string>, show: bool): string
  {
    if |urls| == 0 then ""
    else if show then " (附件 " + ListRepr(urls) + ")"
    else " (附件)"
  }

  /** The body after steps 1 to 6, and whether the cut credited it to the bot. */
  function Process(m: RawMessage, cfg: Config): Cut
    requires ValidConfig(cfg)
  {
    var cut := CutAtToken(m.content, cfg.ignoreToken);
    var named := ReplaceMentions(cut.text, m.mentions, Some(cfg.nameLimit));
    var full := InlineSnapshots(named, m.snapshots);
    var linked := SimplifyLinks(full, m.embeds, cfg.simplifyLinks);
    Cut(Cap(Sub(Emoji, linked), cfg.maxLength), cut.byBot)
  }

  /** The author shown: the bot's name after a cut (when that name is not empty),
      else the display name shortened to the limit. */
  function AuthorOf(m: RawMessage, cfg: Config, byBot: bool): string
  {
    if byBot && |cfg.botName| > 0 then cfg.botName else Take(m.authorName, cfg.nameLimit)
  }

  datatype Line = Line(author: string, body: string, text: string)

  /** One message as a transcript line, given its rendered time, or None when it
      is dropped. */
  function Normalize(m: RawMessage, cfg: Config, stamp: string): Option<Line>
    requires ValidConfig(cfg)
  {
    LineFrom(m, cfg, Process(m, cfg), stamp)
  }

  /** The line for a message whose body has been processed into `p`. */
  function LineFrom(m: RawMessage, cfg: Config, p: Cut, stamp: string): Option<Line>
  {
    if IsBlank(p.text) && |m.attachments| == 0 then None
    else
      var author := AuthorOf(m, cfg, p.byBot);
      Some(Line(author, p.text, author + "@" + stamp + ": " + p.text + AttachmentSuffix(m.attachments, cfg.showAttachments)))
  }

  lemma LineFromShape(m: RawMessage, cfg: Config, p: Cut, stamp: string)
    ensures LineFrom(m, cfg, p, stamp).Some? <==> !IsBlank(p.text) || |m.attachments| > 0
    ensures LineFrom(m, cfg, p, stamp).Some? ==>
      var l := LineFrom(m, cfg, p, stamp).value;
      l.body == p.text
      && l.text == l.author + "@" + stamp + ": " + l.body + AttachmentSuffix(m.attachments, cfg.showAttachments)
      && (|m.attachments| > 0 ==> EndsWith(l.text, ")"))
  {
    if |m.attachments| > 0 {
      var l := LineFrom(m, cfg, p, stamp).value;
      var suffix := AttachmentSuffix(m.attachments, cfg.showAttachments);
      assert suffix[|suffix| - 1] == ')';
      assert l.text[|l.text| - 1] == ')';
    }
  }

  /** Eligibility: a message yields a line exactly when its processed body is not
      blank or it has attachments; the line is `author@time: body` plus the note. */
  lemma NormalizeEligibility(m: RawMessage, cfg: Config, stamp: string)
    requires ValidConfig(cfg)
    ensures Normalize(m, cfg, stamp).Some? <==> !IsBlank(Process(m, cfg).text) || |m.attachments| > 0
    ensures Normalize(m, cfg, stamp).Some? ==>
      var l := Normalize(m, cfg, stamp).value;
      l.body == Process(m, cfg).text
      && l.text == l.author + "@" + stamp + ": " + l.body + AttachmentSuffix(m.attachments, cfg.showAttachments)
      && (|m.attachments| > 0 ==> EndsWith(l.text, ")"))
  {
    LineFromShape(m, cfg, Process(m, cfg), stamp);
  }

  /** Author choice: a message holding the ignore token is credited to the bot
      (when its name is set); any other message to its shortened display name. */
  lemma AuthorChoice(m: RawMessage, cfg: Config, stamp: string)
    requires ValidConfig(cfg)
    requires Normalize(m, cfg, stamp).Some?
    ensures var a := Normalize(m, cfg, stamp).value.author;
      if cfg.ignoreToken.Some? && Contains(m.content, cfg.ignoreToken.value) && |cfg.botName| > 0
      then a == cfg.botName
      else a == Take(m.authorName, cfg.nameLimit) && |a| <= cfg.nameLimit
  {
  }

  /** The cut keeps only the text before the first token: what is kept never
      contains the token, and the token starts right where the kept text ends. */
  lemma CutKeepsTextBeforeToken(content: string, token: string)
    requires |token| > 0 && Contains(content, token)
    ensures var r := CutAtToken(content, Some(token));
      r.byBot && content[..|r.text|] == r.text && OccursAt(content, token, |r.text|)
      && !Contains(r.text, token)
  {
    var i := IndexOf(content, token).value;
    assert CutAtToken(content, Some(token)).text == content[..i];
  }

  /** Without a cap, the body holds no custom emoji token: every one became `(貼圖)`. */
  lemma UncappedBodyHasNoEmoji(m: RawMessage, cfg: Config)
    requires ValidConfig(cfg) && cfg.maxLength.None?
    ensures NoMatch(Emoji, Process(m, cfg).text)
  {
    var cut := CutAtToken(m.content, cfg.ignoreToken);
    var named := ReplaceMentions(cut.text, m.mentions, Some(cfg.nameLimit));
    var full := InlineSnapshots(named, m.snapshots);
    NothingSurvivesSub(Emoji, SimplifyLinks(full, m.embeds, cfg.simplifyLinks));
  }

  /** With a cap, the body is never longer than the cap plus the three dots. */
  lemma CappedBodyLength(m: RawMessage, cfg: Config)
    requires ValidConfig(cfg) && cfg.maxLength.Some?
    ensures |Process(m, cfg).text| <= cfg.maxLength.value + 3
  {
  }
}
