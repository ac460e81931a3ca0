# Chat-history pipeline of a Discord summary bot, modelled in Dafny

The repository holds several Discord bots that read recent channel history,
turn each message into one line `author@time: body`, and hand the joined
lines to a Gemini or Gemma model:

- **the mention bot** (`tagged_reply.py`, `on_message`). It splits its
  message budget between the newest messages and the context around a
  replied-to message. It merges both into an id-keyed collection, sorts it by
  creation time, picks a prompt suffix, tries the models in priority order
  and classifies the last error;
- **its first version** (`old/tagged_reply_v1.py`). The user asks for a
  number of messages, in digits or Chinese numerals, clamped to 5..500.
  Recent lines are collected newest first and reversed;
- **the scheduled bot** (`server.py`). On login it runs three jobs in order
  and then closes:
  - a per-channel summary;
  - the daily "best message" by reaction total;
  - link screenshots taken with a simulator, with two open attempts per link;
- **three small tools**:
  - a tall-image splitter (`split_long_image/split_long_image.py`);
  - a text-recognition client (`image_reg/image_reg.py`);
  - a one-shot sender (`sender/sender.py`).

Discord, Gemini, the clock, the simulator and the file system do not appear
in the model as such. Channel histories are given sequences of `RawMessage`
values, and model calls are functions returning an `Outcome`: an answer
text or a raised error. Time formatting is a function `(instant, format) ->
string`, and each job's posts are an output sequence of events.

Module layout:

| file | contents |
|---|---|
| `wrappers.dfy` | `Option` |
| `text.dfy` | Python string operations: `strip`, slicing, `find`, `split`, `join`, `replace`, `lower`, `int()` and `str()` on integers |
| `scan.dfy` | the left-to-right, non-overlapping scan behind `re.sub` and `re.findall`, for any anchored matcher |
| `pattern.dfy` | the two regular expressions used, `https?://\S+` and `<a?:\w+:\d+>`, plus their replacements |
| `sorting.dfy` | a stable sort by an integer key (Python's `list.sort(key=…)`) |
| `normalizer.dfy` | the message-line normaliser shared by the three bots, parameterised by a `Config` |
| `history.dfy` | the insertion-ordered, id-keyed dictionary of collected lines |
| `fallback.dfy` | the model priority loop and the error classification |
| `tagged_reply.dfy` | the mention handler |
| `legacy_reply.dfy` | the first version of the mention handler |
| `secrets.dfy` | channel id parsing |
| `device.dfy` | the choice of simulator |
| `summary.dfy` | the summary job |
| `daily_quote.dfy` | the daily quote job |
| `link_screenshot.dfy` | the link preview job |
| `server.dfy` | the job order on login |
| `split_long_image.dfy`, `image_reg.dfy`, `sender.dfy` | the three tools |

Loops that the source writes as loops are methods proved against a
specification function:
- the numeral parser;
- the collectors;
- the reaction scan;
- the link capture and the retry loop;
- the tiling loop;
- the image send loop;
- the model loop.

The properties are proved about those functions.

## Model

| member | source | states |
|---|---|---|
| Text.TrimLeft | tagged_reply.py:378 | the result is a suffix of the input; everything dropped is whitespace; the result is empty or starts with a non-space |
| Text.TrimRight | tagged_reply.py:378 | the result is a prefix of the input; everything dropped is whitespace; the result is empty or ends with a non-space |
| Text.StripEmptyIffBlank | tagged_reply.py:378 | `s.strip()` is empty exactly when `s` is all whitespace, which is the eligibility test |
| Text.Take | tagged_reply.py:374 | `s[:n]` has length `min(n, len(s))` and is a prefix of `s` |
| Text.IndexFrom | tagged_reply.py:324-325 | the first occurrence of `t` at or after `k`, or none at all from `k` on |
| Text.IndexOf | tagged_reply.py:324-325 | the first occurrence of `t` in `s`, or `t` does not occur |
| Text.Before | tagged_reply.py:325 | `s.split(t)[0]`: the text before the first occurrence, or all of `s`; it never contains `t` |
| Text.SplitPieces | server.py:103 | the first piece is the text before the first separator, and no piece contains the separator |
| Text.JoinSplit | server.py:103 | joining the pieces of a split with the same separator gives back the input |
| Text.SplitJoin | server.py:103 | splitting a join of pieces that do not contain the one-character separator gives back the pieces |
| Text.ReplaceCopies | tagged_reply.py:332 | `str.replace` copies unchanged any prefix in which the pattern does not start |
| Text.ReplaceIsJoinSplit | tagged_reply.py:332 | `s.replace(p, r)` equals `r.join(s.split(p))` |
| Text.ReplaceAtFront | tagged_reply.py:332 | an occurrence at the front is replaced, and the scan resumes after it |
| Text.ReplaceAbsent | tagged_reply.py:332 | replacing an absent pattern changes nothing |
| Text.ReplaceWhole | tagged_reply.py:285 | replacing a string that is all pattern gives the replacement, so a message holding only the ignore token becomes empty |
| Text.NatToString | split_long_image/split_long_image.py:27 | the decimal form of a count is a non-empty run of digits |
| Text.DigitsValueOfNatToString | split_long_image/split_long_image.py:27 | reading the decimal form of `n` back gives `n` |
| Text.StripNumber | server.py:103 | stripping a string of digits and minus signs leaves it unchanged |
| Text.ReadDigits | server.py:103 | a run of digits, optionally after a minus sign, reads as its value |
| Text.PyIntOfDigits | server.py:103 | `int()` of a run of digits is its value |
| Text.PyIntOfMinusDigits | server.py:103 | `int()` of a minus sign followed by digits is the negated value |
| Text.PyIntOfNatToString | server.py:103 | `int(str(n)) == n` for `n >= 0` |
| Text.PyIntOfNegative | server.py:103 | `int(str(n)) == n` for `n < 0` |
| Text.PyIntOfIntToString | server.py:103 | `int(str(n)) == n` for every integer |
| Scan.SubstituteClean | tagged_reply.py:363 | `re.sub` on a string with no match anywhere returns it unchanged |
| Scan.MatchesEmptyIffClean | server.py:392 | `re.findall` is empty exactly when no position of the string starts a match |
| Scan.MatchesSatisfy | server.py:392 | every string found satisfies any property that every match satisfies |
| Scan.SubstituteCopies | tagged_reply.py:363 | `re.sub` copies a prefix in which no match starts |
| Scan.SubstituteUpToNext | tagged_reply.py:363 | `re.sub` copies up to the next match, replaces that match, and resumes after it |
| Scan.NextAt | tagged_reply.py:363 | the next position at or after `j` where a match starts, or the end of the string |
| Scan.SubstituteLeavesClean | tagged_reply.py:363-367 | when replacements cannot start or complete a match, no match survives the substitution |
| Pattern.NonSpaceRunSpec | tagged_reply.py:363 | `\S+` takes exactly the longest run of non-whitespace |
| Pattern.WordRunSpec | tagged_reply.py:367 | `\w+` takes exactly the longest run of word characters |
| Pattern.DigitRunSpec | tagged_reply.py:367 | `\d+` takes exactly the longest run of digits |
| Pattern.Matcher | tagged_reply.py:363-367 | both patterns are anchored matchers: they match a prefix or nothing |
| Pattern.LinkMatchIsLinkText | tagged_reply.py:363 | a link match starts with `http://` or `https://` and holds no whitespace |
| Pattern.SchemeHasNoSeparator | tagged_reply.py:360 | no `://` starts inside the scheme, so the first `://` is the scheme's own |
| Pattern.DomainOfLink | tagged_reply.py:357-362 | the host is the text after the first `://` and before the next `/`; it holds no `/` and no whitespace |
| Pattern.FoundLinksAreLinks | server.py:392 | every link found is link text |
| Pattern.LinkReplacementHasNoScheme | tagged_reply.py:361 | no `http://` or `https://` starts inside `(連結 host)` |
| Pattern.ReplacementBlocks | tagged_reply.py:361-367 | no match starts inside a replacement, whatever follows it |
| Pattern.WordRunPrefix | tagged_reply.py:367 | the `\w+` run depends only on the text up to its first non-word character |
| Pattern.DigitRunPrefix | tagged_reply.py:367 | the `\d+` run depends only on the text up to its first non-digit |
| Pattern.EmojiSplit | tagged_reply.py:367 | an emoji match is `<`, an optional `a`, `:`, word characters, `:`, digits and `>` |
| Pattern.EmojiMatchHasNoParen | tagged_reply.py:367 | an emoji match contains no `(` |
| Pattern.EmojiRunsAgree | tagged_reply.py:367 | the name and id runs of a match are the same in any string with the same prefix |
| Pattern.EmojiLenOfParts | tagged_reply.py:367 | a string with the emoji shape matches over exactly that shape |
| Pattern.EmojiMatchIsLocal | tagged_reply.py:367 | an emoji match depends only on the characters it covers |
| Pattern.EmojiAgreeingPrefixBlocks | tagged_reply.py:367 | a `(` placed where no emoji match started cannot create one |
| Pattern.SchemeShape | tagged_reply.py:363 | the scheme starts with `h` and holds no `(` and no whitespace |
| Pattern.SchemeAgrees | tagged_reply.py:363 | the scheme is recognised from the prefix it covers |
| Pattern.LinkAgreeingPrefixBlocks | tagged_reply.py:363 | a `(` placed where no link match started cannot create one |
| Pattern.AgreeingPrefixBlocks | tagged_reply.py:363-367 | for both patterns, text before a replacement cannot join it into a match |
| Pattern.ReplacementOpens | tagged_reply.py:361-367 | both replacements start with `(` |
| Pattern.FrontStaysUnmatched | tagged_reply.py:363-367 | a position with no match before a substitution has none after it |
| Pattern.NothingSurvivesSub | tagged_reply.py:363-367 | after the link substitution no link remains, and after the emoji substitution no emoji tag remains |
| Sorting.InsertSorted | tagged_reply.py:403 | inserting into a sorted list keeps it sorted and adds one element |
| Sorting.InsertPermutes | tagged_reply.py:403 | insertion adds exactly the inserted element |
| Sorting.InsertKeepsTies | tagged_reply.py:403 | among the elements with a given key, the inserted one comes first and the others keep their order |
| Sorting.SortBySortsAndPermutes | tagged_reply.py:403 | `sort(key=…)` gives a sorted permutation of the list |
| Sorting.SortByIsStable | tagged_reply.py:403 | elements with equal keys keep their order |
| Sorting.FirstMin | server.py:146 | the first index holding the least key |
| Sorting.SortByHead | server.py:146-147 | the head of the sorted list is the first element with the least key |
| History.Find | tagged_reply.py:388 | the position holding an id, or the id is absent |
| History.PutKeepsIdsUnique | tagged_reply.py:388 | storing an entry keeps each id at most once |
| History.PutThenLookup | tagged_reply.py:388 | after storing, its id maps to the new entry and every other id is unchanged |
| History.UniqueFind | tagged_reply.py:388 | with unique ids, the found position is the only one holding the id |
| History.PutKeepsOrder | tagged_reply.py:388 | a new id is appended; an existing id is overwritten in place and nothing else moves |
| History.LastWith | tagged_reply.py:388 | the last position carrying an id, or none |
| History.PutAllLookup | tagged_reply.py:269-388 | after a sequence of stores, each id maps to its last stored entry, otherwise to the earlier value, and ids stay unique |
| History.PutAllEmpty | tagged_reply.py:396 | the collection is empty exactly when it started empty and nothing was stored |
| History.OrderedIsSortedPermutation | tagged_reply.py:402-406 | the collected entries sorted by creation time are a sorted, stable permutation of the collection |
| Normalizer.TimeFormat | tagged_reply.py:309-312 | the date part appears exactly when dates are shown, `:%S` exactly when seconds are, and `%H:%M` always |
| Normalizer.CutAtToken | tagged_reply.py:324-326 | the cut happens exactly when the token occurs; the kept text is the part before its first occurrence; otherwise the content is unchanged |
| Normalizer.CutKeepsTextBeforeToken | tagged_reply.py:325 | the kept text is the content's prefix that ends where the token first occurs |
| Normalizer.MentionsWithoutTags | tagged_reply.py:329-333 | content with no `<` is unchanged by the mention substitution |
| Normalizer.ReplaceTagBetween | tagged_reply.py:332 | a tag that occurs once is replaced by the name |
| Normalizer.ShortNameNoAngle | tagged_reply.py:331 | a cut display name without `<` yields an `@name` without `<` |
| Normalizer.PlainTagAbsent | tagged_reply.py:332-333 | `<@id>` does not occur in a text holding only `<@!id>` |
| Normalizer.NicknameBecomesName | tagged_reply.py:329-333 | in text whose only `<` is one `<@!id>`, that tag becomes `@` plus the display name cut to the name limit |
| Normalizer.MentionBecomesName | tagged_reply.py:329-333 | in text whose only `<` is one `<@id>`, that tag becomes `@` plus the display name cut to the name limit |
| Normalizer.FirstWithId | tagged_reply.py:330 | some user is found exactly when a listed user has the id, and the one found is listed with that id |
| Normalizer.TagPrefix | tagged_reply.py:332-333 | a tag followed by any text begins with another tag only when both are the same tag |
| Normalizer.ReplaceTagInPieces | tagged_reply.py:332-333 | one tag replacement in a body of plain runs and tags rewrites every piece that is that tag, and nothing else |
| Normalizer.MentionRound | tagged_reply.py:330-333 | one turn of the loop turns every plain and nickname tag of that user into `@` and the short name, and keeps the rest |
| Normalizer.ResolveInTurn | tagged_reply.py:330 | handling one user and then the others is handling the whole list |
| Normalizer.MentionsBecomeNames | tagged_reply.py:329-333 | the whole loop: every tag of a listed user, repeated or next to other tags or emoji, becomes `@` and the short name of the first user listed with that id; unlisted users' tags and all plain text stay, in order |
| Normalizer.InlineSnapshots | tagged_reply.py:336-341 | the result is the content followed by every snapshot's note in order; no snapshots means no change |
| Normalizer.UntitledEmbedsChangeNothing | tagged_reply.py:348-354 | embeds without a title leave the content unchanged |
| Normalizer.Cap | tagged_reply.py:371-372 | content within the limit is unchanged; longer content is its first `limit` characters plus `...` |
| Normalizer.CapIdempotent | tagged_reply.py:371-372 | capping twice equals capping once |
| Normalizer.RefExtras | tagged_reply.py:253-256 | the note is empty exactly when the referenced message has no attachments and no embeds |
| Normalizer.LineFromShape | tagged_reply.py:378-385 | a line is produced exactly when the body is not blank or there are attachments; it reads `author@stamp: body` plus the attachment suffix |
| Normalizer.NormalizeEligibility | tagged_reply.py:319-385 | the whole normaliser yields a line exactly when the processed body is not blank or there are attachments, and gives the line's exact shape |
| Normalizer.AuthorChoice | tagged_reply.py:374-376 | the author is the bot name when the ignore token occurred, otherwise the display name cut to the name limit |
| Normalizer.UncappedBodyHasNoEmoji | server.py:226 | without a length cap, no custom-emoji tag survives in the body |
| Normalizer.CappedBodyLength | tagged_reply.py:371-372 | with a cap, the body is at most the limit plus three characters |
| Fallback.TryModels | tagged_reply.py:435-457 | the loop's answer, the model used and the last error are those of the specification run |
| Fallback.LastRaised | tagged_reply.py:454-456 | the last error raised, or the previous one when nothing was raised |
| Fallback.LastRaisedFront | tagged_reply.py:456 | the last error of a list depends on its first outcome only through the error it carries in |
| Fallback.RunUntil | tagged_reply.py:435-457 | models that do not answer only update the last error |
| Fallback.FirstAnswerWins | tagged_reply.py:435-457 | there is a reply exactly when some model answers; it is the first answering model's text and name; otherwise only the last error is kept |
| Fallback.FirstIndex | tagged_reply.py:448-453 | the first model that answers |
| Fallback.ClassifyCases | tagged_reply.py:476-496 | no error gives the no-response text; an error gives the quota note when it names 429 or exhausted resources, otherwise the busy note when it names 503 or Service Unavailable, and always ends with the error block |
| TaggedReply.SplitBudget | tagged_reply.py:226-237 | the two budgets sum to the total; without a reply everything goes to recent messages; with one, the recent share is `max(total // 3, 5)` |
| TaggedReply.ReplyModeShares | tagged_reply.py:234-237 | for totals of at least 15 the recent share is a third and the context gets about twice that; the configured 50 splits as 16 and 34 |
| TaggedReply.RefContext | tagged_reply.py:242-262 | the reference note is non-empty exactly when the replied-to message could be read |
| TaggedReply.TokenOnlyMessageKept | tagged_reply.py:278-294 | around-context eligibility is checked on the raw content, so a message holding only the ignore token still gives a line with an empty body |
| TaggedReply.Newest | tagged_reply.py:315 | the history read is a prefix of the channel, newest first, and no longer than the limit |
| TaggedReply.RecentEntry | tagged_reply.py:317-388 | a kept message carries its own id, and the trigger message is never kept |
| TaggedReply.RecentEntries | tagged_reply.py:317 | no collected recent entry is the trigger message |
| TaggedReply.PutAllSnoc | tagged_reply.py:388 | storing one more optional entry is one more store |
| TaggedReply.RecentStep | tagged_reply.py:315-394 | one loop iteration adds that message's entry; the previous-line note comes from the first eligible message |
| TaggedReply.AroundStep | tagged_reply.py:277-295 | one around-loop iteration adds that message's entry |
| TaggedReply.CollectAround | tagged_reply.py:269-295 | the around loop stores every eligible context message under its id |
| TaggedReply.CollectRecent | tagged_reply.py:307-394 | the recent loop stores every eligible message over the around entries, and the previous-line note is that of the newest eligible message |
| TaggedReply.CollectedSpec | tagged_reply.py:269-396 | ids are unique; each id holds its last recent entry, otherwise its around entry; the trigger appears only through the around context; the collection is empty exactly when both sources are |
| TaggedReply.OnMessage | tagged_reply.py:188-500 | the handler's reply is that of the specification `Respond` |
| TaggedReply.EmptyCollectionAsksNoModel | tagged_reply.py:396-398 | with nothing collected, the reply is the empty-history message whatever the models would say |
| TaggedReply.ReplyCases | tagged_reply.py:435-496 | with the single configured model, an answer gives text plus footer; an error gives the classified message; otherwise the no-response text |
| TaggedReply.SuffixChoice | tagged_reply.py:419-421 | the prompt suffix is the reference note when one was read, otherwise the previous-line note |
| LegacyReply.ParseNumber | old/tagged_reply_v1.py:77-117 | all-digit input gives its value; empty or other input gives at least 1 |
| LegacyReply.ParseChineseNumber | old/tagged_reply_v1.py:77-117 | the accumulator loop computes the specification value |
| LegacyReply.Known | old/tagged_reply_v1.py:105-106 | keeps only characters from the numeral table |
| LegacyReply.FoldIgnoresUnknown | old/tagged_reply_v1.py:105-114 | characters outside the table do not affect the total |
| LegacyReply.TensAndUnits | old/tagged_reply_v1.py:105-116 | digit, ten, digit gives `10 * d + e` |
| LegacyReply.TensOnly | old/tagged_reply_v1.py:102-116 | a single numeral below ten gives its value, and followed by ten it gives `10 * d` |
| LegacyReply.TenAndUnit | old/tagged_reply_v1.py:108-116 | a leading ten counts as one ten |
| LegacyReply.NumeralExamples | old/tagged_reply_v1.py:79-117 | the empty string is 1; 十 is 10, 三十 is 30, 二十五 is 25 and 廿 is 20 |
| LegacyReply.NumeralRun | old/tagged_reply_v1.py:147 | the longest leading run of numeral characters |
| LegacyReply.CountTokenSpec | old/tagged_reply_v1.py:147-153 | no count is found only when the text holds no digit or numeral; otherwise the count is a maximal run found in the text |
| LegacyReply.FallbackUnreachable | old/tagged_reply_v1.py:152-159 | the branch for input that is only a number never changes the result |
| LegacyReply.Clamp | old/tagged_reply_v1.py:165 | the count is clamped to 5..500, values inside are kept |
| LegacyReply.RequestedCount | old/tagged_reply_v1.py:141-165 | the requested count lies in 5..500 and is 30 when none is given |
| LegacyReply.AroundBlockSpec | old/tagged_reply_v1.py:203-223 | the context block is empty exactly when no context line was kept; otherwise its header names `ref_limit // 2` and it ends with the separator line; the lines are a stable sort by time of the kept lines |
| LegacyReply.RecentV1Step | old/tagged_reply_v1.py:242-306 | one iteration adds that message's line, and the last mention seen sets the name later used in the prompt |
| LegacyReply.LinesSnoc | old/tagged_reply_v1.py:306 | appending an optional line appends its text |
| LegacyReply.CollectRecentV1 | old/tagged_reply_v1.py:242-306 | the loop collects the specification lines and the last mentioned name |
| LegacyReply.Reverse | old/tagged_reply_v1.py:313 | `reverse()` maps position `i` to position `n - 1 - i` |
| LegacyReply.KeptNotOlder | old/tagged_reply_v1.py:242 | collected lines are no older than the messages read |
| LegacyReply.KeptStayNewestFirst | old/tagged_reply_v1.py:242-306 | lines collected from a newest-first history stay newest first |
| LegacyReply.ReversedIsOldestFirst | old/tagged_reply_v1.py:313-317 | after the reversal the lines are oldest first |
| LegacyReply.ReverseDescending | old/tagged_reply_v1.py:313 | reversing a newest-first list gives an oldest-first one |
| LegacyReply.OnMessageV1 | old/tagged_reply_v1.py:125-376 | the handler's reply is that of the specification `RespondV1` |
| LegacyReply.UnboundNameAsksNoModel | old/tagged_reply_v1.py:256-376 | when no recent message mentions anyone, the prompt's name is unbound, and the reply is the error message whatever the models would say |
| LegacyReply.NoMentionsNoName | old/tagged_reply_v1.py:256-258 | without mentions the name is never bound |
| Secrets.NonBlank | server.py:103 | only non-blank pieces are kept, and never more than were given |
| Secrets.ReadAll | server.py:103-106 | reading all pieces succeeds exactly when each piece reads, and the result is then their values in order |
| Secrets.SourceChannelIdsCases | server.py:99-107 | any unreadable piece gives the empty list; otherwise the ids are the pieces' values in order |
| Secrets.NumberChars | server.py:103 | a printed integer holds only digits and a minus sign |
| Secrets.NoCommaInNumber | server.py:103 | a printed integer holds no comma |
| Secrets.StripPrinted | server.py:103 | a printed integer is non-empty and unchanged by stripping |
| Secrets.NonBlankKeepsAll | server.py:103 | pieces that are already stripped and non-empty are all kept |
| Secrets.SourceChannelIdsRoundTrip | server.py:99-107 | ids printed and joined with commas parse back to the same ids |
| Secrets.SplitPrinted | server.py:103 | splitting joined ids on commas gives the printed ids |
| Secrets.KeptPrinted | server.py:103 | no printed id is dropped as blank |
| Secrets.ReadPrinted | server.py:103 | printed ids read back as the ids |
| Secrets.ReadAllExact | server.py:103 | reading pieces with known values gives those values |
| Secrets.OptionalIdRoundTrip | server.py:109-118 | a printed id reads back |
| Device.PickDeviceChoice | server.py:141-150 | no simulator gives none; otherwise the first booted one, or the first one if none is booted |
| Summary.LinesStep | server.py:187-239 | one loop iteration appends that message's line |
| Summary.SectionsStep | server.py:180-243 | one channel adds its section, and a missing channel adds nothing |
| Summary.ChannelSummary | server.py:187-239 | the loop collects the specification lines of one channel |
| Summary.CollectSummary | server.py:180-243 | the loop collects the sections of all channels in configured order |
| Summary.SummaryLineShape | server.py:188-239 | a summary line has the short author name, no emoji tag, and the `author@stamp: body` shape |
| Summary.SectionsEmpty | server.py:241-243 | the output is empty exactly when no channel produced a line; otherwise it starts with a `--[#name]` header |
| Summary.DeliveryPostsOnlyFailures | server.py:251-282 | at most one post is made, always the failure report, and exactly when text, target, key and an answer or error are all present |
| Summary.RunSummary | server.py:160-287 | the job's posts are those of the specification |
| Summary.QuietChannelsPostNothing | server.py:241-251 | with no lines anywhere nothing is posted |
| Summary.BusyChannelGivesText | server.py:241-245 | one channel with lines makes the joined text non-empty |
| DailyQuote.HourOf | server.py:293 | the hour lies in 0..23 |
| DailyQuote.WindowIsThatDay | server.py:300-301 | the window starts at a midnight, contains the instant `DAYS_AGO` days back, and lasts one day |
| DailyQuote.ScanIsMax | server.py:305-317 | the best total bounds every message's total, and a best message exists exactly when the total is positive |
| DailyQuote.ScanPicksFirst | server.py:315-317 | the chosen message is the first to reach the best total |
| DailyQuote.ScanStep | server.py:313-317 | one more message is one more comparison |
| DailyQuote.FlattenStep | server.py:308-312 | channels are scanned in configured order, and a missing channel adds nothing |
| DailyQuote.SelectInChannel | server.py:312-317 | the inner loop continues the scan over one channel |
| DailyQuote.SelectBest | server.py:305-317 | the selection loop computes the specification scan over all channels |
| DailyQuote.ReplaceKeepsNonEmpty | server.py:327 | replacing with a non-empty name keeps text non-empty |
| DailyQuote.MentionsKeepNonEmpty | server.py:325-328 | mention substitution keeps the quote non-empty |
| DailyQuote.QuoteTextShape | server.py:322-343 | the quote text is never empty, and ends with the extras when there are any |
| DailyQuote.RunDailyQuote | server.py:290-356 | the job's posts are those of the specification |
| DailyQuote.QuotePostedIffReacted | server.py:305-320 | when the job may run and the target exists, one quote is posted exactly when some message has a positive reaction total |
| LinkScreenshot.CapturesStep | server.py:391-394 | one more message appends its links |
| LinkScreenshot.CaptureMessage | server.py:392-394 | the links of one message, in order |
| LinkScreenshot.CaptureChannel | server.py:391-394 | the links of one channel, in message order |
| LinkScreenshot.CaptureLinks | server.py:386-394 | every link in channel order, then message order, duplicates kept |
| LinkScreenshot.CapturesAppend | server.py:386-394 | capturing a concatenation concatenates the captures |
| LinkScreenshot.CapturedAreLinks | server.py:392 | every captured url is link text from a message that was read |
| LinkScreenshot.OpenWithRetry | server.py:411-417 | at most two attempts, stopping at the first success; failure means two failed attempts |
| LinkScreenshot.PreviewsStep | server.py:406-444 | a link that opens adds one post when a target exists; any other link adds none |
| LinkScreenshot.ProcessLinks | server.py:406-444 | the loop's posts are those of the specification |
| LinkScreenshot.PreviewCount | server.py:419-442 | with a target, one post per link that opens; without a target, none |
| LinkScreenshot.AllOpenedIff | server.py:419-421 | all links are processed exactly when each opens |
| LinkScreenshot.RunLinkScreenshot | server.py:359-448 | the job's posts are those of the specification |
| LinkScreenshot.LinkJobBounds | server.py:372-404 | never more posts than links; no simulator or no preview channel means no post |
| Server.OnReady | server.py:461-477 | the login handler's log is that of the specification |
| Server.StagesInOrder | server.py:466-477 | summaries come before quotes, quotes before previews, and closing comes last |
| Server.JobOrder | server.py:461-477 | the jobs' posts appear in job order, and the log ends with exactly one close |
| Server.LaunchCloses | server.py:484-493 | the bot runs only with a token, and then always closes last |
| SplitLongImage.RFind | split_long_image/split_long_image.py:16-17 | the last occurrence of a character, or none |
| SplitLongImage.SplitExtParts | split_long_image/split_long_image.py:16-17 | base name and extension concatenate to the path, and the extension is empty or a dot with no further dot or slash |
| SplitLongImage.SplitExtOfName | split_long_image/split_long_image.py:16-17 | `name.ext` splits into `name` and `.ext` |
| SplitLongImage.RFindLast | split_long_image/split_long_image.py:16-17 | the last occurrence is found |
| SplitLongImage.TileCount | split_long_image/split_long_image.py:20 | the tile count is `ceil(height / width)`, 0 for height 0 |
| SplitLongImage.CountBound | split_long_image/split_long_image.py:20 | tile `k` exists exactly when `k * width < height` |
| SplitLongImage.TilesStep | split_long_image/split_long_image.py:20-30 | one iteration appends tile `count` |
| SplitLongImage.SplitImage | split_long_image/split_long_image.py:5-35 | the loop produces the specification tiles, and nothing when the width is 0 |
| SplitLongImage.TilesCover | split_long_image/split_long_image.py:20-23 | tiles start at 0, are contiguous, full width and non-empty, and end at the height |
| SplitLongImage.TilesSquare | split_long_image/split_long_image.py:23 | every tile is at most `width` tall, and all but the last are exactly `width` tall |
| SplitLongImage.TileNames | split_long_image/split_long_image.py:27 | tile `k` of `name.ext` is saved as `name_k.ext` |
| ImageReg.ApiKey | image_reg/image_reg.py:86-93 | the Gemini key, otherwise the Google key, otherwise none; never empty |
| ImageReg.MimeTypeCases | image_reg/image_reg.py:113-117 | png when `.png` occurs, otherwise webp when `.webp` occurs, otherwise jpeg |
| ImageReg.BuildPayload | image_reg/image_reg.py:105-130 | the payload builder gives the specification payload |
| ImageReg.PayloadShape | image_reg/image_reg.py:105-130 | no payload exactly when the source is neither a url nor a file; otherwise the prompt then one image, by uri exactly for urls |
| ImageReg.RecogniseAsksOnlyWithImage | image_reg/image_reg.py:86-150 | no key stops before any call; a missing file stops too; recognised text is the model's answer to the payload |
| Sender.TargetIdChoice | sender/sender.py:34 | with a printed environment id, the choice is the specified id or that id |
| Sender.ImageNames | sender/sender.py:67-69 | exactly the names with an image extension, each from the listing |
| Sender.LexTotal | sender/sender.py:69 | string order is total |
| Sender.LexTrans | sender/sender.py:69 | string order is transitive |
| Sender.LexAntisym | sender/sender.py:69 | string order is antisymmetric |
| Sender.InsertNameSorted | sender/sender.py:69 | inserting a name keeps the list sorted and adds exactly that name |
| Sender.SortNamesSorts | sender/sender.py:69 | `sorted` gives a sorted permutation |
| Sender.SortedIsUnique | sender/sender.py:69 | two sorted permutations of one list are equal |
| Sender.ImagesSpec | sender/sender.py:67-69 | the images are sorted, are the image names of the listing, and nothing else |
| Sender.SendImages | sender/sender.py:73-81 | one event per image, in order; a failed send is logged and the loop goes on |
| Sender.ImagePartSpec | sender/sender.py:64-86 | no folder means no image events; otherwise one event per image name, in sorted order |
| Sender.DeliverTo | sender/sender.py:55-91 | the delivery loop gives the specification log |
| Sender.OnReady | sender/sender.py:33-91 | the handler's log is that of the specification |
| Sender.Layout | sender/sender.py:55-91 | text first when sent, then the images, then the close |
| Sender.DeliverShape | sender/sender.py:55-91 | text is sent exactly when the message is not blank; then one event per image in sorted order; the client always closes last |
| Sender.NoChannelNoSend | sender/sender.py:34-46 | an unreadable target id raises before the lookup, so nothing is sent and nothing closes; a channel neither cached nor fetchable closes the client without sending |
| Sender.ShippedIdStarts | sender/sender.py:18-34 | with the shipped channel id, any token starts the sender and the target is that id |

## Left out

- Word characters, digits and `lower()` are ASCII only. Python's Unicode classes for `\w`, `\d` and `str.lower` are not modelled.
- `int()` does not accept underscores, surrounding signs other than one leading `+` or `-`, or non-ASCII digits.
- Time zone conversion and `strftime` are a function parameter. Only the format-string assembly is modelled.
- Discord calls are inputs: history fetches, `fetch_message`, `get_channel`, `fetch_channel`, sends and replies. A channel lookup is a given boolean or `Option`. The history window and limit are a given prefix of the channel.
- Exceptions raised by sends, typing indicators and intents are not modelled.
- Gemini and Gemma calls are oracle functions returning an answer or an error text. Token limits and temperature are left out.
- The self-update flow (`tagged_reply.py:116-160, 194-214`) is left out, because it runs git and restarts the process. The handler model keeps the keyword test at `tagged_reply.py:192` and ends in a `Restarted` result when the keyword is present.
- The decision whether a message triggers the bot (mention or reply detection, `tagged_reply.py:160-188`) is left out. The handler starts from a triggering message.
- The simulator boot, screenshot, terminate, sleeps and temporary files (`server.py:372-444`) are left out. Only the retry rule, the skip rule and whether a screenshot file exists are kept.
- PIL image loading, cropping and saving, directory listing and path existence are inputs.
- The pip auto-install in each file is left out.
- `renderer.py`, `weather.py`, `tcc.py`, `simple_sender.py` and `old/image_reg_v1/image_reg.py` are not part of this model.
- `Summary.DeliveryPostsOnlyFailures`: the success report of `server.py:266-276` names variables that are never defined, so it raises before sending. The model keeps this behaviour: a non-empty answer leads to the failure post. The exact exception text is a constant.
- `LegacyReply.OnMessageV1`: the unbound-name failure is modelled as the error reply with a constant message text.
- The duplicated author and time lines at `tagged_reply.py:283-284` have no effect and are modelled once.
- The summary prompt and the report formats are modelled as plain string assembly. Their wording is not checked.
- `Normalizer.ListRepr`: every URL is printed between single quotes with nothing escaped. Python's `repr` uses double quotes for a string holding `'` and no `"`, and escapes a backslash. The list is printed only when the `SHOW_ATTACHMENTS` setting is on.
- `Normalizer.MentionsBecomeNames`: stated for a body whose plain text never has `@` right after a `<` and never ends in `<`, and for display names without `<`. Text that writes `<@` outside a well-formed tag, or a name holding `<`, is not covered.
- `Normalizer.NicknameBecomesName`: the single-tag case only; the general case is `Normalizer.MentionsBecomeNames`.
- `Normalizer.MentionBecomesName`: the single-tag case only; the general case is `Normalizer.MentionsBecomeNames`.
- `Sender.OnReady`: the sender's client is not closed when a send raises outside the image loop. Such sends are not modelled as raising.
