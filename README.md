# Slack export parser, in Dafny

This project models `SlackParser`, the parsing core of a Slack channel archive
viewer. A workspace export is uploaded as a directory of JSON files. The parser
does six things, and the model has one module for each:

- **Ingest** merges the files into channels, users and per-channel messages.
- **TimestampSort** orders a channel's messages by the numeric value of their
  timestamps. **Timestamp** gives that value.
- **Threads** rebuilds threads: top-level messages carry their replies.
- **Tokenizer** cuts a message's text into plain stretches, links, mentions and
  broadcasts for display. **Markup** holds the grammar and the recogniser it
  applies at each position.
- **Render** flattens a message's text to a plain string.
- **Lookup** and **Emoji** find users and channels by id or name, and emoji by
  short code.

The model takes the source's own form.

- Messages are objects (`SlackTypes.Message`), because thread reconstruction
  writes their `replies`, `reply_count` and `thread_replies` fields in place.
- Sorting is an in-place stable sort of the caller's array. It is proved equal
  to a functional specification (`SortBy`, insertion into a sorted prefix).
  That specification is proved ordered, a permutation, stable, and the only
  sequence with all three properties.
- Ingestion and tokenization are the source's loops. Each is proved equal to a
  functional definition (`Ingest`, `Tokenize`), and the properties are proved
  about those definitions.
- The recognisers are functions. Each is proved sound and complete against a
  declarative grammar, `ReadsAs`: a text reads as a token when it starts with
  the token's text and what follows could not extend it.

The model follows what the code does, including these details, which its names
and comments do not suggest:

- The link alternative of the tokenizer's expression does not consume a link's
  closing `>`. A `<url|label>` link is therefore followed by a plain `>` segment
  (`Tokenizer.LinkLeavesClosingBracket`, `Tokenizer.BareLinkShown`).
- A failed file read is awaited outside the per-file error handling. It rejects
  the whole ingestion rather than skipping one file (`Ingest.IngestFailsIffUnreadable`).
- The role files are named exactly `channels.json` and `users.json`.
- User ids start with `U` or `W`.
- A known user whose real name and name are both empty is shown as `@`.
- Thread reconstruction reorders the export's own array and writes into the
  export's own message objects. Nothing is copied.

## Model

| member | source | states |
|---|---|---|
| Emoji.GetEmojiFromName | slack-app/src/utils/slackParser.ts:248-250 | the emoji for a short code: `Resolve` applied to the fixed table, whose contract `Emoji.Resolve` states for any table of glyphs |
| Emoji.Resolve | slack-app/src/utils/slackParser.ts:248-250 | a code in the table gives its glyph; any other code gives the literal `:code:`; the result is never empty, and it starts with a colon exactly when the code is not in the table |
| Lookup.GetUserById | slack-app/src/utils/slackParser.ts:366-368 | no result exactly when no user has the id; otherwise the first user in the list with that id |
| Lookup.GetChannelById | slack-app/src/utils/slackParser.ts:370-372 | no result exactly when no channel has the id; otherwise the first channel in the list with that id |
| Lookup.GetChannelByName | slack-app/src/utils/slackParser.ts:421-422 | no result exactly when no channel has the name; otherwise the first channel in the list with that name |
| Ingest.Split | slack-app/src/utils/slackParser.ts:270 | splitting gives at least one piece; no piece contains the separator; there is exactly one piece when the text has no separator |
| Ingest.SplitJoin | slack-app/src/utils/slackParser.ts:270 | splitting undoes joining pieces that contain no separator |
| Ingest.ChannelKey | slack-app/src/utils/slackParser.ts:270-271 | the channel key is never empty and never contains `/`; a path without `/` gives `unknown` |
| Ingest.ChannelKeyOfPath | slack-app/src/utils/slackParser.ts:270-271 | a message file's channel is the directory directly above it, or `unknown` when that component is empty |
| Ingest.FileRole | slack-app/src/utils/slackParser.ts:264-268 | only the name `channels.json` feeds the channel list; only `users.json` feeds the user list; every other `.json` name containing `-` is a message file of the channel its path names; all other names are ignored |
| Ingest.IngestFailsIffUnreadable | slack-app/src/utils/slackParser.ts:257-259 | ingestion fails exactly when some file cannot be read |
| Ingest.IngestGathers | slack-app/src/utils/slackParser.ts:257-281 | channels and users are the arrays of the role files, in upload order; each channel's messages are the arrays of its message files, in upload order; a channel has an entry exactly when one of its message files parsed, even to a non-array value |
| Ingest.KeyCreatedSnoc | slack-app/src/utils/slackParser.ts:273-276 | a further file creates a channel's entry exactly when it is a message file of that channel that parsed, before its spread can fail |
| Ingest.SkippedFileChangesNothing | slack-app/src/utils/slackParser.ts:261-280 | a file that fails to parse, or whose name matches no role, can be removed from anywhere in the upload without changing the result |
| Ingest.Step | slack-app/src/utils/slackParser.ts:261-280 | one file merged into the export; its contract is stated by `Ingest.KeyCreatedSnoc` and `Ingest.SkippedFileChangesNothing` |
| Ingest.Ingest | slack-app/src/utils/slackParser.ts:252-284 | the export the files produce in upload order; its contract is stated by `Ingest.IngestGathers` and `Ingest.IngestFailsIffUnreadable` |
| Ingest.ParseSlackExport | slack-app/src/utils/slackParser.ts:252-284 | the loop produces the export `Ingest` defines, and fails exactly when a read fails |
| Timestamp.TsValue | slack-app/src/utils/slackParser.ts:375 | `parseFloat` on a timestamp; its contract is stated by `Timestamp.DecimalValue`, `Timestamp.WholePartDominates` and `Timestamp.NumericNotLexicographic` |
| TimestampSort.Key | slack-app/src/utils/slackParser.ts:375 | a message's sort key is the value of its timestamp, as the comparator computes it |
| Timestamp.DecimalValue | slack-app/src/utils/slackParser.ts:375 | the key of a timestamp `W.F` is W + F / 10^\|F\| |
| Timestamp.WholePartDominates | slack-app/src/utils/slackParser.ts:375 | timestamps with different whole seconds are ordered by those seconds, whatever their fractions |
| Timestamp.NumericNotLexicographic | slack-app/src/utils/slackParser.ts:375 | `99.5` < `100.0` < `100.001` numerically, although `100.0` is the smaller string |
| TimestampSort.SortByPermutes | slack-app/src/utils/slackParser.ts:374-376 | the sorted sequence is a permutation of the input |
| TimestampSort.SortBySorted | slack-app/src/utils/slackParser.ts:374-376 | the sorted sequence is in ascending key order |
| TimestampSort.SortIsStable | slack-app/src/utils/slackParser.ts:374-376 | elements with equal keys keep their original relative order |
| TimestampSort.StableSortIsUnique | slack-app/src/utils/slackParser.ts:374-376 | any ordered sequence with the same elements under every key, in the same order, is the specification's, so any stable sort gives this result |
| TimestampSort.SortCommutesWithFilter | slack-app/src/utils/slackParser.ts:374-376 | sorting then selecting equals selecting then sorting |
| TimestampSort.SortIdempotent | slack-app/src/utils/slackParser.ts:374-376 | sorting a sorted sequence changes nothing |
| TimestampSort.InsertInPlace | slack-app/src/utils/slackParser.ts:374-376 | one step of the in-place sort inserts the next element into the sorted prefix and leaves the rest of the array alone |
| TimestampSort.SortInPlace | slack-app/src/utils/slackParser.ts:374-376 | the array is rearranged, in place, into the specification's order |
| TimestampSort.SortMessagesByTimestamp | slack-app/src/utils/slackParser.ts:374-376 | the caller's message array ends in the stable numeric-timestamp order of its former contents |
| Threads.IsReply | slack-app/src/utils/slackParser.ts:385 | a message is a reply when its `thread_ts` is set, non-empty and not its own timestamp; the lemmas about it are `Threads.TopLevelPartition` and `Threads.OrphanReplyDropped` |
| Threads.Summaries | slack-app/src/utils/slackParser.ts:402-405 | one summary per reply, in order: the reply's author, or "" when it has none, and its timestamp |
| Threads.PartitionReplies | slack-app/src/utils/slackParser.ts:384-395 | the main list is the top-level messages in sorted order; the thread map has a key exactly for each parent timestamp some reply names, holding those replies in sorted order |
| Threads.AttachReplies | slack-app/src/utils/slackParser.ts:397-410 | a main message whose timestamp keys a thread gets that thread's replies, summaries and count; every other message's thread fields stay as they were |
| Threads.OrganizeMessagesWithThreads | slack-app/src/utils/slackParser.ts:378-413 | the array is sorted in place; the result is its top-level messages; each top-level message with replies carries them, and every other message of the array is unchanged |
| Threads.ProcessChannelData | slack-app/src/utils/slackParser.ts:415-432 | nothing exactly when no channel has the name; otherwise the first such channel, the users unchanged, and that channel's messages organised in place, or none when the export has no entry for the name |
| Threads.TopLevelPartition | slack-app/src/utils/slackParser.ts:384-395 | each top-level message appears in the result as often as in the input, and no reply appears at all |
| Threads.TopLevelInOrder | slack-app/src/utils/slackParser.ts:379-395 | the result is the top-level messages, stably sorted by timestamp |
| Threads.ThreadInOrder | slack-app/src/utils/slackParser.ts:384-408 | a parent's thread is exactly the replies naming it, stably sorted by timestamp |
| Threads.OrphanReplyDropped | slack-app/src/utils/slackParser.ts:384-412 | a reply whose parent is no top-level message is neither in the result nor in any attached thread |
| Threads.ReorganizeIdempotent | slack-app/src/utils/slackParser.ts:378-413 | running the reconstruction a second time over the same array leaves it in the same order, returns the same top-level messages, and leaves every message's thread fields as one run sets them |
| Threads.RootWithOneReply | slack-app/src/utils/slackParser.ts:378-413 | a root `1` with a reply `2` gives one top-level message whose thread is that one reply |
| Markup.MatchHere | slack-app/src/utils/slackParser.ts:461 | the combined expression at one position tries its alternatives in order; a match starts with `<` and has at least two characters |
| Markup.MatchLink | slack-app/src/utils/slackParser.ts:461 | a link match is a link token read from text starting with `<` |
| Markup.MatchUser | slack-app/src/utils/slackParser.ts:461 | a user match is a user token read from text starting with `<@` |
| Markup.MatchChannel | slack-app/src/utils/slackParser.ts:461 | a channel match is a channel token read from text starting with `<#` |
| Markup.MatchBroadcast | slack-app/src/utils/slackParser.ts:461 | a broadcast match is a broadcast token read from text starting with `<!` |
| Markup.MatchHereSound | slack-app/src/utils/slackParser.ts:461 | whatever the combined expression matches is a token the grammar allows, and the text reads as it |
| Markup.MatchHereComplete | slack-app/src/utils/slackParser.ts:461 | every token the grammar allows at the start of the text is the one the combined expression matches there, read whole |
| Markup.LinkSound | slack-app/src/utils/slackParser.ts:461 | the link alternative matches only a valid http(s) link, with its optional label |
| Markup.LinkComplete | slack-app/src/utils/slackParser.ts:461 | the link alternative finds every valid link, with its label |
| Markup.UserSound | slack-app/src/utils/slackParser.ts:461 | the user alternative matches only a well-formed user mention |
| Markup.UserComplete | slack-app/src/utils/slackParser.ts:461 | the user alternative finds every well-formed user mention, and the link alternative misses it |
| Markup.ChannelSound | slack-app/src/utils/slackParser.ts:461 | the channel alternative matches only a well-formed channel mention |
| Markup.ChannelComplete | slack-app/src/utils/slackParser.ts:461 | the channel alternative finds every well-formed channel mention, and the earlier alternatives miss it |
| Markup.BroadcastSound | slack-app/src/utils/slackParser.ts:461 | the broadcast alternatives match only `<!everyone>`, `<!channel>` or `<!here>` |
| Markup.BroadcastComplete | slack-app/src/utils/slackParser.ts:461 | the combined expression finds each of the three broadcasts |
| Tokenizer.NextMatch | slack-app/src/utils/slackParser.ts:465 | a found match lies at or after the scan position and is a match of the combined expression there |
| Tokenizer.NextMatchLeftmost | slack-app/src/utils/slackParser.ts:465 | the match found is the leftmost; when none is found, none exists from the scan position on |
| Tokenizer.Exec | slack-app/src/utils/slackParser.ts:465 | the scanning loop finds the leftmost match |
| Tokenizer.MatchEnd | slack-app/src/utils/slackParser.ts:494 | the scan resumes just after the matched text, which is the token's own text |
| Tokenizer.LexTiles | slack-app/src/utils/slackParser.ts:465-500 | the plain stretches and matches, read in order, give back the text exactly |
| Tokenizer.LexShape | slack-app/src/utils/slackParser.ts:465-500 | plain stretches are non-empty and never adjacent; every match is a token the grammar allows; nothing is produced only for the empty text |
| Tokenizer.Tokenize | slack-app/src/utils/slackParser.ts:502-505 | the result is never empty |
| Tokenizer.PlainText | slack-app/src/utils/slackParser.ts:502-505 | text where no markup starts is one plain segment, the text itself; this includes the empty text |
| Tokenizer.SingleToken | slack-app/src/utils/slackParser.ts:465-500 | a token followed by markup-free text gives the token's segment, then that text when there is any |
| Tokenizer.LinkLeavesClosingBracket | slack-app/src/utils/slackParser.ts:471-475 | `<url\|label>` gives a link showing the label, then a plain `>` |
| Tokenizer.BareLinkShown | slack-app/src/utils/slackParser.ts:471-475 | `<url>` gives a link showing its url, then a plain `>` |
| Tokenizer.UserMentionShown | slack-app/src/utils/slackParser.ts:476-481 | a known user shows `@` and their real name or name, and an unknown one shows the mention's own text; both keep the id |
| Tokenizer.ChannelMentionShown | slack-app/src/utils/slackParser.ts:482-485 | a channel mention shows `#` and the channel's name |
| Tokenizer.BroadcastShown | slack-app/src/utils/slackParser.ts:486-491 | a broadcast shows `@everyone`, `@channel` or `@here` |
| Tokenizer.DisplayName | slack-app/src/utils/slackParser.ts:480 | a user is shown by their real name when it is not empty, and by their name otherwise |
| Tokenizer.TokenElement | slack-app/src/utils/slackParser.ts:471-491 | the segment each kind of match becomes; its contract is stated by `Tokenizer.BareLinkShown`, `Tokenizer.LinkLeavesClosingBracket`, `Tokenizer.UserMentionShown`, `Tokenizer.ChannelMentionShown` and `Tokenizer.BroadcastShown` |
| Tokenizer.ParseMessageTextToElements | slack-app/src/utils/slackParser.ts:456-508 | the scanning loop produces the segments `Tokenize` defines |
| Render.PassMatch | slack-app/src/utils/slackParser.ts:438-451 | a pass replaces only text starting with `<` and its own second character, and never more than the text; the user pass replaces `<@id>` by the name of the user with that id, or keeps the mention when no user has it; the channel pass replaces `<#id\|name>` by `#name`; a broadcast pass replaces `<!name>` by `@name` |
| Render.UserMatch | slack-app/src/utils/slackParser.ts:438-441 | the user pass replaces a mention ending in `>` by the name of the user whose id sits between `<@` and `>`, or by the mention itself when no user has that id |
| Render.ChannelMatch | slack-app/src/utils/slackParser.ts:444-446 | the channel pass replaces a mention ending in `\|name>` by `#name` |
| Render.ReplaceAll | slack-app/src/utils/slackParser.ts:438-451 | `String.replace` with a global pattern; its contract is stated by `Render.ReplaceAllNoAngle`, `Render.ReplaceAllSkip`, `Render.PassOnce` and `Render.PassInContext` |
| Render.ReplaceAllNoAngle | slack-app/src/utils/slackParser.ts:438-451 | a replacement pass leaves text without `<` unchanged |
| Render.ReplaceAllSkip | slack-app/src/utils/slackParser.ts:438-451 | a pass copies a prefix without `<` and carries on after it |
| Render.PassOnce | slack-app/src/utils/slackParser.ts:438-451 | on text whose only `<` comes first, a pass replaces at most that one match and copies the rest |
| Render.PassInContext | slack-app/src/utils/slackParser.ts:438-451 | on text whose only `<` starts one piece of markup, a pass replaces at most the match there, wherever it stands, and copies the text before and after it |
| Render.PassLeaves | slack-app/src/utils/slackParser.ts:438-451 | a pass leaves text unchanged when its only `<` starts markup of another kind |
| Render.RenderMessageText | slack-app/src/utils/slackParser.ts:434-454 | the five passes over the message's text, in the code's order; its contract is stated by `Render.RenderInContext` and `Render.RenderWithoutMarkup` |
| Render.RenderText | slack-app/src/utils/slackParser.ts:435-453 | the five passes over a text; its contract is stated by `Render.RenderInContext` and `Render.RenderWithoutMarkup` |
| Render.RenderWithoutMarkup | slack-app/src/utils/slackParser.ts:434-454 | text without `<` renders as itself |
| Render.RenderInContext | slack-app/src/utils/slackParser.ts:434-454 | one piece of markup with no `<` after its first character, with text without `<` before and after it, renders as its `Rendered` form with that text copied, when a known user's name has no `<`; `Rendered` gives, kind by kind, a known user's name, `#` and a channel's name, `@` and a broadcast's name, and leaves links and unknown users as written |
| Render.RenderUser | slack-app/src/utils/slackParser.ts:438-441 | wherever a user mention stands in text with no other `<`, it becomes the user's real name or name (one without `<`), without `@`, when the id is known, and stays as written otherwise; the text around it is copied |
| Render.RenderChannel | slack-app/src/utils/slackParser.ts:444-446 | wherever a channel mention stands, it becomes `#` and its name; the text around it is copied |
| Render.RenderBroadcast | slack-app/src/utils/slackParser.ts:449-451 | wherever a broadcast stands, it becomes `@` and its name, and the other broadcast passes leave it alone; the text around it is copied |
| Render.RenderLink | slack-app/src/utils/slackParser.ts:434-454 | wherever a link stands, no pass changes it |
| Render.RenderAlone | slack-app/src/utils/slackParser.ts:434-454 | a text that is one piece of markup, with no `<` after its first character, renders as its `Rendered` form when a known user's name has no `<` |
| Render.NameRenderedAgain | slack-app/src/utils/slackParser.ts:438-451 | a known user whose name is a broadcast's text is shown as that broadcast is, `@` and its name, because the later passes read the replaced name |
| Render.RenderAgreesWithTokenizer | slack-app/src/utils/slackParser.ts:434-508 | a text that is one piece of markup, with no `<` after its first character, gives one segment; when a known user's name has no `<`, a channel or broadcast renders as that segment's text, and a known user as that text without its `@`; an unknown user's mention renders as written, which is also its segment's text; a link renders as written, while its segment shows its label or url |

## Left out

- Reading files (`readFileAsText`, `FileReader`, slack-app/src/utils/slackParser.ts:286-293) is browser I/O. Each file comes with the outcome of reading and parsing it. A failed read is that outcome, and it fails the whole ingestion as in the code.
- JSON parsing is not modelled: records are an abstract type, and a parse gives an array, a value that is not an array, or an error. A top-level JSON string is iterable in JavaScript, so its characters would be spread into the lists; the model treats it as a value that is not an array.
- The export's `messages` and the emoji table are plain JavaScript objects. Inherited keys such as `constructor` behave differently there; the model uses finite maps.
- Timestamp.TsValue: reads only `digits[.digits]`, the form of export timestamps. `parseFloat`'s sign, exponent, leading blanks, `Infinity` and `NaN` are not modelled, and binary floating-point rounding is replaced by exact rationals. A timestamp with no digit before or right after its point (such as `""`, `"."` or `"abc"`) has value 0 here, where `parseFloat` gives `NaN`; with `NaN` the comparator is inconsistent and the engine's order is unspecified.
- The engine's sorting algorithm is not modelled; the model uses insertion sort. The standard requires `Array.prototype.sort` to be stable, and `TimestampSort.StableSortIsUnique` shows every stable sort gives the same result.
- `sortMessagesByTimestamp` returns the array it sorted. The model sorts in place and callers read the array.
- The date and time formatters (`formatTimestamp`, `formatTime`, `formatDateTime`, `formatDateMarker`, `isSameDay`, slack-app/src/utils/slackParser.ts:295-364) depend on the locale, the time zone and the clock.
- Message fields the parser never reads (reactions, files, subtypes) are not modelled. A user's missing real name and an empty one are the same here, since the code only tests it for truth.
- `console.warn` on a skipped file is logging only.
- Render.RenderInContext: states the rendering of one piece of markup in text with no other `<`, and, for a known user, a name without `<`. The user pass's output goes through the later passes, so a user named `<!here>` is shown as `@here` (`Render.NameRenderedAgain`) where `Rendered` gives the name. With several pieces, a replacement can combine with the following text in a later pass: `<#C1|x<!here>>` renders as `#x@here`. That interaction is not stated.
- Render.RenderUser: stated for one mention in text with no other `<`, and a known user's name without `<`, for the reasons given for `Render.RenderInContext`.
- Render.RenderChannel: stated for one mention in text with no other `<`, and a channel name without `<`, for the reason given for `Render.RenderInContext`.
- Render.RenderBroadcast: stated for one broadcast in text with no other `<`, for the reason given for `Render.RenderInContext`.
- Render.RenderLink: stated for one link in text with no other `<`, for the reason given for `Render.RenderInContext`.
- Render.RenderAlone: stated for markup with no `<` after its first character, and a known user's name without `<`, for the reasons given for `Render.RenderInContext`.
- Render.RenderAgreesWithTokenizer: stated for markup with no `<` after its first character, and a known user's name without `<`, for the reasons given for `Render.RenderInContext`.
- Browser storage, the HTTP handlers, the Slack API client and the React components are not part of this model.
