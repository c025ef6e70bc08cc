# Chat-archive viewer, modelled in Dafny

This project models a small web viewer for exported Telegram-style chat archives. It has two
halves.

- **Server** (`server.js`): at start-up a scan walks the base directory. Every `result.json` it
  finds goes through three loading tiers:
  - clean-up, then a strict parse;
  - a textual repair, then a second parse;
  - a pattern-based extraction of message-shaped fragments.

  Each record is filed in an in-memory index under its directory's path relative to the base.
  The JSON API serves the chat list, one chat by key, and media files behind a path guard.
- **Client** (`app.js`): opening a chat does four things:
  - it guesses the current user as the most frequent sender;
  - it rebuilds the reply map;
  - it lays the messages out as date separators and sender groups;
  - it renders each group (sent or received side, sender name, reply block, media block, text,
    time).

  The client also offers an in-chat search with a cyclic cursor, a chat-name filter and media
  sections.

Modules, one per file:

| file | module | what it holds |
|---|---|---|
| wrappers.dfy | Wrappers | `Option` |
| strings.dfy | Strings | JavaScript string helpers: `includes`, `trim`, ASCII case mapping, `split`, `join`, number printing and reading |
| model.dfy | Model | the message and chat records, truthiness of fields, the text field's string forms |
| ingest.dfy | Ingest | clean-up, repair, extraction, tier escalation for one export file |
| chat_index.dfy | ChatIndex | the index (`class ChatIndex`) and the recursive directory scan |
| api.dfy | Api | the `/api/chats` summary projection and the `/api/chat/<key>` lookup |
| media_guard.dfy | MediaGuard | `path.join` normalisation, the `/api/media/<path>` guard as written and as intended |
| text_format.dfy | TextFormat | previews, HTML escaping, message-text formatting as written and as intended, durations, initials, day buckets |
| grouping.dfy | Grouping | the `renderChat` layout loop and what the layout guarantees |
| message_view.dfy | MessageView | `createMessageGroup` / `createMessageElement` as records of what each element shows |
| viewer.dfy | Viewer | the client's state (`class Viewer`): loading a chat, the search, the list and media filters |

Where the design description and the code disagree, the model follows the code:

- **Current-user tie-break.** The description wants the first-seen sender to win a tie. The
  `reduce` with a strict `>` picks the LAST of the maximal keys.
- **Structured text in the search.** Fragments of a structured text are described as
  contributing their contents. `String(fragment)` of an entity object is "[object Object]", so
  that is what the search and the links filter see.
- **Media guard and `..`.** A request containing `..` is described as always rejected. The guard
  normalises first, so a `..` that stays inside the base is served (`ParentInsideAccepted`).
- **Extraction finds nothing.** A file is described as skipped when extraction finds nothing. The
  code indexes a record with an empty message list and the error note.
- **Loading a chat leaves the search alone.** Opening another chat does not reset
  `searchResults` or `currentSearchIndex`.

## Model

| member | source | states |
|---|---|---|
| Ingest.RemoveControls | server.js:46 | no character of the result is in 0x00–0x1F or 0x7F, and every other character occurs as often as in the input |
| Ingest.CleanKeepsText | server.js:41-46 | after clean-up no control character is left. Every other character keeps its count, except that one U+FEFF is removed and only when it is at index 0 |
| Ingest.RemoveControlsConcat | server.js:46 | removal distributes over concatenation, so the kept characters stay in their order |
| Ingest.RemoveTrailingCommas | server.js:58 | only commas are deleted: every other character, including each bracket and brace, keeps its count |
| Ingest.KeptFrom | server.js:58 | the surviving positions are increasing, and a position survives exactly when it is not a comma followed, in the original text, by whitespace and a `}` or `]` |
| Ingest.RemoveTrailingCommasPositions | server.js:58 | the result is the input with exactly those commas deleted: its k-th character is the input's character at the k-th surviving position |
| Ingest.RepairBalances | server.js:58-84 | the repaired text has the input's `[` and `{` counts and gains exactly the missing numbers of `]` and of `}`. Text whose counts already balance gets nothing appended |
| Ingest.Repair | server.js:58-84 | the step-by-step repair, with its closer-appending loops, yields the repair specification, and its closers are at least as many as its openers |
| Ingest.ExtractedMessagesShape | server.js:99-117 | one message per capture, in capture order. Each has a positive id, and an id whose digits parse to a positive number keeps that number. Each has a truthy `from` and `from_id` ("Unknown" and "unknown" stand in), the captured text, no entities and no reply |
| Ingest.CounterIdsIncrease | server.js:101-106 | ids drawn from the counter start at 1, strictly increase in extraction order and never exceed the number of counter uses, so no two coincide |
| Ingest.ExtractMessages | server.js:99-117 | the `while (exec)` loop with its `msgId` counter yields the extracted messages |
| Ingest.Load | server.js:37-138 | the tier is strict exactly when the cleaned text parses. It is repair exactly when only the repaired text parses, and extraction exactly when neither does. The record is keyed by its relative path and, on the strict tier, is the parsed document |
| Ingest.LoadExport | server.js:37-138 | the per-file steps in order give the tier and record `Load` describes |
| ChatIndex.LoadsArePathKeyed | server.js:131-139 | every record a scan inserts carries its own key as `path` |
| ChatIndex.ChatIndex.constructor | server.js:14 | an empty index |
| ChatIndex.ChatIndex.Insert | server.js:139 | `Map.set`: the record is replaced or added; a new key goes last in key order and an existing one keeps its place |
| ChatIndex.ChatIndex.ScanDirectory | server.js:21-158 | the scan skips `node_modules` and dot-entries, recurses into readable directories, loads only files named `result.json`, and leaves an unreadable directory's index unchanged. The index after it equals the loads inserted in order |
| ChatIndex.LoadAllChats | server.js:17-162 | a fresh, valid index filled by one scan of the base directory |
| ChatIndex.InsertAllKeys | server.js:139 | after a scan a key is present exactly when it was before or some loaded file has it |
| ChatIndex.InsertAllLastWins | server.js:139 | of several files with one key, the last one loaded is the record kept |
| ChatIndex.InsertAllUntouched | server.js:139 | a key no loaded file has keeps its record |
| Api.Summarize | server.js:166-183 | `messageCount` and `message_count` both equal the number of messages. `lastMessage` and `last_message` are both the final message, and null exactly for an empty chat. The identity fields are copied |
| Api.Summaries | server.js:165-186 | one summary per indexed chat, in the index's key order |
| Api.GetChat | server.js:189-198 | a known key answers its record; an unknown key answers 404 "Chat not found" |
| Api.ListThenGet | server.js:165-198 | looking up the path a summary lists yields the very chat it summarises, with as many messages as it counts |
| MediaGuard.ServeAsWritten | server.js:201-215 | 403 "Forbidden" exactly when the normalised joined path does not start with the base string. 404 "File not found" exactly when it passes and no file exists there. Otherwise that file is sent |
| MediaGuard.Serve | server.js:201-215 | the same handler with the intended guard; anything it sends lies inside the base (the base's segments prefix the resolved segments) |
| MediaGuard.ResolveClean | server.js:203 | normalisation keeps clean segments unchanged |
| MediaGuard.ResolveKeepsClean | server.js:203 | normalisation leaves only clean segments (no empty, `.` or `..` segment remains) |
| MediaGuard.JoinPathShape | server.js:203 | the joined path is the request's segments resolved on top of the base, with its trailing slash kept |
| MediaGuard.AcceptedIff | server.js:206 | the intended guard accepts exactly the requests whose resolved segments start with the base's segments |
| MediaGuard.AcceptedAcceptedAsWritten | server.js:206 | everything the intended guard accepts, the guard as written accepts too |
| MediaGuard.ParentInsideAccepted | server.js:203-208 | a request `d/../f` contains a `..` segment, is accepted by both the normalised check and the check as written, and serves `f` from the base itself |
| MediaGuard.SiblingPrefixAccepted | server.js:203-208 | a request `../s/f`, where the sibling directory `s` extends the base's last name, leaves the base. The guard as written accepts it; the intended guard refuses it |
| MediaGuard.SiblingExample | server.js:203-208 | with base `/srv/app`, `../app-data/x` passes the guard as written and not the intended one |
| TextFormat.TextPreview | app.js:463-464 | a text preview has no newline and at most 53 characters. Text of up to 50 characters keeps its length. Longer text shows 50 characters then "...". Each shown character is the text's own, with newlines turned into spaces |
| TextFormat.PreviewOfText | app.js:446-467 | a message with no media previews as its text under those bounds, or as "Media" when it has no truthy text |
| TextFormat.PreviewExamples | app.js:463-464 | sixty characters preview as their first fifty and "...", forty stay whole |
| TextFormat.EscapeHtml | app.js:532-536 | the escaped text contains no `<` and no `>` |
| TextFormat.EscapeHtmlRoundTrip | app.js:532-536 | escaped text displays as exactly the original text |
| TextFormat.EscapeHtmlNewlines | app.js:532-536 | escaping keeps a line break exactly when the text has one |
| TextFormat.EscapeHtmlPlain | app.js:532-536 | text with nothing to escape, double quotes included, is unchanged |
| TextFormat.Breaks | app.js:436 | no newline survives, and a text without newlines is unchanged |
| TextFormat.TokenizeRoundTrip | app.js:439-440 | the link scan splits the text into pieces that together are exactly the text |
| TextFormat.TokenizeLinksShaped | app.js:439 | every link found starts with `http://` or `https://` and has no whitespace |
| TextFormat.AsWrittenSingleLink | app.js:416-443 | a text that is one link, with nothing to escape, renders as one anchor whose `href` and text are the link |
| TextFormat.LinkSwallowsNextLine | app.js:433-440 | as written, "http://a" followed by a line break and "b" renders as one anchor over `http://a<br>b` |
| TextFormat.QuoteEndsHref | app.js:433-440 | as written, a link containing `"` is put into `href="…"` unescaped, so the quote closes the attribute early |
| TextFormat.AnchorKeepsAddress | app.js:440 | in the intended anchor the `href` value holds no quote and reads back as the address, and the anchor text shows the address on one line |
| TextFormat.FormatMessageTextAsWritten | app.js:416-443 | a message without truthy text formats as the empty string. A text with no colon, hence no link, renders as its escaped text with line breaks turned into `<br>` |
| TextFormat.FormatMessageTextAsWrittenPieces | app.js:433-440 | as written, links are found in the escaped text after `<br>` conversion: the pieces cover that text exactly, every link starts with `http://` or `https://` and holds no whitespace, and the output is those pieces with each link wrapped in an anchor |
| TextFormat.FormatMessageText | app.js:433-440 | the corrected formatter (links found in the raw text, line breaks converted only between links): a message without truthy text formats as the empty string |
| TextFormat.FormatMessageTextKeepsLinks | app.js:433-440 | in the corrected formatting the pieces cover the raw text exactly, and every link keeps its address |
| TextFormat.Pad2 | app.js:518 | two digits that read back as the seconds |
| TextFormat.FormatDurationRoundTrip | app.js:515-519 | the duration is minutes, a colon and exactly two digits of seconds, and reads back as the same number of seconds |
| TextFormat.WordsOfTrimmed | app.js:524-525 | a trimmed name splits into two or more words exactly when it contains whitespace, and then its first two words are non-empty |
| TextFormat.InitialsShape | app.js:522-529 | the empty name gives "?", any other name one or two characters with no lower-case ASCII letter. A trimmed name with inner whitespace gives its first letter and the first letter of its second word, both upper-cased. Otherwise the result is the first two characters of the name, or the whole one-character name, upper-cased |
| TextFormat.DateLabel | app.js:494-512 | 0 days is "Today", 1 is "Yesterday", other values below 7 give the weekday name, 7 or more the full date. "Today" and "Yesterday" come only from 0 and 1 |
| Grouping.Layout | app.js:204-238 | a non-empty chat lays out ending with a non-empty group whose last message is the chat's last |
| Grouping.RenderChat | app.js:204-238 | the loop with its `lastDate`, `lastSender` and pending group produces exactly the layout |
| Grouping.LayoutFlatten | app.js:204-238 | the groups, concatenated in order, are exactly the messages: none dropped, duplicated or reordered |
| Grouping.LayoutGroups | app.js:221-232 | every group is non-empty. Within a group all messages share one `from_id` and one date label, and only the first may be a reply |
| Grouping.LayoutSeparators | app.js:209-219 | the separators, in order, carry the labels of exactly the messages whose label differs from the previous message's. The first message always counts, since the running label starts as "" |
| Grouping.LayoutLead | app.js:209-219 | every separator is directly followed by a group whose first message carries the separator's label |
| Grouping.LayoutHeads | app.js:208-233 | the groups open at exactly these messages: the first message, a message after a separator, a change of `from_id`, or a reply. So a same-sender message right after a separator starts a new group |
| Strings.SplitJoin | app.js:363 | splitting at a one-character separator loses nothing: joining the pieces with that separator gives the text back |
| MessageView.FileName | app.js:363 | the name after the last slash contains no slash, and a path without slashes is its own name |
| MessageView.MediaOf | app.js:320-377 | media priority: photo, then video, then sticker (thumbnail else file, else nothing), then voice, then a file without a media type. Each kind is chosen exactly under its condition, and the voice duration is formatted |
| MessageView.MediaAgreesWithPreview | app.js:320-377 | a message showing a kind of media previews as that kind |
| MessageView.MediaWithoutBlock | app.js:335-377 | a file with another media type, and a sticker with no thumbnail or file, show no media block but still preview as file or sticker |
| MessageView.ReplyOf | app.js:307-318 | a reply block is shown exactly for a reply whose target id is in the map, with the target's escaped author and its preview |
| MessageView.ViewOf | app.js:298-413 | the sender name and the header time appear exactly on a received message that is first in its group or a reply. The text appears exactly when truthy, formatted by the formatter as written (app.js:380), so a text without a colon shows as its escaped text with `<br>` line breaks. The reply and media blocks are as above |
| MessageView.GroupViews | app.js:277-295 | one view per message, all on the side decided by the first message |
| MessageView.GroupSenderShownOnce | app.js:281-303 | in a laid-out group, a sent group is all from the current user and a received group names its sender only on its first message |
| Viewer.SenderKeysSpec | app.js:100-108 | the sender keys are exactly the truthy `from_id` values that occur, each once |
| Viewer.CountSenders | app.js:100-105 | the `forEach` yields the keys in first-appearance order and each key's number of occurrences |
| Viewer.MostFrequent | app.js:108-111 | the `reduce` picks a key with maximal count, every later key having a strictly smaller count |
| Viewer.LastMaximalUnique | app.js:109-111 | no other key has that property, so the choice is determined |
| Viewer.TieGoesToLater | app.js:109-111 | of two tied senders the later one wins |
| Viewer.IdIndexKeys | app.js:116-119 | the reply map holds exactly the ids of the chat's messages |
| Viewer.IdIndexLastWins | app.js:116-119 | with duplicate ids, the later message is the one stored |
| Viewer.BuildIdIndex | app.js:116-119 | the loop that clears the map and sets each message under its id builds exactly the reply map |
| Viewer.SearchMatches | app.js:625-642 | each result is a matching message at its own position, in strictly increasing position order |
| Viewer.SearchMatchesComplete | app.js:625-642 | every matching message is among the results |
| Viewer.CollectMatches | app.js:625-642 | the `forEach` that pushes every message whose text contains the query, with its position, collects exactly the search results |
| Viewer.StepCyclic | app.js:730-732 | with results, a move keeps the cursor in range, and a step of +1 or -1 moves it cyclically |
| Viewer.StepBack | app.js:730-732 | a step forward then back returns to the same result |
| Viewer.CounterReadsBack | app.js:759-766 | the counter reads as the 1-based position, " / " and the count |
| Viewer.Viewer.constructor | app.js:3-5 | no chat, no current user, an empty reply map, no results and the cursor at -1 |
| Viewer.Viewer.LoadChat | app.js:82-132 | a failed fetch changes nothing. A found chat becomes current, the reply map is rebuilt from it alone, and the layout is computed. The current user becomes the last maximal sender, or stays as it was when no message has a sender. Search state is untouched |
| Viewer.Viewer.PerformChatSearch | app.js:599-686 | the query is trimmed and lower-cased. No chat or an empty query gives no results and cursor -1. Otherwise the results are all matching messages in order, and the cursor is 0 when there is one |
| Viewer.Viewer.OpenChatSearch | app.js:576-587 | opening the search clears the results and sets the cursor to -1 |
| Viewer.Viewer.NavigateSearch | app.js:722-757 | without results nothing changes; otherwise the cursor makes one cyclic step |
| Viewer.Viewer.SelectSearchResult | app.js:688-714 | the cursor goes to the chosen index and nothing else changes |
| Viewer.ChatListOfSummary | app.js:35-49 | for a summary the server produced, the list shows the last message's preview, or "No messages yet" for an empty chat, and a badge count equal to the number of messages |
| Viewer.FilterChats | app.js:541-546 | the chats kept are exactly those whose lower-cased name contains the lower-cased query |
| Viewer.FilterChatsConcat | app.js:542 | filtering distributes over concatenation, so the kept chats stay in their order and keep their multiplicity |
| Viewer.FilterEmptyQuery | app.js:541-546 | an empty query keeps the whole list in order |
| Viewer.SectionItems | app.js:809-823 | a section lists exactly its messages: photos, videos, files without a media type, stickers, or texts with an `http(s)://` link |
| Viewer.SectionItemsConcat | app.js:808 | section selection distributes over concatenation, so the listed messages stay in chat order and keep their multiplicity |
| Viewer.GalleryTiles | app.js:850-862 | photos and videos always get a tile, stickers only with a thumbnail, files and links never |

## Left out

- Filesystem access (`readdirSync`, `readFileSync`, `existsSync`, `sendFile`) is I/O. The directory tree is a value, file contents are optional strings (unreadable files are `None`), and whether a media file exists is a function parameter.
- `JSON.parse` is a foreign call: a parameter returning an optional parsed document. The regex engine behind the extraction tier and the `"name"` capture is also left to parameters, so extraction works on a list of capture tuples.
- `new Date().toISOString()` in the extraction tier is a parameter `now`.
- Express setup, routing, `res.json`, `fetch` and the async loaders are not modelled. Responses are datatypes.
- Console logging on both sides is not modelled.
- DOM work is not modelled: `innerHTML` templates, `createElement`, event listeners, scrolling, highlight classes, the media menu and image modal. Message elements are records of what they show.
- Audio playback (`playVoiceMessage`) is browser media state and is not modelled.
- The clock and the locale are not modelled. `formatDate` is a label function passed to the layout, and `DateLabel` classifies a day count given as input. `formatTime` and `formatTimeForList` are not modelled, so no time string appears in a view.
- The `element` a search result carries is not modelled; it only serves highlighting and scrolling.
- Strings are sequences of characters, not UTF-16 units. Case mapping covers ASCII letters only.
- `Object.keys` orders integer-like keys first; the model keeps first-appearance order for every key.
- `from_id` is a string or absent. Numeric ids and `duration_seconds` values that are negative or fractional are not modelled.
- `parseInt` is reduced to its leading digits. A sign or leading whitespace is not read.
- The base directory is an absolute POSIX path of clean segments. Windows paths are not modelled.
- `formatMessageText` ignores its `entities` argument, as the source does.
- A parsed export is assumed to be an object whose name, type and id are strings and integers. Other JSON shapes are not modelled.

## Findings

| source | as written | input that shows it | evidently intended | confidence | as-written member | corrected member |
|---|---|---|---|---|---|---|
| server.js:203-208 | the guard tests `fullPath.startsWith(BASE_DIR)` on the string | base `/srv/app`, request `../app-data/x`: the full path `/srv/app-data/x` starts with `/srv/app` and the file is served from outside the base | serve only paths equal to the base or below `BASE_DIR + "/"` | not executed | MediaGuard.SiblingPrefixAccepted | MediaGuard.AcceptedIff |
| app.js:433-440 | links are detected after newlines have become `<br>`, and `<br>` holds no whitespace | the text "http://a", a line break, "b": one anchor whose `href` is `http://a<br>b` | detect links in the raw text and convert line breaks only between links | not executed | TextFormat.LinkSwallowsNextLine | TextFormat.FormatMessageTextKeepsLinks |
| app.js:433-440 | the link is put into `href="…"` after `escapeHtml`, which leaves `"` as is | the text `http://a"x`: the quote ends the `href` value after `http://a` | escape the address for an attribute, double quote included | not executed | TextFormat.QuoteEndsHref | TextFormat.AnchorKeepsAddress |
