/** The client's state and the operations that change it: opening a chat (current-user guess,
    reply map, layout), the in-chat search with its cyclic cursor, and the list and media
    filters. Fetching, the DOM and scrolling are not modelled; a fetched chat arrives as the
    server's `ChatResponse`. */
module Viewer {
  import opened Wrappers
  import opened Strings
  import opened Model
  import opened TextFormat
  import opened Api
  import opened Grouping
  import opened MessageView

  // ---------------------------------------------------------------------------------------------
  // The current user: the most frequent truthy `from_id`

  /** How many messages carry `k` as a truthy `from_id`. */
  function Occurrences(msgs: seq<Message>, k: string): nat {
    if msgs == [] then 0
    else Occurrences(msgs[..|msgs| - 1], k) + (if HasSender(Last(msgs)) && Last(msgs).fromId.value == k then 1 else 0)
  }

  /** `Object.keys(userIdCounts)`: each truthy `from_id` once, in order of first appearance. */
  function SenderKeys(msgs: seq<Message>): seq<string> {
    if msgs == [] then []
    else
      var before := SenderKeys(msgs[..|msgs| - 1]);
      var m := Last(msgs);
      if HasSender(m) && m.fromId.value !in before then before + [m.fromId.value] else before
  }

  /** `userIdCounts` after the `forEach`. */
  function SenderCounts(msgs: seq<Message>): map<string, nat> {
    map k | k in SenderKeys(msgs) :: Occurrences(msgs, k)
  }

  /** The keys are exactly the senders that occur, each once. */
  lemma {:induction false} SenderKeysSpec(msgs: seq<Message>)
    ensures forall k :: k in SenderKeys(msgs) <==> Occurrences(msgs, k) > 0
    ensures forall i, j :: 0 <= i < j < |SenderKeys(msgs)| ==> SenderKeys(msgs)[i] != SenderKeys(msgs)[j]
  {
    if msgs != [] {
      SenderKeysSpec(msgs[..|msgs| - 1]);
    }
  }

  /** The `forEach` that fills `userIdCounts`: a key's count goes up by one per message, and a
      key joins the key order the first time it is seen. */
  method CountSenders(msgs: seq<Message>) returns (keys: seq<string>, counts: map<string, nat>)
    ensures keys == SenderKeys(msgs)
    ensures counts == SenderCounts(msgs)
  {
    keys := [];
    counts := map[];
    for i := 0 to |msgs|
      invariant keys == SenderKeys(msgs[..i])
      invariant forall k :: k in counts <==> k in keys
      invariant forall k :: k in counts ==> counts[k] == Occurrences(msgs[..i], k)
    {
      var m := msgs[i];
      assert msgs[..i + 1][..i] == msgs[..i];
      SenderKeysSpec(msgs[..i]);
      if HasSender(m) {
        var k := m.fromId.value;
        var c := if k in counts then counts[k] else 0;
        counts := counts[k := c + 1];
        if k !in keys {
          keys := keys + [k];
        }
      }
    }
    assert msgs[..|msgs|] == msgs;
    assert counts == SenderCounts(msgs);
  }

  /** Key `j` has a maximal count and every later key a strictly smaller one. */
  predicate LastMaximal(keys: seq<string>, counts: map<string, nat>, j: nat)
    requires j < |keys| && forall i :: 0 <= i < |keys| ==> keys[i] in counts
  {
    && (forall i :: 0 <= i < |keys| ==> counts[keys[i]] <= counts[keys[j]])
    && (forall i :: j < i < |keys| ==> counts[keys[i]] < counts[keys[j]])
  }

  /** `keys.reduce((a, b) => counts[a] > counts[b] ? a : b)`: the strict `>` keeps `a` only when
      it is strictly ahead, so of several maximal keys the last one wins. */
  method MostFrequent(keys: seq<string>, counts: map<string, nat>) returns (best: string)
    requires keys != [] && forall i :: 0 <= i < |keys| ==> keys[i] in counts
    ensures exists j :: 0 <= j < |keys| && keys[j] == best && LastMaximal(keys, counts, j)
  {
    best := keys[0];
    ghost var at := 0;
    for i := 1 to |keys|
      invariant 0 <= at < i && keys[at] == best
      invariant forall k :: 0 <= k < i ==> counts[keys[k]] <= counts[best]
      invariant forall k :: at < k < i ==> counts[keys[k]] < counts[best]
    {
      if !(counts[best] > counts[keys[i]]) {
        best := keys[i];
        at := i;
      }
    }
    assert LastMaximal(keys, counts, at);
  }

  /** At most one position is the last maximal one, so the reduce's answer is determined. */
  lemma LastMaximalUnique(keys: seq<string>, counts: map<string, nat>, j1: nat)
    requires j1 < |keys| && forall i :: 0 <= i < |keys| ==> keys[i] in counts
    requires LastMaximal(keys, counts, j1)
    ensures forall j :: 0 <= j < |keys| && j != j1 ==> !LastMaximal(keys, counts, j)
  {
    forall j | 0 <= j < |keys| && j != j1
      ensures !LastMaximal(keys, counts, j)
    {
      if j < j1 {
        assert counts[keys[j]] <= counts[keys[j1]];
      } else {
        assert counts[keys[j]] < counts[keys[j1]];
      }
    }
  }

  /** With two senders tied, the one seen later is chosen. */
  lemma TieGoesToLater(counts: map<string, nat>, a: string, b: string)
    requires a in counts && b in counts && a != b && counts[a] == counts[b]
    ensures LastMaximal([a, b], counts, 1) && !LastMaximal([a, b], counts, 0)
  {
  }

  // ---------------------------------------------------------------------------------------------
  // The reply map

  /** `messageMap` after it is cleared and filled from the chat's messages in order. */
  function IdIndex(msgs: seq<Message>): map<int, Message> {
    if msgs == [] then map[] else IdIndex(msgs[..|msgs| - 1])[Last(msgs).id := Last(msgs)]
  }

  /** The loop that clears `messageMap` and sets each message under its id, in order. */
  method BuildIdIndex(msgs: seq<Message>) returns (index: map<int, Message>)
    ensures index == IdIndex(msgs)
  {
    index := map[];
    for i := 0 to |msgs|
      invariant index == IdIndex(msgs[..i])
    {
      assert msgs[..i + 1][..i] == msgs[..i];
      index := index[msgs[i].id := msgs[i]];
    }
    assert msgs[..|msgs|] == msgs;
  }

  /** Every id of the chat is a key, and no other. */
  lemma {:induction false} IdIndexKeys(msgs: seq<Message>, id: int)
    ensures id in IdIndex(msgs) <==> exists i :: 0 <= i < |msgs| && msgs[i].id == id
  {
    if msgs != [] {
      var prefix := msgs[..|msgs| - 1];
      IdIndexKeys(prefix, id);
      if exists i :: 0 <= i < |prefix| && prefix[i].id == id {
        var i :| 0 <= i < |prefix| && prefix[i].id == id;
        assert msgs[i].id == id;
      }
      if exists i :: 0 <= i < |msgs| && msgs[i].id == id {
        var i :| 0 <= i < |msgs| && msgs[i].id == id;
        if i < |prefix| {
          assert prefix[i].id == id;
        }
      }
    }
  }

  /** With duplicate ids, the later message wins. */
  lemma {:induction false} IdIndexLastWins(msgs: seq<Message>, i: nat)
    requires i < |msgs| && forall j :: i < j < |msgs| ==> msgs[j].id != msgs[i].id
    ensures msgs[i].id in IdIndex(msgs) && IdIndex(msgs)[msgs[i].id] == msgs[i]
  {
    if i < |msgs| - 1 {
      var prefix := msgs[..|msgs| - 1];
      assert prefix[i] == msgs[i];
      forall j | i < j < |prefix| ensures prefix[j].id != prefix[i].id {
        assert prefix[j] == msgs[j];
      }
      IdIndexLastWins(prefix, i);
    }
  }

  // ---------------------------------------------------------------------------------------------
  // In-chat search

  datatype SearchResult = SearchResult(message: Message, index: nat)

  /** `searchText.includes(query)` for one message. */
  predicate Matches(m: Message, query: string) {
    Contains(SearchText(m.text), query)
  }

  /** The results a search for `query` collects: the matching messages with their positions, in
      increasing order of position. */
  function SearchMatches(msgs: seq<Message>, query: string): (r: seq<SearchResult>)
    ensures forall k :: 0 <= k < |r| ==>
      r[k].index < |msgs| && msgs[r[k].index] == r[k].message && Matches(r[k].message, query)
    ensures forall k, l :: 0 <= k < l < |r| ==> r[k].index < r[l].index
  {
    if msgs == [] then []
    else
      var i := |msgs| - 1;
      var before := SearchMatches(msgs[..i], query);
      var found := if Matches(msgs[i], query) then [SearchResult(msgs[i], i)] else [];
      SearchResultsExtend(msgs, query, before, found);
      before + found
  }

  /** The results for all but the last message, followed by the last one when it matches, are
      results for the whole list. */
  lemma SearchResultsExtend(msgs: seq<Message>, query: string, before: seq<SearchResult>, found: seq<SearchResult>)
    requires msgs != []
    requires forall k :: 0 <= k < |before| ==> (before[k].index < |msgs| - 1
      && msgs[..|msgs| - 1][before[k].index] == before[k].message && Matches(before[k].message, query))
    requires forall k, l :: 0 <= k < l < |before| ==> before[k].index < before[l].index
    requires found == if Matches(Last(msgs), query) then [SearchResult(Last(msgs), |msgs| - 1)] else []
    ensures forall k :: 0 <= k < |before + found| ==> ((before + found)[k].index < |msgs|
      && msgs[(before + found)[k].index] == (before + found)[k].message && Matches((before + found)[k].message, query))
    ensures forall k, l :: 0 <= k < l < |before + found| ==> (before + found)[k].index < (before + found)[l].index
  {
    var r := before + found;
    forall k | 0 <= k < |r|
      ensures r[k].index < |msgs| && msgs[r[k].index] == r[k].message && Matches(r[k].message, query)
    {
      if k < |before| {
        assert r[k] == before[k] && msgs[..|msgs| - 1][before[k].index] == msgs[before[k].index];
      }
    }
    forall k, l | 0 <= k < l < |r| ensures r[k].index < r[l].index {
      if l < |before| {
        assert r[k] == before[k] && r[l] == before[l];
      } else {
        assert r[k] == before[k];
      }
    }
  }

  /** No match is missed: every matching message is among the results. */
  lemma SearchMatchesComplete(msgs: seq<Message>, query: string, j: nat)
    requires j < |msgs| && Matches(msgs[j], query)
    ensures exists k :: 0 <= k < |SearchMatches(msgs, query)| && SearchMatches(msgs, query)[k].index == j
  {
    var k := SearchMatchesFind(msgs, query, j);
  }

  /** The position among the results of a matching message. */
  lemma {:induction false} SearchMatchesFind(msgs: seq<Message>, query: string, j: nat) returns (k: nat)
    requires j < |msgs| && Matches(msgs[j], query)
    ensures k < |SearchMatches(msgs, query)| && SearchMatches(msgs, query)[k].index == j
    decreases |msgs|
  {
    var i := |msgs| - 1;
    var prefix := msgs[..i];
    var before := SearchMatches(prefix, query);
    SearchMatchesLast(msgs, query);
    if j == i {
      k := |before|;
    } else {
      assert prefix[j] == msgs[j];
      k := SearchMatchesFind(prefix, query, j);
    }
  }

  lemma SearchMatchesLast(msgs: seq<Message>, query: string)
    requires msgs != []
    ensures SearchMatches(msgs, query) == SearchMatches(msgs[..|msgs| - 1], query)
      + (if Matches(msgs[|msgs| - 1], query) then [SearchResult(msgs[|msgs| - 1], |msgs| - 1)] else [])
  {
  }

  /** The loop of `performChatSearch()`: every message whose text contains the query is
      collected with its position. */
  method CollectMatches(msgs: seq<Message>, query: string) returns (results: seq<SearchResult>)
    ensures results == SearchMatches(msgs, query)
  {
    results := [];
    for i := 0 to |msgs|
      invariant results == SearchMatches(msgs[..i], query)
    {
      assert msgs[..i + 1][..i] == msgs[..i];
      SearchMatchesLast(msgs[..i + 1], query);
      if Contains(SearchText(msgs[i].text), query) {
        results := results + [SearchResult(msgs[i], i)];
      }
    }
    assert msgs[..|msgs|] == msgs;
  }

  /** The query as the search uses it: trimmed, then lower-cased. */
  function SearchQuery(raw: string): string {
    ToLower(Trim(raw))
  }

  /** The cursor move of `navigateSearch(direction)` among `n > 0` results. */
  function Step(index: int, direction: int, n: nat): int {
    var moved := index + direction;
    var wrapped := if moved < 0 then n - 1 else moved;
    if wrapped >= n then 0 else wrapped
  }

  /** Moving stays in range, and one step forward or back is cyclic. */
  lemma StepCyclic(index: int, direction: int, n: nat)
    requires n > 0
    ensures 0 <= Step(index, direction, n) < n
    ensures 0 <= index < n && direction == 1 ==> Step(index, direction, n) == (index + 1) % n
    ensures 0 <= index < n && direction == -1 ==> Step(index, direction, n) == (index + n - 1) % n
  {
    if 0 <= index < n {
      if direction == 1 {
        if index + 1 < n {
          ModBelow(index + 1, n);
        } else {
          ModWrap(index + 1, n);
        }
      } else if direction == -1 {
        if index == 0 {
          ModBelow(n - 1, n);
        } else {
          ModWrap(index + n - 1, n);
        }
      }
    }
  }

  lemma ModBelow(a: int, n: int)
    requires 0 <= a < n
    ensures a % n == a
  {
  }

  lemma ModWrap(a: int, n: int)
    requires 0 < n <= a < 2 * n
    ensures a % n == a - n
  {
  }

  /** Forward then back returns to the same result. */
  lemma {:induction false} StepBack(index: int, n: nat)
    requires 0 <= index < n
    ensures Step(Step(index, 1, n), -1, n) == index
  {
    if index == n - 1 {
      assert Step(index, 1, n) == 0;
    } else {
      assert Step(index, 1, n) == index + 1;
    }
  }

  /** `updateSearchResults()`: "0 / 0" without results, else the 1-based position and the count. */
  function Counter(count: nat, index: int): (r: string) {
    if count == 0 then "0 / 0" else IntToString(index + 1) + " / " + NatToString(count)
  }

  /** With a cursor in range, the counter reads back as the position and the count. */
  lemma CounterReadsBack(count: nat, index: int)
    requires 0 <= index < count
    ensures var r := Counter(count, index);
      var k := |NatToString(index + 1)|;
      k + 3 <= |r| && ParseNat(r[..k]) == index + 1 && r[k..k + 3] == " / " && ParseNat(r[k + 3..]) == count
  {
    var r := Counter(count, index);
    var a := NatToString(index + 1);
    var b := NatToString(count);
    assert r == a + " / " + b;
    var k := |a|;
    assert r[..k] == a && r[k..k + 3] == " / " && r[k + 3..] == b;
    ParseNatToString(index + 1);
    ParseNatToString(count);
  }

  // ---------------------------------------------------------------------------------------------
  // The viewer's state

  class Viewer {
    var currentChat: Option<ChatRecord>
    var currentUserId: Option<string>
    var messageMap: map<int, Message>
    var searchResults: seq<SearchResult>
    var currentSearchIndex: int

    /** The page's initial globals. */
    constructor ()
      ensures currentChat == None && currentUserId == None && messageMap == map[]
      ensures searchResults == [] && currentSearchIndex == -1
    {
      currentChat := None;
      currentUserId := None;
      messageMap := map[];
      searchResults := [];
      currentSearchIndex := -1;
    }

    /** `loadChat(path)` given the server's answer. A failed fetch throws before anything is
        assigned. Otherwise the chat becomes current, the most frequent sender becomes the current
        user (kept as it was when no message has a sender), the reply map is rebuilt from this
        chat alone, and the layout is computed. The search state is not touched. */
    method LoadChat(response: ChatResponse, dayOf: string -> string) returns (layout: Option<seq<Item>>)
      modifies this
      ensures searchResults == old(searchResults) && currentSearchIndex == old(currentSearchIndex)
      ensures response.NotFound? ==> (layout == None && currentChat == old(currentChat)
        && currentUserId == old(currentUserId) && messageMap == old(messageMap))
      ensures response.Found? ==> (currentChat == Some(response.chat)
        && messageMap == IdIndex(response.chat.messages)
        && layout == Some(Layout(response.chat.messages, dayOf)))
      ensures response.Found? && SenderKeys(response.chat.messages) == [] ==> currentUserId == old(currentUserId)
      ensures response.Found? && SenderKeys(response.chat.messages) != [] ==> (currentUserId.Some?
        && var keys := SenderKeys(response.chat.messages);
           exists j :: 0 <= j < |keys| && keys[j] == currentUserId.value
             && LastMaximal(keys, SenderCounts(response.chat.messages), j))
    {
      if response.NotFound? {
        return None;
      }
      var chat := response.chat;
      currentChat := Some(chat);
      var msgs := chat.messages;
      var keys, counts := CountSenders(msgs);
      if |keys| > 0 {
        var best := MostFrequent(keys, counts);
        currentUserId := Some(best);
      }
      var index := BuildIdIndex(msgs);
      messageMap := index;
      var items := RenderChat(msgs, dayOf);
      layout := Some(items);
    }

    /** `performChatSearch()` with the input's text: no chat or an empty (trimmed) query gives no
        results and no cursor; otherwise the results are the matching messages in order and the
        cursor is on the first one, if any. */
    method PerformChatSearch(raw: string)
      modifies this
      ensures currentChat == old(currentChat) && currentUserId == old(currentUserId) && messageMap == old(messageMap)
      ensures searchResults == if currentChat.None? || SearchQuery(raw) == "" then []
        else SearchMatches(currentChat.value.messages, SearchQuery(raw))
      ensures currentSearchIndex == if searchResults == [] then -1 else 0
    {
      var query := ToLower(Trim(raw));
      searchResults := [];
      currentSearchIndex := -1;
      if currentChat.None? {
        return;
      }
      if query == "" {
        return;
      }
      var results := CollectMatches(currentChat.value.messages, query);
      searchResults := results;
      if |searchResults| > 0 && currentSearchIndex < 0 {
        currentSearchIndex := 0;
      }
    }

    /** `openChatSearch()`: clears the input and searches for nothing. */
    method OpenChatSearch()
      modifies this
      ensures currentChat == old(currentChat) && currentUserId == old(currentUserId) && messageMap == old(messageMap)
      ensures searchResults == [] && currentSearchIndex == -1
    {
      searchResults := [];
      currentSearchIndex := -1;
      PerformChatSearch("");
    }

    /** `navigateSearch(direction)`: nothing without results; otherwise one cyclic step. */
    method NavigateSearch(direction: int)
      modifies this
      ensures currentChat == old(currentChat) && currentUserId == old(currentUserId) && messageMap == old(messageMap)
      ensures searchResults == old(searchResults)
      ensures currentSearchIndex == if searchResults == [] then old(currentSearchIndex)
        else Step(old(currentSearchIndex), direction, |searchResults|)
    {
      if |searchResults| == 0 {
        return;
      }
      currentSearchIndex := currentSearchIndex + direction;
      if currentSearchIndex < 0 {
        currentSearchIndex := |searchResults| - 1;
      }
      if currentSearchIndex >= |searchResults| {
        currentSearchIndex := 0;
      }
    }

    /** `selectSearchResult(index)`: the cursor goes where it is told. */
    method SelectSearchResult(index: int)
      modifies this
      ensures currentChat == old(currentChat) && currentUserId == old(currentUserId) && messageMap == old(messageMap)
      ensures searchResults == old(searchResults) && currentSearchIndex == index
    {
      currentSearchIndex := index;
    }
  }

  // ---------------------------------------------------------------------------------------------
  // The chat list

  const NoMessagesYet: string := "No messages yet"

  /** The list entry's preview: the summary's last message (either spelling), else the last of its
      messages, else "No messages yet". */
  function ChatListPreview(s: Summary): string {
    var last := if s.lastMessage.Some? then s.lastMessage else s.last_message;
    if last.Some? then Preview(last.value)
    else if |s.messages| > 0 then Preview(Last(s.messages))
    else NoMessagesYet
  }

  /** `chat.messageCount || chat.message_count || 0`; a badge shows when it is positive. */
  function BadgeCount(s: Summary): nat {
    if s.messageCount != 0 then s.messageCount else s.message_count
  }

  /** For a summary the server produced, the list shows the preview of the chat's last message and
      a badge with its number of messages, and "No messages yet" without a badge for an empty chat. */
  lemma ChatListOfSummary(chat: ChatRecord)
    ensures ChatListPreview(Summarize(chat)) == if chat.messages == [] then NoMessagesYet else Preview(Last(chat.messages))
    ensures BadgeCount(Summarize(chat)) == |chat.messages|
  {
  }

  /** The sidebar filter: the lower-cased name contains the lower-cased query (not trimmed). */
  predicate NameMatches(s: Summary, query: string) {
    Contains(ToLower(s.name), ToLower(query))
  }

  function FilterChats(chats: seq<Summary>, query: string): (r: seq<Summary>)
    ensures |r| <= |chats|
    ensures forall s :: s in r <==> s in chats && NameMatches(s, query)
  {
    if chats == [] then []
    else (if NameMatches(chats[0], query) then [chats[0]] else []) + FilterChats(chats[1..], query)
  }

  /** The filter keeps order and multiplicity: filtering a concatenation concatenates the
      filtered parts. */
  lemma {:induction false} FilterChatsConcat(a: seq<Summary>, b: seq<Summary>, query: string)
    ensures FilterChats(a + b, query) == FilterChats(a, query) + FilterChats(b, query)
  {
    if a == [] {
      assert a + b == b;
    } else {
      assert (a + b)[0] == a[0] && (a + b)[1..] == a[1..] + b;
      FilterChatsConcat(a[1..], b, query);
    }
  }

  /** An empty query keeps the whole list. */
  lemma {:induction false} FilterEmptyQuery(chats: seq<Summary>)
    ensures FilterChats(chats, "") == chats
  {
    if chats != [] {
      assert OccursAt(ToLower(chats[0].name), "", 0);
      FilterEmptyQuery(chats[1..]);
    }
  }

  // ---------------------------------------------------------------------------------------------
  // The media sections

  /** Whether a message belongs to a media section; an unknown section has none. */
  predicate InSection(m: Message, section: string) {
    if section == "photos" then Truthy(m.photo)
    else if section == "videos" then Truthy(m.video)
    else if section == "files" then Truthy(m.file) && !Truthy(m.mediaType)
    else if section == "stickers" then m.mediaType == "sticker"
    else if section == "links" then
      HasText(m.text) && (Contains(LinkScanText(m.text), "http://") || Contains(LinkScanText(m.text), "https://"))
    else false
  }

  function SectionItems(msgs: seq<Message>, section: string): (r: seq<Message>)
    ensures |r| <= |msgs|
    ensures forall m :: m in r <==> m in msgs && InSection(m, section)
  {
    if msgs == [] then []
    else (if InSection(msgs[0], section) then [msgs[0]] else []) + SectionItems(msgs[1..], section)
  }

  /** A section keeps the chat's order and multiplicity: the items of a concatenation are the
      items of its parts, concatenated. */
  lemma {:induction false} SectionItemsConcat(a: seq<Message>, b: seq<Message>, section: string)
    ensures SectionItems(a + b, section) == SectionItems(a, section) + SectionItems(b, section)
  {
    if a == [] {
      assert a + b == b;
    } else {
      assert (a + b)[0] == a[0] && (a + b)[1..] == a[1..] + b;
      SectionItemsConcat(a[1..], b, section);
    }
  }

  /** The gallery tile of an item: photos, videos, and stickers with a thumbnail get a source;
      everything else renders as nothing. */
  function GalleryItem(section: string, chatPath: string, m: Message): Option<string> {
    if section == "photos" && Truthy(m.photo) then Some(MediaUrl(chatPath, m.photo))
    else if section == "videos" && Truthy(m.video) then Some(MediaUrl(chatPath, m.video))
    else if section == "stickers" && Truthy(m.thumbnail) then Some(MediaUrl(chatPath, m.thumbnail))
    else None
  }

  /** Every photo and video of its section gets a tile; the files and links sections list their
      count but no tile at all. */
  lemma GalleryTiles(section: string, chatPath: string, msgs: seq<Message>)
    ensures forall m :: (m in SectionItems(msgs, section) && (section == "photos" || section == "videos")
      ==> GalleryItem(section, chatPath, m).Some?)
    ensures forall m :: (m in SectionItems(msgs, section) && section == "stickers"
      ==> (GalleryItem(section, chatPath, m).Some? <==> Truthy(m.thumbnail)))
    ensures section == "files" || section == "links" ==>
      forall m :: m in SectionItems(msgs, section) ==> GalleryItem(section, chatPath, m) == None
  {
  }
}
