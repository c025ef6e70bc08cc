/** The read side of the JSON API: the chat list projection served by `/api/chats` and the
    lookup served by `/api/chat/<key>`, over the index the start-up scan builds. */
module Api {
  import opened Wrappers
  import opened Strings
  import opened Model

  /** One element of the `/api/chats` response. The count and the last message are duplicated
      under snake_case names. */
  datatype Summary = Summary(
    name: string,
    kind: string,
    id: int,
    path: string,
    messageCount: nat,
    message_count: nat,
    lastMessage: Option<Message>,
    last_message: Option<Message>,
    messages: seq<Message>)

  /** The projection of one indexed chat. Every indexed record has an array of messages, so
      `messages?.length || 0` is its length. */
  function Summarize(chat: ChatRecord): (s: Summary)
    ensures s.name == chat.name && s.kind == chat.kind && s.id == chat.id && s.path == chat.path
    ensures s.messageCount == s.message_count == |chat.messages|
    ensures s.lastMessage == s.last_message
    ensures s.lastMessage.None? <==> chat.messages == []
    ensures s.lastMessage.Some? ==> s.lastMessage.value == chat.messages[|chat.messages| - 1]
    ensures s.messages == chat.messages
  {
    var count := |chat.messages|;
    var last := if count > 0 then Some(chat.messages[count - 1]) else None;
    Summary(chat.name, chat.kind, chat.id, chat.path, count, count, last, last, chat.messages)
  }

  /** `Array.from(chatsCache.values()).map(...)`: one summary per key, in the index's key order. */
  function Summaries(keys: seq<string>, chats: map<string, ChatRecord>): (r: seq<Summary>)
    requires forall i :: 0 <= i < |keys| ==> keys[i] in chats
    ensures |r| == |keys|
    ensures forall i :: 0 <= i < |keys| ==> r[i] == Summarize(chats[keys[i]])
  {
    if keys == [] then [] else [Summarize(chats[keys[0]])] + Summaries(keys[1..], chats)
  }

  /** The outcome of `/api/chat/<key>`. */
  datatype ChatResponse = NotFound(status: nat, error: string) | Found(chat: ChatRecord)

  /** An unknown key answers 404 "Chat not found"; a known one answers its record. */
  function GetChat(chats: map<string, ChatRecord>, key: string): (r: ChatResponse)
    ensures r.Found? <==> key in chats
    ensures r.Found? ==> r.chat == chats[key]
    ensures r.NotFound? ==> r.status == 404 && r.error == "Chat not found"
  {
    if key in chats then Found(chats[key]) else NotFound(404, "Chat not found")
  }

  /** Asking for the path a summary lists returns the very chat it summarises, when every
      record is filed under its own path, as the scan files them. */
  lemma ListThenGet(keys: seq<string>, chats: map<string, ChatRecord>, i: nat)
    requires forall j :: 0 <= j < |keys| ==> keys[j] in chats
    requires forall k :: k in chats ==> chats[k].path == k
    requires i < |keys|
    ensures GetChat(chats, Summaries(keys, chats)[i].path) == Found(chats[keys[i]])
    ensures Summaries(keys, chats)[i].messageCount == |GetChat(chats, Summaries(keys, chats)[i].path).chat.messages|
  {
  }
}
