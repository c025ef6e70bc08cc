/** How one group of the layout is shown: which side it sits on, which messages carry the sender's
    name, the reply block, the media block, the text and where the time goes. The HTML templates
    themselves are not modelled; each message's view is a record of what they are filled with. */
module MessageView {
  import opened Wrappers
  import opened Strings
  import opened Model
  import opened TextFormat
  import opened Grouping

  /** `${API_BASE}/api/media/${chat.path}/${file}` with the empty `API_BASE`. */
  function MediaUrl(chatPath: string, file: string): string {
    "/api/media/" + chatPath + "/" + file
  }

  /** `file.split('/').pop()`: the part after the last slash. */
  function FileName(file: string): (r: string)
    ensures '/' !in r
    ensures '/' !in file ==> r == file
  {
    Last(Split(file, '/'))
  }

  /** The media block of a message. */
  datatype Media =
    | NoMedia
    | PhotoMedia(src: string)
    | VideoMedia(src: string)
    | StickerMedia(src: string)
    | VoiceMedia(src: string, duration: string)
    | FileMedia(src: string, name: string)

  /** The media block: photo, then video, then a sticker (its thumbnail, else its file, else
      nothing), then a voice message, then a file without a media type. */
  function MediaOf(chatPath: string, m: Message): (r: Media)
    ensures r.PhotoMedia? <==> Truthy(m.photo)
    ensures r.VideoMedia? <==> !Truthy(m.photo) && Truthy(m.video)
    ensures r.StickerMedia? <==> (!Truthy(m.photo) && !Truthy(m.video) && m.mediaType == "sticker"
      && (Truthy(m.thumbnail) || Truthy(m.file)))
    ensures r.VoiceMedia? <==> !Truthy(m.photo) && !Truthy(m.video) && m.mediaType == "voice_message"
    ensures r.FileMedia? <==> !Truthy(m.photo) && !Truthy(m.video) && Truthy(m.file) && m.mediaType == ""
    ensures r.StickerMedia? ==> r.src == MediaUrl(chatPath, if Truthy(m.thumbnail) then m.thumbnail else m.file)
    ensures r.VoiceMedia? ==> r.duration == FormatDuration(m.duration)
    ensures r.FileMedia? ==> r.name == EscapeHtml(FileName(m.file)) && '<' !in r.name && '>' !in r.name
  {
    if Truthy(m.photo) then PhotoMedia(MediaUrl(chatPath, m.photo))
    else if Truthy(m.video) then VideoMedia(MediaUrl(chatPath, m.video))
    else if m.mediaType == "sticker" then
      var sticker := if Truthy(m.thumbnail) then m.thumbnail else m.file;
      if Truthy(sticker) then StickerMedia(MediaUrl(chatPath, sticker)) else NoMedia
    else if m.mediaType == "voice_message" then VoiceMedia(MediaUrl(chatPath, m.file), FormatDuration(m.duration))
    else if Truthy(m.file) && !Truthy(m.mediaType) then FileMedia(MediaUrl(chatPath, m.file), EscapeHtml(FileName(m.file)))
    else NoMedia
  }

  /** The media block and the one-line preview agree: a message that shows media previews as
      that kind of media. */
  lemma MediaAgreesWithPreview(chatPath: string, m: Message)
    ensures MediaOf(chatPath, m).PhotoMedia? ==> Preview(m) == PhotoPreview
    ensures MediaOf(chatPath, m).VideoMedia? ==> Preview(m) == VideoPreview
    ensures MediaOf(chatPath, m).StickerMedia? ==> Preview(m) == StickerPreview
    ensures MediaOf(chatPath, m).VoiceMedia? ==> Preview(m) == VoicePreview
    ensures MediaOf(chatPath, m).FileMedia? ==> Preview(m) == FilePreview
  {
  }

  /** They part ways in two places: a file with some other media type previews as a file but
      shows no media block, and so does a sticker with neither thumbnail nor file. */
  lemma MediaWithoutBlock(chatPath: string, m: Message)
    requires !Truthy(m.photo) && !Truthy(m.video)
    ensures Truthy(m.file) && m.mediaType != "" && m.mediaType != "sticker" && m.mediaType != "voice_message"
      ==> MediaOf(chatPath, m) == NoMedia && Preview(m) == FilePreview
    ensures m.mediaType == "sticker" && !Truthy(m.thumbnail) && !Truthy(m.file)
      ==> MediaOf(chatPath, m) == NoMedia && Preview(m) == StickerPreview
  {
  }

  /** `showSender`: the first message of a group, or a reply. */
  predicate ShowSender(index: nat, m: Message) {
    index == 0 || IsReply(m)
  }

  /** `isSent`: a current user is known (truthy) and is the first message's `from_id`. */
  predicate IsSent(currentUserId: Option<string>, group: seq<Message>)
    requires group != []
  {
    currentUserId.Some? && Truthy(currentUserId.value) && group[0].fromId == Id(currentUserId.value)
  }

  /** The quoted block above a reply. */
  datatype ReplyView = ReplyView(author: string, text: string)

  /** A reply shows its target's author and preview only when the target's id is in the map;
      otherwise nothing is shown. */
  function ReplyOf(m: Message, messageMap: map<int, Message>): (r: Option<ReplyView>)
    ensures r.Some? <==> IsReply(m) && m.replyTo in messageMap
    ensures r.Some? ==> (r.value.author == EscapeHtml(messageMap[m.replyTo].from)
      && r.value.text == Preview(messageMap[m.replyTo]))
  {
    if IsReply(m) && m.replyTo in messageMap then
      var target := messageMap[m.replyTo];
      Some(ReplyView(EscapeHtml(target.from), Preview(target)))
    else None
  }

  datatype Side = Sent | Received

  /** Where the time stamp goes: at the end of the bubble, or in a header line of its own. */
  datatype TimePlacement = Inline | InHeader

  /** What one message element is filled with. */
  datatype View = View(
    id: int,
    side: Side,
    sender: Option<string>,
    reply: Option<ReplyView>,
    media: Media,
    text: Option<string>,
    time: TimePlacement,
    edited: bool)

  /** `createMessageElement(message, index, ..., messageClass)`. The text is `formatMessageText`
      as the program has it, links found after escaping and line breaks. */
  function ViewOf(m: Message, index: nat, side: Side, chatPath: string, messageMap: map<int, Message>): (v: View)
    ensures v.id == m.id && v.side == side && v.edited == m.edited
    ensures v.sender.Some? <==> side == Received && ShowSender(index, m)
    ensures v.sender.Some? ==> v.sender.value == EscapeHtml(m.from)
    ensures v.time == InHeader <==> side == Received && ShowSender(index, m)
    ensures v.reply == ReplyOf(m, messageMap) && v.media == MediaOf(chatPath, m)
    ensures v.text.Some? <==> HasText(m.text)
    ensures v.text.Some? ==> v.text.value == FormatMessageTextAsWritten(m.text, m.entities)
    ensures v.text.Some? && ':' !in TextString(m.text) ==> v.text.value == Breaks(EscapeHtml(TextString(m.text)))
  {
    var header := side == Received && ShowSender(index, m);
    View(
      m.id, side,
      if header then Some(EscapeHtml(m.from)) else None,
      ReplyOf(m, messageMap),
      MediaOf(chatPath, m),
      if HasText(m.text) then Some(FormatMessageTextAsWritten(m.text, m.entities)) else None,
      if header then InHeader else Inline,
      m.edited)
  }

  /** `createMessageGroup(messages)`: one side for the whole group, decided by its first message. */
  function GroupViews(currentUserId: Option<string>, group: seq<Message>, chatPath: string, messageMap: map<int, Message>): (vs: seq<View>)
    requires group != []
    ensures |vs| == |group|
    ensures forall i :: 0 <= i < |group| ==>
      vs[i] == ViewOf(group[i], i, if IsSent(currentUserId, group) then Sent else Received, chatPath, messageMap)
  {
    var side := if IsSent(currentUserId, group) then Sent else Received;
    seq(|group|, i requires 0 <= i < |group| => ViewOf(group[i], i, side, chatPath, messageMap))
  }

  /** In a group of the layout, every message of a sent group is from the current user, and a
      received group names its sender once, on its first message. */
  lemma GroupSenderShownOnce(currentUserId: Option<string>, group: seq<Message>, dayOf: string -> string,
                             chatPath: string, messageMap: map<int, Message>)
    requires Homogeneous(group, dayOf)
    ensures IsSent(currentUserId, group) ==> forall i :: 0 <= i < |group| ==> group[i].fromId == Id(currentUserId.value)
    ensures forall i :: 0 <= i < |group| ==>
      (GroupViews(currentUserId, group, chatPath, messageMap)[i].sender.Some? <==> i == 0 && !IsSent(currentUserId, group))
  {
    var vs := GroupViews(currentUserId, group, chatPath, messageMap);
    forall i | 0 <= i < |group|
      ensures vs[i].sender.Some? <==> i == 0 && !IsSent(currentUserId, group)
    {
      assert i > 0 ==> !IsReply(group[i]);
    }
  }
}
