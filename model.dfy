/** The values exchanged between the archive indexer and the viewer: messages and chat records
    as the export format and the JSON API carry them. */
module Model {
  import opened Wrappers
  import opened Strings

  /** One element of a structured `text` array: a bare string or an entity object such as
      `{type: "link", text: "..."}`. */
  datatype Fragment = Plain(s: string) | Entity(kind: string, content: string)

  /** The `text` field of a message: absent, a string, or an array of fragments. */
  datatype TextValue = NoText | Str(s: string) | Fragments(parts: seq<Fragment>)

  /** The `from_id` field: absent (`undefined`) or a string. JavaScript's `===` tells the two apart. */
  datatype SenderId = Undefined | Id(value: string)

  /** A message of an exported chat. String fields use "" for an absent value and `replyTo`
      uses 0, because the viewer only ever tests these fields for truthiness. */
  datatype Message = Message(
    id: int,
    kind: string,
    from: string,
    fromId: SenderId,
    date: string,
    text: TextValue,
    entities: seq<Fragment>,
    replyTo: int,
    photo: string,
    video: string,
    file: string,
    thumbnail: string,
    mediaType: string,
    duration: nat,
    edited: bool)

  /** An indexed chat: a parsed export with its index key in `path`. `error` is the `_error` note. */
  datatype ChatRecord = ChatRecord(
    name: string,
    kind: string,
    id: int,
    path: string,
    messages: seq<Message>,
    error: Option<string>)

  /** JavaScript truthiness of a string field. */
  predicate Truthy(s: string) {
    s != ""
  }

  /** `message.text` is truthy: a non-empty string, or any array (arrays are truthy even when empty). */
  predicate HasText(t: TextValue) {
    match t
    case NoText => false
    case Str(s) => s != ""
    case Fragments(_) => true
  }

  /** `message.from_id` is truthy. */
  predicate HasSender(m: Message) {
    m.fromId.Id? && m.fromId.value != ""
  }

  /** `message.reply_to_message_id` is truthy. */
  predicate IsReply(m: Message) {
    m.replyTo != 0
  }

  /** `String(t)` of one fragment: an entity object prints as "[object Object]". */
  function FragmentString(f: Fragment): string {
    match f
    case Plain(s) => s
    case Entity(_, _) => "[object Object]"
  }

  function FragmentStrings(parts: seq<Fragment>): (r: seq<string>)
    ensures |r| == |parts|
    ensures forall i :: 0 <= i < |parts| ==> r[i] == FragmentString(parts[i])
  {
    if parts == [] then [] else [FragmentString(parts[0])] + FragmentStrings(parts[1..])
  }

  /** The text as the preview and the message body see it: a string as is, an array as the
      `String` of each fragment joined with nothing. */
  function TextString(t: TextValue): string {
    match t
    case NoText => ""
    case Str(s) => s
    case Fragments(parts) => Join(FragmentStrings(parts), "")
  }

  /** The text as the in-chat search sees it: lower-cased, an array's fragments joined with a space. */
  function SearchText(t: TextValue): string {
    match t
    case NoText => ""
    case Str(s) => if s == "" then "" else ToLower(s)
    case Fragments(parts) => Join(LowerAll(FragmentStrings(parts)), " ")
  }

  function LowerAll(parts: seq<string>): (r: seq<string>)
    ensures |r| == |parts|
    ensures forall i :: 0 <= i < |parts| ==> r[i] == ToLower(parts[i])
  {
    if parts == [] then [] else [ToLower(parts[0])] + LowerAll(parts[1..])
  }

  /** The text as the links section sees it: `String(text)`, which joins an array with commas. */
  function LinkScanText(t: TextValue): string {
    match t
    case NoText => ""
    case Str(s) => s
    case Fragments(parts) => Join(FragmentStrings(parts), ",")
  }

}
