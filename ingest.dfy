/** Loading one `result.json` export: clean-up, strict parse, repair parse, and the extraction
    fallback that synthesises messages from pattern captures. `JSON.parse` and the two regular
    expressions of the extraction tier are parameters (see `Oracles`). */
module Ingest {
  import opened Wrappers
  import opened Strings
  import opened Model

  // ---------------------------------------------------------------- clean-up

  const Bom: char := '\U{FEFF}'

  /** Removes one byte-order mark, and only at index 0. */
  function StripBom(s: string): string {
    if s != [] && s[0] == Bom then s[1..] else s
  }

  /** The characters `/[\x00-\x1F\x7F]/g` matches. */
  predicate IsControl(c: char) {
    c as int <= 0x1F || c as int == 0x7F
  }

  /** Deletes every control character and keeps every other character in order. */
  function RemoveControls(s: string): (r: string)
    ensures forall i :: 0 <= i < |r| ==> !IsControl(r[i])
    ensures forall c :: !IsControl(c) ==> Count(r, c) == Count(s, c)
  {
    if s == [] then []
    else if IsControl(s[0]) then RemoveControls(s[1..])
    else [s[0]] + RemoveControls(s[1..])
  }

  /** The text every tier works from: BOM stripped, control characters removed. */
  function Clean(raw: string): string {
    RemoveControls(StripBom(raw))
  }

  /** Clean-up leaves no control character, keeps every other character as often as the raw text
      has it (less the one leading BOM), and keeps the order: it distributes over concatenation. */
  lemma {:induction false} CleanKeepsText(raw: string)
    ensures forall i :: 0 <= i < |Clean(raw)| ==> !IsControl(Clean(raw)[i])
    ensures forall c :: !IsControl(c) && c != Bom ==> Count(Clean(raw), c) == Count(raw, c)
    ensures Count(Clean(raw), Bom) == Count(raw, Bom) - (if raw != [] && raw[0] == Bom then 1 else 0)
  {
    if raw != [] && raw[0] == Bom {
      assert raw == [Bom] + raw[1..];
      CountConcat([Bom], raw[1..], Bom);
      forall c | c != Bom ensures Count(raw, c) == Count(raw[1..], c) {
        CountConcat([Bom], raw[1..], c);
      }
    }
  }

  lemma {:induction false} RemoveControlsConcat(s: string, t: string)
    ensures RemoveControls(s + t) == RemoveControls(s) + RemoveControls(t)
  {
    if s == [] {
      assert s + t == t;
    } else {
      assert (s + t)[0] == s[0];
      assert (s + t)[1..] == s[1..] + t;
      RemoveControlsConcat(s[1..], t);
    }
  }

  // ---------------------------------------------------------------- repair

  /** The text right after a comma is optional whitespace and then `}` or `]`. */
  predicate ClosesAfterSpace(t: string) {
    var u := TrimStart(t);
    u != [] && (u[0] == '}' || u[0] == ']')
  }

  /** `replace(/,(\s*[}\]])/g, '$1')`: deletes each comma followed by optional whitespace and a
      closer, keeping the whitespace and the closer. A match consumes no comma besides its own,
      so each comma is judged on the original text. */
  function RemoveTrailingCommas(s: string): (r: string)
    ensures forall c :: c != ',' ==> Count(r, c) == Count(s, c)
    ensures |s| - |r| == Count(s, ',') - Count(r, ',')
  {
    if s == [] then []
    else if s[0] == ',' && ClosesAfterSpace(s[1..]) then RemoveTrailingCommas(s[1..])
    else [s[0]] + RemoveTrailingCommas(s[1..])
  }

  /** The comma at position `i` is one the pattern deletes: whitespace and a closer follow it
      in the original text. */
  predicate Removed(s: string, i: nat)
    requires i < |s|
  {
    s[i] == ',' && ClosesAfterSpace(s[i + 1..])
  }

  /** The positions from `i` on that survive the comma removal, in increasing order. */
  function KeptFrom(s: string, i: nat): (ks: seq<nat>)
    requires i <= |s|
    ensures forall k :: 0 <= k < |ks| ==> i <= ks[k] < |s|
    ensures forall k, l :: 0 <= k < l < |ks| ==> ks[k] < ks[l]
    ensures forall j :: j in ks <==> i <= j < |s| && !Removed(s, j)
    decreases |s| - i
  {
    if i == |s| then []
    else
      var rest := KeptFrom(s, i + 1);
      if Removed(s, i) then rest else [i] + rest
  }

  /** Comma removal keeps exactly the characters at the surviving positions, in order. */
  lemma RemoveTrailingCommasPositions(s: string)
    ensures |RemoveTrailingCommas(s)| == |KeptFrom(s, 0)|
    ensures forall k :: 0 <= k < |KeptFrom(s, 0)| ==> RemoveTrailingCommas(s)[k] == s[KeptFrom(s, 0)[k]]
  {
    RemoveTrailingCommasFrom(s, 0);
    assert s[0..] == s;
  }

  lemma {:induction false} RemoveTrailingCommasFrom(s: string, i: nat)
    requires i <= |s|
    ensures |RemoveTrailingCommas(s[i..])| == |KeptFrom(s, i)|
    ensures forall k :: 0 <= k < |KeptFrom(s, i)| ==> RemoveTrailingCommas(s[i..])[k] == s[KeptFrom(s, i)[k]]
    decreases |s| - i
  {
    if i < |s| {
      var t := s[i..];
      assert t[0] == s[i] && t[1..] == s[i + 1..];
      RemoveTrailingCommasFrom(s, i + 1);
      var rest := RemoveTrailingCommas(s[i + 1..]);
      var ks := KeptFrom(s, i + 1);
      if !Removed(s, i) {
        assert RemoveTrailingCommas(t) == [s[i]] + rest;
        assert KeptFrom(s, i) == [i] + ks;
        forall k | 1 <= k < |ks| + 1
          ensures RemoveTrailingCommas(t)[k] == s[KeptFrom(s, i)[k]]
        {
          assert RemoveTrailingCommas(t)[k] == rest[k - 1];
        }
      }
    }
  }

  /** `replace(/,\s*$/, '')`: drops a last non-whitespace comma together with what follows it. */
  function StripTrailingComma(t: string): string {
    var u := TrimEnd(t);
    if u != [] && Last(u) == ',' then u[..|u| - 1] else t
  }

  const BracketCloser: string := "\n        ]"
  const BraceCloser: string := "\n    }"

  /** How many `close` characters `s` lacks to match its `open` characters (0 when none). */
  function Missing(s: string, open: char, close: char): nat {
    if Count(s, close) < Count(s, open) then Count(s, open) - Count(s, close) else 0
  }

  /** The bracket step: trim, drop a final comma, append the missing `]` closers. */
  function CloseBrackets(s: string, missing: nat): string {
    if missing > 0 then StripTrailingComma(Trim(s)) + Repeat(BracketCloser, missing) else s
  }

  /** The brace step: trim, append the missing `}` closers. */
  function CloseBraces(s: string, missing: nat): string {
    if missing > 0 then Trim(s) + Repeat(BraceCloser, missing) else s
  }

  /** The repaired text the repair tier hands to the parser. Both shortfalls are counted on the
      text after comma removal, before either step appends anything. */
  function RepairSpec(data: string): string {
    var r0 := RemoveTrailingCommas(data);
    CloseBraces(CloseBrackets(r0, Missing(r0, '[', ']')), Missing(r0, '{', '}'))
  }

  predicate IsDelimiter(c: char) {
    c == '{' || c == '}' || c == '[' || c == ']'
  }

  lemma {:induction false} StripTrailingCommaCounts(t: string)
    ensures forall c :: IsDelimiter(c) ==> Count(StripTrailingComma(t), c) == Count(t, c)
  {
    TrimEndShape(t);
    var u := TrimEnd(t);
    if u != [] && Last(u) == ',' {
      forall c | IsDelimiter(c) ensures Count(u[..|u| - 1], c) == Count(u, c) {
        assert u == u[..|u| - 1] + [','];
        CountConcat(u[..|u| - 1], [','], c);
      }
    }
  }

  /** A closer is a line break, indentation and one delimiter. */
  lemma {:induction false} CloserCount(indent: string, closer: char, c: char)
    requires '{' !in indent && '}' !in indent && '[' !in indent && ']' !in indent
    requires IsDelimiter(c)
    ensures Count(indent + [closer], c) == (if c == closer then 1 else 0)
  {
    if indent == [] {
      assert indent + [closer] == [closer];
      assert Count([closer], c) == (if c == closer then 1 else 0) + Count([], c);
    } else {
      assert (indent + [closer])[1..] == indent[1..] + [closer];
      assert indent[0] in indent;
      assert forall x :: x in indent[1..] ==> x in indent;
      CloserCount(indent[1..], closer, c);
    }
  }

  lemma CloserCounts()
    ensures forall c :: IsDelimiter(c) ==> Count(BracketCloser, c) == (if c == ']' then 1 else 0)
    ensures forall c :: IsDelimiter(c) ==> Count(BraceCloser, c) == (if c == '}' then 1 else 0)
  {
    forall c | IsDelimiter(c) ensures Count(BracketCloser, c) == (if c == ']' then 1 else 0) {
      BracketCloserCount(c);
    }
    forall c | IsDelimiter(c) ensures Count(BraceCloser, c) == (if c == '}' then 1 else 0) {
      BraceCloserCount(c);
    }
  }

  lemma BracketCloserCount(c: char)
    requires IsDelimiter(c)
    ensures Count(BracketCloser, c) == (if c == ']' then 1 else 0)
  {
    var indent := "\n        ";
    assert BracketCloser == indent + [']'];
    CloserCount(indent, ']', c);
  }

  lemma BraceCloserCount(c: char)
    requires IsDelimiter(c)
    ensures Count(BraceCloser, c) == (if c == '}' then 1 else 0)
  {
    var indent := "\n    ";
    assert BraceCloser == indent + ['}'];
    CloserCount(indent, '}', c);
  }

  lemma CloserRunCount(closer: string, k: nat, c: char)
    requires closer == BracketCloser || closer == BraceCloser
    requires IsDelimiter(c)
    ensures Count(Repeat(closer, k), c) == (if c == Last(closer) then k else 0)
  {
    CloserCounts();
    assert Last(BracketCloser) == ']' && Last(BraceCloser) == '}';
    CountRepeat(closer, k, c);
  }

  lemma CloseBracketsCounts(s: string, missing: nat, c: char)
    requires IsDelimiter(c)
    ensures Count(CloseBrackets(s, missing), c) == Count(s, c) + (if c == ']' then missing else 0)
  {
    if missing > 0 {
      var t := StripTrailingComma(Trim(s));
      var run := Repeat(BracketCloser, missing);
      assert CloseBrackets(s, missing) == t + run;
      TrimShape(s);
      StripTrailingCommaCounts(Trim(s));
      assert Count(t, c) == Count(s, c);
      CloserRunCount(BracketCloser, missing, c);
      CountConcat(t, run, c);
    }
  }

  lemma CloseBracesCounts(s: string, missing: nat, c: char)
    requires IsDelimiter(c)
    ensures Count(CloseBraces(s, missing), c) == Count(s, c) + (if c == '}' then missing else 0)
  {
    if missing > 0 {
      var t := Trim(s);
      var run := Repeat(BraceCloser, missing);
      assert CloseBraces(s, missing) == t + run;
      TrimShape(s);
      assert Count(t, c) == Count(s, c);
      CloserRunCount(BraceCloser, missing, c);
      CountConcat(t, run, c);
    }
  }

  /** After repair every opening bracket and brace has a closer: the missing number of `]` and
      then of `}` is appended, nothing else changes the counts, and a text whose counts already
      balance gets only its trailing commas removed. */
  lemma RepairBalances(data: string)
    ensures var r := RepairSpec(data);
      && Count(r, '[') == Count(data, '[')
      && Count(r, '{') == Count(data, '{')
      && Count(r, ']') == Count(data, ']') + Missing(data, '[', ']')
      && Count(r, '}') == Count(data, '}') + Missing(data, '{', '}')
    ensures Missing(data, '[', ']') == 0 && Missing(data, '{', '}') == 0 ==>
      RepairSpec(data) == RemoveTrailingCommas(data)
  {
    var r0 := RemoveTrailingCommas(data);
    var r1 := CloseBrackets(r0, Missing(r0, '[', ']'));
    forall c | IsDelimiter(c)
      ensures Count(RepairSpec(data), c)
           == Count(r0, c) + (if c == ']' then Missing(r0, '[', ']') else 0) + (if c == '}' then Missing(r0, '{', '}') else 0)
    {
      CloseBracketsCounts(r0, Missing(r0, '[', ']'), c);
      CloseBracesCounts(r1, Missing(r0, '{', '}'), c);
    }
  }

  /** The `for` loop that appends `n` copies of a closer. */
  method AppendClosers(s: string, closer: string, n: nat) returns (r: string)
    ensures r == s + Repeat(closer, n)
  {
    r := s;
    for i := 0 to n
      invariant r == s + Repeat(closer, i)
    {
      r := r + closer;
    }
  }

  /** The repair tier's text transformation, step by step as the loader does it. */
  method Repair(data: string) returns (repaired: string)
    ensures repaired == RepairSpec(data)
    ensures Count(repaired, ']') >= Count(repaired, '[') && Count(repaired, '}') >= Count(repaired, '{')
  {
    repaired := RemoveTrailingCommas(data);
    ghost var r0 := repaired;
    var openBraces := Count(repaired, '{');
    var closeBraces := Count(repaired, '}');
    var openBrackets := Count(repaired, '[');
    var closeBrackets := Count(repaired, ']');
    if closeBrackets < openBrackets {
      repaired := Trim(repaired);
      repaired := StripTrailingComma(repaired);
      repaired := AppendClosers(repaired, BracketCloser, openBrackets - closeBrackets);
    }
    ghost var r1 := repaired;
    assert r1 == CloseBrackets(r0, Missing(r0, '[', ']'));
    if closeBraces < openBraces {
      repaired := Trim(repaired);
      repaired := AppendClosers(repaired, BraceCloser, openBraces - closeBraces);
    }
    assert repaired == CloseBraces(r1, Missing(r0, '{', '}'));
    RepairBalances(data);
  }

  // ---------------------------------------------------------------- extraction

  /** One match of the message pattern: the id digits, `from`, `from_id`, `date` and `text`. */
  datatype Capture = Capture(digits: string, from: string, fromId: string, date: string, text: string)

  /** The leading run of ASCII digits. */
  function DigitPrefix(s: string): (r: string)
    ensures |r| <= |s| && r == s[..|r|]
  {
    if s != [] && IsDigit(s[0]) then [s[0]] + DigitPrefix(s[1..]) else []
  }

  /** `parseInt(s)` where only its truthiness and value matter: the value of the leading digits,
      0 when there are none (`NaN` is falsy like 0). */
  function ParseIntPrefix(s: string): nat {
    ParseNat(DigitPrefix(s))
  }

  /** A capture whose id parses to 0 takes the counter instead. */
  predicate UsesCounter(c: Capture) {
    ParseIntPrefix(c.digits) == 0
  }

  /** How many captures take the counter. */
  function CounterUses(cs: seq<Capture>): nat {
    if cs == [] then 0 else CounterUses(cs[..|cs| - 1]) + (if UsesCounter(Last(cs)) then 1 else 0)
  }

  /** The id of the `i`-th extracted message: `parseInt(match[1]) || msgId++` with `msgId` from 1. */
  function ExtractedId(cs: seq<Capture>, i: nat): int
    requires i < |cs|
  {
    if UsesCounter(cs[i]) then CounterUses(cs[..i]) + 1 else ParseIntPrefix(cs[i].digits)
  }

  /** The message object the extraction tier pushes for one capture. */
  function Synthesize(c: Capture, id: int, now: string): Message {
    Message(
      id := id,
      kind := "message",
      from := if c.from != "" then c.from else "Unknown",
      fromId := Id(if c.fromId != "" then c.fromId else "unknown"),
      date := if c.date != "" then c.date else now,
      text := Str(c.text),
      entities := [],
      replyTo := 0,
      photo := "", video := "", file := "", thumbnail := "", mediaType := "",
      duration := 0,
      edited := false)
  }

  /** The messages the extraction tier synthesises, one per capture, in capture order. */
  function ExtractedMessages(cs: seq<Capture>, now: string): (ms: seq<Message>)
    ensures |ms| == |cs|
  {
    seq(|cs|, i requires 0 <= i < |cs| => Synthesize(cs[i], ExtractedId(cs, i), now))
  }

  /** Every extracted message has a positive id, a truthy sender and `from_id`, the captured
      text, no entities and no reply; an id that parses to a positive number is kept. */
  lemma ExtractedMessagesShape(cs: seq<Capture>, now: string)
    ensures forall i :: 0 <= i < |cs| ==>
      var m := ExtractedMessages(cs, now)[i];
      && m.id >= 1 && (!UsesCounter(cs[i]) ==> m.id == ParseIntPrefix(cs[i].digits))
      && HasSender(m) && Truthy(m.from) && !IsReply(m)
      && m.text == Str(cs[i].text) && m.entities == []
  {
  }

  lemma {:induction false} CounterUsesGrows(cs: seq<Capture>, i: nat, j: nat)
    requires i < j <= |cs| && UsesCounter(cs[i])
    ensures CounterUses(cs[..j]) >= CounterUses(cs[..i]) + 1
  {
    if j == i + 1 {
      assert cs[..j][..|cs[..j]| - 1] == cs[..i];
    } else {
      CounterUsesGrows(cs, i, j - 1);
      assert cs[..j][..|cs[..j]| - 1] == cs[..j - 1];
    }
  }

  lemma {:induction false} CounterUsesBound(cs: seq<Capture>, i: nat)
    requires i <= |cs|
    ensures CounterUses(cs[..i]) <= CounterUses(cs)
  {
    if i < |cs| {
      CounterUsesBound(cs[..|cs| - 1], i);
      assert cs[..|cs| - 1][..i] == cs[..i];
      assert cs[..|cs|] == cs;
    } else {
      assert cs[..i] == cs;
    }
  }

  /** The ids the counter hands out are 1, 2, 3, ... in extraction order: each lies between 1 and
      the number of counter uses, and a later one is larger, so no two coincide. */
  lemma CounterIdsIncrease(cs: seq<Capture>, i: nat, j: nat)
    requires i < j < |cs| && UsesCounter(cs[i]) && UsesCounter(cs[j])
    ensures 1 <= ExtractedId(cs, i) < ExtractedId(cs, j) <= CounterUses(cs)
  {
    CounterUsesGrows(cs, i, j);
    CounterUsesGrows(cs, j, |cs|);
    assert cs[..|cs|] == cs;
  }

  /** How the counter and the id of capture `k` follow from the captures before it. */
  lemma ExtractedIdStep(cs: seq<Capture>, k: nat)
    requires k < |cs|
    ensures CounterUses(cs[..k + 1]) == CounterUses(cs[..k]) + (if UsesCounter(cs[k]) then 1 else 0)
    ensures ExtractedId(cs, k) == if UsesCounter(cs[k]) then CounterUses(cs[..k]) + 1 else ParseIntPrefix(cs[k].digits)
  {
    assert cs[..k + 1][..k] == cs[..k];
  }

  lemma ExtractedNext(cs: seq<Capture>, now: string, k: nat, messages: seq<Message>, m: Message)
    requires k < |cs| && messages == ExtractedMessages(cs, now)[..k]
    requires m == Synthesize(cs[k], ExtractedId(cs, k), now)
    ensures messages + [m] == ExtractedMessages(cs, now)[..k + 1]
  {
    var spec := ExtractedMessages(cs, now);
    assert spec[k] == m;
    assert spec[..k + 1] == spec[..k] + [spec[k]];
  }

  /** The extraction loop: one message per capture, with the `msgId` counter. */
  method ExtractMessages(cs: seq<Capture>, now: string) returns (messages: seq<Message>)
    ensures messages == ExtractedMessages(cs, now)
  {
    ghost var spec := ExtractedMessages(cs, now);
    messages := [];
    var msgId := 1;
    var k := 0;
    while k < |cs|
      invariant 0 <= k <= |cs|
      invariant msgId == CounterUses(cs[..k]) + 1
      invariant messages == spec[..k]
    {
      var c := cs[k];
      var id: int;
      var parsed := ParseIntPrefix(c.digits);
      if parsed != 0 {
        id := parsed;
      } else {
        id := msgId;
        msgId := msgId + 1;
      }
      assert id == ExtractedId(cs, k) && msgId == CounterUses(cs[..k + 1]) + 1 by {
        ExtractedIdStep(cs, k);
      }
      ExtractedNext(cs, now, k, messages, Synthesize(c, id, now));
      messages := messages + [Synthesize(c, id, now)];
      k := k + 1;
    }
    assert spec[..|cs|] == spec;
  }

  // ---------------------------------------------------------------- the three tiers

  /** The `messages` member of a parsed document: missing, not an array, or an array. */
  datatype MessagesField = MissingMessages | NotAnArray | MessageArray(items: seq<Message>)

  /** A parsed export document (a JSON object). */
  datatype JsonChat = JsonChat(name: string, kind: string, id: int, messages: MessagesField, error: Option<string>)

  /** What the loader calls but does not define: `JSON.parse` (None when it throws), the
      `"name"` pattern, the message pattern's captures, and the current time for a missing date. */
  datatype Oracles = Oracles(
    parse: string -> Option<JsonChat>,
    nameMatch: string -> Option<string>,
    messageMatches: string -> seq<Capture>,
    now: string)

  datatype Tier = StrictParse | RepairParse | Extraction

  const ExtractionNote: string := "JSON parse error - extracted messages using regex"

  /** A parsed document as indexed: `messages` replaced by [] unless it is an array, `path` set. */
  function FromJson(doc: JsonChat, relPath: string): ChatRecord {
    ChatRecord(doc.name, doc.kind, doc.id, relPath,
      if doc.messages.MessageArray? then doc.messages.items else [], doc.error)
  }

  /** The record the extraction tier synthesises. */
  function Extracted(data: string, dirName: string, relPath: string, o: Oracles): ChatRecord {
    var name := match o.nameMatch(data) case Some(n) => n case None => dirName;
    ChatRecord(name, "personal_chat", 0, relPath, ExtractedMessages(o.messageMatches(data), o.now), Some(ExtractionNote))
  }

  /** Loading one export, tier by tier. Each tier runs only when the one before it failed, and
      only the extraction tier invents the chat's type, id and error note. */
  function Load(raw: string, dirName: string, relPath: string, o: Oracles): (res: (Tier, ChatRecord))
    ensures var data := Clean(raw);
      && (res.0 == StrictParse <==> o.parse(data).Some?)
      && (res.0 == RepairParse <==> o.parse(data).None? && o.parse(RepairSpec(data)).Some?)
      && (res.0 == Extraction <==> o.parse(data).None? && o.parse(RepairSpec(data)).None?)
    ensures res.1.path == relPath
    ensures res.0 == StrictParse ==> res.1 == FromJson(o.parse(Clean(raw)).value, relPath)
    ensures res.0 == RepairParse ==> res.1 == FromJson(o.parse(RepairSpec(Clean(raw))).value, relPath)
    ensures res.0 == Extraction ==>
      && res.1.kind == "personal_chat" && res.1.id == 0 && res.1.error == Some(ExtractionNote)
      && res.1.messages == ExtractedMessages(o.messageMatches(Clean(raw)), o.now)
      && res.1.name == (if o.nameMatch(Clean(raw)).Some? then o.nameMatch(Clean(raw)).value else dirName)
  {
    var data := Clean(raw);
    match o.parse(data)
    case Some(doc) => (StrictParse, FromJson(doc, relPath))
    case None =>
      match o.parse(RepairSpec(data))
      case Some(doc) => (RepairParse, FromJson(doc, relPath))
      case None => (Extraction, Extracted(data, dirName, relPath, o))
  }

  /** The loader's per-file steps in order: clean, parse, repair and parse, extract. */
  method LoadExport(raw: string, dirName: string, relPath: string, o: Oracles) returns (tier: Tier, chat: ChatRecord)
    ensures (tier, chat) == Load(raw, dirName, relPath, o)
    ensures chat.path == relPath
  {
    var data := StripBom(raw);
    data := RemoveControls(data);
    var first := o.parse(data);
    if first.Some? {
      tier, chat := StrictParse, FromJson(first.value, relPath);
      return;
    }
    var repairedData := Repair(data);
    var second := o.parse(repairedData);
    if second.Some? {
      tier, chat := RepairParse, FromJson(second.value, relPath);
      return;
    }
    var name := dirName;
    var nameMatch := o.nameMatch(data);
    if nameMatch.Some? {
      name := nameMatch.value;
    }
    var messages := ExtractMessages(o.messageMatches(data), o.now);
    tier := Extraction;
    chat := ChatRecord(name, "personal_chat", 0, relPath, messages, Some(ExtractionNote));
  }

}
