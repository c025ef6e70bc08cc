/** The viewer's pure text helpers: the one-line message preview, HTML escaping, the message-body
    formatter (escaping, line breaks, links), voice-message durations, avatar initials and the
    day bucket of a date label. */
module TextFormat {
  import opened Wrappers
  import opened Strings
  import opened Model

  // ---------------------------------------------------------------------------------------------
  // Preview

  const PhotoPreview: string := "\U{1F4F7} Photo"
  const VideoPreview: string := "\U{1F3A5} Video"
  const StickerPreview: string := "\U{1F3A8} Sticker"
  const VoicePreview: string := "\U{1F3A4} Voice message"
  const FilePreview: string := "\U{1F4CE} File"
  const MediaPreview: string := "Media"

  /** The longest text a preview keeps before it appends "...". */
  const PreviewLimit: nat := 50

  function NewlinesToSpaces(s: string): (r: string)
    ensures |r| == |s|
    ensures forall i :: 0 <= i < |s| ==> r[i] == (if s[i] == '\n' then ' ' else s[i])
  {
    if s == [] then [] else [if s[0] == '\n' then ' ' else s[0]] + NewlinesToSpaces(s[1..])
  }

  /** The preview of a text: newlines shown as spaces, cut to 50 characters plus "..." when longer. */
  function TextPreview(s: string): (r: string)
    ensures |r| <= PreviewLimit + 3
    ensures '\n' !in r
    ensures |s| <= PreviewLimit ==> |r| == |s|
    ensures |s| > PreviewLimit ==> |r| == PreviewLimit + 3 && r[PreviewLimit..] == "..."
    ensures forall i :: 0 <= i < |s| && i < PreviewLimit ==> r[i] == (if s[i] == '\n' then ' ' else s[i])
  {
    var t := NewlinesToSpaces(s);
    if |t| > PreviewLimit then t[..PreviewLimit] + "..." else t
  }

  /** `getMessagePreview(message)`: the first of photo, video, sticker, voice message, any file,
      truthy text, in that order, decides; otherwise "Media". */
  function Preview(m: Message): string {
    if Truthy(m.photo) then PhotoPreview
    else if Truthy(m.video) then VideoPreview
    else if m.mediaType == "sticker" then StickerPreview
    else if m.mediaType == "voice_message" then VoicePreview
    else if Truthy(m.file) then FilePreview
    else if HasText(m.text) then TextPreview(TextString(m.text))
    else MediaPreview
  }

  /** A message without media previews as its text: at most 53 characters, on one line, agreeing
      with the text on its first 50 characters. */
  lemma PreviewOfText(m: Message)
    requires !Truthy(m.photo) && !Truthy(m.video) && !Truthy(m.file)
    requires m.mediaType != "sticker" && m.mediaType != "voice_message"
    ensures HasText(m.text) ==> |Preview(m)| <= PreviewLimit + 3 && '\n' !in Preview(m)
    ensures HasText(m.text) ==> forall i :: 0 <= i < |TextString(m.text)| && i < PreviewLimit ==>
      Preview(m)[i] == (if TextString(m.text)[i] == '\n' then ' ' else TextString(m.text)[i])
    ensures !HasText(m.text) ==> Preview(m) == MediaPreview
  {
  }

  /** Sixty characters of text preview as their first fifty and "..."; forty stay whole. */
  lemma PreviewExamples(m: Message)
    requires !Truthy(m.photo) && !Truthy(m.video) && !Truthy(m.file)
    requires m.mediaType != "sticker" && m.mediaType != "voice_message"
    requires m.text.Str? && '\n' !in m.text.s
    ensures |m.text.s| == 60 ==> Preview(m) == m.text.s[..50] + "..."
    ensures |m.text.s| == 40 ==> Preview(m) == m.text.s
  {
    var s := m.text.s;
    var t := NewlinesToSpaces(s);
    assert forall i :: 0 <= i < |s| ==> t[i] == s[i];
    assert t == s;
  }

  // ---------------------------------------------------------------------------------------------
  // HTML escaping

  /** What assigning `textContent` and reading `innerHTML` does to one character. */
  function EscapeChar(c: char): string {
    if c == '&' then "&amp;"
    else if c == '<' then "&lt;"
    else if c == '>' then "&gt;"
    else if c == '\U{00A0}' then "&nbsp;"
    else [c]
  }

  /** `escapeHtml(text)`. Double quotes are left as they are. */
  function EscapeHtml(s: string): (r: string)
    ensures forall i :: 0 <= i < |r| ==> r[i] != '<' && r[i] != '>'
  {
    if s == [] then [] else EscapeChar(s[0]) + EscapeHtml(s[1..])
  }

  /** Escaping keeps line breaks exactly where the text has them. */
  lemma {:induction false} EscapeHtmlNewlines(s: string)
    ensures '\n' in EscapeHtml(s) <==> '\n' in s
  {
    if s != [] {
      EscapeHtmlNewlines(s[1..]);
      var head, rest := EscapeChar(s[0]), EscapeHtml(s[1..]);
      assert '\n' in head <==> s[0] == '\n';
      assert '\n' in head + rest <==> '\n' in head || '\n' in rest;
      assert s == [s[0]] + s[1..];
    }
  }

  /** Text with nothing to escape, double quotes included, comes out unchanged. */
  lemma {:induction false} EscapeHtmlPlain(s: string)
    requires forall i :: 0 <= i < |s| ==> EscapeChar(s[i]) == [s[i]]
    ensures EscapeHtml(s) == s
  {
    if s != [] {
      assert forall i :: 0 <= i < |s[1..]| ==> EscapeChar(s[1..][i]) == [s[1..][i]] by {
        forall i | 0 <= i < |s[1..]| ensures EscapeChar(s[1..][i]) == [s[1..][i]] {
          assert s[1..][i] == s[i + 1];
        }
      }
      EscapeHtmlPlain(s[1..]);
      assert EscapeChar(s[0]) == [s[0]];
    }
  }

  /** The escaping an attribute value needs: `escapeHtml` plus the double quote. */
  function EscapeAttr(s: string): (r: string)
    ensures forall i :: 0 <= i < |r| ==> r[i] != '<' && r[i] != '>' && r[i] != '"'
  {
    if s == [] then []
    else (if s[0] == '"' then "&quot;" else EscapeChar(s[0])) + EscapeAttr(s[1..])
  }

  /** What a browser shows for escaped text: the entities above turned back into characters. */
  function Unescape(t: string): string
    decreases |t|
  {
    if t == [] then []
    else if StartsWith(t, "&amp;") then ['&'] + Unescape(t[5..])
    else if StartsWith(t, "&lt;") then ['<'] + Unescape(t[4..])
    else if StartsWith(t, "&gt;") then ['>'] + Unescape(t[4..])
    else if StartsWith(t, "&nbsp;") then ['\U{00A0}'] + Unescape(t[6..])
    else if StartsWith(t, "&quot;") then ['"'] + Unescape(t[6..])
    else [t[0]] + Unescape(t[1..])
  }

  lemma UnescapeStep(e: string, c: char, t: string)
    requires e == EscapeChar(c) || (c == '"' && e == "&quot;")
    ensures Unescape(e + t) == [c] + Unescape(t)
  {
    if e == [c] {
      UnescapePlain(c, t);
    } else if c == '&' {
      UnescapeAmp(t);
    } else if c == '<' {
      UnescapeLt(t);
    } else if c == '>' {
      UnescapeGt(t);
    } else if c == '\U{00A0}' {
      UnescapeNbsp(t);
    } else {
      UnescapeQuot(t);
    }
  }

  /** A string that starts with `p` agrees with `p` at each of its positions. */
  lemma StartsWithAt(u: string, p: string, k: nat)
    requires k < |p|
    ensures StartsWith(u, p) ==> k < |u| && u[k] == p[k]
  {
    if StartsWith(u, p) {
      assert u[..|p|][k] == u[k];
    }
  }

  lemma UnescapePlain(c: char, t: string)
    requires c != '&'
    ensures Unescape([c] + t) == [c] + Unescape(t)
  {
    var u := [c] + t;
    assert u[0] == c && u[1..] == t;
    StartsWithAt(u, "&amp;", 0);
    StartsWithAt(u, "&lt;", 0);
    StartsWithAt(u, "&gt;", 0);
    StartsWithAt(u, "&nbsp;", 0);
    StartsWithAt(u, "&quot;", 0);
  }

  lemma UnescapeAmp(t: string)
    ensures Unescape("&amp;" + t) == ['&'] + Unescape(t)
  {
    var u := "&amp;" + t;
    assert u[..5] == "&amp;" && u[5..] == t;
  }

  lemma UnescapeLt(t: string)
    ensures Unescape("&lt;" + t) == ['<'] + Unescape(t)
  {
    var u := "&lt;" + t;
    assert u[..4] == "&lt;" && u[4..] == t;
    StartsWithAt(u, "&lt;", 1);
    StartsWithAt(u, "&amp;", 1);
  }

  lemma UnescapeGt(t: string)
    ensures Unescape("&gt;" + t) == ['>'] + Unescape(t)
  {
    var u := "&gt;" + t;
    assert u[..4] == "&gt;" && u[4..] == t;
    StartsWithAt(u, "&gt;", 1);
    StartsWithAt(u, "&amp;", 1);
    StartsWithAt(u, "&lt;", 1);
  }

  lemma UnescapeNbsp(t: string)
    ensures Unescape("&nbsp;" + t) == ['\U{00A0}'] + Unescape(t)
  {
    var u := "&nbsp;" + t;
    assert u[..6] == "&nbsp;" && u[6..] == t;
    StartsWithAt(u, "&nbsp;", 1);
    StartsWithAt(u, "&amp;", 1);
    StartsWithAt(u, "&lt;", 1);
    StartsWithAt(u, "&gt;", 1);
  }

  lemma UnescapeQuot(t: string)
    ensures Unescape("&quot;" + t) == ['"'] + Unescape(t)
  {
    var u := "&quot;" + t;
    assert u[..6] == "&quot;" && u[6..] == t;
    StartsWithAt(u, "&quot;", 1);
    StartsWithAt(u, "&amp;", 1);
    StartsWithAt(u, "&lt;", 1);
    StartsWithAt(u, "&gt;", 1);
    StartsWithAt(u, "&nbsp;", 1);
  }

  /** Escaped text displays as exactly the original text. */
  lemma {:induction false} EscapeHtmlRoundTrip(s: string)
    ensures Unescape(EscapeHtml(s)) == s
  {
    if s != [] {
      UnescapeStep(EscapeChar(s[0]), s[0], EscapeHtml(s[1..]));
      EscapeHtmlRoundTrip(s[1..]);
    }
  }

  /** An escaped attribute value reads back as exactly the original value. */
  lemma {:induction false} EscapeAttrRoundTrip(s: string)
    ensures Unescape(EscapeAttr(s)) == s
  {
    if s != [] {
      var e := if s[0] == '"' then "&quot;" else EscapeChar(s[0]);
      UnescapeStep(e, s[0], EscapeAttr(s[1..]));
      EscapeAttrRoundTrip(s[1..]);
    }
  }

  /** `replace(/\n/g, '<br>')`. */
  function Breaks(s: string): (r: string)
    ensures '\n' !in r
    ensures '\n' !in s ==> r == s
  {
    if s == [] then [] else (if s[0] == '\n' then "<br>" else [s[0]]) + Breaks(s[1..])
  }

  lemma {:induction false} BreaksConcat(s: string, t: string)
    ensures Breaks(s + t) == Breaks(s) + Breaks(t)
  {
    if s == [] {
      assert s + t == t;
    } else {
      var c, u := s[0], s[1..];
      assert s == [c] + u && s + t == [c] + (u + t);
      var h := if c == '\n' then "<br>" else [c];
      BreaksCons(c, u + t);
      BreaksCons(c, u);
      BreaksConcat(u, t);
      AppendAssoc(h, Breaks(u), Breaks(t));
    }
  }

  lemma BreaksCons(c: char, u: string)
    ensures Breaks([c] + u) == (if c == '\n' then "<br>" else [c]) + Breaks(u)
  {
    assert ([c] + u)[1..] == u;
  }

  // ---------------------------------------------------------------------------------------------
  // Links: `/(https?:\/\/[^\s]+)/g`

  /** A piece of text as the link pattern splits it: a character outside any link, or a link. */
  datatype Piece = Lit(c: char) | Url(u: string)

  /** The length of the run of non-whitespace characters `s` starts with. */
  function RunLength(s: string): (n: nat)
    ensures n <= |s|
    ensures forall i :: 0 <= i < n ==> !IsSpace(s[i])
    ensures n < |s| ==> IsSpace(s[n])
  {
    if s == [] || IsSpace(s[0]) then 0 else 1 + RunLength(s[1..])
  }

  /** The link pattern matches at the start of `s`: "http://" or "https://" and at least one
      non-whitespace character after it. */
  predicate UrlAt(s: string) {
    (StartsWith(s, "https://") && |s| > 8 && !IsSpace(s[8]))
    || (StartsWith(s, "http://") && |s| > 7 && !IsSpace(s[7]))
  }

  /** The global scan: at each position take the longest link if the pattern matches there,
      otherwise keep the character and move one on. */
  function Tokenize(s: string): (ps: seq<Piece>)
    decreases |s|
  {
    if s == [] then []
    else if UrlAt(s) then
      var n := RunLength(s);
      assert !IsSpace(s[0]);
      [Url(s[..n])] + Tokenize(s[n..])
    else [Lit(s[0])] + Tokenize(s[1..])
  }

  /** The text a piece stands for. */
  function RawText(ps: seq<Piece>): string {
    if ps == [] then []
    else (match ps[0] case Lit(c) => [c] case Url(u) => u) + RawText(ps[1..])
  }

  /** A link has the link pattern's shape: a scheme prefix and no whitespace. */
  predicate LinkShaped(u: string) {
    (StartsWith(u, "http://") || StartsWith(u, "https://")) && forall i :: 0 <= i < |u| ==> !IsSpace(u[i])
  }

  /** A run of non-whitespace from a match of the link pattern is link-shaped. */
  lemma UrlAtShape(s: string)
    requires UrlAt(s)
    ensures RunLength(s) > 7 && LinkShaped(s[..RunLength(s)])
  {
    if StartsWith(s, "https://") && |s| > 8 && !IsSpace(s[8]) {
      SchemeShape(s, "https://");
    } else {
      SchemeShape(s, "http://");
    }
  }

  lemma SchemeShape(s: string, p: string)
    requires forall i :: 0 <= i < |p| ==> '!' <= p[i] <= '~'
    requires StartsWith(s, p) && |s| > |p| && !IsSpace(s[|p|])
    ensures RunLength(s) > |p| && StartsWith(s[..RunLength(s)], p)
  {
    forall i | 0 <= i < |p| ensures !IsSpace(s[i]) {
      StartsWithAt(s, p, i);
    }
    var n := RunLength(s);
    assert n > |p|;
    assert s[..n][..|p|] == p;
  }

  /** Splitting into pieces loses nothing. */
  lemma {:induction false} TokenizeRoundTrip(s: string)
    ensures RawText(Tokenize(s)) == s
    decreases |s|
  {
    if s != [] {
      if UrlAt(s) {
        var n := RunLength(s);
        TokenizeUrlStep(s);
        TokenizeRoundTrip(s[n..]);
        RawTextCons(Url(s[..n]), Tokenize(s[n..]));
        assert s[..n] + s[n..] == s;
      } else {
        TokenizeRoundTrip(s[1..]);
        RawTextCons(Lit(s[0]), Tokenize(s[1..]));
        assert [s[0]] + s[1..] == s;
      }
    }
  }

  /** At a match the scan takes a non-empty run as one link. */
  lemma TokenizeUrlStep(s: string)
    requires UrlAt(s)
    ensures 0 < RunLength(s) && Tokenize(s) == [Url(s[..RunLength(s)])] + Tokenize(s[RunLength(s)..])
  {
    if StartsWith(s, "https://") && |s| > 8 && !IsSpace(s[8]) {
      StartsWithAt(s, "https://", 0);
    } else {
      StartsWithAt(s, "http://", 0);
    }
  }

  lemma RawTextCons(p: Piece, ps: seq<Piece>)
    ensures RawText([p] + ps) == (match p case Lit(c) => [c] case Url(u) => u) + RawText(ps)
  {
    assert ([p] + ps)[1..] == ps;
  }

  /** Every link the scan finds is link-shaped. */
  lemma {:induction false} TokenizeLinksShaped(s: string)
    ensures forall p :: p in Tokenize(s) && p.Url? ==> LinkShaped(p.u)
    decreases |s|
  {
    if s != [] {
      if UrlAt(s) {
        UrlAtShape(s);
        TokenizeLinksShaped(s[RunLength(s)..]);
      } else {
        TokenizeLinksShaped(s[1..]);
      }
    }
  }

  /** A whole string without whitespace that matches the link pattern is one link. */
  lemma TokenizeOneLink(t: string)
    requires UrlAt(t) && RunLength(t) == |t|
    ensures Tokenize(t) == [Url(t)]
  {
    var n := RunLength(t);
    assert t[..n] == t && t[n..] == [];
    assert Tokenize(t) == [Url(t[..n])] + Tokenize(t[n..]);
  }

  /** Printable ASCII other than the space is never whitespace, so such a text is one run. */
  lemma PrintableRunLength(t: string)
    requires forall i :: 0 <= i < |t| ==> '!' <= t[i] <= '~'
    ensures RunLength(t) == |t|
  {
    RunLengthAll(t);
  }

  lemma {:induction false} RunLengthAll(t: string)
    requires forall i :: 0 <= i < |t| ==> !IsSpace(t[i])
    ensures RunLength(t) == |t|
  {
    if t != [] {
      RunLengthAll(t[1..]);
    }
  }

  // ---------------------------------------------------------------------------------------------
  // The message body

  const AnchorTail: string := "\" target=\"_blank\" rel=\"noopener\">"

  /** The replacement `<a href="$1" target="_blank" rel="noopener">$1</a>` as the source writes it. */
  function AnchorAsWritten(u: string): string {
    "<a href=\"" + u + AnchorTail + u + "</a>"
  }

  function LinkifyAsWritten(ps: seq<Piece>): string {
    if ps == [] then []
    else (match ps[0] case Lit(c) => [c] case Url(u) => AnchorAsWritten(u)) + LinkifyAsWritten(ps[1..])
  }

  /** `formatMessageText(text, entities)` as written: escape, then line breaks to `<br>`, then the
      link pattern over the result. `entities` are not used. */
  function FormatMessageTextAsWritten(text: TextValue, entities: seq<Fragment>): (r: string)
    ensures !HasText(text) ==> r == ""
    ensures HasText(text) && ':' !in TextString(text) ==> r == Breaks(EscapeHtml(TextString(text)))
  {
    if !HasText(text) then ""
    else
      var t := Breaks(EscapeHtml(TextString(text)));
      EscapedNoColon(TextString(text));
      LinkifyNoColon(t);
      LinkifyAsWritten(Tokenize(t))
  }

  /** Neither escaping nor line breaks introduce a colon. */
  lemma {:induction false} EscapedNoColon(s: string)
    ensures ':' !in s ==> ':' !in Breaks(EscapeHtml(s))
  {
    if ':' !in s {
      EscapeHtmlNoColon(s);
      BreaksNoColon(EscapeHtml(s));
    }
  }

  lemma {:induction false} EscapeHtmlNoColon(s: string)
    requires ':' !in s
    ensures ':' !in EscapeHtml(s)
  {
    if s != [] {
      assert ':' !in s[1..] by {
        assert forall c :: c in s[1..] ==> c in s;
      }
      EscapeHtmlNoColon(s[1..]);
      assert ':' !in EscapeChar(s[0]) by {
        assert s[0] in s;
      }
      NotInConcat(EscapeChar(s[0]), EscapeHtml(s[1..]), ':');
    }
  }

  lemma NotInConcat<T>(a: seq<T>, b: seq<T>, x: T)
    requires x !in a && x !in b
    ensures x !in a + b
  {
  }

  lemma {:induction false} BreaksNoColon(s: string)
    requires ':' !in s
    ensures ':' !in Breaks(s)
  {
    if s != [] {
      assert forall c :: c in s[1..] ==> c in s;
      BreaksNoColon(s[1..]);
      assert ':' !in (if s[0] == '\n' then "<br>" else [s[0]]);
    }
  }

  /** The link pattern needs a colon, so a text without one is rendered unchanged. */
  lemma {:induction false} LinkifyNoColon(t: string)
    ensures ':' !in t ==> LinkifyAsWritten(Tokenize(t)) == t
    decreases |t|
  {
    if t != [] && ':' !in t {
      NoColonNoUrl(t);
      TokenizeLitStep(t);
      LinkifyLitCons(t[0], Tokenize(t[1..]));
      assert ':' !in t[1..] by {
        assert forall c :: c in t[1..] ==> c in t;
      }
      LinkifyNoColon(t[1..]);
      assert t == [t[0]] + t[1..];
    }
  }

  /** The link pattern needs a colon. */
  lemma NoColonNoUrl(t: string)
    requires ':' !in t
    ensures !UrlAt(t)
  {
    StartsWithAt(t, "http://", 4);
    StartsWithAt(t, "https://", 5);
  }

  /** Where the pattern does not match, the scan keeps one character. */
  lemma TokenizeLitStep(t: string)
    requires t != [] && !UrlAt(t)
    ensures Tokenize(t) == [Lit(t[0])] + Tokenize(t[1..])
  {
  }

  lemma LinkifyLitCons(c: char, ps: seq<Piece>)
    ensures LinkifyAsWritten([Lit(c)] + ps) == [c] + LinkifyAsWritten(ps)
  {
    assert ([Lit(c)] + ps)[1..] == ps;
  }

  /** As written, the links are looked for in the escaped text with `<br>` line breaks: its
      pieces cover that text exactly, each link is link-shaped, and every piece is rendered in
      order, a link as an anchor whose `href` and text are the link itself. */
  lemma FormatMessageTextAsWrittenPieces(text: TextValue, entities: seq<Fragment>)
    requires HasText(text)
    ensures var t := Breaks(EscapeHtml(TextString(text)));
      RawText(Tokenize(t)) == t
      && (forall p :: p in Tokenize(t) && p.Url? ==> LinkShaped(p.u))
      && FormatMessageTextAsWritten(text, entities) == LinkifyAsWritten(Tokenize(t))
  {
    var t := Breaks(EscapeHtml(TextString(text)));
    TokenizeRoundTrip(t);
    TokenizeLinksShaped(t);
  }

  /** A text that is one link with nothing to escape and no line break is rendered as one anchor
      whose `href` and text are the link itself. */
  lemma AsWrittenSingleLink(t: string)
    requires forall i :: 0 <= i < |t| ==> '!' <= t[i] <= '~' && t[i] != '&' && t[i] != '<' && t[i] != '>'
    requires UrlAt(t)
    ensures FormatMessageTextAsWritten(Str(t), []) == AnchorAsWritten(t)
  {
    assert forall i :: 0 <= i < |t| ==> EscapeChar(t[i]) == [t[i]];
    EscapeHtmlPlain(t);
    assert '\n' !in t;
    PrintableRunLength(t);
    TokenizeOneLink(t);
    assert LinkifyAsWritten([Url(t)]) == AnchorAsWritten(t);
  }

  /** Printable ASCII with nothing to escape. */
  predicate Inert(a: string) {
    forall i :: 0 <= i < |a| ==> '!' <= a[i] <= '~' && a[i] != '&' && a[i] != '<' && a[i] != '>'
  }

  lemma InertLineEscapes(a: string, b: string)
    requires Inert(a) && Inert(b)
    ensures EscapeHtml(a + "\n" + b) == a + "\n" + b
  {
    var s := a + "\n" + b;
    forall i | 0 <= i < |s| ensures EscapeChar(s[i]) == [s[i]] {
      if i < |a| { assert s[i] == a[i]; }
      else if i == |a| { assert s[i] == '\n'; }
      else { assert s[i] == b[i - |a| - 1]; }
    }
    EscapeHtmlPlain(s);
  }

  lemma InertLineBreaks(a: string, b: string)
    requires Inert(a) && Inert(b)
    ensures Breaks(a + "\n" + b) == a + "<br>" + b
  {
    assert '\n' !in a by { assert forall i :: 0 <= i < |a| ==> a[i] != '\n'; }
    assert '\n' !in b by { assert forall i :: 0 <= i < |b| ==> b[i] != '\n'; }
    var nl: string := "\n";
    assert Breaks(nl) == "<br>" by { assert nl[0] == '\n' && nl[1..] == []; }
    BreaksConcat(a + nl, b);
    BreaksConcat(a, nl);
  }

  lemma UrlAtExtends(a: string, t: string)
    requires UrlAt(a) && |a| <= |t| && t[..|a|] == a
    ensures UrlAt(t)
  {
    if StartsWith(a, "https://") && |a| > 8 && !IsSpace(a[8]) {
      assert t[..8] == a[..8] && t[8] == a[8];
    } else {
      assert t[..7] == a[..7] && t[7] == a[7];
    }
  }

  /** A link, a line break and more text render as ONE anchor over link, `<br>` and text. */
  lemma AsWrittenLinkThenLine(s: string, a: string, b: string, t: string)
    requires s == a + "\n" + b && t == a + "<br>" + b
    requires Inert(a) && Inert(b) && UrlAt(a)
    ensures FormatMessageTextAsWritten(Str(s), []) == AnchorAsWritten(t)
  {
    InertLineEscapes(a, b);
    InertLineBreaks(a, b);
    LinkLinePrintable(a, b);
    AsWrittenSingleLinkTokens(t);
  }

  lemma LinkLinePrintable(a: string, b: string)
    requires Inert(a) && Inert(b) && UrlAt(a)
    ensures UrlAt(a + "<br>" + b)
    ensures forall i :: 0 <= i < |a + "<br>" + b| ==> '!' <= (a + "<br>" + b)[i] <= '~'
  {
    var t := a + "<br>" + b;
    assert t[..|a|] == a;
    UrlAtExtends(a, t);
    forall i | 0 <= i < |t| ensures '!' <= t[i] <= '~' {
      if i < |a| { assert t[i] == a[i]; }
      else if i >= |a| + 4 { assert t[i] == b[i - |a| - 4]; }
    }
  }

  /** A link followed by a line break: the `<br>` has no whitespace in it, so the link runs on
      into the next line and the address in `href` is not the one in the text. */
  lemma LinkSwallowsNextLine(s: string)
    requires s == "http://a\nb"
    ensures FormatMessageTextAsWritten(Str(s), []) == AnchorAsWritten("http://a<br>b")
  {
    ShortLinkFacts();
    AsWrittenLinkThenLine(s, "http://a", "b", "http://a<br>b");
  }

  lemma ShortLinkFacts()
    ensures Inert("http://a") && Inert("b") && UrlAt("http://a")
  {
    var a := "http://a";
    assert a[..7] == "http://";
    assert !IsSpace(a[7]);
  }

  lemma AsWrittenSingleLinkTokens(t: string)
    requires forall i :: 0 <= i < |t| ==> '!' <= t[i] <= '~'
    requires UrlAt(t)
    ensures LinkifyAsWritten(Tokenize(t)) == AnchorAsWritten(t)
  {
    PrintableRunLength(t);
    TokenizeOneLink(t);
    assert LinkifyAsWritten([Url(t)]) == AnchorAsWritten(t);
  }

  /** A double quote in a link is not escaped, so it closes the `href` attribute early: the
      anchor's `href` value is cut at the quote. */
  lemma QuoteEndsHref(t: string)
    requires t == "http://a\"x"
    ensures FormatMessageTextAsWritten(Str(t), []) == "<a href=\"" + t + AnchorTail + t + "</a>"
    ensures t[8] == '"'
  {
    assert t[..7] == "http://";
    AsWrittenSingleLink(t);
  }

  /** A link as the viewer means to render it: the address escaped for an attribute, the text
      escaped for display. */
  function Anchor(u: string): string {
    "<a href=\"" + EscapeAttr(u) + AnchorTail + EscapeHtml(u) + "</a>"
  }

  /** A link-shaped address survives rendering: its `href` value has no quote to end the
      attribute and reads back as the address, and its text shows the address on one line. */
  lemma AnchorKeepsAddress(u: string)
    requires LinkShaped(u)
    ensures '"' !in EscapeAttr(u) && Unescape(EscapeAttr(u)) == u
    ensures '<' !in EscapeHtml(u) && Unescape(EscapeHtml(u)) == u
    ensures '\n' !in EscapeHtml(u)
  {
    EscapeAttrRoundTrip(u);
    EscapeHtmlRoundTrip(u);
    assert '\n' !in u by {
      assert forall i :: 0 <= i < |u| ==> u[i] != '\n';
    }
    EscapeHtmlNewlines(u);
  }

  function Linkify(ps: seq<Piece>): string {
    if ps == [] then []
    else (match ps[0] case Lit(c) => Breaks(EscapeChar(c)) case Url(u) => Anchor(u)) + Linkify(ps[1..])
  }

  /** The message body as evidently intended: links found in the raw text, each rendered by
      `Anchor`, and only the text between links escaped and given line breaks. */
  function FormatMessageText(text: TextValue, entities: seq<Fragment>): (r: string)
    ensures !HasText(text) ==> r == ""
  {
    if !HasText(text) then "" else Linkify(Tokenize(TextString(text)))
  }

  /** The text of every link rendered is the raw text with its newlines intact between links:
      the pieces cover the text exactly, and each link keeps its address (see `AnchorKeepsAddress`). */
  lemma FormatMessageTextKeepsLinks(text: TextValue)
    requires HasText(text)
    ensures RawText(Tokenize(TextString(text))) == TextString(text)
    ensures forall p :: p in Tokenize(TextString(text)) && p.Url? ==>
      '"' !in EscapeAttr(p.u) && Unescape(EscapeAttr(p.u)) == p.u && '\n' !in EscapeHtml(p.u)
  {
    var s := TextString(text);
    TokenizeRoundTrip(s);
    TokenizeLinksShaped(s);
    forall p | p in Tokenize(s) && p.Url?
      ensures '"' !in EscapeAttr(p.u) && Unescape(EscapeAttr(p.u)) == p.u && '\n' !in EscapeHtml(p.u)
    {
      AnchorKeepsAddress(p.u);
    }
  }

  // ---------------------------------------------------------------------------------------------
  // Durations

  /** `secs.toString().padStart(2, '0')` for a number of seconds below 60. */
  function Pad2(n: nat): (r: string)
    requires n < 60
    ensures |r| == 2 && IsDigit(r[0]) && IsDigit(r[1])
    ensures ParseNat(r) == n
  {
    if n < 10 then
      assert ParseNat([DigitChar(n)]) == n by { assert [DigitChar(n)][..0] == []; }
      ['0', DigitChar(n)]
    else
      var r := [DigitChar(n / 10), DigitChar(n % 10)];
      assert DigitValue(DigitChar(n / 10)) == n / 10 && DigitValue(DigitChar(n % 10)) == n % 10;
      assert r[..1] == [DigitChar(n / 10)] && r[..1][..0] == [];
      assert ParseNat(r[..1]) == n / 10;
      r
  }

  /** `formatDuration(seconds)` for a whole, non-negative number of seconds. */
  function FormatDuration(seconds: nat): string {
    NatToString(seconds / 60) + ":" + Pad2(seconds % 60)
  }

  /** Reads a "m:ss" duration back as seconds. */
  function ParseDuration(t: string): int {
    if ':' in t then
      var i := FirstIndex(t, ':');
      ParseNat(t[..i]) * 60 + ParseNat(t[i + 1..])
    else 0
  }

  /** A formatted duration is minutes, a colon and exactly two digits of seconds, and reads back
      as the same number of seconds. */
  lemma FormatDurationRoundTrip(seconds: nat)
    ensures var r := FormatDuration(seconds);
      |r| >= 4 && r[|r| - 3] == ':' && IsDigit(r[|r| - 2]) && IsDigit(r[|r| - 1])
    ensures ParseDuration(FormatDuration(seconds)) == seconds
  {
    var m := NatToString(seconds / 60);
    var r := FormatDuration(seconds);
    assert ':' !in m;
    assert r[|m|] == ':';
    assert FirstIndex(r, ':') == |m| by {
      FirstIndexUnique(r, ':', |m|);
    }
    assert r[..|m|] == m;
    assert r[|m| + 1..] == Pad2(seconds % 60);
    ParseNatToString(seconds / 60);
  }

  lemma FirstIndexUnique(s: string, c: char, i: nat)
    requires i < |s| && s[i] == c && c !in s[..i]
    ensures FirstIndex(s, c) == i
  {
  }

  // ---------------------------------------------------------------------------------------------
  // Initials

  /** Index of the first whitespace character of `s`, or |s|. */
  function SpaceIndex(s: string): (i: nat)
    ensures i <= |s| && (i < |s| ==> IsSpace(s[i]))
    ensures forall k :: 0 <= k < i ==> !IsSpace(s[k])
  {
    if s == [] || IsSpace(s[0]) then 0 else 1 + SpaceIndex(s[1..])
  }

  /** Length of the run of whitespace `s` starts with. */
  function SpaceRun(s: string): (n: nat)
    ensures n <= |s| && (n < |s| ==> !IsSpace(s[n]))
    ensures forall k :: 0 <= k < n ==> IsSpace(s[k])
  {
    if s == [] || !IsSpace(s[0]) then 0 else 1 + SpaceRun(s[1..])
  }

  /** `s.split(/\s+/)`: the pieces between maximal whitespace runs. */
  function Words(s: string): (ws: seq<string>)
    ensures ws != []
    ensures ws[0] == s[..SpaceIndex(s)]
    decreases |s|
  {
    var i := SpaceIndex(s);
    if i == |s| then [s]
    else
      var j := i + SpaceRun(s[i..]);
      [s[..i]] + Words(s[j..])
  }

  /** `getInitials(name)`: "?" for an empty name; the upper-cased first letters of the first two
      words of the trimmed name when it has two or more; otherwise the upper-cased first two
      characters of the untrimmed name. Case mapping covers ASCII letters only. */
  function Initials(name: string): string {
    if name == "" then "?"
    else
      var ws := Words(Trim(name));
      if |ws| >= 2 then
        TrimShape(name);
        WordsOfTrimmed(Trim(name));
        ToUpper([ws[0][0], ws[1][0]])
      else ToUpper(name[..if |name| < 2 then |name| else 2])
  }

  /** A trimmed text with whitespace splits into words whose first two are non-empty. */
  lemma WordsOfTrimmed(t: string)
    requires t == [] || (!IsSpace(t[0]) && !IsSpace(Last(t)))
    ensures |Words(t)| >= 2 ==> Words(t)[0] != [] && Words(t)[1] != []
    ensures |Words(t)| >= 2 <==> exists k :: 0 <= k < |t| && IsSpace(t[k])
  {
    var i := SpaceIndex(t);
    if i < |t| {
      WordsAtSpace(t, i);
      assert IsSpace(t[i]);
    } else {
      assert |Words(t)| == 1;
    }
  }

  lemma WordsAtSpace(t: string, i: nat)
    requires t != [] && !IsSpace(t[0]) && !IsSpace(Last(t))
    requires i == SpaceIndex(t) < |t|
    ensures |Words(t)| >= 2 && Words(t)[0] != [] && Words(t)[1] != []
  {
    var r := t[i..];
    assert Last(r) == Last(t);
    SpaceRunStops(r);
    var j := i + SpaceRun(r);
    var rest := t[j..];
    assert rest[0] == r[SpaceRun(r)];
    WordsUnfold(t, i, j);
    assert SpaceIndex(rest) > 0;
  }

  lemma WordsUnfold(s: string, i: nat, j: nat)
    requires i == SpaceIndex(s) < |s| && j == i + SpaceRun(s[i..])
    ensures Words(s) == [s[..i]] + Words(s[j..])
  {
  }

  lemma SpaceRunStops(r: string)
    requires r != [] && !IsSpace(Last(r))
    ensures SpaceRun(r) < |r|
  {
    assert !IsSpace(r[|r| - 1]);
  }

  /** Initials are at most two characters and have no lower-case ASCII letter. The empty name
      gives "?". A name whose trimmed text has whitespace gives the upper-cased first characters
      of its first two words; any other name gives its own first two characters (or one, for a
      one-character name), upper-cased. */
  lemma InitialsShape(name: string)
    ensures |Initials(name)| <= 2
    ensures forall i :: 0 <= i < |Initials(name)| ==> !IsLowerAscii(Initials(name)[i])
    ensures name == "" ==> Initials(name) == "?"
    ensures name != "" ==> 1 <= |Initials(name)|
    ensures name != "" && (exists k :: 0 <= k < |Trim(name)| && IsSpace(Trim(name)[k])) ==>
      (|Initials(name)| == 2 && Initials(name)[0] == UpperChar(Trim(name)[0])
       && Words(Trim(name))[1] != [] && Initials(name)[1] == UpperChar(Words(Trim(name))[1][0]))
    ensures name != "" && !(exists k :: 0 <= k < |Trim(name)| && IsSpace(Trim(name)[k])) ==>
      (|Initials(name)| == (if |name| < 2 then |name| else 2)
       && forall i :: 0 <= i < |Initials(name)| ==> Initials(name)[i] == UpperChar(name[i]))
  {
    if name != "" {
      var t := Trim(name);
      TrimShape(name);
      WordsOfTrimmed(t);
      if |Words(t)| >= 2 {
        InitialsTwoWords(name);
      } else {
        InitialsOneWord(name);
      }
    }
  }

  lemma InitialsTwoWords(name: string)
    requires name != "" && |Words(Trim(name))| >= 2
    ensures Trim(name) != [] && Words(Trim(name))[1] != []
    ensures Initials(name) == ToUpper([Trim(name)[0], Words(Trim(name))[1][0]])
  {
    var t := Trim(name);
    TrimShape(name);
    WordsOfTrimmed(t);
    assert SpaceIndex(t) > 0;
    assert Words(t)[0][0] == t[0];
  }

  lemma InitialsOneWord(name: string)
    requires name != "" && |Words(Trim(name))| < 2
    ensures Initials(name) == ToUpper(name[..if |name| < 2 then |name| else 2])
  {
  }

  // ---------------------------------------------------------------------------------------------
  // Day buckets of the date label

  /** The bucket `formatDate` picks from the whole number of days between a message and now:
      0 is "Today", 1 "Yesterday", anything below 7 (a future date included) the weekday name,
      the rest the full date. Both names come from the locale. */
  function DateLabel(days: int, weekday: string, fullDate: string): (r: string)
    ensures days == 0 ==> r == "Today"
    ensures days == 1 ==> r == "Yesterday"
    ensures days < 7 && days != 0 && days != 1 ==> r == weekday
    ensures days >= 7 ==> r == fullDate
    ensures r == "Today" && weekday != "Today" && fullDate != "Today" ==> days == 0
    ensures r == "Yesterday" && weekday != "Yesterday" && fullDate != "Yesterday" ==> days == 1
  {
    if days == 0 then "Today"
    else if days == 1 then "Yesterday"
    else if days < 7 then weekday
    else fullDate
  }

}
