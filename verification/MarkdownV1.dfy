/** memory/goncho_v1.go: the Markdown form of a memory document. Each item is a comment holding
    its metadata, then its content, then a closing comment. YAML, quoting and hashing are the
    functions of a `Codec`. */
module MarkdownV1 {
  import opened Text
  import opened Sorting

  datatype Option<T> = None | Some(value: T)

  datatype Item = Item(memoryId: string, revision: int, agentId: string, workspaceId: string, peerId: string,
                       sessionId: string, scope: string, state: string, sourceKind: string, sourceTurnId: string,
                       tombstonedAt: string, tombstoneReason: string, checksum: string, tags: seq<string>,
                       importance: real, createdAt: string, updatedAt: string, provenanceJson: string,
                       content: string)

  datatype Document = Document(format: string, contract: string, items: seq<Item>)

  /** `encode` and `decode` are YAML on an item without its content; `quote` is `%q`. */
  datatype Codec = Codec(encode: Item -> Option<string>, decode: string -> Option<Item>,
                         quote: string -> string, decodeHeader: string -> Option<(string, string)>,
                         checksum: string -> string)

  datatype Error =
    | MissingFrontMatter
    | UnterminatedFrontMatter
    | BadFrontMatter
    | MissingVersion
    | UnterminatedMetadata
    | UnterminatedContent
    | BadMetadata

  datatype Result<T> = Ok(value: T) | Err(error: Error)

  const START := "<!-- goncho-memory"
  const END := "-->"
  const CLOSING := "<!-- /goncho-memory -->"
  const FENCE := "---\n"
  const FENCE_END := "\n---\n"
  const TITLE := "# Goncho Memory V1 Export\n\n"
  const VERSION := "1"

  // ----- strings.Index -----

  predicate At(s: string, pat: string, k: int) {
    0 <= k && k + |pat| <= |s| && s[k..k + |pat|] == pat
  }

  function IndexFrom(s: string, pat: string, k: nat): (i: int)
    ensures i == -1 || (k <= i && At(s, pat, i))
    ensures forall j :: k <= j && (i == -1 || j < i) ==> !At(s, pat, j)
    decreases |s| - k
  {
    if k + |pat| > |s| then -1
    else if At(s, pat, k) then k
    else IndexFrom(s, pat, k + 1)
  }

  function Index(s: string, pat: string): (i: int)
    ensures i == -1 || At(s, pat, i)
    ensures forall j :: (i == -1 || j < i) ==> !At(s, pat, j)
  {
    IndexFrom(s, pat, 0)
  }

  ghost predicate Occurs(s: string, pat: string) {
    exists k :: At(s, pat, k)
  }

  predicate IsNewline(c: char) {
    c == '\n'
  }

  function TrimNewlines(s: string): string {
    TrimFunc(s, IsNewline)
  }

  // ----- Rendering as a function -----

  predicate ById(a: Item, b: Item) {
    Less(a.memoryId, b.memoryId)
  }

  function Filled(codec: Codec, item: Item): Item {
    if item.checksum == "" then item.(checksum := codec.checksum(item.content)) else item
  }

  function Metadata(codec: Codec, item: Item): Item {
    Filled(codec, item).(content := "")
  }

  function RenderItem(raw: string, content: string): string {
    START + "\n" + raw + END + "\n" + TrimNewlines(content) + "\n" + CLOSING + "\n\n"
  }

  /** Text in front of what the rest renders to, if it does. */
  function Before(text: string, rest: Option<string>): Option<string> {
    if rest == None then None else Some(text + rest.value)
  }

  function RenderItems(codec: Codec, items: seq<Item>): Option<string> {
    if items == [] then Some("")
    else
      match codec.encode(Metadata(codec, items[0]))
      case None => None
      case Some(raw) => Before(RenderItem(raw, items[0].content), RenderItems(codec, items[1..]))
  }

  function Versioned(doc: Document): Document {
    doc.(format := if doc.format == "" then VERSION else doc.format,
         contract := if doc.contract == "" then VERSION else doc.contract)
  }

  function Header(codec: Codec, format: string, contract: string): string {
    "goncho_memory_format: " + codec.quote(format) + "\ngoncho_memory_contract: " + codec.quote(contract)
  }

  function Preamble(codec: Codec, doc: Document): string {
    FENCE + Header(codec, doc.format, doc.contract) + FENCE_END + "\n" + TITLE
  }

  function Render(codec: Codec, doc: Document): Option<string> {
    Before(Preamble(codec, Versioned(doc)), RenderItems(codec, StableSort(doc.items, ById)))
  }

  // ----- Parsing as a function -----

  function ParseItems(codec: Codec, rest: string): Result<seq<Item>>
    decreases |rest|
  {
    var start := Index(rest, START);
    if start < 0 then Ok([]) else
    var afterStart := rest[start + |START|..];
    var metaEnd := Index(afterStart, END);
    if metaEnd < 0 then Err(UnterminatedMetadata) else
    var afterMeta := afterStart[metaEnd + |END|..];
    var contentEnd := Index(afterMeta, CLOSING);
    if contentEnd < 0 then Err(UnterminatedContent) else
    match codec.decode(TrimSpace(afterStart[..metaEnd]))
    case None => Err(BadMetadata)
    case Some(meta) =>
      After([meta.(content := TrimNewlines(afterMeta[..contentEnd]))],
            ParseItems(codec, afterMeta[contentEnd + |CLOSING|..]))
  }

  /** Items in front of what the rest parses to, if it does. */
  function After(items: seq<Item>, rest: Result<seq<Item>>): Result<seq<Item>> {
    if rest.Err? then rest else Ok(items + rest.value)
  }

  function ParseFrontMatter(codec: Codec, text: string): Result<(string, string, string)> {
    if !(FENCE <= text) then Err(MissingFrontMatter) else
    var rest := text[|FENCE|..];
    var end := Index(rest, FENCE_END);
    if end < 0 then Err(UnterminatedFrontMatter) else
    match codec.decodeHeader(rest[..end])
    case None => Err(BadFrontMatter)
    case Some((format, contract)) =>
      if format == "" || contract == "" then Err(MissingVersion)
      else Ok((format, contract, rest[end + |FENCE_END|..]))
  }

  function Parse(codec: Codec, text: string): Result<Document> {
    match ParseFrontMatter(codec, text)
    case Err(e) => Err(e)
    case Ok((format, contract, rest)) =>
      Whole(format, contract, ParseItems(codec, rest))
  }

  function Whole(format: string, contract: string, items: Result<seq<Item>>): Result<Document> {
    if items.Err? then Err(items.error) else Ok(Document(format, contract, items.value))
  }

  // ----- The two as the source writes them -----

  method RenderMarkdown(codec: Codec, doc: Document) returns (r: Option<string>)
    ensures r == Render(codec, doc)
  {
    var d := Versioned(doc);
    var items := StableSort(d.items, ById);
    assert items[0..] == items;
    var b := FENCE + Header(codec, d.format, d.contract) + FENCE_END + "\n";
    b := b + TITLE;
    hide RenderItems, Header, StableSort;
    for i := 0 to |items|
      invariant Before(b, RenderItems(codec, items[i..])) == Render(codec, doc)
    {
      var item := items[i];
      if item.checksum == "" {
        item := item.(checksum := codec.checksum(item.content));
      }
      var meta := item.(content := "");
      var raw := codec.encode(meta);
      RenderItemsStep(codec, items, i);
      if raw == None {
        return None;
      }
      BeforeTwice(b, RenderItem(raw.value, item.content), RenderItems(codec, items[i + 1..]));
      RenderItemIsPieces(b, raw.value, item.content);
      b := b + START + "\n";
      b := b + raw.value;
      b := b + END + "\n";
      b := b + TrimNewlines(item.content);
      b := b + "\n" + CLOSING + "\n\n";
    }
    RenderNothing(codec, items);
    assert b + "" == b;
    return Some(b);
  }

  lemma BeforeTwice(a: string, b: string, rest: Option<string>)
    ensures Before(a, Before(b, rest)) == Before(a + b, rest)
  {
    if rest.Some? {
      assert a + (b + rest.value) == a + b + rest.value;
    }
  }

  lemma RenderItemIsPieces(b: string, raw: string, content: string)
    ensures b + RenderItem(raw, content) ==
            b + START + "\n" + raw + END + "\n" + TrimNewlines(content) + "\n" + CLOSING + "\n\n"
  {
    hide TrimNewlines;
  }

  lemma RenderItemsStep(codec: Codec, items: seq<Item>, i: nat)
    requires i < |items|
    ensures RenderItems(codec, items[i..]) ==
      match codec.encode(Metadata(codec, items[i]))
      case None => None
      case Some(raw) => Before(RenderItem(raw, items[i].content), RenderItems(codec, items[i + 1..]))
  {
    hide Filled, RenderItem, Before;
    assert items[i..][1..] == items[i + 1..];
  }

  lemma RenderNothing(codec: Codec, items: seq<Item>)
    ensures RenderItems(codec, items[|items|..]) == Some("")
  {
  }

  method ParseMarkdown(codec: Codec, text: string) returns (r: Result<Document>)
    ensures r == Parse(codec, text)
  {
    var front := ParseFrontMatter(codec, text);
    if front.Err? {
      return Err(front.error);
    }
    var (format, contract, rest) := front.value;
    hide ParseFrontMatter, Index, TrimSpace, TrimNewlines, At;
    var items := [];
    AfterNothing(ParseItems(codec, rest));
    while true
      invariant Whole(format, contract, After(items, ParseItems(codec, rest))) == Parse(codec, text)
      decreases |rest|
    {
      hide Parse, Whole;
      var start := Index(rest, START);
      if start < 0 {
        assert items + [] == items;
        break;
      }
      var afterStart := rest[start + |START|..];
      var metaEnd := Index(afterStart, END);
      if metaEnd < 0 {
        ErrWhole(format, contract, UnterminatedMetadata);
        return Err(UnterminatedMetadata);
      }
      var metaRaw := TrimSpace(afterStart[..metaEnd]);
      var afterMeta := afterStart[metaEnd + |END|..];
      var contentEnd := Index(afterMeta, CLOSING);
      if contentEnd < 0 {
        ErrWhole(format, contract, UnterminatedContent);
        return Err(UnterminatedContent);
      }
      var item := codec.decode(metaRaw);
      if item == None {
        ErrWhole(format, contract, BadMetadata);
        return Err(BadMetadata);
      }
      ghost var more := ParseItems(codec, afterMeta[contentEnd + |CLOSING|..]);
      AfterTwice(items, [item.value.(content := TrimNewlines(afterMeta[..contentEnd]))], more);
      items := items + [item.value.(content := TrimNewlines(afterMeta[..contentEnd]))];
      rest := afterMeta[contentEnd + |CLOSING|..];
    }
    return Ok(Document(format, contract, items));
  }

  lemma ErrWhole(format: string, contract: string, e: Error)
    ensures Whole(format, contract, Err(e)) == Err(e)
  {
  }

  lemma AfterNothing(rest: Result<seq<Item>>)
    ensures After([], rest) == rest
  {
    if rest.Ok? {
      assert [] + rest.value == rest.value;
    }
  }

  lemma AfterTwice(a: seq<Item>, b: seq<Item>, rest: Result<seq<Item>>)
    ensures After(a, After(b, rest)) == After(a + b, rest)
  {
    if rest.Ok? {
      assert a + (b + rest.value) == a + b + rest.value;
    }
  }

  // ----- What rendering needs of the codec and the content -----

  /** YAML gives the metadata back, once trimmed; and metadata that ends the comment early is not
      read back from the part before that. */
  ghost predicate Encoded(codec: Codec, item: Item) {
    var meta := Metadata(codec, item);
    && codec.encode(meta).Some?
    && codec.decode(TrimSpace("\n" + codec.encode(meta).value)) == Some(meta)
    && forall k | At("\n" + codec.encode(meta).value, END, k) ::
         var cut := codec.decode(TrimSpace(("\n" + codec.encode(meta).value)[..k]));
         cut == None || cut.value.(content := "") != meta
  }

  /** The metadata does not end the comment early. */
  ghost predicate Unbroken(codec: Codec, item: Item) {
    var raw := codec.encode(Metadata(codec, item)); raw.Some? && !Occurs(raw.value, END)
  }

  ghost predicate WellEncoded(codec: Codec, item: Item) {
    Encoded(codec, item) && Unbroken(codec, item)
  }

  ghost predicate WellHeaded(codec: Codec, format: string, contract: string) {
    && '\n' !in codec.quote(format) && '\n' !in codec.quote(contract)
    && codec.decodeHeader(Header(codec, format, contract)) == Some((format, contract))
  }

  ghost predicate Renderable(codec: Codec, doc: Document) {
    var d := Versioned(doc);
    && WellHeaded(codec, d.format, d.contract)
    && forall item | item in doc.items :: Encoded(codec, item)
  }

  /** The content neither starts nor ends with a newline and does not close itself. */
  ghost predicate Clean(content: string) {
    Tight(content, IsNewline) && !Occurs(content, CLOSING)
  }

  function FilledAll(codec: Codec, items: seq<Item>): seq<Item> {
    if items == [] then [] else [Filled(codec, items[0])] + FilledAll(codec, items[1..])
  }

  /** The document with its versions, checksums and order filled in. */
  function Canonical(codec: Codec, doc: Document): Document {
    var d := Versioned(doc);
    d.(items := FilledAll(codec, StableSort(d.items, ById)))
  }

  // ----- Finding markers -----

  /** No proper prefix of the pattern is also a suffix. */
  ghost predicate Unbordered(pat: string) {
    forall d :: 0 < d < |pat| ==> pat[d..] != pat[..|pat| - d]
  }

  lemma AtBeforeMarker(a: string, pat: string, b: string, k: nat)
    requires k < |a| && At(a + pat + b, pat, k)
    ensures At(a, pat, k) || (|a| - k < |pat| && pat[|a| - k..] == pat[..|pat| - (|a| - k)])
  {
    var s := a + pat + b;
    var d := |a| - k;
    if k + |pat| <= |a| {
      assert a[k..k + |pat|] == s[k..k + |pat|];
    } else {
      assert s[k..k + |pat|][d..] == s[|a|..k + |pat|] == pat[..|pat| - d];
    }
  }

  lemma MarkerFound(a: string, pat: string, b: string)
    requires pat != "" && Unbordered(pat) && !Occurs(a, pat)
    ensures Index(a + pat + b, pat) == |a|
  {
    var s := a + pat + b;
    assert At(s, pat, |a|);
    forall k | 0 <= k < |a| ensures !At(s, pat, k) {
      if At(s, pat, k) {
        AtBeforeMarker(a, pat, b, k);
      }
    }
  }

  lemma AtFirst(s: string, pat: string, k: int)
    requires At(s, pat, k) && pat != ""
    ensures pat[0] in s
  {
    assert s[k] == s[k..k + |pat|][0];
  }

  /** A pattern does not occur where its first character does not. */
  lemma NoFirstCharacter(s: string, pat: string)
    requires pat != "" && pat[0] !in s
    ensures !Occurs(s, pat)
  {
    forall k ensures !At(s, pat, k) {
      if At(s, pat, k) {
        AtFirst(s, pat, k);
      }
    }
  }

  lemma AtBetweenNewlines(s: string, pat: string, k: int)
    requires pat != "" && '\n' !in pat && (At("\n" + s, pat, k) || At("\n" + s + "\n", pat, k))
    ensures At(s, pat, k - 1)
  {
    var t := "\n" + s + "\n";
    assert t[k..k + |pat|] == pat;
    assert t[k] == pat[0] && t[k + |pat| - 1] == pat[|pat| - 1];
    assert s[k - 1..k - 1 + |pat|] == t[k..k + |pat|];
  }

  /** Newlines around a text hide no pattern that has none. */
  lemma NewlinesAround(s: string, pat: string)
    requires pat != "" && '\n' !in pat && !Occurs(s, pat)
    ensures !Occurs("\n" + s, pat) && !Occurs("\n" + s + "\n", pat)
  {
    forall k ensures !At("\n" + s, pat, k) && !At("\n" + s + "\n", pat, k) {
      if At("\n" + s, pat, k) || At("\n" + s + "\n", pat, k) {
        AtBetweenNewlines(s, pat, k);
      }
    }
  }

  lemma FirstOnlyAtFront(pat: string)
    requires forall d | 0 < d < |pat| :: pat[d] != pat[0]
    ensures Unbordered(pat)
  {
    forall d | 0 < d < |pat| ensures pat[d..] != pat[..|pat| - d] {
      assert pat[d..][0] == pat[d] && pat[..|pat| - d][0] == pat[0];
    }
  }

  lemma MarkersUnbordered()
    ensures Unbordered(START) && Unbordered(END) && Unbordered(CLOSING)
  {
    FirstOnlyAtFront(START);
    FirstOnlyAtFront(CLOSING);
    assert END[1..] == "->" && END[..2] == "--" && END[2..] == ">" && END[..1] == "-";
  }

  // ----- Parsing what was rendered -----

  lemma TrimWrapped(c: string)
    requires Tight(c, IsNewline)
    ensures TrimNewlines("\n" + c + "\n") == c
  {
    var t := "\n" + c + "\n";
    assert t[1..] == c + "\n";
    if c == "" {
      assert TrimLeft("\n", IsNewline) == "" by { assert "\n"[1..] == ""; }
      assert TrimLeft(t, IsNewline) == "";
    } else {
      assert TrimLeft(t, IsNewline) == c + "\n";
      assert (c + "\n")[..|c|] == c;
      assert TrimRight(c + "\n", IsNewline) == TrimRight(c, IsNewline) == c;
    }
  }

  /** How the parser reads a rendered item, up to its content. */
  lemma ParseMetadata(codec: Codec, pre: string, raw: string, meta: Item, body: string)
    requires '<' !in pre && !Occurs(raw, END) && codec.decode(TrimSpace("\n" + raw)) == Some(meta)
    requires Index(body, CLOSING) >= 0
    ensures var k := Index(body, CLOSING);
      ParseItems(codec, pre + START + "\n" + raw + END + body) ==
      After([meta.(content := TrimNewlines(body[..k]))], ParseItems(codec, body[k + |CLOSING|..]))
  {
    MarkersUnbordered();
    hide Occurs, Unbordered, TrimSpace, TrimNewlines, Index, After, At;
    var text := pre + START + "\n" + raw + END + body;
    var afterStart := "\n" + raw + END + body;
    NoFirstCharacter(pre, START);
    MarkerFound(pre, START, afterStart);
    assert text == pre + START + afterStart;
    assert text[|pre| + |START|..] == afterStart;
    NewlinesAround(raw, END);
    MarkerFound("\n" + raw, END, body);
    assert afterStart == "\n" + raw + END + body;
    assert afterStart[..|"\n" + raw|] == "\n" + raw;
    assert afterStart[|"\n" + raw| + |END|..] == body;
  }

  /** The content of a rendered item, the closing marker and what follows. */
  function Body(content: string, tail: string): string {
    "\n" + TrimNewlines(content) + "\n" + CLOSING + ("\n\n" + tail)
  }

  lemma RenderItemSplits(pre: string, raw: string, content: string, tail: string)
    ensures pre + (RenderItem(raw, content) + tail) == pre + START + "\n" + raw + END + Body(content, tail)
  {
    hide TrimNewlines;
  }

  lemma BodyReads(content: string, tail: string)
    requires !Occurs(TrimNewlines(content), CLOSING)
    ensures var (body, k) := (Body(content, tail), |TrimNewlines(content)| + 2);
      && Index(body, CLOSING) == k
      && body[..k] == "\n" + TrimNewlines(content) + "\n"
      && body[k + |CLOSING|..] == "\n\n" + tail
  {
    MarkersUnbordered();
    hide Occurs, Unbordered, TrimNewlines, Index, At;
    var c := TrimNewlines(content);
    NewlinesAround(c, CLOSING);
    MarkerFound("\n" + c + "\n", CLOSING, "\n\n" + tail);
  }

  lemma ParseWholeContent(codec: Codec, item: Item, pre: string, tail: string)
    requires '<' !in pre && WellEncoded(codec, item) && !Occurs(TrimNewlines(item.content), CLOSING)
    ensures ParseItems(codec, pre + (RenderItem(codec.encode(Metadata(codec, item)).value, item.content) + tail)) ==
      After([Filled(codec, item).(content := TrimNewlines(item.content))], ParseItems(codec, "\n\n" + tail))
  {
    BodyReads(item.content, tail);
    TrimFuncTight(item.content, IsNewline);
    TrimWrapped(TrimNewlines(item.content));
    hide Occurs, TrimSpace, TrimNewlines, Index, After, At, ParseItems, Tight, Filled, Body, RenderItem;
    var raw := codec.encode(Metadata(codec, item)).value;
    ParseMetadata(codec, pre, raw, Metadata(codec, item), Body(item.content, tail));
    RenderItemSplits(pre, raw, item.content, tail);
  }

  /** Content that holds the closing marker comes back shorter. */
  lemma ParseCutContent(codec: Codec, item: Item, pre: string, tail: string) returns (content: string, more: Result<seq<Item>>)
    requires '<' !in pre && WellEncoded(codec, item) && Occurs(TrimNewlines(item.content), CLOSING)
    ensures |content| < |item.content|
    ensures ParseItems(codec, pre + (RenderItem(codec.encode(Metadata(codec, item)).value, item.content) + tail)) ==
      After([Filled(codec, item).(content := content)], more)
  {
    var meta := Metadata(codec, item);
    var raw := codec.encode(meta).value;
    var c := TrimNewlines(item.content);
    TrimFuncTight(item.content, IsNewline);
    var body := Body(item.content, tail);
    var j :| At(c, CLOSING, j);
    assert body[j + 1..j + 1 + |CLOSING|] == c[j..j + |CLOSING|];
    assert At(body, CLOSING, j + 1);
    var k := Index(body, CLOSING);
    TrimFuncTight(body[..k], IsNewline);
    content := TrimNewlines(body[..k]);
    more := ParseItems(codec, body[k + |CLOSING|..]);
    hide Occurs, TrimSpace, TrimNewlines, Index, After, At, ParseItems, Tight, Filled, Body;
    ParseMetadata(codec, pre, raw, meta, body);
    RenderItemSplits(pre, raw, item.content, tail);
  }

  function TrimmedItem(codec: Codec, item: Item): Item {
    Filled(codec, item).(content := TrimNewlines(item.content))
  }

  function TrimmedAll(codec: Codec, items: seq<Item>): (r: seq<Item>)
    ensures |r| == |items| && forall i | 0 <= i < |items| :: r[i] == TrimmedItem(codec, items[i])
  {
    if items == [] then [] else [TrimmedItem(codec, items[0])] + TrimmedAll(codec, items[1..])
  }

  lemma AtInFront(a: string, b: string, pat: string, j: nat)
    requires At(a + b, pat, j) && j + |pat| <= |a|
    ensures At(a, pat, j)
  {
    assert (a + b)[j..j + |pat|] == a[j..j + |pat|];
  }

  /** Within a text that holds the pattern, what follows does not matter. */
  lemma IndexInFront(a: string, b: string, pat: string)
    requires Occurs(a, pat)
    ensures Index(a + b, pat) == Index(a, pat) >= 0
  {
    var k :| At(a, pat, k);
    var i := Index(a, pat);
    assert (a + b)[i..i + |pat|] == a[i..i + |pat|];
    assert At(a + b, pat, i);
    forall j | 0 <= j < i ensures !At(a + b, pat, j) {
      if At(a + b, pat, j) {
        AtInFront(a, b, pat, j);
      }
    }
  }

  lemma IndexBefore(a: string, pat: string, b: string)
    ensures 0 <= Index(a + pat + b, pat) <= |a|
  {
    assert At(a + pat + b, pat, |a|);
  }

  /** What the parser makes of a text once it is inside a comment. */
  function FromComment(codec: Codec, text: string): Result<seq<Item>> {
    var metaEnd := Index(text, END);
    if metaEnd < 0 then Err(UnterminatedMetadata)
    else FromMetadata(codec, text[..metaEnd], text[metaEnd + |END|..])
  }

  function FromMetadata(codec: Codec, raw: string, afterMeta: string): Result<seq<Item>> {
    var contentEnd := Index(afterMeta, CLOSING);
    if contentEnd < 0 then Err(UnterminatedContent)
    else
      match codec.decode(TrimSpace(raw))
      case None => Err(BadMetadata)
      case Some(meta) =>
        After([meta.(content := TrimNewlines(afterMeta[..contentEnd]))],
              ParseItems(codec, afterMeta[contentEnd + |CLOSING|..]))
  }

  lemma ParseInComment(codec: Codec, pre: string, text: string)
    requires '<' !in pre
    ensures ParseItems(codec, pre + START + text) == FromComment(codec, text)
  {
    MarkersUnbordered();
    NoFirstCharacter(pre, START);
    hide Occurs, Unbordered, TrimSpace, TrimNewlines, Index, After, At;
    MarkerFound(pre, START, text);
    assert (pre + START + text)[|pre| + |START|..] == text;
  }

  /** The comment ends where it first can. */
  lemma EndsEarly(codec: Codec, raw: string, body: string) returns (cut: string, left: string)
    requires Occurs(raw, END)
    ensures raw == cut + END + left && At(raw, END, |cut|)
    ensures FromComment(codec, raw + END + body) == FromMetadata(codec, cut, left + END + body)
  {
    IndexInFront(raw, END + body, END);
    var j := Index(raw, END);
    cut, left := raw[..j], raw[j + |END|..];
    assert raw + END + body == raw + (END + body);
    assert (raw + END + body)[..j] == cut && (raw + END + body)[j + |END|..] == left + END + body;
    hide Index, FromMetadata, At;
  }

  lemma OccursAfterNewline(s: string, pat: string)
    requires Occurs(s, pat)
    ensures Occurs("\n" + s, pat)
  {
    var k :| At(s, pat, k);
    assert ("\n" + s)[k + 1..k + 1 + |pat|] == s[k..k + |pat|];
    assert At("\n" + s, pat, k + 1);
  }

  /** A closing marker always follows. */
  lemma BodyCloses(codec: Codec, raw: string, front: string, content: string, tail: string)
    returns (read: string, more: Result<seq<Item>>)
    ensures FromMetadata(codec, raw, front + Body(content, tail)) == Decoded(codec, raw, read, more)
  {
    hide TrimSpace, TrimNewlines, After, ParseItems, Index;
    var text := front + Body(content, tail);
    var before := front + "\n" + TrimNewlines(content) + "\n";
    assert text == before + CLOSING + ("\n\n" + tail);
    IndexBefore(before, CLOSING, "\n\n" + tail);
    var end := Index(text, CLOSING);
    read, more := TrimNewlines(text[..end]), ParseItems(codec, text[end + |CLOSING|..]);
  }

  /** An item is read if its metadata decodes, and otherwise the document is refused. */
  function Decoded(codec: Codec, raw: string, content: string, more: Result<seq<Item>>): Result<seq<Item>> {
    match codec.decode(TrimSpace(raw))
    case None => Err(BadMetadata)
    case Some(meta) => After([meta.(content := content)], more)
  }

  /** Metadata that ends the comment early: the part before is decoded, and the rest of it becomes
      content. If the part does not decode, the document is refused. */
  lemma ParseBrokenMetadata(codec: Codec, encoded: string, item: Item, pre: string, tail: string)
    returns (cut: string, content: string, more: Result<seq<Item>>)
    requires '<' !in pre && Occurs(encoded, END)
    ensures cut < "\n" + encoded && At("\n" + encoded, END, |cut|)
    ensures ParseItems(codec, pre + (RenderItem(encoded, item.content) + tail)) == Decoded(codec, cut, content, more)
  {
    hide *;
    OccursAfterNewline(encoded, END);
    RenderItemSplits(pre, encoded, item.content, tail);
    var body := Body(item.content, tail);
    var left: string;
    cut, left := EndsEarly(codec, "\n" + encoded, body);
    CutsShorter(cut, left, "\n" + encoded);
    Regroup(pre + START, "\n", encoded, END, body);
    ParseInComment(codec, pre, "\n" + encoded + END + body);
    content, more := BodyCloses(codec, cut, left + END, item.content, tail);
  }

  lemma Regroup(a: string, b: string, c: string, d: string, e: string)
    ensures a + b + c + d + e == a + (b + c + d + e)
  {
  }

  lemma CutsShorter(cut: string, left: string, whole: string)
    requires whole == cut + END + left
    ensures cut < whole
  {
  }

  /** So such an item never comes back. */
  lemma BrokenIsLost(codec: Codec, item: Item, pre: string, tail: string, rest: seq<Item>)
    requires '<' !in pre && Encoded(codec, item) && !Unbroken(codec, item)
    ensures ParseItems(codec, pre + (RenderItem(codec.encode(Metadata(codec, item)).value, item.content) + tail))
      != Ok([Filled(codec, item)] + rest)
  {
    hide ParseItems, RenderItem, TrimSpace, After, Occurs, At;
    var encoded := codec.encode(Metadata(codec, item)).value;
    var cut, content, more := ParseBrokenMetadata(codec, encoded, item, pre, tail);
    assert cut == ("\n" + encoded)[..|cut|];
    var d := codec.decode(TrimSpace(cut));
    if d.Some? {
      AfterOne(d.value.(content := content), more, Filled(codec, item), rest);
      assert d.value.(content := "") == d.value.(content := content).(content := "");
    }
  }

  lemma AfterOne(a: Item, rest: Result<seq<Item>>, b: Item, items: seq<Item>)
    ensures After([a], rest) == Ok([b] + items) <==> a == b && rest == Ok(items)
  {
    if After([a], rest) == Ok([b] + items) {
      assert ([a] + rest.value)[0] == ([b] + items)[0];
      assert ([a] + rest.value)[1..] == rest.value && ([b] + items)[1..] == items;
    }
  }

  lemma CleanMeansUnchanged(codec: Codec, item: Item)
    ensures Clean(item.content) <==>
      TrimmedItem(codec, item) == Filled(codec, item) && !Occurs(TrimNewlines(item.content), CLOSING)
  {
    hide Occurs, TrimFunc;
    TrimFuncTight(item.content, IsNewline);
  }

  lemma ParseEmpty(codec: Codec, pre: string)
    requires '<' !in pre
    ensures ParseItems(codec, pre + "") == Ok([])
  {
    NoFirstCharacter(pre, START);
    assert pre + "" == pre;
  }

  lemma RenderItemsSome(codec: Codec, items: seq<Item>)
    requires items != [] && Encoded(codec, items[0]) && RenderItems(codec, items[1..]).Some?
    ensures RenderItems(codec, items) == Some(
      RenderItem(codec.encode(Metadata(codec, items[0])).value, items[0].content) + RenderItems(codec, items[1..]).value)
  {
    hide RenderItem, Metadata, Occurs;
  }

  /** Items whose metadata is unbroken and whose content does not close itself come back with outer
      newlines gone; they come back unchanged exactly when all of them are unbroken and clean. */
  lemma {:induction false} ParseRenderedItems(codec: Codec, items: seq<Item>, pre: string)
    requires '<' !in pre && forall item | item in items :: Encoded(codec, item)
    ensures RenderItems(codec, items).Some?
    ensures (forall item | item in items :: Unbroken(codec, item) && !Occurs(TrimNewlines(item.content), CLOSING)) ==>
      ParseItems(codec, pre + RenderItems(codec, items).value) == Ok(TrimmedAll(codec, items))
    ensures ParseItems(codec, pre + RenderItems(codec, items).value) == Ok(FilledAll(codec, items)) <==>
      forall item | item in items :: Unbroken(codec, item) && Clean(item.content)
  {
    if items == [] {
      ParseEmpty(codec, pre);
    } else {
      hide Encoded, Unbroken, Occurs, Clean, TrimNewlines, ParseItems, After, RenderItems, RenderItem, Filled, TrimmedItem;
      var head, rest := items[0], items[1..];
      assert items == [head] + rest;
      ParseRenderedItems(codec, rest, "\n\n");
      RenderItemsSome(codec, items);
      var tail := RenderItems(codec, rest).value;
      var parsedRest := ParseItems(codec, "\n\n" + tail);
      CleanMeansUnchanged(codec, head);
      if !Unbroken(codec, head) {
        BrokenIsLost(codec, head, pre, tail, FilledAll(codec, rest));
      } else if Occurs(TrimNewlines(head.content), CLOSING) {
        var content, more := ParseCutContent(codec, head, pre, tail);
        FilledContent(codec, head, content);
        AfterOne(Filled(codec, head).(content := content), more, Filled(codec, head), FilledAll(codec, rest));
      } else {
        ParseWholeContent(codec, head, pre, tail);
        TrimmedItemIs(codec, head);
        AfterOne(TrimmedItem(codec, head), parsedRest, Filled(codec, head), FilledAll(codec, rest));
        AfterOne(TrimmedItem(codec, head), parsedRest, TrimmedItem(codec, head), TrimmedAll(codec, rest));
      }
    }
  }

  lemma FilledContent(codec: Codec, item: Item, content: string)
    requires |content| < |item.content|
    ensures Filled(codec, item).(content := content) != Filled(codec, item)
  {
  }

  lemma TrimmedItemIs(codec: Codec, item: Item)
    ensures TrimmedItem(codec, item) == Filled(codec, item).(content := TrimNewlines(item.content))
  {
  }

  // ----- The front matter -----

  lemma HeaderEnds(codec: Codec, format: string, contract: string, tail: string)
    requires '\n' !in codec.quote(format) && '\n' !in codec.quote(contract)
    ensures var h := Header(codec, format, contract); Index(h + FENCE_END + tail, FENCE_END) == |h|
  {
    var h := Header(codec, format, contract);
    var s := h + FENCE_END + tail;
    assert At(s, FENCE_END, |h|);
    var p := |"goncho_memory_format: " + codec.quote(format)|;
    assert s[p + 1] == 'g';
    forall k | 0 <= k < |h| ensures !At(s, FENCE_END, k) {
      if At(s, FENCE_END, k) {
        FenceStarts(s, k);
        HeaderNewline(codec, format, contract, k);
      }
    }
  }

  lemma FenceStarts(s: string, k: int)
    requires At(s, FENCE_END, k)
    ensures s[k] == '\n' && s[k + 1] == '-'
  {
    assert s[k] == s[k..k + |FENCE_END|][0] && s[k + 1] == s[k..k + |FENCE_END|][1];
  }

  lemma HeaderNewline(codec: Codec, format: string, contract: string, k: nat)
    requires '\n' !in codec.quote(format) && '\n' !in codec.quote(contract)
    requires k < |Header(codec, format, contract)| && Header(codec, format, contract)[k] == '\n'
    ensures k == |"goncho_memory_format: " + codec.quote(format)|
  {
    var a := "goncho_memory_format: " + codec.quote(format);
    var b := "goncho_memory_contract: " + codec.quote(contract);
    NoNewlineIn("goncho_memory_format: ", codec.quote(format));
    NoNewlineIn("goncho_memory_contract: ", codec.quote(contract));
    assert Header(codec, format, contract) == a + "\n" + b;
    OnlyNewline(a, b);
  }

  lemma NoNewlineIn(a: string, b: string)
    requires '\n' !in a && '\n' !in b
    ensures '\n' !in a + b
  {
  }

  lemma OnlyNewline(a: string, b: string)
    requires '\n' !in a && '\n' !in b
    ensures forall k | 0 <= k < |a + "\n" + b| && k != |a| :: (a + "\n" + b)[k] != '\n'
  {
    var s := a + "\n" + b;
    forall k | 0 <= k < |s| && k != |a| ensures s[k] != '\n' {
      if k < |a| {
        assert s[k] == a[k];
      } else {
        assert s[k] == b[k - |a| - 1];
      }
    }
  }

  lemma ParsePreamble(codec: Codec, doc: Document, body: string)
    requires doc == Versioned(doc) && WellHeaded(codec, doc.format, doc.contract)
    ensures Parse(codec, Preamble(codec, doc) + body) ==
      Whole(doc.format, doc.contract, ParseItems(codec, "\n" + TITLE + body))
  {
    HeaderEnds(codec, doc.format, doc.contract, "\n" + TITLE + body);
    hide ParseItems, Index, Header, Whole;
    var h := Header(codec, doc.format, doc.contract);
    var text := Preamble(codec, doc) + body;
    assert text == FENCE + (h + FENCE_END + ("\n" + TITLE + body));
    assert text[|FENCE|..] == h + FENCE_END + ("\n" + TITLE + body);
    assert text[|FENCE|..][..|h|] == h;
    assert text[|FENCE|..][|h| + |FENCE_END|..] == "\n" + TITLE + body;
  }

  // ----- The round trip -----

  /** Parsing a rendered document gives the canonical document back exactly when every item's
      metadata is unbroken and its content clean. */
  lemma RoundTrip(codec: Codec, doc: Document)
    requires Renderable(codec, doc)
    ensures Render(codec, doc).Some?
    ensures Parse(codec, Render(codec, doc).value) == Ok(Canonical(codec, doc)) <==>
      forall item | item in doc.items :: Unbroken(codec, item) && Clean(item.content)
  {
    hide ParseItems, RenderItems, StableSort, Encoded, Unbroken, WellHeaded, Clean, Preamble, Parse;
    var items := StableSort(doc.items, ById);
    StableSortMembers(doc.items, ById);
    ParseRenderedItems(codec, items, "\n" + TITLE);
    ParsePreamble(codec, Versioned(doc), RenderItems(codec, items).value);
  }

  /** The smallest content that does not come back: one outer newline. */
  lemma OuterNewlineIsLost(codec: Codec, item: Item)
    requires item.content == "\n" && Renderable(codec, Document("1", "1", [item]))
    ensures var doc := Document("1", "1", [item]);
      Render(codec, doc).Some? && Parse(codec, Render(codec, doc).value) != Ok(Canonical(codec, doc))
  {
    var doc := Document("1", "1", [item]);
    RoundTrip(codec, doc);
    assert item in doc.items && !Clean(item.content);
  }

  lemma ByIdIsStrictWeak()
    ensures StrictWeak(ById)
  {
    forall x: Item, y: Item | ById(x, y) ensures !ById(y, x) {
      if ById(y, x) {
        LessTransitive(x.memoryId, y.memoryId, x.memoryId);
        LessIrreflexive(x.memoryId);
      }
    }
    forall x: Item, y: Item, z: Item | ById(x, z) ensures ById(x, y) || ById(y, z) {
      LessTotal(x.memoryId, y.memoryId);
      if Less(y.memoryId, x.memoryId) {
        LessTransitive(y.memoryId, x.memoryId, z.memoryId);
      }
    }
  }

  lemma {:induction false} FilledAllIs(codec: Codec, items: seq<Item>)
    ensures |FilledAll(codec, items)| == |items|
    ensures forall i | 0 <= i < |items| :: FilledAll(codec, items)[i] == Filled(codec, items[i])
  {
    if items != [] {
      FilledAllIs(codec, items[1..]);
    }
  }

  /** The canonical items are the given ones, checksums filled, in a stable order by id. */
  lemma CanonicalItems(codec: Codec, doc: Document) returns (sorted: seq<Item>)
    ensures multiset(sorted) == multiset(doc.items) && Sorted(sorted, ById)
    ensures forall x :: Peers(sorted, x, ById) == Peers(doc.items, x, ById)
    ensures var items := Canonical(codec, doc).items;
      |items| == |sorted| && forall i | 0 <= i < |items| :: items[i] == Filled(codec, sorted[i])
  {
    sorted := StableSort(doc.items, ById);
    ByIdIsStrictWeak();
    StableSortKeeps(doc.items, ById);
    StableSortSorts(doc.items, ById);
    forall x ensures Peers(sorted, x, ById) == Peers(doc.items, x, ById) {
      StableSortStable(doc.items, x, ById);
    }
    FilledAllIs(codec, sorted);
  }

  lemma {:induction false} RenderTrimmed(codec: Codec, items: seq<Item>)
    requires forall item | item in items :: Filled(codec, item).checksum != ""
    ensures RenderItems(codec, TrimmedAll(codec, items)) == RenderItems(codec, items)
  {
    if items != [] {
      var t := TrimmedAll(codec, items);
      assert t[1..] == TrimmedAll(codec, items[1..]);
      RenderTrimmed(codec, items[1..]);
      TrimFuncTight(items[0].content, IsNewline);
      TrimFuncTight(TrimNewlines(items[0].content), IsNewline);
      assert TrimNewlines(t[0].content) == TrimNewlines(items[0].content);
      assert Metadata(codec, t[0]) == Metadata(codec, items[0]);
      hide TrimNewlines, Metadata;
    }
  }

  /** Rendering what was parsed gives the same text, byte for byte, for every document whose
      contents do not close themselves, outer newlines or not. */
  lemma RenderAgainIdentical(codec: Codec, doc: Document)
    requires Renderable(codec, doc)
    requires forall item | item in doc.items ::
      Unbroken(codec, item) && !Occurs(TrimNewlines(item.content), CLOSING) && Filled(codec, item).checksum != ""
    ensures Render(codec, doc).Some? && Parse(codec, Render(codec, doc).value).Ok?
    ensures Render(codec, Parse(codec, Render(codec, doc).value).value) == Render(codec, doc)
  {
    var items := StableSort(doc.items, ById);
    StableSortMembers(doc.items, ById);
    hide ParseItems, RenderItems, Encoded, Unbroken, WellHeaded, Occurs, Preamble, Parse, StableSort, TrimNewlines, Filled;
    ParseRenderedItems(codec, items, "\n" + TITLE);
    ParsePreamble(codec, Versioned(doc), RenderItems(codec, items).value);
    SortTrimmed(codec, doc.items);
    RenderTrimmed(codec, items);
    var parsed := Versioned(doc).(items := TrimmedAll(codec, items));
    SamePreamble(codec, parsed, Versioned(doc));
    assert Parse(codec, Render(codec, doc).value) == Ok(parsed);
  }

  lemma SamePreamble(codec: Codec, a: Document, b: Document)
    requires a.format == b.format && a.contract == b.contract
    ensures Preamble(codec, Versioned(a)) == Preamble(codec, Versioned(b))
  {
  }

  lemma SortTrimmed(codec: Codec, items: seq<Item>)
    ensures var t := TrimmedAll(codec, StableSort(items, ById)); StableSort(t, ById) == t
  {
    ByIdIsStrictWeak();
    StableSortSorts(items, ById);
    hide StableSort, StrictWeak, TrimNewlines, Less;
    var sorted := StableSort(items, ById);
    var t := TrimmedAll(codec, sorted);
    forall i, j | 0 <= i < j < |t| ensures !ById(t[j], t[i]) {
      assert !ById(sorted[j], sorted[i]);
    }
    StableSortFixes(t, ById);
  }
}
