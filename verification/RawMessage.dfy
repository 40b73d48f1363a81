/** A whole message: utils.go renders an e-mail, and utils.go reads it back. */
module RawMessage {
  import opened Prelude
  import opened Wire
  import opened MimeTree
  import opened Message
  import H = HeaderBlock
  import D = Disposition
  import M = MediaTypes
  import B = Base64

  // ---- what is rendered ----

  predicate HasBoth(c: Content) {
    c.body != [] && c.html != []
  }

  predicate IsMultipart(c: Content) {
    c.attachments != [] || HasBoth(c)
  }

  /** The only body, and whether it goes out as HTML. */
  function MainBody(isHtml: seq<Byte> -> bool, c: Content): (seq<Byte>, bool) {
    if c.body == [] && c.html != [] then (c.html, true) else (c.body, isHtml(c.body))
  }

  function Bodies(isHtml: seq<Byte> -> bool, c: Content): seq<Item> {
    if HasBoth(c) then [Plain(c.body), Html(c.html)]
    else
      var (data, html) := MainBody(isHtml, c);
      [if html then Html(data) else Plain(data)]
  }

  function Files(atts: seq<Attachment>): (items: seq<Item>)
    ensures |items| == |atts|
    ensures forall i :: 0 <= i < |atts| ==> items[i] == File(atts[i])
  {
    if atts == [] then [] else [File(atts[0])] + Files(atts[1..])
  }

  /** Two bodies beside attachments share a part of their own. */
  function TopParts(t: Terms, isHtml: seq<Byte> -> bool, c: Content, alt: string): seq<Part> {
    if HasBoth(c) && c.attachments != []
    then [AlternativePart(t, alt, PartsOf(t, Bodies(isHtml, c)))] + PartsOf(t, Files(c.attachments))
    else PartsOf(t, Bodies(isHtml, c) + Files(c.attachments))
  }

  function ContentType(t: Terms, isHtml: seq<Byte> -> bool, c: Content, b: string): string {
    if IsMultipart(c) then (if c.attachments != [] then t.mixed else t.alternative) + M.Parameter(t.boundary, b)
    else (if MainBody(isHtml, c).1 then t.html else t.plain) + t.charset
  }

  /** The content fields that close the header block, and the lines of the body. */
  function RenderContent(t: Terms, isHtml: seq<Byte> -> bool, c: Content, b: string, alt: string): Part {
    var contentType := Field(t.name(Type), ContentType(t, isHtml, c, b));
    if IsMultipart(c) then Part([contentType] + [], Multipart(b, TopParts(t, isHtml, c, alt)) + [""])
    else Part([contentType] + [Field(t.name(Encoding), t.base64)], BodyLines(MainBody(isHtml, c).0))
  }

  function RenderLines(block: seq<Field>, p: Part): seq<string> {
    FieldLines(block + p.fields) + ([""] + p.body)
  }

  // ---- what is read ----

  /** The content of a message; its address fields are read elsewhere. */
  function ParseRaw(t: Terms, d: Decoders, text: string): Parsed {
    match Split(text)
    case None => Parsed(EMPTY, Some(BadHeader))
    case Some(lines) =>
      match ReadFields(lines)
      case None => Parsed(EMPTY, Some(BadHeader))
      case Some((fields, body)) => ParseBody(t, d, fields, body)
  }

  function ParseBody(t: Terms, d: Decoders, fields: seq<Field>, body: seq<string>): Parsed {
    var given := Get(fields, t.key(Type));
    var contentType := if given == "" then t.plain else given;
    if !M.Parse(contentType).ok then
      match B.DecodePart(d.verbatim, Print(body))
      case Err(_) => Parsed(EMPTY, None)
      case Ok(data) => Parsed(EMPTY.(body := data), None)
    else if t.multipart <= MediaType(contentType) then
      ParseMultipart(t, d, body, BoundaryOf(t, contentType), 0, EMPTY)
    else
      match B.DecodePart(DecoderFor(t, d, Get(fields, t.key(Encoding))), Print(body))
      case Err(e) => Parsed(EMPTY, Some(Undecodable(e)))
      case Ok(data) => Parsed(EMPTY.(body := data), None)
  }

  // ---- the two agree ----

  lemma {:induction false} DeliverInTwo(t: Terms, a: seq<Item>, b: seq<Item>, c: Content)
    ensures
      var r := DeliverAll(t, a, c);
      DeliverAll(t, a + b, c) == if r.error.Some? then r else DeliverAll(t, b, r.content)
    decreases |a|
  {
    if a == [] {
      assert a + b == b;
    } else {
      assert (a + b)[0] == a[0] && (a + b)[1..] == a[1..] + b;
      if Refusal(t, a[0]).None? {
        DeliverInTwo(t, a[1..], b, Deliver(t, a[0], c));
      }
    }
  }

  ghost predicate AttachmentsOk(atts: seq<Attachment>) {
    forall i :: 0 <= i < |atts| ==> ItemOk(File(atts[i]))
  }

  ghost predicate BoundariesOk(b: string, alt: string) {
    SoundBoundary(b) && SoundBoundary(alt) && |alt| == |b| && alt != b
  }

  lemma ItemsOfContentOk(isHtml: seq<Byte> -> bool, c: Content)
    requires AttachmentsOk(c.attachments)
    ensures ItemsOk(Bodies(isHtml, c)) && ItemsOk(Files(c.attachments))
    ensures ItemsOk(Bodies(isHtml, c) + Files(c.attachments))
  {
  }

  /** Reading the rendered parts delivers bodies and attachments in order, nested or not. */
  lemma ReadTopParts(t: Terms, d: Decoders, isHtml: seq<Byte> -> bool, c: Content, b: string, alt: string,
          epilogue: seq<string>)
    requires SoundTerms(t) && BoundariesOk(b, alt) && AttachmentsOk(c.attachments)
    ensures ParseMultipart(t, d, Multipart(b, TopParts(t, isHtml, c, alt)) + epilogue, b, 0, EMPTY)
      == DeliverAll(t, Bodies(isHtml, c) + Files(c.attachments), EMPTY)
  {
    var bodies, files := Bodies(isHtml, c), Files(c.attachments);
    ItemsOfContentOk(isHtml, c);
    if HasBoth(c) && c.attachments != [] {
      ReadNested(t, d, bodies, files, b, alt, epilogue);
    } else {
      ReadItems(t, d, bodies + files, b, epilogue, 0, EMPTY);
    }
  }

  lemma ReadNested(t: Terms, d: Decoders, bodies: seq<Item>, files: seq<Item>, b: string, alt: string,
          epilogue: seq<string>)
    requires SoundTerms(t) && BoundariesOk(b, alt) && ItemsOk(bodies) && ItemsOk(files)
    ensures ParseMultipart(t, d, Multipart(b, [AlternativePart(t, alt, PartsOf(t, bodies))] + PartsOf(t, files))
         + epilogue, b, 0, EMPTY)
      == DeliverAll(t, bodies + files, EMPTY)
  {
    var inner := AlternativePart(t, alt, PartsOf(t, bodies));
    var ps := [inner] + PartsOf(t, files);
    NestedIsReadable(t, bodies, files, b, alt, ps);
    ParseMultipartPrinted(t, d, ps, b, epilogue, 0, EMPTY);
    assert ps[0] == inner && ps[1..] == PartsOf(t, files);
    ProcessAlternative(t, d, bodies, alt, 0, EMPTY);
    DeliverInTwo(t, bodies, files, EMPTY);
    ProcessItems(t, d, files, 0, DeliverAll(t, bodies, EMPTY).content);
  }

  lemma NestedIsReadable(t: Terms, bodies: seq<Item>, files: seq<Item>, b: string, alt: string, ps: seq<Part>)
    requires SoundTerms(t) && BoundariesOk(b, alt)
    requires ps == [AlternativePart(t, alt, PartsOf(t, bodies))] + PartsOf(t, files)
    ensures AllReadable(ps, b)
  {
    AlternativeIsReadable(t, bodies, alt, b);
    ItemsAreReadable(t, files, b);
    forall i | 0 <= i < |ps| ensures Readable(ps[i], b) {
      if i > 0 {
        assert ps[i] == PartsOf(t, files)[i - 1];
      }
    }
  }

  // ---- down to the text ----

  lemma {:induction false} PrintJoined(lines: seq<string>)
    requires lines != []
    ensures Print(lines) == B.Join(lines) + CRLF
    decreases |lines|
  {
    if |lines| == 1 {
      assert lines[1..] == [];
      assert Print(lines) == lines[0] + CRLF + "";
    } else {
      PrintJoined(lines[1..]);
      assert Print(lines) == lines[0] + CRLF + (B.Join(lines[1..]) + CRLF);
    }
  }

  /** A body on its own ends with a line break, which the reader does not mind. */
  lemma ReadAlone(t: Terms, d: Decoders, data: seq<Byte>)
    requires SoundTerms(t)
    ensures B.DecodePart(DecoderFor(t, d, t.base64), Print(BodyLines(data)))
      == if |data| <= B.MAX_PART_SIZE then Ok(data) else Err(B.PartTooLarge)
  {
    DecoderIsBase64(t, d);
    LinesRead(data);
  }

  lemma LinesRead(data: seq<Byte>)
    ensures B.DecodePart(B.DecodeText, Print(BodyLines(data)))
      == if |data| <= B.MAX_PART_SIZE then Ok(data) else Err(B.PartTooLarge)
  {
    PrintJoined(BodyLines(data));
    B.BodyRoundTrip(data, CRLF);
  }

  /** The vocabulary of the header block and that of the parts are the same. */
  ghost predicate SameNames(v: H.Vocabulary, t: Terms) {
    && t.name(Type) == v.name(H.ContentType) && t.name(Encoding) == v.name(H.TransferEncoding)
  }

  ghost predicate NoContentFieldsIn(t: Terms, block: seq<Field>) {
    H.Absent(block, t.key(Type)) && H.Absent(block, t.key(Encoding))
  }

  lemma {:induction false} GetAfter(block: seq<Field>, f: Field, more: seq<Field>, key: string)
    requires H.Absent(block, key) && Lower(f.name) == key
    ensures Get(Trimmed(block + ([f] + more)), key) == Trim(f.value)
  {
    var fs := Trimmed(block + ([f] + more));
    TrimmedConcat(block, [f] + more);
    TrimmedConcat([f], more);
    assert Trimmed([f]) == [Field(f.name, Trim(f.value))];
    forall i | 0 <= i < |block| ensures Lower(Trimmed(block)[i].name) != key {
      assert !H.IsField(block, i, key);
    }
    GetFirst(Trimmed(block), Field(f.name, Trim(f.value)), Trimmed(more), key);
  }

  lemma ContentTypeIsRead(t: Terms, isHtml: seq<Byte> -> bool, c: Content, b: string)
    requires SoundTerms(t) && SoundBoundary(b)
    ensures
      var value := ContentType(t, isHtml, c, b);
      && Trim(value) == value && value != "" && OneLine(value) && M.Parse(value).ok
      && (t.multipart <= MediaType(value) <==> IsMultipart(c))
      && (IsMultipart(c) ==> BoundaryOf(t, value) == b)
  {
    if IsMultipart(c) {
      BoundaryIsRead(t, if c.attachments != [] then t.mixed else t.alternative, b);
    } else {
      PlainTypeIsRead(t, if MainBody(isHtml, c).1 then t.html else t.plain);
    }
  }

  lemma PlainTypeIsRead(t: Terms, word: string)
    requires SoundTerms(t) && (word == t.plain || word == t.html)
    ensures
      var value := word + t.charset;
      && Trim(value) == value && value != "" && OneLine(value) && M.Parse(value).ok
      && !(t.multipart <= MediaType(value))
  {
    TypeIsTight(t, word);
    MediaTypeOf(word, t.charset);
  }

  lemma TypeIsTight(t: Terms, word: string)
    requires SoundTerms(t) && Steady(word)
    ensures Trim(word + t.charset) == word + t.charset && word + t.charset != "" && OneLine(word + t.charset)
  {
    TrimBetween(word, t.charset);
    D.PlainIsOneLine(word + t.charset);
  }

  /** What is read of an e-mail: its items if it has parts, its only body otherwise. */
  function Arrives(t: Terms, isHtml: seq<Byte> -> bool, c: Content): Parsed {
    if IsMultipart(c) then DeliverAll(t, Bodies(isHtml, c) + Files(c.attachments), EMPTY)
    else DeliverAll(t, [Plain(MainBody(isHtml, c).0)], EMPTY)
  }

  lemma ReadContent(t: Terms, d: Decoders, isHtml: seq<Byte> -> bool, c: Content, b: string, alt: string,
          block: seq<Field>)
    requires SoundTerms(t) && BoundariesOk(b, alt) && AttachmentsOk(c.attachments) && NoContentFieldsIn(t, block)
    ensures
      var p := RenderContent(t, isHtml, c, b, alt);
      ParseBody(t, d, Trimmed(block + p.fields), p.body) == Arrives(t, isHtml, c)
  {
    var contentType := Field(t.name(Type), ContentType(t, isHtml, c, b));
    ContentTypeIsRead(t, isHtml, c, b);
    if IsMultipart(c) {
      GetAfter(block, contentType, [], t.key(Type));
      ReadTopParts(t, d, isHtml, c, b, alt, [""]);
      ReadParts(t, d, Trimmed(block + ([contentType] + [])), Multipart(b, TopParts(t, isHtml, c, alt)) + [""],
                contentType.value, b);
    } else {
      var encoding := Field(t.name(Encoding), t.base64);
      GetAfter(block, contentType, [encoding], t.key(Type));
      EncodingIsRead(t, block, contentType, encoding);
      ReadAlone(t, d, MainBody(isHtml, c).0);
      ReadOnly(t, d, Trimmed(block + ([contentType] + [encoding])), contentType.value, MainBody(isHtml, c).0);
    }
  }

  lemma ReadParts(t: Terms, d: Decoders, fields: seq<Field>, body: seq<string>, value: string, b: string)
    requires Get(fields, t.key(Type)) == value && value != "" && M.Parse(value).ok
    requires t.multipart <= MediaType(value) && BoundaryOf(t, value) == b
    ensures ParseBody(t, d, fields, body) == ParseMultipart(t, d, body, b, 0, EMPTY)
  {
  }

  lemma ReadOnly(t: Terms, d: Decoders, fields: seq<Field>, value: string, data: seq<Byte>)
    requires Get(fields, t.key(Type)) == value && value != "" && M.Parse(value).ok
    requires !(t.multipart <= MediaType(value)) && Get(fields, t.key(Encoding)) == t.base64
    requires B.DecodePart(DecoderFor(t, d, t.base64), Print(BodyLines(data)))
      == if |data| <= B.MAX_PART_SIZE then Ok(data) else Err(B.PartTooLarge)
    ensures ParseBody(t, d, fields, BodyLines(data)) == DeliverAll(t, [Plain(data)], EMPTY)
  {
    DeliverOne(t, Plain(data), EMPTY);
  }

  lemma EncodingIsRead(t: Terms, block: seq<Field>, contentType: Field, encoding: Field)
    requires SoundTerms(t) && NoContentFieldsIn(t, block)
    requires contentType.name == t.name(Type) && encoding == Field(t.name(Encoding), t.base64)
    ensures Get(Trimmed(block + ([contentType] + [encoding])), t.key(Encoding)) == t.base64
  {
    assert Lower(contentType.name) == t.key(Type);
    assert t.key(Type) != t.key(Encoding);
    assert H.Absent([contentType], t.key(Encoding));
    H.AppendOnce(block, [contentType], t.key(Encoding));
    GetAfter(block + [contentType], encoding, [], t.key(Encoding));
    assert block + ([contentType] + [encoding]) == (block + [contentType]) + ([encoding] + []);
    TrimTight(t.base64);
  }

  // ---- the whole message ----

  lemma ContentIsOneLine(t: Terms, isHtml: seq<Byte> -> bool, c: Content, b: string, alt: string)
    requires SoundTerms(t) && BoundariesOk(b, alt)
    ensures PartIsOneLine(RenderContent(t, isHtml, c, b, alt))
  {
    ContentTypeIsRead(t, isHtml, c, b);
    ContentFieldsPrintable(t, Field(t.name(Type), ContentType(t, isHtml, c, b)));
    ContentLinesAreOneLine(t, isHtml, c, b, alt);
  }

  lemma ContentLinesAreOneLine(t: Terms, isHtml: seq<Byte> -> bool, c: Content, b: string, alt: string)
    requires SoundTerms(t) && BoundariesOk(b, alt)
    ensures AllOneLine(RenderContent(t, isHtml, c, b, alt).body)
  {
    if IsMultipart(c) {
      TopPartsAreOneLine(t, isHtml, c, b, alt);
      OneLineConcat(Multipart(b, TopParts(t, isHtml, c, alt)), [""]);
    } else {
      BodyIsOneLine(MainBody(isHtml, c).0);
    }
  }

  lemma ContentFieldsPrintable(t: Terms, contentType: Field)
    requires SoundTerms(t) && contentType.name == t.name(Type) && OneLine(contentType.value)
    ensures AllPrintable([contentType] + []) && AllPrintable([contentType] + [Field(t.name(Encoding), t.base64)])
  {
    D.PlainIsOneLine(t.base64);
    TwoPrintable(contentType, Field(t.name(Encoding), t.base64));
    assert [contentType] + [Field(t.name(Encoding), t.base64)] == [contentType, Field(t.name(Encoding), t.base64)];
    assert [contentType] + [] == [contentType];
  }

  lemma OneLineConcat(a: seq<string>, b: seq<string>)
    requires AllOneLine(a) && AllOneLine(b)
    ensures AllOneLine(a + b)
  {
  }

  lemma BodyIsOneLine(data: seq<Byte>)
    ensures AllOneLine(BodyLines(data))
  {
    var s := B.Encode(data);
    B.EncodeAlphabet(data);
    B.LinesShape(s);
    assert !B.IsBase64('\r') && !B.IsBase64('\n');
    forall i | 0 <= i < |BodyLines(data)| ensures OneLine(BodyLines(data)[i]) {
      var line := BodyLines(data)[i];
      forall j | 0 <= j < |line| ensures line[j] != '\r' && line[j] != '\n' {
        assert line[j] in s;
      }
    }
  }

  ghost predicate PartIsOneLine(p: Part) {
    AllPrintable(p.fields) && AllOneLine(p.body)
  }

  lemma {:induction false} MultipartIsOneLine(b: string, ps: seq<Part>)
    requires SoundBoundary(b)
    requires forall i :: 0 <= i < |ps| ==> PartIsOneLine(ps[i])
    ensures AllOneLine(Multipart(b, ps))
    decreases |ps|
  {
    D.PlainIsOneLine(Opening(b));
    D.PlainIsOneLine(Closing(b));
    if ps != [] {
      var rest := ps[1..];
      assert forall i :: 0 <= i < |rest| ==> rest[i] == ps[i + 1];
      MultipartIsOneLine(b, rest);
      PartLinesAreOneLine(ps[0]);
      OneLineConcat(PartLines(ps[0]), Multipart(b, rest));
      OneLineConcat([Opening(b)], PartLines(ps[0]) + Multipart(b, rest));
    }
  }

  lemma PartLinesAreOneLine(p: Part)
    requires PartIsOneLine(p)
    ensures AllOneLine(PartLines(p))
  {
    FieldLinesAreOneLine(p.fields);
    OneLineConcat([""], p.body);
    OneLineConcat(FieldLines(p.fields), [""] + p.body);
  }

  lemma ItemsAreOneLine(t: Terms, items: seq<Item>)
    requires SoundTerms(t)
    ensures forall i :: 0 <= i < |items| ==> PartIsOneLine(PartsOf(t, items)[i])
  {
    forall i | 0 <= i < |items| ensures PartIsOneLine(PartsOf(t, items)[i]) {
      ItemIsReadable(t, items[i], "");
      BodyIsOneLine(DataOf(items[i]));
    }
  }

  lemma TopPartsAreOneLine(t: Terms, isHtml: seq<Byte> -> bool, c: Content, b: string, alt: string)
    requires SoundTerms(t) && BoundariesOk(b, alt)
    ensures AllOneLine(Multipart(b, TopParts(t, isHtml, c, alt)))
  {
    if HasBoth(c) && c.attachments != [] {
      NestedIsOneLine(t, Bodies(isHtml, c), Files(c.attachments), b, alt);
    } else {
      ItemsAreOneLine(t, Bodies(isHtml, c) + Files(c.attachments));
      MultipartIsOneLine(b, PartsOf(t, Bodies(isHtml, c) + Files(c.attachments)));
    }
  }

  lemma NestedIsOneLine(t: Terms, bodies: seq<Item>, files: seq<Item>, b: string, alt: string)
    requires SoundTerms(t) && BoundariesOk(b, alt)
    ensures AllOneLine(Multipart(b, [AlternativePart(t, alt, PartsOf(t, bodies))] + PartsOf(t, files)))
  {
    AlternativeIsOneLine(t, bodies, alt);
    ItemsAreOneLine(t, files);
    OneMorePart(b, AlternativePart(t, alt, PartsOf(t, bodies)), PartsOf(t, files));
  }

  lemma OneMorePart(b: string, p: Part, ps: seq<Part>)
    requires SoundBoundary(b) && PartIsOneLine(p) && forall i :: 0 <= i < |ps| ==> PartIsOneLine(ps[i])
    ensures AllOneLine(Multipart(b, [p] + ps))
  {
    var all := [p] + ps;
    assert forall i :: 0 < i < |all| ==> all[i] == ps[i - 1];
    MultipartIsOneLine(b, all);
  }

  lemma AlternativeIsOneLine(t: Terms, items: seq<Item>, alt: string)
    requires SoundTerms(t) && SoundBoundary(alt)
    ensures PartIsOneLine(AlternativePart(t, alt, PartsOf(t, items)))
  {
    ItemsAreOneLine(t, items);
    MultipartIsOneLine(alt, PartsOf(t, items));
    OneLineConcat(Multipart(alt, PartsOf(t, items)), [""]);
    BoundaryIsRead(t, t.alternative, alt);
  }

  /** The text of a rendered message, read again, gives exactly what the e-mail's content amounts to. */
  lemma ReadRendered(t: Terms, d: Decoders, isHtml: seq<Byte> -> bool, c: Content, b: string, alt: string,
          block: seq<Field>)
    requires SoundTerms(t) && BoundariesOk(b, alt) && AttachmentsOk(c.attachments)
    requires AllPrintable(block) && NoContentFieldsIn(t, block)
    ensures ParseRaw(t, d, Print(RenderLines(block, RenderContent(t, isHtml, c, b, alt)))) == Arrives(t, isHtml, c)
  {
    ContentIsOneLine(t, isHtml, c, b, alt);
    ReadContent(t, d, isHtml, c, b, alt, block);
    ReadLines(t, d, block, RenderContent(t, isHtml, c, b, alt));
  }

  /** The header block and the body come out of the text as they went in. */
  lemma ReadLines(t: Terms, d: Decoders, block: seq<Field>, p: Part)
    requires AllPrintable(block) && AllPrintable(p.fields) && AllOneLine(p.body)
    ensures ParseRaw(t, d, Print(RenderLines(block, p))) == ParseBody(t, d, Trimmed(block + p.fields), p.body)
  {
    LinesReadBack(block + p.fields, p.body);
  }

  lemma LinesReadBack(fields: seq<Field>, body: seq<string>)
    requires AllPrintable(fields) && AllOneLine(body)
    ensures
      var lines := FieldLines(fields) + ([""] + body);
      Split(Print(lines)) == Some(lines) && ReadFields(lines) == Some((Trimmed(fields), body))
  {
    FieldLinesAreOneLine(fields);
    OneLineConcat([""], body);
    OneLineConcat(FieldLines(fields), [""] + body);
    SplitPrint(FieldLines(fields) + ([""] + body));
    ReadPrintedFields(fields, body);
  }

  /** So with the header block the builder writes, whatever headers the caller asked for. */
  lemma RenderThenParse(lib: H.Library, v: H.Vocabulary, t: Terms, d: Decoders, isHtml: seq<Byte> -> bool,
                        e: H.Envelope, names: seq<string>, c: Content, b: string, alt: string)
    requires H.SoundLibrary(lib) && H.SoundVocabulary(v) && SoundTerms(t) && SameNames(v, t)
    requires BoundariesOk(b, alt) && AttachmentsOk(c.attachments)
    requires forall n :: n in names ==> n in e.headers
    requires H.Block(lib, v, e, names).Ok?
    ensures
      var block := H.Block(lib, v, e, names).value;
      ParseRaw(t, d, Print(RenderLines(block, RenderContent(t, isHtml, c, b, alt)))) == Arrives(t, isHtml, c)
  {
    var block := H.Block(lib, v, e, names).value;
    H.BlockIsPrintable(lib, v, e, names);
    H.NoContentFields(lib, v, e, names, H.ContentType);
    H.NoContentFields(lib, v, e, names, H.TransferEncoding);
    assert t.key(Type) == v.key(H.ContentType) && t.key(Encoding) == v.key(H.TransferEncoding);
    ReadRendered(t, d, isHtml, c, b, alt, block);
  }

  // ---- what survives the trip ----

  predicate AllSmall(items: seq<Item>) {
    forall i :: 0 <= i < |items| ==> |DataOf(items[i])| <= B.MAX_PART_SIZE
  }

  predicate NoContainers(t: Terms, atts: seq<Attachment>) {
    forall i :: 0 <= i < |atts| ==> !IsContainer(t, atts[i])
  }

  predicate NoneRefused(t: Terms, items: seq<Item>) {
    forall i :: 0 <= i < |items| ==> Refusal(t, items[i]).None?
  }

  /** Nothing is refused exactly when all is small enough and no attachment poses as a container. */
  lemma NoneRefusedIff(t: Terms, isHtml: seq<Byte> -> bool, c: Content)
    ensures NoneRefused(t, ItemsOf(isHtml, c)) <==> AllSmall(ItemsOf(isHtml, c)) && NoContainers(t, c.attachments)
  {
    var bodies, files := Bodies(isHtml, c), Files(c.attachments);
    var items := bodies + files;
    assert forall i :: 0 <= i < |files| ==> items[|bodies| + i] == File(c.attachments[i]);
    forall i | 0 <= i < |items|
      ensures Refusal(t, items[i]).None? <==>
        |DataOf(items[i])| <= B.MAX_PART_SIZE && (i >= |bodies| ==> !IsContainer(t, c.attachments[i - |bodies|]))
    {
      if i >= |bodies| {
        assert items[i] == File(c.attachments[i - |bodies|]);
      } else {
        assert items[i] == bodies[i] && !bodies[i].File?;
      }
    }
    if NoneRefused(t, items) {
      forall i | 0 <= i < |c.attachments| ensures !IsContainer(t, c.attachments[i]) {
        assert Refusal(t, items[|bodies| + i]).None?;
      }
    }
  }

  function Deliveries(t: Terms, items: seq<Item>, c: Content): Content
    decreases |items|
  {
    if items == [] then c else Deliveries(t, items[1..], Deliver(t, items[0], c))
  }

  /** Reading fails exactly when something in the e-mail is refused. */
  lemma {:induction false} DeliveredIff(t: Terms, items: seq<Item>, c: Content)
    ensures DeliverAll(t, items, c).error.None? <==> NoneRefused(t, items)
    ensures NoneRefused(t, items) ==> DeliverAll(t, items, c).content == Deliveries(t, items, c)
    decreases |items|
  {
    if items != [] {
      var rest := items[1..];
      assert forall i :: 0 <= i < |rest| ==> rest[i] == items[i + 1];
      DeliveredIff(t, rest, Deliver(t, items[0], c));
      assert NoneRefused(t, items) <==> Refusal(t, items[0]).None? && NoneRefused(t, rest);
    }
  }

  function ReceivedAll(t: Terms, atts: seq<Attachment>): (r: seq<Attachment>)
    ensures |r| == |atts|
    ensures forall i :: 0 <= i < |atts| ==> r[i] == Received(t, atts[i]) && r[i].data == atts[i].data
  {
    if atts == [] then [] else [Received(t, atts[0])] + ReceivedAll(t, atts[1..])
  }

  lemma {:induction false} DeliverFiles(t: Terms, atts: seq<Attachment>, c: Content)
    ensures Deliveries(t, Files(atts), c) == c.(attachments := c.attachments + ReceivedAll(t, atts))
    decreases |atts|
  {
    if atts == [] {
      assert c.attachments + [] == c.attachments;
    } else {
      var first := Deliver(t, File(atts[0]), c);
      assert Files(atts)[1..] == Files(atts[1..]);
      DeliverFiles(t, atts[1..], first);
      AppendFirst(c.attachments, Received(t, atts[0]), ReceivedAll(t, atts[1..]));
    }
  }

  lemma AppendFirst(a: seq<Attachment>, x: Attachment, b: seq<Attachment>)
    ensures (a + [x]) + b == a + ([x] + b)
  {
  }

  lemma {:induction false} DeliverEach(t: Terms, a: seq<Item>, b: seq<Item>, c: Content)
    ensures Deliveries(t, a + b, c) == Deliveries(t, b, Deliveries(t, a, c))
    decreases |a|
  {
    if a == [] {
      assert a + b == b;
    } else {
      assert (a + b)[0] == a[0] && (a + b)[1..] == a[1..] + b;
      DeliverEach(t, a[1..], b, Deliver(t, a[0], c));
    }
  }

  /** Where the only body of an e-mail comes back, and when that is where it was. */
  function BodiesAfter(isHtml: seq<Byte> -> bool, c: Content): (seq<Byte>, seq<Byte>) {
    if HasBoth(c) then (c.body, c.html)
    else
      var (data, html) := MainBody(isHtml, c);
      if IsMultipart(c) && html then ([], data) else (data, [])
  }

  predicate BodiesSurvive(isHtml: seq<Byte> -> bool, c: Content) {
    if HasBoth(c) then true
    else if c.attachments != [] then c.html != [] || !isHtml(c.body)
    else c.html == []
  }

  function ItemsOf(isHtml: seq<Byte> -> bool, c: Content): seq<Item> {
    Bodies(isHtml, c) + Files(c.attachments)
  }

  lemma DeliverBodies(t: Terms, isHtml: seq<Byte> -> bool, c: Content)
    ensures
      var r := Deliveries(t, Bodies(isHtml, c), EMPTY);
      IsMultipart(c) ==> (r.body, r.html) == BodiesAfter(isHtml, c) && r.attachments == []
  {
    if HasBoth(c) {
      DeliverTwo(t, Plain(c.body), Html(c.html), EMPTY);
    } else {
      var (data, html) := MainBody(isHtml, c);
      DeliverSingle(t, if html then Html(data) else Plain(data), EMPTY);
    }
  }

  lemma DeliverSingle(t: Terms, i: Item, c: Content)
    ensures Deliveries(t, [i], c) == Deliver(t, i, c)
  {
    assert [i][1..] == [];
  }

  lemma DeliverTwo(t: Terms, i: Item, j: Item, c: Content)
    ensures Deliveries(t, [i, j], c) == Deliver(t, j, Deliver(t, i, c))
  {
    assert [i, j] == [i] + [j];
    DeliverEach(t, [i], [j], c);
    DeliverSingle(t, i, c);
    DeliverSingle(t, j, Deliver(t, i, c));
  }

  /** An e-mail of which nothing is refused arrives whole: every attachment in order with its data, and its bodies. */
  lemma ContentArrives(t: Terms, isHtml: seq<Byte> -> bool, c: Content)
    ensures Arrives(t, isHtml, c).error.None? <==> NoneRefused(t, ItemsOf(isHtml, c))
    ensures NoneRefused(t, ItemsOf(isHtml, c)) ==>
      var (body, html) := BodiesAfter(isHtml, c);
      Arrives(t, isHtml, c).content == Content(body, html, ReceivedAll(t, c.attachments))
  {
    if IsMultipart(c) {
      DeliveredIff(t, ItemsOf(isHtml, c), EMPTY);
      PartsArrive(t, isHtml, c);
    } else {
      OnlyBodyArrives(t, isHtml, c);
    }
  }

  lemma PartsArrive(t: Terms, isHtml: seq<Byte> -> bool, c: Content)
    requires IsMultipart(c)
    ensures
      var (body, html) := BodiesAfter(isHtml, c);
      Deliveries(t, ItemsOf(isHtml, c), EMPTY) == Content(body, html, ReceivedAll(t, c.attachments))
  {
    var bodies := Deliveries(t, Bodies(isHtml, c), EMPTY);
    DeliverEach(t, Bodies(isHtml, c), Files(c.attachments), EMPTY);
    DeliverBodies(t, isHtml, c);
    DeliverFiles(t, c.attachments, bodies);
    assert [] + ReceivedAll(t, c.attachments) == ReceivedAll(t, c.attachments);
  }

  lemma OnlyBodyArrives(t: Terms, isHtml: seq<Byte> -> bool, c: Content)
    requires !IsMultipart(c)
    ensures Arrives(t, isHtml, c).error.None? <==> NoneRefused(t, ItemsOf(isHtml, c))
    ensures NoneRefused(t, ItemsOf(isHtml, c)) ==>
      Arrives(t, isHtml, c).content == Content(MainBody(isHtml, c).0, [], [])
  {
    var (data, html) := MainBody(isHtml, c);
    DeliverOne(t, Plain(data), EMPTY);
    var only := if html then Html(data) else Plain(data);
    assert ItemsOf(isHtml, c) == [only];
    assert DataOf([only][0]) == data;
  }

  /** The bodies come back where they were exactly when both are set, or the only one is where its kind is read to. */
  lemma BodiesSurviveIff(isHtml: seq<Byte> -> bool, c: Content)
    requires !isHtml([])
    ensures BodiesAfter(isHtml, c) == (c.body, c.html) <==> BodiesSurvive(isHtml, c)
  {
  }

  /** A message of HTML alone comes back as its text. */
  lemma HtmlAloneMoves(t: Terms, isHtml: seq<Byte> -> bool)
    ensures
      var c := Content([], [60], []);
      && !BodiesSurvive(isHtml, c)
      && Arrives(t, isHtml, c) == Parsed(Content([60], [], []), None)
  {
    DeliverOne(t, Plain([60]), EMPTY);
  }
}
