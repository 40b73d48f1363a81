/**
 * What utils.go renders of an e-mail's bodies and attachments, and what its own
 * reader makes of the result.
 */
module Message {
  import opened Prelude
  import opened Wire
  import opened MimeTree
  import D = Disposition
  import M = MediaTypes
  import B = Base64

  // ---- the parts of an e-mail ----

  function BodyLines(data: seq<Byte>): seq<string> {
    B.Lines(B.Encode(data))
  }

  function BodyFields(t: Terms, mediaType: string): seq<Field> {
    ContentFields(t, mediaType + t.charset)
  }

  function ContentFields(t: Terms, contentType: string): seq<Field> {
    [Field(t.name(Encoding), t.base64), Field(t.name(Type), contentType)]
  }

  function BodyPart(t: Terms, mediaType: string, data: seq<Byte>): Part {
    Part(BodyFields(t, mediaType), BodyLines(data))
  }

  function TypeOf(t: Terms, a: Attachment): string {
    if D.Sanitize(a.mediaType) == "" then t.octets else D.Sanitize(a.mediaType)
  }

  function AttachmentFields(t: Terms, a: Attachment): seq<Field> {
    [Field(t.name(Disposition), D.Format(KindOf(t, a), a.name))] + (IdFields(t, a) + ContentFields(t, TypeOf(t, a)))
  }

  /** An attachment that the text refers to is shown in it. */
  function KindOf(t: Terms, a: Attachment): string {
    if a.contentId != "" then t.inline else t.attachment
  }

  function IdFields(t: Terms, a: Attachment): seq<Field> {
    if a.contentId != "" then [Field(t.name(ContentId), Bracketed(a.contentId))] else []
  }

  function Bracketed(id: string): string {
    "<" + D.Sanitize(id) + ">"
  }

  function AttachmentPart(t: Terms, a: Attachment): Part {
    Part(AttachmentFields(t, a), BodyLines(a.data))
  }

  function AlternativePart(t: Terms, alt: string, ps: seq<Part>): Part {
    Part([Field(t.name(Type), t.alternative + M.Parameter(t.boundary, alt))], Multipart(alt, ps) + [""])
  }

  /** What is in a part, apart from how it is printed. */
  datatype Item = Plain(data: seq<Byte>) | Html(data: seq<Byte>) | File(file: Attachment)

  function DataOf(i: Item): seq<Byte> {
    match i case File(a) => a.data case _ => i.data
  }

  function PartOf(t: Terms, i: Item): Part {
    match i
    case Plain(data) => BodyPart(t, t.plain, data)
    case Html(data) => BodyPart(t, t.html, data)
    case File(a) => AttachmentPart(t, a)
  }

  function PartsOf(t: Terms, items: seq<Item>): (ps: seq<Part>)
    ensures |ps| == |items|
    ensures forall i :: 0 <= i < |items| ==> ps[i] == PartOf(t, items[i])
  {
    if items == [] then [] else [PartOf(t, items[0])] + PartsOf(t, items[1..])
  }

  // ---- what arrives ----

  /** An attachment as a reader reports it. */
  function Received(t: Terms, a: Attachment): Attachment {
    Attachment(
      if D.Sanitize(a.name) == "" then t.attachment else D.Sanitize(a.name),
      Trim(TypeOf(t, a)),
      TrimAngles(PrintedId(a)),
      a.data)
  }

  function Deliver(t: Terms, i: Item, c: Content): Content {
    match i
    case Plain(data) => c.(body := data)
    case Html(data) => c.(html := data)
    case File(a) => c.(attachments := c.attachments + [Received(t, a)])
  }

  /** The reader takes an attachment whose own type is a container for one. */
  predicate IsContainer(t: Terms, a: Attachment) {
    t.multipart <= MediaType(Trim(TypeOf(t, a)))
  }

  /** Why an item is refused: a container never ends, as no encoded line is a delimiter; others may be too large. */
  function Refusal(t: Terms, i: Item): Option<Error> {
    if i.File? && IsContainer(t, i.file) then
      Some(if BoundaryOf(t, Trim(TypeOf(t, i.file))) == "" then NoBoundary else Truncated)
    else if |DataOf(i)| > B.MAX_PART_SIZE then Some(Undecodable(B.PartTooLarge))
    else None
  }

  /** Items in order, up to the first that is refused. */
  function DeliverAll(t: Terms, items: seq<Item>, c: Content): Parsed
    decreases |items|
  {
    if items == [] then Parsed(c, None)
    else if Refusal(t, items[0]).Some? then Parsed(c, Refusal(t, items[0]))
    else DeliverAll(t, items[1..], Deliver(t, items[0], c))
  }

  // ---- reading one part ----

  lemma DecoderIsBase64(t: Terms, d: Decoders)
    requires SoundTerms(t)
    ensures DecoderFor(t, d, t.base64) == B.DecodeText
  {
    TrimTight(t.base64);
  }

  lemma ReadBody(t: Terms, d: Decoders, data: seq<Byte>)
    requires SoundTerms(t)
    ensures B.DecodePart(DecoderFor(t, d, t.base64), B.Join(BodyLines(data)))
      == if |data| <= B.MAX_PART_SIZE then Ok(data) else Err(B.PartTooLarge)
  {
    DecoderIsBase64(t, d);
    EncodingReads(data);
  }

  lemma EncodingReads(data: seq<Byte>)
    ensures B.DecodePart(B.DecodeText, B.Join(BodyLines(data)))
      == if |data| <= B.MAX_PART_SIZE then Ok(data) else Err(B.PartTooLarge)
  {
    B.BodyRoundTrip(data, "");
    assert B.Wrapped(B.Encode(data)) + "" == B.Join(BodyLines(data));
  }

  /** The type before the parameters. */
  lemma MediaTypeOf(word: string, rest: string)
    requires Steady(word) && (rest == "" || rest[0] == ';') && M.AreParams(rest)
    ensures MediaType(word + rest) == word && M.Parse(word + rest).ok
  {
    M.ParseGood(word, rest);
  }

  lemma TrimBetween(word: string, rest: string)
    requires Tight(word) && word != "" && rest != "" && !IsBlank(rest[|rest| - 1])
    ensures Tight(word + rest) && Trim(word + rest) == word + rest
  {
    TrimTight(word + rest);
  }

  /** The four fields of a part, as they are looked up. */
  lemma BodyFieldsRead(t: Terms, mediaType: string)
    requires SoundTerms(t) && Steady(mediaType)
    ensures
      var fs := Trimmed(BodyFields(t, mediaType));
      && Get(fs, t.key(Type)) == mediaType + t.charset
      && Get(fs, t.key(Encoding)) == t.base64
      && Get(fs, t.key(Disposition)) == "" && Get(fs, t.key(ContentId)) == ""
  {
    TrimTight(t.base64);
    TrimBetween(mediaType, t.charset);
    var fs := Trimmed(BodyFields(t, mediaType));
    assert fs == [Field(t.name(Encoding), t.base64), Field(t.name(Type), mediaType + t.charset)];
    LookUpTwo(t, fs[0], fs[1], Encoding, Type);
  }

  lemma LookUpTwo(t: Terms, f: Field, g: Field, k: PartKind, l: PartKind)
    requires SoundTerms(t) && f.name == t.name(k) && g.name == t.name(l) && k != l
    ensures Get([f, g], t.key(k)) == f.value && Get([f, g], t.key(l)) == g.value
    ensures forall m :: m != k && m != l ==> Get([f, g], t.key(m)) == ""
  {
    LookUpOne(t, g, l);
    assert [f, g][1..] == [g];
    assert Lower(f.name) == t.key(k);
  }

  lemma LookUpOne(t: Terms, g: Field, l: PartKind)
    requires SoundTerms(t) && g.name == t.name(l)
    ensures Get([g], t.key(l)) == g.value
    ensures forall m :: m != l ==> Get([g], t.key(m)) == ""
  {
    assert [g][1..] == [];
    assert Lower(g.name) == t.key(l);
  }

  lemma NoFilename()
    ensures FilenameOf("") == "" && MediaType("") == ""
  {
    assert M.Before("", ';') == ("", "");
    assert M.Parse("") == M.Media("", [], false);
    M.NoneLonger([], D.WORDS.name);
  }

  ghost predicate IsBodyOf(body: seq<string>, data: seq<Byte>) {
    body == BodyLines(data)
  }

  /** A base64 part is decoded and put in its place, or refused for its size. */
  lemma ProcessLeaf(t: Terms, d: Decoders, fs: seq<Field>, body: seq<string>, data: seq<Byte>, depth: nat, c: Content)
    requires SoundTerms(t) && IsBodyOf(body, data)
    requires !(t.multipart <= MediaType(Get(fs, t.key(Type))))
    requires Get(fs, t.key(Encoding)) == t.base64
    ensures ProcessPart(t, d, fs, body, depth, c) ==
      if |data| > B.MAX_PART_SIZE then Parsed(c, Some(Undecodable(B.PartTooLarge)))
      else Parsed(Place(t, fs, data, c), None)
  {
    ReadBody(t, d, data);
  }

  lemma PlaceBody(t: Terms, fs: seq<Field>, i: Item, mediaType: string, c: Content)
    requires SoundTerms(t) && !i.File? && mediaType == if i.Plain? then t.plain else t.html
    requires MediaType(Get(fs, t.key(Type))) == mediaType
    requires Get(fs, t.key(Disposition)) == ""
    ensures Place(t, fs, i.data, c) == Deliver(t, i, c)
  {
    NoFilename();
    assert t.attachment != "" && t.inline != "";
  }

  lemma ProcessBody(t: Terms, d: Decoders, i: Item, depth: nat, c: Content)
    requires SoundTerms(t) && !i.File?
    ensures ProcessPart(t, d, Trimmed(PartOf(t, i).fields), PartOf(t, i).body, depth, c) == DeliverAll(t, [i], c)
  {
    var mediaType := if i.Plain? then t.plain else t.html;
    var fs := Trimmed(BodyFields(t, mediaType));
    BodyFieldsRead(t, mediaType);
    MediaTypeOf(mediaType, t.charset);
    ProcessLeaf(t, d, fs, BodyLines(i.data), i.data, depth, c);
    PlaceBody(t, fs, i, mediaType, c);
    DeliverOne(t, i, c);
  }

  lemma DeliverOne(t: Terms, i: Item, c: Content)
    ensures DeliverAll(t, [i], c) ==
      if Refusal(t, i).Some? then Parsed(c, Refusal(t, i)) else Parsed(Deliver(t, i, c), None)
  {
    assert [i][1..] == [];
  }

  // ---- reading an attachment ----

  /** The fields of an attachment, as they are looked up. */
  ghost predicate ReadsAs(t: Terms, fs: seq<Field>, disposition: string, contentId: string, contentType: string) {
    && Get(fs, t.key(Disposition)) == disposition
    && Get(fs, t.key(ContentId)) == contentId
    && Get(fs, t.key(Encoding)) == t.base64
    && Get(fs, t.key(Type)) == contentType
  }

  function PrintedId(a: Attachment): string {
    if a.contentId != "" then Trim(Bracketed(a.contentId)) else ""
  }

  lemma AttachmentFieldsRead(t: Terms, a: Attachment)
    requires SoundTerms(t)
    ensures ReadsAs(t, Trimmed(AttachmentFields(t, a)), Trim(D.Format(KindOf(t, a), a.name)), PrintedId(a),
                    Trim(TypeOf(t, a)))
  {
    var first := Field(t.name(Disposition), Trim(D.Format(KindOf(t, a), a.name)));
    var encoding, mediaType := Field(t.name(Encoding), t.base64), Field(t.name(Type), Trim(TypeOf(t, a)));
    AttachmentFieldsTrimmed(t, a, first, encoding, mediaType);
    LookUpTwo(t, encoding, mediaType, Encoding, Type);
    if a.contentId != "" {
      var id := Field(t.name(ContentId), Trim(Bracketed(a.contentId)));
      LookUpNext(t, id, [encoding, mediaType], ContentId);
      LookUpNext(t, first, [id] + [encoding, mediaType], Disposition);
    } else {
      LookUpNext(t, first, [encoding, mediaType], Disposition);
    }
  }

  lemma AttachmentFieldsTrimmed(t: Terms, a: Attachment, first: Field, encoding: Field, mediaType: Field)
    requires SoundTerms(t)
    requires first == Field(t.name(Disposition), Trim(D.Format(KindOf(t, a), a.name)))
    requires encoding == Field(t.name(Encoding), t.base64)
    requires mediaType == Field(t.name(Type), Trim(TypeOf(t, a)))
    ensures Trimmed(AttachmentFields(t, a)) ==
      if a.contentId != "" then
        [first] + ([Field(t.name(ContentId), Trim(Bracketed(a.contentId)))] + [encoding, mediaType])
      else [first] + [encoding, mediaType]
  {
    TrimTight(t.base64);
    var ids := IdFields(t, a);
    TrimmedAround(Field(t.name(Disposition), D.Format(KindOf(t, a), a.name)), ids,
      Field(t.name(Encoding), t.base64), Field(t.name(Type), TypeOf(t, a)));
    if a.contentId == "" {
      assert ids == [];
      assert Trimmed(ids) + [encoding, mediaType] == [encoding, mediaType];
    } else {
      assert Trimmed(ids) == [Field(t.name(ContentId), Trim(Bracketed(a.contentId)))];
    }
  }

  function TrimField(f: Field): Field {
    Field(f.name, Trim(f.value))
  }

  lemma TrimmedAround(first: Field, middle: seq<Field>, f: Field, g: Field)
    ensures Trimmed([first] + (middle + [f, g]))
         == [TrimField(first)] + (Trimmed(middle) + [TrimField(f), TrimField(g)])
  {
    TrimmedConcat([first], middle + [f, g]);
    TrimmedConcat(middle, [f, g]);
  }

  lemma {:induction false} TrimmedConcat(a: seq<Field>, b: seq<Field>)
    ensures Trimmed(a + b) == Trimmed(a) + Trimmed(b)
  {
  }

  lemma LookUpNext(t: Terms, f: Field, fs: seq<Field>, k: PartKind)
    requires SoundTerms(t) && f.name == t.name(k)
    ensures Get([f] + fs, t.key(k)) == f.value
    ensures forall m :: m != k ==> Get([f] + fs, t.key(m)) == Get(fs, t.key(m))
  {
    assert ([f] + fs)[1..] == fs;
    assert Lower(f.name) == t.key(k);
  }

  /** A disposition is one printable word after another: there is nothing at its ends to trim. */
  lemma DispositionIsTight(t: Terms, a: Attachment)
    requires SoundTerms(t)
    ensures Trim(D.Format(KindOf(t, a), a.name)) == D.Format(KindOf(t, a), a.name)
  {
    D.FormatIsTight(KindOf(t, a), a.name);
    TrimTight(D.Format(KindOf(t, a), a.name));
  }

  lemma PlaceFile(t: Terms, fs: seq<Field>, a: Attachment, disposition: string, c: Content)
    requires SoundTerms(t) && ReadsAs(t, fs, disposition, PrintedId(a), Trim(TypeOf(t, a)))
    requires D.ReadKind(disposition) == KindOf(t, a)
    requires D.ReadFilename(D.WORDS, disposition) == if D.Sanitize(a.name) == "" then None else Some(D.Sanitize(a.name))
    ensures Place(t, fs, a.data, c) == Deliver(t, File(a), c)
  {
  }

  lemma PlaceAttachment(t: Terms, fs: seq<Field>, a: Attachment, c: Content)
    requires SoundTerms(t) && D.Octets(a.name)
    requires ReadsAs(t, fs, D.Format(KindOf(t, a), a.name), PrintedId(a), Trim(TypeOf(t, a)))
    ensures Place(t, fs, a.data, c) == Deliver(t, File(a), c)
  {
    D.WordsAreUsable();
    D.FilenameRoundTrip(D.WORDS, KindOf(t, a), a.name);
    PlaceFile(t, fs, a, D.Format(KindOf(t, a), a.name), c);
  }

  lemma ProcessFile(t: Terms, d: Decoders, a: Attachment, depth: nat, c: Content)
    requires SoundTerms(t) && D.Octets(a.name) && depth + 1 < MAX_DEPTH
    ensures ProcessPart(t, d, Trimmed(AttachmentFields(t, a)), BodyLines(a.data), depth, c)
         == DeliverAll(t, [File(a)], c)
  {
    var fs := Trimmed(AttachmentFields(t, a));
    AttachmentFieldsRead(t, a);
    DispositionIsTight(t, a);
    if IsContainer(t, a) {
      ProcessFalseContainer(t, d, fs, BodyLines(a.data), a, depth, c);
    } else {
      ProcessRead(t, d, fs, BodyLines(a.data), a, depth, c);
    }
  }

  lemma ProcessRead(t: Terms, d: Decoders, fs: seq<Field>, body: seq<string>, a: Attachment, depth: nat, c: Content)
    requires SoundTerms(t) && D.Octets(a.name) && !IsContainer(t, a) && IsBodyOf(body, a.data)
    requires ReadsAs(t, fs, D.Format(KindOf(t, a), a.name), PrintedId(a), Trim(TypeOf(t, a)))
    ensures ProcessPart(t, d, fs, body, depth, c) == DeliverAll(t, [File(a)], c)
  {
    ProcessLeaf(t, d, fs, body, a.data, depth, c);
    PlaceAttachment(t, fs, a, c);
    DeliverOne(t, File(a), c);
  }

  lemma ProcessFalseContainer(t: Terms, d: Decoders, fs: seq<Field>, body: seq<string>, a: Attachment, depth: nat,
          c: Content)
    requires IsContainer(t, a) && IsBodyOf(body, a.data) && depth + 1 < MAX_DEPTH
    requires Get(fs, t.key(Type)) == Trim(TypeOf(t, a))
    ensures ProcessPart(t, d, fs, body, depth, c) == DeliverAll(t, [File(a)], c)
  {
    var b := BoundaryOf(t, Trim(TypeOf(t, a)));
    BodyHasNoDashes(a.data);
    ProcessContainer(t, d, fs, body, b, depth, c);
    NeverEnds(t, d, body, b, depth + 1, c);
    DeliverOne(t, File(a), c);
  }

  lemma NeverEnds(t: Terms, d: Decoders, body: seq<string>, b: string, depth: nat, c: Content)
    requires NoDashes(body) && depth < MAX_DEPTH
    ensures ParseMultipart(t, d, body, b, depth, c) == Parsed(c, Some(if b == "" then NoBoundary else Truncated))
  {
    if b != "" {
      NoDelimiterNoEnd(t, d, body, b, depth, c);
    }
  }

  /** Without a delimiter line the search for the first part runs off the end. */
  lemma {:induction false} NoDelimiterNoEnd(t: Terms, d: Decoders, lines: seq<string>, b: string, depth: nat,
          c: Content)
    requires NoDashes(lines)
    ensures ParsePreamble(t, d, lines, b, depth, c) == Parsed(c, Some(Truncated))
    decreases |lines|
  {
    if lines != [] {
      assert !("--" <= lines[0]);
      PrefixOfPrefix("--", Opening(b), lines[0]);
      PrefixOfPrefix("--", Closing(b), lines[0]);
      assert "--" <= Opening(b) && "--" <= Closing(b);
      assert forall i :: 0 <= i < |lines[1..]| ==> lines[1..][i] == lines[i + 1];
      NoDelimiterNoEnd(t, d, lines[1..], b, depth, c);
    }
  }

  ghost predicate ItemOk(i: Item) {
    i.File? ==> D.Octets(i.file.name)
  }

  ghost predicate ItemsOk(items: seq<Item>) {
    forall k :: 0 <= k < |items| ==> ItemOk(items[k])
  }

  lemma ProcessItem(t: Terms, d: Decoders, i: Item, depth: nat, c: Content)
    requires SoundTerms(t) && ItemOk(i) && depth + 1 < MAX_DEPTH
    ensures ProcessPart(t, d, Trimmed(PartOf(t, i).fields), PartOf(t, i).body, depth, c) == DeliverAll(t, [i], c)
  {
    if i.File? {
      ProcessFile(t, d, i.file, depth, c);
    } else {
      ProcessBody(t, d, i, depth, c);
    }
  }

  /** Reading the parts of a list of items delivers the items. */
  lemma {:induction false} ProcessItems(t: Terms, d: Decoders, items: seq<Item>, depth: nat, c: Content)
    requires SoundTerms(t) && ItemsOk(items) && depth + 1 < MAX_DEPTH
    ensures ProcessAll(t, d, PartsOf(t, items), depth, c) == DeliverAll(t, items, c)
    decreases |items|
  {
    if items != [] {
      var i, rest := items[0], items[1..];
      assert ItemOk(i);
      ProcessItem(t, d, i, depth, c);
      DeliverOne(t, i, c);
      assert forall k :: 0 <= k < |rest| ==> rest[k] == items[k + 1];
      assert PartsOf(t, items)[0] == PartOf(t, i) && PartsOf(t, items)[1..] == PartsOf(t, rest);
      ProcessItems(t, d, rest, depth, Deliver(t, i, c));
    }
  }

  // ---- no line of a part can be taken for a delimiter ----

  ghost predicate NoDashes(lines: seq<string>) {
    forall i :: 0 <= i < |lines| ==> !("--" <= lines[i])
  }

  lemma NoDashesNoDelimiter(lines: seq<string>, b: string)
    requires NoDashes(lines)
    ensures NoDelimiter(lines, b)
  {
    assert "--" <= Opening(b);
    forall i | 0 <= i < |lines| ensures !StartsDelimiter(lines[i], b) {
      PrefixOfPrefix("--", Opening(b), lines[i]);
    }
  }

  lemma PrefixOfPrefix(a: string, b: string, c: string)
    ensures a <= b && b <= c ==> a <= c
  {
  }

  /** The alphabet of an encoding has no dash. */
  lemma BodyHasNoDashes(data: seq<Byte>)
    ensures NoDashes(BodyLines(data))
  {
    var s := B.Encode(data);
    B.EncodeAlphabet(data);
    B.LinesShape(s);
    assert !B.IsBase64('-');
    forall i | 0 <= i < |BodyLines(data)| ensures !("--" <= BodyLines(data)[i]) {
      var line := BodyLines(data)[i];
      if line != "" {
        assert line[0] in s;
        assert line[0] != '-';
      }
    }
  }

  lemma FieldLinesHaveNoDashes(fs: seq<Field>)
    requires UndashedNames(fs)
    ensures NoDashes(FieldLines(fs))
  {
    forall i | 0 <= i < |fs| ensures !("--" <= FieldLines(fs)[i]) {
      assert Line(fs[i])[0] == fs[i].name[0];
    }
  }

  lemma BodyFieldsArePrintable(t: Terms, mediaType: string)
    requires SoundTerms(t) && Steady(mediaType)
    ensures AllPrintable(BodyFields(t, mediaType))
  {
    assert D.PlainAscii(mediaType) && D.PlainAscii(t.charset);
    PlainTogether(mediaType, t.charset);
    ContentFieldsArePrintable(t, mediaType + t.charset);
  }

  lemma PlainTogether(a: string, b: string)
    requires D.PlainAscii(a) && D.PlainAscii(b)
    ensures OneLine(a + b)
  {
    D.PlainIsOneLine(a + b);
  }

  lemma ContentFieldsArePrintable(t: Terms, contentType: string)
    requires SoundTerms(t) && OneLine(contentType)
    ensures AllPrintable(ContentFields(t, contentType))
  {
    D.PlainIsOneLine(t.base64);
    TwoPrintable(Field(t.name(Encoding), t.base64), Field(t.name(Type), contentType));
  }

  lemma TwoPrintable(f: Field, g: Field)
    requires Printable(f) && Printable(g)
    ensures AllPrintable([f, g]) && AllPrintable([f])
  {
  }

  lemma AttachmentFieldsArePrintable(t: Terms, a: Attachment)
    requires SoundTerms(t)
    ensures AllPrintable(AttachmentFields(t, a))
  {
    DispositionIsOneLine(t, a);
    BracketedIsOneLine(a.contentId);
    TypeIsOneLine(t, a);
    ContentFieldsArePrintable(t, TypeOf(t, a));
    var kind := [Field(t.name(Disposition), D.Format(KindOf(t, a), a.name))];
    assert AllPrintable(kind);
    assert AllPrintable(IdFields(t, a));
    PrintableConcat(IdFields(t, a), ContentFields(t, TypeOf(t, a)));
    PrintableConcat(kind, IdFields(t, a) + ContentFields(t, TypeOf(t, a)));
  }

  lemma PrintableConcat(a: seq<Field>, b: seq<Field>)
    requires AllPrintable(a) && AllPrintable(b)
    ensures AllPrintable(a + b)
  {
  }

  lemma DispositionIsOneLine(t: Terms, a: Attachment)
    requires SoundTerms(t)
    ensures OneLine(D.Format(KindOf(t, a), a.name))
  {
    assert D.PlainAscii(KindOf(t, a));
    FormatIsOneLine(KindOf(t, a), a.name);
  }

  lemma FormatIsOneLine(kind: string, name: string)
    requires D.PlainAscii(kind)
    ensures OneLine(D.Format(kind, name))
  {
    D.WordsAreUsable();
    D.FormatIsPrintable(D.WORDS, kind, name);
    D.PlainIsOneLine(D.Format(kind, name));
  }

  lemma BracketedIsOneLine(id: string)
    ensures OneLine(Bracketed(id))
  {
    D.SanitizeIsLegal(id);
    D.LegalIsOneLine(D.Sanitize(id));
  }

  lemma TypeIsOneLine(t: Terms, a: Attachment)
    requires SoundTerms(t)
    ensures OneLine(TypeOf(t, a))
  {
    D.SanitizeIsLegal(a.mediaType);
    D.LegalIsOneLine(D.Sanitize(a.mediaType));
    D.PlainIsOneLine(t.octets);
  }

  lemma ItemIsReadable(t: Terms, i: Item, b: string)
    requires SoundTerms(t)
    ensures Readable(PartOf(t, i), b)
  {
    BodyHasNoDashes(DataOf(i));
    NoDashesNoDelimiter(BodyLines(DataOf(i)), b);
    match i
    case Plain(_) => BodyFieldsArePrintable(t, t.plain);
    case Html(_) => BodyFieldsArePrintable(t, t.html);
    case File(a) => AttachmentFieldsArePrintable(t, a);
  }

  lemma ItemsAreReadable(t: Terms, items: seq<Item>, b: string)
    requires SoundTerms(t)
    ensures AllReadable(PartsOf(t, items), b)
  {
    forall k | 0 <= k < |items| ensures Readable(PartsOf(t, items)[k], b) {
      ItemIsReadable(t, items[k], b);
    }
  }

  /** Printed inside another body, the lines of an inner one never look like the outer delimiter. */
  lemma {:induction false} InnerIsNoDelimiter(t: Terms, items: seq<Item>, alt: string, b: string)
    requires SoundTerms(t) && |alt| == |b| && alt != b
    ensures NoDelimiter(Multipart(alt, PartsOf(t, items)), b)
    decreases |items|
  {
    OtherBoundary(alt, b);
    if items != [] {
      var p, ps := PartOf(t, items[0]), PartsOf(t, items[1..]);
      InnerIsNoDelimiter(t, items[1..], alt, b);
      ItemHasNoDelimiter(t, items[0], b);
      assert PartsOf(t, items)[0] == p && PartsOf(t, items)[1..] == ps;
      NoDelimiterConcat(PartLines(p), Multipart(alt, ps), b);
      NoDelimiterConcat([Opening(alt)], PartLines(p) + Multipart(alt, ps), b);
    }
  }

  lemma NoDelimiterConcat(x: seq<string>, y: seq<string>, b: string)
    requires NoDelimiter(x, b) && NoDelimiter(y, b)
    ensures NoDelimiter(x + y, b)
  {
  }

  lemma OtherBoundary(alt: string, b: string)
    requires |alt| == |b| && alt != b
    ensures !StartsDelimiter(Opening(alt), b) && !StartsDelimiter(Closing(alt), b)
    ensures NoDelimiter([Opening(alt)], b)
  {
    assert Opening(alt)[2..] == alt && Opening(b)[2..] == b;
    assert Opening(alt) != Opening(b);
    assert Closing(alt)[..|Opening(alt)|] == Opening(alt);
  }

  lemma ItemHasNoDelimiter(t: Terms, i: Item, b: string)
    requires SoundTerms(t)
    ensures NoDelimiter(PartLines(PartOf(t, i)), b)
  {
    var p := PartOf(t, i);
    NamesHaveNoDashes(t, i);
    FieldLinesHaveNoDashes(p.fields);
    BodyHasNoDashes(DataOf(i));
    PartHasNoDelimiter(p, b);
  }

  predicate UndashedNames(fs: seq<Field>) {
    forall i :: 0 <= i < |fs| ==> fs[i].name != "" && fs[i].name[0] != '-'
  }

  lemma NamesHaveNoDashes(t: Terms, i: Item)
    requires SoundNames(t)
    ensures UndashedNames(PartOf(t, i).fields)
  {
    match i
    case Plain(_) => ContentNamesHaveNoDashes(t, t.plain + t.charset);
    case Html(_) => ContentNamesHaveNoDashes(t, t.html + t.charset);
    case File(a) => FileNamesHaveNoDashes(t, a);
  }

  lemma ContentNamesHaveNoDashes(t: Terms, contentType: string)
    requires SoundNames(t)
    ensures UndashedNames(ContentFields(t, contentType))
  {
  }

  lemma FileNamesHaveNoDashes(t: Terms, a: Attachment)
    requires SoundNames(t)
    ensures UndashedNames(AttachmentFields(t, a))
  {
    var content := ContentFields(t, TypeOf(t, a));
    ContentNamesHaveNoDashes(t, TypeOf(t, a));
    assert UndashedNames(IdFields(t, a));
    UndashedConcat(IdFields(t, a), content);
    UndashedConcat([Field(t.name(Disposition), D.Format(KindOf(t, a), a.name))], IdFields(t, a) + content);
  }

  lemma UndashedConcat(a: seq<Field>, b: seq<Field>)
    requires UndashedNames(a) && UndashedNames(b)
    ensures UndashedNames(a + b)
  {
  }

  lemma PartHasNoDelimiter(p: Part, b: string)
    requires NoDashes(FieldLines(p.fields)) && NoDashes(p.body)
    ensures NoDelimiter(PartLines(p), b)
  {
    NoDashesNoDelimiter(FieldLines(p.fields), b);
    NoDashesNoDelimiter([""], b);
    NoDashesNoDelimiter(p.body, b);
    NoDelimiterConcat([""], p.body, b);
    NoDelimiterConcat(FieldLines(p.fields), [""] + p.body, b);
  }

  // ---- two bodies in one ----

  lemma BoundaryIsRead(t: Terms, word: string, b: string)
    requires SoundTerms(t) && Steady(word) && SoundBoundary(b)
    ensures
      var value := word + M.Parameter(t.boundary, b);
      && Trim(value) == value && OneLine(value)
      && MediaType(value) == word && BoundaryOf(t, value) == b && M.Parse(value).ok
  {
    var printed := M.Parameter(t.boundary, b);
    BoundaryParameter(t, b);
    TrimBetween(word, printed);
    D.PlainIsOneLine(word + printed);
    assert M.StandsBefore(word, printed);
    M.PlainValue(t.boundary, b);
  }

  lemma BoundaryParameter(t: Terms, b: string)
    requires SoundTerms(t) && SoundBoundary(b)
    ensures
      var printed := M.Parameter(t.boundary, b);
      && printed != "" && printed[0] == ';' && !IsBlank(printed[|printed| - 1]) && D.PlainAscii(printed)
      && M.ReadParams(printed, []) == M.Good([M.Param(t.boundary, b)])
  {
    D.ParameterEnds(t.boundary, b);
    D.ParameterIsPlain(t.boundary, b);
    M.OneParameter(t.boundary, b);
  }

  lemma AlternativeIsReadable(t: Terms, items: seq<Item>, alt: string, b: string)
    requires SoundTerms(t) && SoundBoundary(alt) && |alt| == |b| && alt != b
    ensures Readable(AlternativePart(t, alt, PartsOf(t, items)), b)
  {
    BoundaryIsRead(t, t.alternative, alt);
    InnerIsNoDelimiter(t, items, alt, b);
    ReadableWith(Field(t.name(Type), t.alternative + M.Parameter(t.boundary, alt)),
                 Multipart(alt, PartsOf(t, items)), b);
  }

  lemma ReadableWith(f: Field, body: seq<string>, b: string)
    requires Printable(f) && NoDelimiter(body, b)
    ensures Readable(Part([f], body + [""]), b)
  {
    NoDashesNoDelimiter([""], b);
    NoDelimiterConcat(body, [""], b);
  }

  lemma ProcessAlternative(t: Terms, d: Decoders, items: seq<Item>, alt: string, depth: nat, c: Content)
    requires SoundTerms(t) && SoundBoundary(alt) && ItemsOk(items) && depth + 2 < MAX_DEPTH
    ensures
      var p := AlternativePart(t, alt, PartsOf(t, items));
      ProcessPart(t, d, Trimmed(p.fields), p.body, depth, c) == DeliverAll(t, items, c)
  {
    var p := AlternativePart(t, alt, PartsOf(t, items));
    BoundaryIsRead(t, t.alternative, alt);
    var fs := Trimmed(p.fields);
    assert fs == [p.fields[0]];
    LookUpOne(t, fs[0], Type);
    ProcessContainer(t, d, fs, p.body, alt, depth, c);
    ReadItems(t, d, items, alt, [""], depth + 1, c);
  }

  lemma ProcessContainer(t: Terms, d: Decoders, fs: seq<Field>, body: seq<string>, b: string, depth: nat, c: Content)
    requires t.multipart <= MediaType(Get(fs, t.key(Type)))
    requires BoundaryOf(t, Get(fs, t.key(Type))) == b
    ensures ProcessPart(t, d, fs, body, depth, c) == ParseMultipart(t, d, body, b, depth + 1, c)
  {
  }

  /** Printing items as a multipart body and reading it delivers the items. */
  lemma ReadItems(t: Terms, d: Decoders, items: seq<Item>, b: string, epilogue: seq<string>, depth: nat, c: Content)
    requires SoundTerms(t) && SoundBoundary(b) && ItemsOk(items) && depth + 1 < MAX_DEPTH
    ensures ParseMultipart(t, d, Multipart(b, PartsOf(t, items)) + epilogue, b, depth, c) == DeliverAll(t, items, c)
  {
    ItemsAreReadable(t, items, b);
    ParseMultipartPrinted(t, d, PartsOf(t, items), b, epilogue, depth, c);
    ProcessItems(t, d, items, depth, c);
  }
}
