/**
 * Multipart bodies as lines: the printer of utils.go and the recursive reader
 * of utils.go over the multipart syntax of section 5.1.1 of RFC 2046.
 */
module MimeTree {
  import opened Prelude
  import opened Wire
  import D = Disposition
  import M = MediaTypes
  import B = Base64

  // ---- the vocabulary ----

  /** The fields of a part, in the order they are printed. */
  datatype PartKind = Disposition | ContentId | Encoding | Type

  datatype Terms = Terms(
    name: PartKind -> string, key: PartKind -> string,
    plain: string, html: string, mixed: string, alternative: string, multipart: string,
    octets: string, charset: string, boundary: string,
    base64: string, quotedPrintable: string, attachment: string, inline: string)

  function MediaType(value: string): string {
    M.Parse(value).kind
  }

  /** A media type or a disposition that reads as itself. */
  ghost predicate Steady(word: string) {
    M.Stands(word) && M.Visible(word) && Lower(word) == word
  }

  ghost predicate SoundTerms(t: Terms) {
    SoundNames(t) && SoundWords(t) && SoundContainers(t) && SoundParameters(t)
  }

  ghost predicate SoundNames(t: Terms) {
    && (forall k :: ValidName(t.name(k)) && t.name(k)[0] != '-' && Lower(t.name(k)) == t.key(k))
    && (forall k, l :: t.key(k) == t.key(l) ==> k == l)
  }

  ghost predicate SoundWords(t: Terms) {
    && Steady(t.plain) && Steady(t.html) && Steady(t.mixed) && Steady(t.alternative)
    && Steady(t.base64) && Steady(t.attachment) && Steady(t.inline) && Steady(t.octets)
  }

  /** The container types, and only those, begin with `multipart`. */
  ghost predicate SoundContainers(t: Terms) {
    && t.plain != t.html && t.multipart != ""
    && t.multipart <= t.mixed && t.multipart <= t.alternative
    && !(t.multipart <= t.plain) && !(t.multipart <= t.html) && !(t.multipart <= t.octets)
  }

  ghost predicate SoundParameters(t: Terms) {
    && D.PlainAscii(t.charset) && t.charset != "" && t.charset[0] == ';' && !IsBlank(t.charset[|t.charset| - 1])
    && M.AreParams(t.charset) && M.UsableName(t.boundary)
  }

  /** A boundary as the library makes them: nothing in it needs quoting. */
  ghost predicate SoundBoundary(b: string) {
    M.IsToken(b) && D.PlainAscii(b)
  }

  // ---- printing ----

  /** Header fields, and the lines of the content. */
  datatype Part = Part(fields: seq<Field>, body: seq<string>)

  function PartLines(p: Part): seq<string> {
    FieldLines(p.fields) + ([""] + p.body)
  }

  function Opening(b: string): string {
    "--" + b
  }

  function Closing(b: string): string {
    Opening(b) + "--"
  }

  function Multipart(b: string, ps: seq<Part>): seq<string> {
    if ps == [] then [Closing(b)] else [Opening(b)] + (PartLines(ps[0]) + Multipart(b, ps[1..]))
  }

  // ---- delimiter lines ----

  predicate AllBlank(s: string) {
    forall i :: 0 <= i < |s| ==> IsBlank(s[i])
  }

  /** Ends the part before it, well formed or not. */
  predicate StartsDelimiter(line: string, b: string) {
    var open := Opening(b);
    open <= line && (|line| == |open| || IsBlank(line[|open|]) || "--" <= line[|open|..])
  }

  predicate IsDelimiter(line: string, b: string) {
    Opening(b) <= line && AllBlank(line[|Opening(b)|..])
  }

  predicate IsClose(line: string, b: string) {
    Closing(b) <= line && AllBlank(line[|Closing(b)|..])
  }

  lemma Delimiters(b: string)
    ensures StartsDelimiter(Opening(b), b) && IsDelimiter(Opening(b), b) && !IsClose(Opening(b), b)
    ensures StartsDelimiter(Closing(b), b) && IsClose(Closing(b), b)
  {
    assert Closing(b)[|Opening(b)|..] == "--";
  }

  predicate NoDelimiter(lines: seq<string>, b: string) {
    forall i :: 0 <= i < |lines| ==> !StartsDelimiter(lines[i], b)
  }

  /** The lines before the first that ends a part, and the lines from it on. */
  function UntilDelimiter(lines: seq<string>, b: string): (r: (seq<string>, seq<string>))
    ensures |r.0| + |r.1| == |lines|
  {
    if lines == [] then ([], [])
    else if StartsDelimiter(lines[0], b) then ([], lines)
    else
      var (body, rest) := UntilDelimiter(lines[1..], b);
      ([lines[0]] + body, rest)
  }

  lemma {:induction false} UntilOf(body: seq<string>, next: seq<string>, b: string)
    requires NoDelimiter(body, b) && next != [] && StartsDelimiter(next[0], b)
    ensures UntilDelimiter(body + next, b) == (body, next)
    decreases |body|
  {
    var lines := body + next;
    if body == [] {
      assert lines == next;
    } else {
      assert lines[0] == body[0] && lines[1..] == body[1..] + next;
      assert !StartsDelimiter(body[0], b);
      assert forall i :: 0 <= i < |body[1..]| ==> body[1..][i] == body[i + 1];
      UntilOf(body[1..], next, b);
      assert body == [body[0]] + body[1..];
    }
  }

  // ---- reading ----

  datatype Attachment = Attachment(name: string, mediaType: string, contentId: string, data: seq<Byte>)

  datatype Content = Content(body: seq<Byte>, html: seq<Byte>, attachments: seq<Attachment>)

  const EMPTY := Content([], [], [])

  datatype Error =
    | TooDeeplyNested
    | NoBoundary
    | Truncated
    | UnexpectedLine
    | BadHeader
    | Undecodable(cause: B.ReadError)

  /** What the e-mail holds so far, and what stopped the reading. */
  datatype Parsed = Parsed(content: Content, error: Option<Error>)

  /** Go's other transfer decodings. */
  datatype Decoders = Decoders(quotedPrintable: string -> B.Decoded, verbatim: string -> B.Decoded)

  const MAX_DEPTH := 10

  function DecoderFor(t: Terms, d: Decoders, encoding: string): string -> B.Decoded {
    var e := Lower(Trim(encoding));
    if e == t.base64 then B.DecodeText
    else if e == t.quotedPrintable then d.quotedPrintable
    else d.verbatim
  }

  function BoundaryOf(t: Terms, contentType: string): string {
    M.OrEmpty(M.Value(M.Parse(contentType).params, t.boundary))
  }

  /** The angle brackets of a content ID, as many as there are. */
  function TrimAngles(s: string): string
    decreases |s|
  {
    if s != "" && (s[0] == '<' || s[0] == '>') then TrimAngles(s[1..])
    else if s != "" && (s[|s| - 1] == '<' || s[|s| - 1] == '>') then TrimAngles(s[..|s| - 1])
    else s
  }

  function FilenameOf(disposition: string): string {
    M.OrEmpty(D.ReadFilename(D.WORDS, disposition))
  }

  /** Where a decoded part goes. */
  function Place(t: Terms, fields: seq<Field>, data: seq<Byte>, c: Content): Content {
    var contentType := Get(fields, t.key(Type));
    var disposition := Get(fields, t.key(Disposition));
    var contentId := TrimAngles(Get(fields, t.key(ContentId)));
    var filename := FilenameOf(disposition);
    var kind := MediaType(disposition);
    if kind == t.attachment || kind == t.inline || filename != "" then
      var name := if filename == "" then t.attachment else filename;
      c.(attachments := c.attachments + [Attachment(name, contentType, contentId, data)])
    else if MediaType(contentType) == t.plain then c.(body := data)
    else if MediaType(contentType) == t.html then c.(html := data)
    else c.(attachments := c.attachments + [Attachment(filename, contentType, contentId, data)])
  }

  function ProcessPart(t: Terms, d: Decoders, fields: seq<Field>, body: seq<string>, depth: nat, c: Content): Parsed
    decreases |body|, 3
  {
    var contentType := Get(fields, t.key(Type));
    if t.multipart <= MediaType(contentType) then
      ParseMultipart(t, d, body, BoundaryOf(t, contentType), depth + 1, c)
    else
      match B.DecodePart(DecoderFor(t, d, Get(fields, t.key(Encoding))), B.Join(body))
      case Err(e) => Parsed(c, Some(Undecodable(e)))
      case Ok(data) => Parsed(Place(t, fields, data, c), None)
  }

  function ParseMultipart(t: Terms, d: Decoders, lines: seq<string>, b: string, depth: nat, c: Content): Parsed
    decreases |lines|, 2
  {
    if depth >= MAX_DEPTH then Parsed(c, Some(TooDeeplyNested))
    else if b == "" then Parsed(c, Some(NoBoundary))
    else ParsePreamble(t, d, lines, b, depth, c)
  }

  /** Lines before the first delimiter do not count. */
  function ParsePreamble(t: Terms, d: Decoders, lines: seq<string>, b: string, depth: nat, c: Content): Parsed
    decreases |lines|, 1
  {
    if lines != [] && !IsDelimiter(lines[0], b) && !IsClose(lines[0], b)
    then ParsePreamble(t, d, lines[1..], b, depth, c)
    else ParseParts(t, d, lines, b, depth, c)
  }

  function ParseParts(t: Terms, d: Decoders, lines: seq<string>, b: string, depth: nat, c: Content): Parsed
    decreases |lines|, 0
  {
    if lines == [] then Parsed(c, Some(Truncated))
    else if IsClose(lines[0], b) then Parsed(c, None)
    else if !IsDelimiter(lines[0], b) then Parsed(c, Some(UnexpectedLine))
    else
      match ReadFields(lines[1..])
      case None => Parsed(c, Some(BadHeader))
      case Some((fields, after)) =>
        var (body, rest) := UntilDelimiter(after, b);
        if rest == [] then Parsed(c, Some(Truncated))
        else
          var r := ProcessPart(t, d, fields, body, depth, c);
          if r.error.Some? then r else ParseParts(t, d, rest, b, depth, r.content)
  }

  // ---- printing and reading ----

  /** What reading a list of parts one after the other comes to. */
  function ProcessAll(t: Terms, d: Decoders, ps: seq<Part>, depth: nat, c: Content): Parsed
    decreases |ps|
  {
    if ps == [] then Parsed(c, None)
    else
      var r := ProcessPart(t, d, Trimmed(ps[0].fields), ps[0].body, depth, c);
      if r.error.Some? then r else ProcessAll(t, d, ps[1..], depth, r.content)
  }

  ghost predicate Readable(p: Part, b: string) {
    AllPrintable(p.fields) && NoDelimiter(p.body, b)
  }

  ghost predicate AllReadable(ps: seq<Part>, b: string) {
    forall i :: 0 <= i < |ps| ==> Readable(ps[i], b)
  }

  lemma MultipartStarts(b: string, ps: seq<Part>)
    ensures Multipart(b, ps) != [] && StartsDelimiter(Multipart(b, ps)[0], b)
  {
    Delimiters(b);
  }

  /** A printed part is found again: its fields, its content, and where it ends. */
  lemma ReadPrintedPart(p: Part, next: seq<string>, b: string)
    requires Readable(p, b) && next != [] && StartsDelimiter(next[0], b)
    ensures ReadFields(PartLines(p) + next) == Some((Trimmed(p.fields), p.body + next))
    ensures UntilDelimiter(p.body + next, b) == (p.body, next)
  {
    ReadPrintedFields(p.fields, p.body + next);
    assert PartLines(p) + next == FieldLines(p.fields) + ([""] + (p.body + next));
    UntilOf(p.body, next, b);
  }

  lemma ParseOnePart(t: Terms, d: Decoders, p: Part, next: seq<string>, b: string, depth: nat, c: Content,
          lines: seq<string>)
    requires Readable(p, b) && next != [] && StartsDelimiter(next[0], b)
    requires lines == [Opening(b)] + (PartLines(p) + next)
    ensures
      var r := ProcessPart(t, d, Trimmed(p.fields), p.body, depth, c);
      ParseParts(t, d, lines, b, depth, c) == if r.error.Some? then r else ParseParts(t, d, next, b, depth, r.content)
  {
    Delimiters(b);
    assert lines[0] == Opening(b);
    assert lines[1..] == PartLines(p) + next;
    ReadPrintedPart(p, next, b);
  }

  /** Reading a printed multipart body processes exactly its parts, in order; nothing after it matters. */
  lemma {:induction false} ParsePrinted(t: Terms, d: Decoders, ps: seq<Part>, b: string, epilogue: seq<string>,
          depth: nat, c: Content)
    requires AllReadable(ps, b)
    ensures ParseParts(t, d, Multipart(b, ps) + epilogue, b, depth, c) == ProcessAll(t, d, ps, depth, c)
    decreases |ps|
  {
    var lines := Multipart(b, ps) + epilogue;
    if ps == [] {
      Delimiters(b);
      assert lines[0] == Closing(b);
    } else {
      var p, rest := ps[0], ps[1..];
      var next := Multipart(b, rest) + epilogue;
      assert Readable(p, b);
      assert forall i :: 0 <= i < |rest| ==> rest[i] == ps[i + 1];
      MultipartStarts(b, rest);
      assert lines == [Opening(b)] + (PartLines(p) + next);
      ParseOnePart(t, d, p, next, b, depth, c, lines);
      var r := ProcessPart(t, d, Trimmed(p.fields), p.body, depth, c);
      if r.error.None? {
        ParsePrinted(t, d, rest, b, epilogue, depth, r.content);
      }
    }
  }

  lemma ParseMultipartPrinted(t: Terms, d: Decoders, ps: seq<Part>, b: string, epilogue: seq<string>, depth: nat,
          c: Content)
    requires AllReadable(ps, b) && b != "" && depth < MAX_DEPTH
    ensures ParseMultipart(t, d, Multipart(b, ps) + epilogue, b, depth, c) == ProcessAll(t, d, ps, depth, c)
  {
    Delimiters(b);
    ParsePrinted(t, d, ps, b, epilogue, depth, c);
    assert (Multipart(b, ps) + epilogue)[0] == if ps == [] then Closing(b) else Opening(b);
  }
}
