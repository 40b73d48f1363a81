/** The renderer and the reader of utils.go as they run: one appends to a buffer, the other fills an e-mail in place. */
module MessageObjects {
  import opened Prelude
  import opened Wire
  import opened MimeTree
  import opened Message
  import opened RawMessage
  import H = HeaderBlock
  import M = MediaTypes
  import B = Base64

  // ---- the text of a multipart body ----

  /** A part as it is written: only the first follows directly on what is there. */
  function PartStart(b: string, first: bool, fields: seq<Field>): string {
    (if first then "" else CRLF) + (Opening(b) + CRLF + (H.Printed(fields) + CRLF))
  }

  function PartText(b: string, first: bool, p: Part): string {
    PartStart(b, first, p.fields) + B.Join(p.body)
  }

  /** The parts from some point on, and the end of the body. */
  function Written(b: string, first: bool, ps: seq<Part>): string
    decreases |ps|
  {
    if ps == [] then CRLF + Closing(b) + CRLF
    else PartText(b, first, ps[0]) + Written(b, false, ps[1..])
  }

  ghost predicate AllHaveBodies(ps: seq<Part>) {
    forall i :: 0 <= i < |ps| ==> ps[i].body != []
  }

  lemma PartPrinted(b: string, p: Part, rest: seq<string>)
    requires p.body != []
    ensures Print([Opening(b)] + (PartLines(p) + rest)) == PartText(b, true, p) + (CRLF + Print(rest))
  {
    PrintConcat([Opening(b)], PartLines(p) + rest);
    PrintConcat(PartLines(p), rest);
    PrintOne(Opening(b));
    PartLinesPrinted(p);
    InOrder(Opening(b) + CRLF, H.Printed(p.fields) + CRLF, B.Join(p.body), CRLF, Print(rest));
  }

  lemma PartLinesPrinted(p: Part)
    requires p.body != []
    ensures Print(PartLines(p)) == H.Printed(p.fields) + CRLF + (B.Join(p.body) + CRLF)
  {
    PrintConcat(FieldLines(p.fields), [""] + p.body);
    PrintConcat([""], p.body);
    PrintOne("");
    PrintJoined(p.body);
    InThree(H.Printed(p.fields), CRLF, B.Join(p.body) + CRLF);
  }

  lemma InThree(x: string, y: string, z: string)
    ensures x + ("" + y + z) == x + y + z
  {
  }

  lemma InOrder(x: string, f: string, d: string, e: string, y: string)
    ensures x + ((f + (d + e)) + y) == "" + (x + f) + d + (e + y)
  {
  }

  lemma PrintOne(line: string)
    ensures Print([line]) == line + CRLF
  {
    assert [line][1..] == [];
  }

  /** After the first part, a line break comes before every delimiter. */
  lemma {:induction false} WrittenLater(b: string, ps: seq<Part>)
    requires AllHaveBodies(ps)
    ensures Written(b, false, ps) == CRLF + Print(Multipart(b, ps))
    decreases |ps|
  {
    if ps == [] {
      PrintOne(Closing(b));
    } else {
      var rest := ps[1..];
      assert forall i :: 0 <= i < |rest| ==> rest[i] == ps[i + 1];
      WrittenLater(b, rest);
      PartPrinted(b, ps[0], Multipart(b, rest));
      FirstOrNot(b, ps[0]);
    }
  }

  lemma FirstOrNot(b: string, p: Part)
    ensures PartText(b, false, p) == CRLF + PartText(b, true, p)
  {
  }

  lemma WrittenFirst(b: string, ps: seq<Part>)
    requires AllHaveBodies(ps) && ps != []
    ensures Written(b, true, ps) == Print(Multipart(b, ps))
  {
    var rest := ps[1..];
    assert forall i :: 0 <= i < |rest| ==> rest[i] == ps[i + 1];
    WrittenLater(b, rest);
    PartPrinted(b, ps[0], Multipart(b, rest));
  }

  // ---- the renderer ----

  method WriteBase64(w: H.Builder, data: seq<Byte>)
    modifies w
    ensures w.out == old(w.out) + B.Join(BodyLines(data))
  {
    var encoded := B.Encode(data);
    assert [encoded][1..] == [];
    assert B.Concat([encoded]) == encoded + "" == encoded;
    var text := B.WriteMimeBase64(data, [encoded]);
    w.out := w.out + text;
  }

  method CreatePart(w: H.Builder, b: string, first: bool, fields: seq<Field>)
    modifies w
    ensures w.out == old(w.out) + PartStart(b, first, fields)
  {
    if !first {
      w.out := w.out + CRLF;
    }
    w.out := w.out + (Opening(b) + CRLF + (H.Printed(fields) + CRLF));
    assert first ==> old(w.out) + "" == old(w.out);
  }

  method WriteBodyPart(w: H.Builder, t: Terms, b: string, first: bool, mediaType: string, data: seq<Byte>)
    modifies w
    ensures w.out == old(w.out) + PartText(b, first, BodyPart(t, mediaType, data))
  {
    CreatePart(w, b, first, BodyFields(t, mediaType));
    WriteBase64(w, data);
    H.Regroup(old(w.out), PartStart(b, first, BodyFields(t, mediaType)), B.Join(BodyLines(data)));
  }

  method WriteAttachmentPart(w: H.Builder, t: Terms, b: string, a: Attachment)
    modifies w
    ensures w.out == old(w.out) + PartText(b, false, AttachmentPart(t, a))
  {
    CreatePart(w, b, false, AttachmentFields(t, a));
    WriteBase64(w, a.data);
    H.Regroup(old(w.out), PartStart(b, false, AttachmentFields(t, a)), B.Join(BodyLines(a.data)));
  }

  method Close(w: H.Builder, b: string)
    modifies w
    ensures w.out == old(w.out) + Written(b, false, [])
  {
    w.out := w.out + (CRLF + Closing(b) + CRLF);
  }

  /** The attachments follow the bodies, so none is the first part; then the body is closed. */
  method WriteRest(w: H.Builder, t: Terms, b: string, atts: seq<Attachment>)
    modifies w
    ensures w.out == old(w.out) + Written(b, false, PartsOf(t, Files(atts)))
  {
    assert atts[0..] == atts;
    for i := 0 to |atts|
      invariant w.out + Written(b, false, PartsOf(t, Files(atts[i..])))
           == old(w.out) + Written(b, false, PartsOf(t, Files(atts)))
    {
      WrittenStep(t, b, atts, i);
      H.Regroup(w.out, PartText(b, false, AttachmentPart(t, atts[i])),
                Written(b, false, PartsOf(t, Files(atts[i + 1..]))));
      WriteAttachmentPart(w, t, b, atts[i]);
    }
    Close(w, b);
  }

  lemma WrittenStep(t: Terms, b: string, atts: seq<Attachment>, i: nat)
    requires i < |atts|
    ensures Written(b, false, PartsOf(t, Files(atts[i..]))) ==
      PartText(b, false, AttachmentPart(t, atts[i])) + Written(b, false, PartsOf(t, Files(atts[i + 1..])))
  {
    var rest := atts[i..];
    assert rest[0] == atts[i] && rest[1..] == atts[i + 1..];
    assert Files(rest)[1..] == Files(rest[1..]);
    var ps := PartsOf(t, Files(rest));
    assert ps[0] == AttachmentPart(t, atts[i]);
    assert ps[1..] == PartsOf(t, Files(rest[1..]));
  }

  lemma {:induction false} JoinEnd(lines: seq<string>)
    requires lines != []
    ensures B.Join(lines + [""]) == Print(lines)
    decreases |lines|
  {
    var all := lines + [""];
    if |lines| == 1 {
      assert all[1..] == [""];
      assert lines[1..] == [];
    } else {
      assert all[1..] == lines[1..] + [""];
      JoinEnd(lines[1..]);
    }
  }

  lemma WrittenOne(b: string, first: bool, p: Part, rest: seq<Part>)
    ensures Written(b, first, [p] + rest) == PartText(b, first, p) + Written(b, false, rest)
  {
    assert ([p] + rest)[1..] == rest;
  }

  lemma BodiesHaveBodies(t: Terms, items: seq<Item>)
    ensures AllHaveBodies(PartsOf(t, items))
  {
    forall i | 0 <= i < |items| ensures PartsOf(t, items)[i].body != [] {
      assert PartsOf(t, items)[i] == PartOf(t, items[i]);
    }
  }

  /** What is written of two parts is their printed form. */
  lemma AlternativeWritten(t: Terms, alt: string, x: Item, y: Item)
    ensures B.Join(AlternativePart(t, alt, PartsOf(t, [x, y])).body) ==
      PartText(alt, true, PartOf(t, x)) + (PartText(alt, false, PartOf(t, y)) + Written(alt, false, []))
  {
    var ps := PartsOf(t, [x, y]);
    TwoParts(t, x, y);
    BodiesHaveBodies(t, [x, y]);
    WrittenFirst(alt, ps);
    MultipartStarts(alt, ps);
    JoinEnd(Multipart(alt, ps));
    WrittenOne(alt, true, PartOf(t, x), [PartOf(t, y)]);
    WrittenOne(alt, false, PartOf(t, y), []);
    assert [PartOf(t, y)] + [] == [PartOf(t, y)];
  }

  lemma TwoParts(t: Terms, x: Item, y: Item)
    ensures PartsOf(t, [x, y]) == [PartOf(t, x)] + [PartOf(t, y)]
  {
    assert [x, y][1..] == [y];
    assert [y][1..] == [];
  }

  /** Both bodies in a container of their own. */
  method WriteAlternative(w: H.Builder, t: Terms, b: string, alt: string, c: Content)
    modifies w
    ensures w.out == old(w.out) + PartText(b, true, AlternativePart(t, alt, PartsOf(t, [Plain(c.body), Html(c.html)])))
  {
    ghost var p := AlternativePart(t, alt, PartsOf(t, [Plain(c.body), Html(c.html)]));
    CreatePart(w, b, true, [Field(t.name(Type), t.alternative + M.Parameter(t.boundary, alt))]);
    ghost var start := w.out;
    WriteTwo(w, t, alt, c);
    AlternativeWritten(t, alt, Plain(c.body), Html(c.html));
    H.Regroup(old(w.out), PartStart(b, true, p.fields), B.Join(p.body));
  }

  method WriteTwo(w: H.Builder, t: Terms, alt: string, c: Content)
    modifies w
    ensures w.out == old(w.out) + (PartText(alt, true, PartOf(t, Plain(c.body)))
      + (PartText(alt, false, PartOf(t, Html(c.html))) + Written(alt, false, [])))
  {
    ghost var start := w.out;
    WriteBodyPart(w, t, alt, true, t.plain, c.body);
    WriteBodyPart(w, t, alt, false, t.html, c.html);
    Close(w, alt);
    Three(start, PartText(alt, true, BodyPart(t, t.plain, c.body)),
          PartText(alt, false, BodyPart(t, t.html, c.html)), Written(alt, false, []));
  }

  lemma Three(a: string, x: string, y: string, z: string)
    ensures a + x + y + z == a + (x + (y + z))
  {
  }

  method WriteBodies(w: H.Builder, t: Terms, isHtml: seq<Byte> -> bool, c: Content, b: string, alt: string)
    requires IsMultipart(c)
    modifies w
    ensures w.out + Written(b, false, PartsOf(t, Files(c.attachments)))
         == old(w.out) + Written(b, true, TopParts(t, isHtml, c, alt))
  {
    ghost var files := PartsOf(t, Files(c.attachments));
    ghost var before := w.out;
    if HasBoth(c) {
      if |c.attachments| > 0 {
        WriteAlternative(w, t, b, alt, c);
        ghost var inner := AlternativePart(t, alt, PartsOf(t, [Plain(c.body), Html(c.html)]));
        WrittenOne(b, true, inner, files);
        H.Regroup(before, PartText(b, true, inner), Written(b, false, files));
      } else {
        WriteBodyPart(w, t, b, true, t.plain, c.body);
        WriteBodyPart(w, t, b, false, t.html, c.html);
        TwoBodies(t, b, Plain(c.body), Html(c.html), before);
        assert Bodies(isHtml, c) + Files(c.attachments) == [Plain(c.body), Html(c.html)];
      }
    } else {
      var (data, html) := MainBody(isHtml, c);
      WriteBodyPart(w, t, b, true, if html then t.html else t.plain, data);
      ghost var only := if html then Html(data) else Plain(data);
      OneBody(t, b, only, Files(c.attachments));
      H.Regroup(before, PartText(b, true, PartOf(t, only)), Written(b, false, files));
    }
  }

  lemma TwoBodies(t: Terms, b: string, x: Item, y: Item, before: string)
    ensures before + PartText(b, true, PartOf(t, x)) + PartText(b, false, PartOf(t, y)) + Written(b, false, [])
      == before + Written(b, true, PartsOf(t, [x, y]))
  {
    TwoParts(t, x, y);
    WrittenOne(b, true, PartOf(t, x), [PartOf(t, y)]);
    WrittenOne(b, false, PartOf(t, y), []);
    assert [PartOf(t, y)] + [] == [PartOf(t, y)];
    Three(before, PartText(b, true, PartOf(t, x)), PartText(b, false, PartOf(t, y)), Written(b, false, []));
  }

  lemma OneBody(t: Terms, b: string, x: Item, files: seq<Item>)
    ensures Written(b, true, PartsOf(t, [x] + files))
         == PartText(b, true, PartOf(t, x)) + Written(b, false, PartsOf(t, files))
  {
    assert ([x] + files)[1..] == files;
    WrittenOne(b, true, PartOf(t, x), PartsOf(t, files));
  }

  lemma TopPartsHaveBodies(t: Terms, isHtml: seq<Byte> -> bool, c: Content, alt: string)
    ensures AllHaveBodies(TopParts(t, isHtml, c, alt)) && TopParts(t, isHtml, c, alt) != []
  {
    var bodies, files := Bodies(isHtml, c), Files(c.attachments);
    BodiesHaveBodies(t, files);
    BodiesHaveBodies(t, bodies + files);
    var ps := TopParts(t, isHtml, c, alt);
    if HasBoth(c) && c.attachments != [] {
      assert ps[0].body != [];
      assert forall i :: 0 < i < |ps| ==> ps[i] == PartsOf(t, files)[i - 1];
    }
  }

  /** The printed message, piece by piece. */
  lemma MessagePrinted(block: seq<Field>, p: Part)
    ensures Print(RenderLines(block, p)) == H.Printed(block) + H.Printed(p.fields) + CRLF + Print(p.body)
  {
    H.PrintedConcat(block, p.fields);
    PrintConcat(FieldLines(block + p.fields), [""] + p.body);
    PrintConcat([""], p.body);
    PrintOne("");
  }

  /** Renders into a fresh buffer. */
  method RenderMessage(lib: H.Library, v: H.Vocabulary, t: Terms, isHtml: seq<Byte> -> bool,
                       e: H.Envelope, names: seq<string>, c: Content, b: string, alt: string)
    returns (r: Result<string, string>)
    requires forall n :: n in names ==> n in e.headers
    requires SoundTerms(t) && SoundBoundary(b)
    ensures
      match H.Block(lib, v, e, names)
      case Err(bad) => r == Err(bad)
      case Ok(block) => r == Ok(Print(RenderLines(block, RenderContent(t, isHtml, c, b, alt))))
  {
    var w := new H.Builder();
    var bad := w.BuildHeader(lib, v, e, names);
    if bad.Some? {
      return Err(bad.value);
    }
    ghost var block := H.Block(lib, v, e, names).value;
    ghost var p := RenderContent(t, isHtml, c, b, alt);
    assert w.out == H.Printed(block);
    ContentTypeIsRead(t, isHtml, c, b);
    MessagePrinted(block, p);
    var contentType := ContentType(t, isHtml, c, b);
    if IsMultipart(c) {
      WriteContainer(w, t, isHtml, c, b, alt, contentType);
    } else {
      WriteAlone(w, t, isHtml, c, contentType);
    }
    return Ok(w.out);
  }

  method WriteAlone(w: H.Builder, t: Terms, isHtml: seq<Byte> -> bool, c: Content, contentType: string)
    requires SoundTerms(t) && contentType != ""
    modifies w
    ensures w.out == old(w.out)
                     + H.Printed([Field(t.name(Type), contentType)] + [Field(t.name(Encoding), t.base64)]) + CRLF
      + Print(BodyLines(MainBody(isHtml, c).0))
  {
    WriteContentFields(w, t, contentType);
    w.out := w.out + CRLF;
    ghost var start := w.out;
    WriteBase64(w, MainBody(isHtml, c).0);
    w.out := w.out + CRLF;
    PrintJoined(BodyLines(MainBody(isHtml, c).0));
    H.Regroup(start, B.Join(BodyLines(MainBody(isHtml, c).0)), CRLF);
  }

  method WriteContentFields(w: H.Builder, t: Terms, contentType: string)
    requires SoundTerms(t) && contentType != ""
    modifies w
    ensures w.out == old(w.out) + H.Printed([Field(t.name(Type), contentType)] + [Field(t.name(Encoding), t.base64)])
  {
    ghost var first, second := Field(t.name(Type), contentType), Field(t.name(Encoding), t.base64);
    H.PrintedMore(first.name, first.value, [second]);
    H.PrintedMore(second.name, second.value, []);
    assert [second] + [] == [second];
    w.WriteHeader(t.name(Type), contentType);
    w.WriteHeader(t.name(Encoding), t.base64);
    H.Regroup(old(w.out), H.PrintedField(first.name, first.value), H.PrintedField(second.name, second.value));
  }

  method WriteContainer(w: H.Builder, t: Terms, isHtml: seq<Byte> -> bool, c: Content, b: string, alt: string,
          contentType: string)
    requires IsMultipart(c) && contentType != ""
    modifies w
    ensures w.out == old(w.out) + H.Printed([Field(t.name(Type), contentType)] + []) + CRLF
      + Print(Multipart(b, TopParts(t, isHtml, c, alt)) + [""])
  {
    H.PrintedMore(t.name(Type), contentType, []);
    w.WriteHeader(t.name(Type), contentType);
    w.out := w.out + CRLF;
    ghost var start := w.out;
    WriteBodies(w, t, isHtml, c, b, alt);
    WriteRest(w, t, b, c.attachments);
    assert w.out == start + Written(b, true, TopParts(t, isHtml, c, alt));
    w.out := w.out + CRLF;
    ContainerPrinted(t, isHtml, c, b, alt);
    H.Regroup(start, Written(b, true, TopParts(t, isHtml, c, alt)), CRLF);
  }

  lemma ContainerPrinted(t: Terms, isHtml: seq<Byte> -> bool, c: Content, b: string, alt: string)
    ensures Print(Multipart(b, TopParts(t, isHtml, c, alt)) + [""])
         == Written(b, true, TopParts(t, isHtml, c, alt)) + CRLF
  {
    TopPartsHaveBodies(t, isHtml, c, alt);
    WrittenFirst(b, TopParts(t, isHtml, c, alt));
    PrintConcat(Multipart(b, TopParts(t, isHtml, c, alt)), [""]);
    PrintOne("");
  }

  // ---- the reader ----

  class Email {
    var body: seq<Byte>
    var html: seq<Byte>
    var attachments: seq<Attachment>

    constructor ()
      ensures View() == EMPTY
    {
      body, html, attachments := [], [], [];
    }

    ghost function View(): Content
      reads this
    {
      Content(body, html, attachments)
    }

    /** The rest of processPart: where the decoded data goes. */
    method Keep(t: Terms, fields: seq<Field>, data: seq<Byte>)
      modifies this
      ensures View() == Place(t, fields, data, old(View()))
    {
      var contentType := Get(fields, t.key(Type));
      var mediaType := MediaType(contentType);
      var disposition := Get(fields, t.key(Disposition));
      var kind := MediaType(disposition);
      var contentId := TrimAngles(Get(fields, t.key(ContentId)));
      var filename := FilenameOf(disposition);
      if kind == t.attachment || kind == t.inline || filename != "" {
        if filename == "" {
          filename := t.attachment;
        }
        attachments := attachments + [Attachment(filename, contentType, contentId, data)];
      } else if mediaType == t.plain {
        body := data;
      } else if mediaType == t.html {
        html := data;
      } else {
        attachments := attachments + [Attachment(filename, contentType, contentId, data)];
      }
    }

    method ProcessPart(t: Terms, d: Decoders, fields: seq<Field>, lines: seq<string>, depth: nat)
      returns (error: Option<Error>)
      modifies this
      ensures Parsed(View(), error) == MimeTree.ProcessPart(t, d, fields, lines, depth, old(View()))
      decreases |lines|, 1
    {
      var contentType := Get(fields, t.key(Type));
      if t.multipart <= MediaType(contentType) {
        error := ParseMultipart(t, d, lines, BoundaryOf(t, contentType), depth + 1);
        return;
      }
      var decoded := B.DecodePart(DecoderFor(t, d, Get(fields, t.key(Encoding))), B.Join(lines));
      if decoded.Err? {
        return Some(Undecodable(decoded.error));
      }
      Keep(t, fields, decoded.value);
      return None;
    }

    method ParseMultipart(t: Terms, d: Decoders, lines: seq<string>, b: string, depth: nat)
      returns (error: Option<Error>)
      modifies this
      ensures Parsed(View(), error) == MimeTree.ParseMultipart(t, d, lines, b, depth, old(View()))
      decreases |lines|, 0
    {
      if depth >= MAX_DEPTH {
        return Some(TooDeeplyNested);
      }
      if b == "" {
        return Some(NoBoundary);
      }
      var rest := lines;
      while rest != [] && !IsDelimiter(rest[0], b) && !IsClose(rest[0], b)
        invariant |rest| <= |lines| && View() == old(View())
        invariant ParsePreamble(t, d, rest, b, depth, View())
             == MimeTree.ParseMultipart(t, d, lines, b, depth, old(View()))
        decreases |rest|
      {
        rest := rest[1..];
      }
      while true
        invariant |rest| <= |lines|
        invariant ParseParts(t, d, rest, b, depth, View())
             == MimeTree.ParseMultipart(t, d, lines, b, depth, old(View()))
        decreases |rest|
      {
        if rest == [] {
          return Some(Truncated);
        }
        if IsClose(rest[0], b) {
          return None;
        }
        if !IsDelimiter(rest[0], b) {
          return Some(UnexpectedLine);
        }
        var header := ReadFields(rest[1..]);
        if header.None? {
          return Some(BadHeader);
        }
        var (fields, after) := header.value;
        var (part, next) := UntilDelimiter(after, b);
        if next == [] {
          return Some(Truncated);
        }
        error := ProcessPart(t, d, fields, part, depth);
        if error.Some? {
          return;
        }
        rest := next;
      }
    }
  }
}
