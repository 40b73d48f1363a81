/** What the reader makes of parts that its own printer would not write. */
module ReadingParts {
  import opened Prelude
  import opened Wire
  import opened MimeTree
  import opened Message
  import opened RawMessage
  import M = MediaTypes
  import B = Base64

  // ---- parts that are no containers ----

  /** A part's fields and what its content decodes to. */
  datatype Leaf = Leaf(fields: seq<Field>, data: seq<Byte>)

  function KindOfDisposition(t: Terms, fs: seq<Field>): string {
    MediaType(Get(fs, t.key(Disposition)))
  }

  function TypeField(t: Terms, fs: seq<Field>): string {
    Get(fs, t.key(Type))
  }

  /** The part is body text of the given type, and nothing in it says that it is a file. */
  predicate IsText(t: Terms, fs: seq<Field>, word: string) {
    && MediaType(TypeField(t, fs)) == word
    && KindOfDisposition(t, fs) != t.attachment && KindOfDisposition(t, fs) != t.inline
    && FilenameOf(Get(fs, t.key(Disposition))) == ""
  }

  predicate IsFile(t: Terms, fs: seq<Field>) {
    !IsText(t, fs, t.plain) && !IsText(t, fs, t.html)
  }

  /** A file with no name of its own is called `attachment`, if it is said to be one. */
  function NameOf(t: Terms, fs: seq<Field>): string {
    var name, kind := FilenameOf(Get(fs, t.key(Disposition))), KindOfDisposition(t, fs);
    if name == "" && (kind == t.attachment || kind == t.inline) then t.attachment else name
  }

  function AsFile(t: Terms, leaf: Leaf): Attachment {
    Attachment(NameOf(t, leaf.fields), TypeField(t, leaf.fields),
               TrimAngles(Get(leaf.fields, t.key(ContentId))), leaf.data)
  }

  /** The files among the parts, in order. */
  function FilesOf(t: Terms, leaves: seq<Leaf>): seq<Attachment> {
    if leaves == [] then []
    else (if IsFile(t, leaves[0].fields) then [AsFile(t, leaves[0])] else []) + FilesOf(t, leaves[1..])
  }

  /** The last text of the given type, or `before` when there is none. */
  function LastText(t: Terms, leaves: seq<Leaf>, word: string, before: seq<Byte>): seq<Byte> {
    if leaves == [] then before
    else LastText(t, leaves[1..], word, if IsText(t, leaves[0].fields, word) then leaves[0].data else before)
  }

  function Texts(t: Terms, leaves: seq<Leaf>, word: string): nat {
    if leaves == [] then 0 else (if IsText(t, leaves[0].fields, word) then 1 else 0) + Texts(t, leaves[1..], word)
  }

  /** How the content of a part is decoded, by the name of its transfer encoding. */
  predicate DecodesTo(t: Terms, d: Decoders, encoding: string, text: string, data: seq<Byte>) {
    var name := Lower(Trim(encoding));
    if name == t.base64 then B.DecodePart(B.DecodeText, text) == Ok(data)
    else if name == t.quotedPrintable then B.DecodePart(d.quotedPrintable, text) == Ok(data)
    else B.DecodePart(d.verbatim, text) == Ok(data)
  }

  lemma DecoderByName(t: Terms, d: Decoders, encoding: string, text: string, data: seq<Byte>)
    ensures DecodesTo(t, d, encoding, text, data) <==> B.DecodePart(DecoderFor(t, d, encoding), text) == Ok(data)
  {
  }

  predicate ReadsLeaf(t: Terms, d: Decoders, p: Part, leaf: Leaf) {
    && leaf.fields == Trimmed(p.fields) && !(t.multipart <= MediaType(TypeField(t, leaf.fields)))
    && DecodesTo(t, d, Get(leaf.fields, t.key(Encoding)), B.Join(p.body), leaf.data)
  }

  ghost predicate ReadsLeaves(t: Terms, d: Decoders, ps: seq<Part>, leaves: seq<Leaf>) {
    |leaves| == |ps| && forall i :: 0 <= i < |ps| ==> ReadsLeaf(t, d, ps[i], leaves[i])
  }

  lemma PlaceLeaf(t: Terms, leaf: Leaf, c: Content)
    requires t.plain != t.html
    ensures
      var fs := leaf.fields;
      Place(t, fs, leaf.data, c) ==
        if IsText(t, fs, t.plain) then c.(body := leaf.data)
        else if IsText(t, fs, t.html) then c.(html := leaf.data)
        else c.(attachments := c.attachments + [AsFile(t, leaf)])
  {
  }

  lemma ProcessOneLeaf(t: Terms, d: Decoders, p: Part, leaf: Leaf, depth: nat, c: Content)
    requires ReadsLeaf(t, d, p, leaf)
    ensures ProcessPart(t, d, leaf.fields, p.body, depth, c) == Parsed(Place(t, leaf.fields, leaf.data, c), None)
  {
    DecoderByName(t, d, Get(leaf.fields, t.key(Encoding)), B.Join(p.body), leaf.data);
  }

  /** What the parts leave in an e-mail. */
  function Arrived(t: Terms, leaves: seq<Leaf>, c: Content): Content {
    Content(LastText(t, leaves, t.plain, c.body), LastText(t, leaves, t.html, c.html),
            c.attachments + FilesOf(t, leaves))
  }

  lemma FirstArrives(t: Terms, leaves: seq<Leaf>, c: Content)
    requires t.plain != t.html && leaves != []
    ensures Arrived(t, leaves, c) == Arrived(t, leaves[1..], Place(t, leaves[0].fields, leaves[0].data, c))
  {
    var leaf := leaves[0];
    PlaceLeaf(t, leaf, c);
    Appended(c.attachments, if IsFile(t, leaf.fields) then [AsFile(t, leaf)] else [], FilesOf(t, leaves[1..]));
  }

  lemma {:induction false} ProcessLeaves(t: Terms, d: Decoders, ps: seq<Part>, leaves: seq<Leaf>, depth: nat,
          c: Content)
    requires t.plain != t.html && ReadsLeaves(t, d, ps, leaves)
    ensures ProcessAll(t, d, ps, depth, c) == Parsed(Arrived(t, leaves, c), None)
    decreases |ps|
  {
    if ps == [] {
      assert c.attachments + [] == c.attachments;
    } else {
      var next := FirstLeaf(t, d, ps, leaves, depth, c);
      ProcessLeaves(t, d, ps[1..], leaves[1..], depth, next);
    }
  }

  lemma FirstLeaf(t: Terms, d: Decoders, ps: seq<Part>, leaves: seq<Leaf>, depth: nat, c: Content)
    returns (next: Content)
    requires t.plain != t.html && ReadsLeaves(t, d, ps, leaves) && ps != []
    ensures ReadsLeaves(t, d, ps[1..], leaves[1..])
    ensures ProcessAll(t, d, ps, depth, c) == ProcessAll(t, d, ps[1..], depth, next)
    ensures Arrived(t, leaves, c) == Arrived(t, leaves[1..], next)
  {
    next := Place(t, leaves[0].fields, leaves[0].data, c);
    LeavesLeft(t, d, ps, leaves);
    ProcessOneLeaf(t, d, ps[0], leaves[0], depth, c);
    NextPart(t, d, ps, depth, c, leaves[0].fields, next);
    FirstArrives(t, leaves, c);
  }

  lemma LeavesLeft(t: Terms, d: Decoders, ps: seq<Part>, leaves: seq<Leaf>)
    requires ReadsLeaves(t, d, ps, leaves) && ps != []
    ensures ReadsLeaf(t, d, ps[0], leaves[0]) && ReadsLeaves(t, d, ps[1..], leaves[1..])
  {
    forall i | 0 <= i < |ps| - 1 ensures ReadsLeaf(t, d, ps[1..][i], leaves[1..][i]) {
      assert ReadsLeaf(t, d, ps[i + 1], leaves[i + 1]);
    }
  }

  lemma NextPart(t: Terms, d: Decoders, ps: seq<Part>, depth: nat, c: Content, fs: seq<Field>, next: Content)
    requires ps != [] && fs == Trimmed(ps[0].fields)
    requires ProcessPart(t, d, fs, ps[0].body, depth, c) == Parsed(next, None)
    ensures ProcessAll(t, d, ps, depth, c) == ProcessAll(t, d, ps[1..], depth, next)
  {
  }

  lemma Appended(a: seq<Attachment>, x: seq<Attachment>, b: seq<Attachment>)
    ensures (a + x) + b == a + (x + b) && (x == [] ==> a + b == a + (x + b))
  {
  }

  lemma {:induction false} EachIsCounted(t: Terms, leaves: seq<Leaf>)
    requires t.plain != t.html
    ensures |FilesOf(t, leaves)| + Texts(t, leaves, t.plain) + Texts(t, leaves, t.html) == |leaves|
  {
    if leaves != [] {
      EachIsCounted(t, leaves[1..]);
    }
  }

  /**
   * Reading any printed parts that decode, whoever printed them: those that are
   * body text, and do not say that they are files, set the bodies, the last of
   * each type winning; every other part becomes an attachment, in order, with
   * its own data, type and content ID. None is lost.
   */
  lemma EveryPartArrives(t: Terms, d: Decoders, ps: seq<Part>, leaves: seq<Leaf>, b: string, before: seq<string>,
                         after: seq<string>, depth: nat, c: Content)
    requires t.plain != t.html && AllReadable(ps, b) && ReadsLeaves(t, d, ps, leaves)
    requires NoDelimiter(before, b) && b != "" && depth < MAX_DEPTH
    ensures
      var r := ParseMultipart(t, d, before + (Multipart(b, ps) + after), b, depth, c);
      && r.error == None
      && r.content.attachments == c.attachments + FilesOf(t, leaves)
      && r.content.body == LastText(t, leaves, t.plain, c.body)
      && r.content.html == LastText(t, leaves, t.html, c.html)
      && |FilesOf(t, leaves)| + Texts(t, leaves, t.plain) + Texts(t, leaves, t.html) == |ps|
  {
    PreambleIsSkipped(t, d, before, Multipart(b, ps) + after, b, depth, c);
    ParseMultipartPrinted(t, d, ps, b, after, depth, c);
    ProcessLeaves(t, d, ps, leaves, depth, c);
    EachIsCounted(t, leaves);
  }

  lemma NoDelimiterIsNone(line: string, b: string)
    requires !StartsDelimiter(line, b)
    ensures !IsDelimiter(line, b) && !IsClose(line, b)
  {
  }

  /** What stands before the first delimiter does not count. */
  lemma {:induction false} PreambleIsSkipped(t: Terms, d: Decoders, before: seq<string>, lines: seq<string>,
          b: string, depth: nat, c: Content)
    requires NoDelimiter(before, b)
    ensures ParseMultipart(t, d, before + lines, b, depth, c) == ParseMultipart(t, d, lines, b, depth, c)
    decreases |before|
  {
    if before == [] {
      assert before + lines == lines;
    } else {
      var rest := before[1..];
      assert forall i :: 0 <= i < |rest| ==> rest[i] == before[i + 1];
      assert !StartsDelimiter(before[0], b);
      NoDelimiterIsNone(before[0], b);
      assert (before + lines)[1..] == rest + lines;
      PreambleIsSkipped(t, d, rest, lines, b, depth, c);
    }
  }

  // ---- containers in containers ----

  function ContainerPart(t: Terms, b: string, lines: seq<string>): Part {
    Part([Field(t.name(Type), t.mixed + M.Parameter(t.boundary, b))], lines)
  }

  /** One item in as many containers as there are boundaries, the first one outermost. */
  function Nested(t: Terms, i: Item, bs: seq<string>): seq<string>
    requires bs != []
  {
    if |bs| == 1 then Multipart(bs[0], [PartOf(t, i)])
    else Multipart(bs[0], [ContainerPart(t, bs[1], Nested(t, i, bs[1..]))])
  }

  ghost predicate Apart(bs: seq<string>) {
    && (forall i :: 0 <= i < |bs| ==> SoundBoundary(bs[i]) && |bs[i]| == |bs[0]|)
    && (forall i, j :: 0 <= i < j < |bs| ==> bs[i] != bs[j])
  }

  lemma OneInside(p: Part, inner: string, b: string)
    requires |inner| == |b| && inner != b && NoDelimiter(PartLines(p), b)
    ensures NoDelimiter(Multipart(inner, [p]), b)
  {
    OtherBoundary(inner, b);
    assert [p][1..] == [];
    assert Multipart(inner, [p]) == [Opening(inner)] + (PartLines(p) + [Closing(inner)]);
    NoDelimiterConcat(PartLines(p), [Closing(inner)], b);
    NoDelimiterConcat([Opening(inner)], PartLines(p) + [Closing(inner)], b);
  }

  lemma ContainerHasNone(t: Terms, inner: string, lines: seq<string>, b: string)
    requires SoundTerms(t) && NoDelimiter(lines, b)
    ensures NoDelimiter(PartLines(ContainerPart(t, inner, lines)), b)
  {
    var fields := ContainerPart(t, inner, lines).fields;
    FieldLinesHaveNoDashes(fields);
    NoDashesNoDelimiter(FieldLines(fields), b);
    NoDashesNoDelimiter([""], b);
    NoDelimiterConcat([""], lines, b);
    NoDelimiterConcat(FieldLines(fields), [""] + lines, b);
  }

  lemma {:induction false} NestedHasNone(t: Terms, i: Item, bs: seq<string>, b: string)
    requires SoundTerms(t) && bs != [] && forall k :: 0 <= k < |bs| ==> |bs[k]| == |b| && bs[k] != b
    ensures NoDelimiter(Nested(t, i, bs), b)
    decreases |bs|
  {
    if |bs| == 1 {
      ItemHasNoDelimiter(t, i, b);
      OneInside(PartOf(t, i), bs[0], b);
    } else {
      NestedHasNone(t, i, bs[1..], b);
      ContainerHasNone(t, bs[1], Nested(t, i, bs[1..]), b);
      OneInside(ContainerPart(t, bs[1], Nested(t, i, bs[1..])), bs[0], b);
    }
  }

  lemma ContainerFields(t: Terms, b: string, lines: seq<string>)
    requires SoundTerms(t) && SoundBoundary(b)
    ensures
      var p := ContainerPart(t, b, lines);
      var value := Get(Trimmed(p.fields), t.key(Type));
      AllPrintable(p.fields) && t.multipart <= MediaType(value) && BoundaryOf(t, value) == b
  {
    var p := ContainerPart(t, b, lines);
    BoundaryIsRead(t, t.mixed, b);
    var fs := Trimmed(p.fields);
    assert fs == [p.fields[0]];
    LookUpOne(t, fs[0], Type);
  }

  lemma ProcessInside(t: Terms, d: Decoders, b: string, lines: seq<string>, depth: nat, c: Content)
    requires SoundTerms(t) && SoundBoundary(b)
    ensures
      var p := ContainerPart(t, b, lines);
      ProcessPart(t, d, Trimmed(p.fields), p.body, depth, c) == ParseMultipart(t, d, lines, b, depth + 1, c)
  {
    ContainerFields(t, b, lines);
    ProcessContainer(t, d, Trimmed(ContainerPart(t, b, lines).fields), lines, b, depth, c);
  }

  lemma ParseOnly(t: Terms, d: Decoders, p: Part, b: string, depth: nat, c: Content)
    requires Readable(p, b) && b != "" && depth < MAX_DEPTH
    ensures ParseMultipart(t, d, Multipart(b, [p]), b, depth, c)
         == ProcessPart(t, d, Trimmed(p.fields), p.body, depth, c)
  {
    ParseMultipartPrinted(t, d, [p], b, [], depth, c);
    assert Multipart(b, [p]) + [] == Multipart(b, [p]);
    assert [p][1..] == [];
  }

  /** What is read of something in `n` containers, the first of which is read at `depth`. */
  ghost predicate ReadsNested(found: Parsed, n: nat, depth: nat, c: Content, r: Parsed) {
    r == if depth + n <= 10 then found else Parsed(c, Some(TooDeeplyNested))
  }

  /** Text is found in up to ten containers inside one another; in more it is refused. */
  lemma NestingIff(t: Terms, d: Decoders, i: Item, bs: seq<string>, depth: nat, c: Content)
    requires SoundTerms(t) && !i.File? && bs != [] && Apart(bs)
    ensures ReadsNested(DeliverAll(t, [i], c), |bs|, depth, c,
                        ParseMultipart(t, d, Nested(t, i, bs), bs[0], depth, c))
  {
    var r := Nesting(t, d, i, bs, depth, c, DeliverAll(t, [i], c));
  }

  lemma {:induction false} Nesting(t: Terms, d: Decoders, i: Item, bs: seq<string>, depth: nat, c: Content,
          found: Parsed) returns (r: Parsed)
    requires SoundTerms(t) && !i.File? && bs != [] && Apart(bs) && found == DeliverAll(t, [i], c)
    ensures r == ParseMultipart(t, d, Nested(t, i, bs), bs[0], depth, c)
    ensures ReadsNested(found, |bs|, depth, c, r)
    decreases |bs|
  {
    if depth >= MAX_DEPTH {
      r := Parsed(c, Some(TooDeeplyNested));
      TooDeep(t, d, Nested(t, i, bs), bs[0], depth, c);
    } else if |bs| == 1 {
      r := found;
      NestedOnce(t, d, i, bs, depth, c);
    } else {
      r := Nesting(t, d, i, bs[1..], depth + 1, c, found);
      NestingStep(t, d, i, bs, bs[1..], depth, c);
    }
  }

  lemma TooDeep(t: Terms, d: Decoders, lines: seq<string>, b: string, depth: nat, c: Content)
    requires depth >= MAX_DEPTH
    ensures ParseMultipart(t, d, lines, b, depth, c) == Parsed(c, Some(TooDeeplyNested))
  {
  }

  lemma NestedOnce(t: Terms, d: Decoders, i: Item, bs: seq<string>, depth: nat, c: Content)
    requires SoundTerms(t) && !i.File? && |bs| == 1 && SoundBoundary(bs[0]) && depth < MAX_DEPTH
    ensures ParseMultipart(t, d, Nested(t, i, bs), bs[0], depth, c) == DeliverAll(t, [i], c)
  {
    ItemIsReadable(t, i, bs[0]);
    ParseOnly(t, d, PartOf(t, i), bs[0], depth, c);
    ProcessBody(t, d, i, depth, c);
  }

  lemma NestingStep(t: Terms, d: Decoders, i: Item, bs: seq<string>, rest: seq<string>, depth: nat, c: Content)
    requires SoundTerms(t) && |bs| > 1 && Apart(bs) && rest == bs[1..] && depth < MAX_DEPTH
    ensures Apart(rest)
    ensures ParseMultipart(t, d, Nested(t, i, bs), bs[0], depth, c)
         == ParseMultipart(t, d, Nested(t, i, rest), rest[0], depth + 1, c)
  {
    assert forall k :: 0 <= k < |rest| ==> rest[k] == bs[k + 1];
    NestedHasNone(t, i, rest, bs[0]);
    ParseContainer(t, d, bs[0], rest[0], Nested(t, i, rest), depth, c);
  }

  /** A body with only a container in it. */
  lemma ParseContainer(t: Terms, d: Decoders, b: string, inner: string, lines: seq<string>, depth: nat, c: Content)
    requires SoundTerms(t) && SoundBoundary(b) && SoundBoundary(inner) && NoDelimiter(lines, b) && depth < MAX_DEPTH
    ensures ParseMultipart(t, d, Multipart(b, [ContainerPart(t, inner, lines)]), b, depth, c)
         == ParseMultipart(t, d, lines, inner, depth + 1, c)
  {
    ContainerFields(t, inner, lines);
    ParseOnly(t, d, ContainerPart(t, inner, lines), b, depth, c);
    ProcessInside(t, d, inner, lines, depth, c);
  }

  // ---- messages without parts ----

  /** The text of a message comes apart into these fields and this body. */
  ghost predicate ComesApart(text: string, fields: seq<Field>, body: seq<string>) {
    Split(text).Some? && ReadFields(Split(text).value) == Some((fields, body))
  }

  /** A message whose type is malformed has its body taken as it stands, and never an error. */
  lemma MalformedTypeIsText(t: Terms, d: Decoders, text: string, fields: seq<Field>, body: seq<string>)
    requires ComesApart(text, fields, body)
    requires Get(fields, t.key(Type)) != "" && !M.Parse(Get(fields, t.key(Type))).ok
    ensures
      var r, taken := ParseRaw(t, d, text), B.DecodePart(d.verbatim, Print(body));
      r == Parsed(Content(if taken.Ok? then taken.value else [], [], []), None)
  {
    ApartThenRead(t, d, text, fields, body);
  }

  /**
   * A message whose type is missing, or well formed and no container's, has
   * one body, whatever the type: what its transfer encoding decodes to.
   */
  lemma OnlyBodyIsRead(t: Terms, d: Decoders, text: string, fields: seq<Field>, body: seq<string>, data: seq<Byte>)
    requires ComesApart(text, fields, body) && M.Parse(t.plain).ok && !(t.multipart <= MediaType(t.plain))
    requires
      var given := Get(fields, t.key(Type));
      given == "" || (M.Parse(given).ok && !(t.multipart <= MediaType(given)))
    ensures
      ParseRaw(t, d, text) == Parsed(Content(data, [], []), None) <==>
        DecodesTo(t, d, Get(fields, t.key(Encoding)), Print(body), data)
  {
    ApartThenRead(t, d, text, fields, body);
    OnlyBody(t, d, fields, body, data);
  }

  lemma ApartThenRead(t: Terms, d: Decoders, text: string, fields: seq<Field>, body: seq<string>)
    requires ComesApart(text, fields, body)
    ensures ParseRaw(t, d, text) == ParseBody(t, d, fields, body)
  {
  }

  lemma OnlyBody(t: Terms, d: Decoders, fields: seq<Field>, body: seq<string>, data: seq<Byte>)
    requires M.Parse(t.plain).ok && !(t.multipart <= MediaType(t.plain))
    requires
      var given := Get(fields, t.key(Type));
      given == "" || (M.Parse(given).ok && !(t.multipart <= MediaType(given)))
    ensures
      ParseBody(t, d, fields, body) == Parsed(Content(data, [], []), None) <==>
        DecodesTo(t, d, Get(fields, t.key(Encoding)), Print(body), data)
  {
    DecoderByName(t, d, Get(fields, t.key(Encoding)), Print(body), data);
  }
}
