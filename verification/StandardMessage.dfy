/** The words utils.go prints, and the round trip of whole messages with them. */
module StandardMessage {
  import opened Prelude
  import opened Wire
  import opened MimeTree
  import opened Message
  import opened RawMessage
  import H = HeaderBlock
  import D = Disposition
  import M = MediaTypes

  // Long words are written in pieces: the verifier reads a literal byte by byte.

  function PartName(k: PartKind): string {
    match k
    case Disposition => "Content" + "-Disposition"
    case ContentId => "Content" + "-ID"
    case Encoding => H.Spelling(H.TransferEncoding)
    case Type => H.Spelling(H.ContentType)
  }

  function PartKey(k: PartKind): string {
    match k
    case Disposition => "content" + "-disposition"
    case ContentId => "content" + "-id"
    case Encoding => H.Key(H.TransferEncoding)
    case Type => H.Key(H.ContentType)
  }

  const PLAIN := "text/" + "plain"
  const HTML := "text/" + "html"
  const MULTIPART := "multipart/"
  const MIXED := MULTIPART + "mixed"
  const ALTERNATIVE := MULTIPART + "alternative"
  const OCTETS := "application/" + "octet-stream"
  const CHARSET := M.Parameter("charset", "\"UTF-8\"")

  const TERMS := Terms(PartName, PartKey, PLAIN, HTML, MIXED, ALTERNATIVE, MULTIPART, OCTETS, CHARSET,
    "boundary", "base64", "quoted-printable", "attachment", "inline")

  lemma LowerPartName(k: PartKind)
    ensures ValidName(PartName(k)) && PartName(k)[0] != '-'
    ensures Lower(PartName(k)) == PartKey(k)
  {
    match k
    case Disposition => LowerDisposition();
    case ContentId => LowerContentId();
    case Encoding => H.LowerSpelling(H.TransferEncoding);
    case Type => H.LowerSpelling(H.ContentType);
  }

  lemma LowerDisposition()
    ensures ValidName(PartName(Disposition)) && PartName(Disposition)[0] != '-'
    ensures Lower(PartName(Disposition)) == PartKey(Disposition)
  {
    DispositionIsValid();
    LowerTwo("Content", "-Disposition", "content", "-disposition");
  }

  lemma DispositionIsValid()
    ensures ValidName(PartName(Disposition)) && PartName(Disposition)[0] != '-'
  {
  }

  lemma LowerTwo(a: string, b: string, la: string, lb: string)
    requires |la| == |a| && forall i :: 0 <= i < |la| ==> la[i] == LowerChar(a[i])
    requires |lb| == |b| && forall i :: 0 <= i < |lb| ==> lb[i] == LowerChar(b[i])
    ensures Lower(a + b) == la + lb
  {
    H.LowerIs(a + b, la + lb);
  }

  lemma LowerContentId()
    ensures ValidName(PartName(ContentId))
    ensures Lower(PartName(ContentId)) == PartKey(ContentId)
  {
    ContentIdIsValid();
    LowerTwo("Content", "-ID", "content", "-id");
  }

  lemma ContentIdIsValid()
    ensures ValidName(PartName(ContentId))
  {
  }

  function KindOfKey(key: string): PartKind {
    if |key| == 19 then Disposition
    else if |key| == 10 then ContentId
    else if |key| == 12 then Type
    else Encoding
  }

  lemma KeysDiffer(k: PartKind)
    ensures KindOfKey(PartKey(k)) == k
  {
  }

  /** A type and a subtype of lower-case letters, digits and dashes. */
  lemma IsSteady(word: string, a: string, b: string)
    requires M.IsPlainWord(a) && M.IsPlainWord(b) && word == a + ("/" + b)
    ensures Steady(word)
  {
    M.PlainWordIsToken(a);
    M.PlainWordIsToken(b);
    M.TypeAndSubtype(a, b);
    M.KindIsVisible(word);
    H.LowerIs(word, word);
    M.KindStands(word);
  }

  lemma WordIsSteady(word: string)
    requires M.IsPlainWord(word)
    ensures Steady(word)
  {
    M.PlainWordIsToken(word);
    M.OneToken(word);
    M.KindIsVisible(word);
    M.KindStands(word);
  }

  lemma TextIsSteady()
    ensures Steady(PLAIN) && Steady(HTML)
  {
    assert PLAIN == "text" + ("/" + "plain") && HTML == "text" + ("/" + "html");
    IsSteady(PLAIN, "text", "plain");
    IsSteady(HTML, "text", "html");
  }

  lemma ContainersAreSteady()
    ensures Steady(MIXED) && Steady(ALTERNATIVE)
  {
    assert MIXED == "multipart" + ("/" + "mixed") && ALTERNATIVE == "multipart" + ("/" + "alternative");
    IsSteady(MIXED, "multipart", "mixed");
    IsSteady(ALTERNATIVE, "multipart", "alternative");
  }

  lemma OctetsIsSteady()
    ensures Steady(OCTETS)
  {
    assert OCTETS == "application" + ("/" + "octet-stream");
    IsSteady(OCTETS, "application", "octet-stream");
  }

  lemma EncodingIsSteady()
    ensures Steady("base64")
  {
    WordIsSteady("base64");
  }

  lemma InlineIsSteady()
    ensures Steady("inline")
  {
    WordIsSteady("inline");
  }

  lemma AttachmentIsSteady()
    ensures Steady("attachment")
  {
    WordIsSteady("attachment");
  }

  lemma OnlyContainersAreContainers()
    ensures PLAIN != HTML
    ensures !(MULTIPART <= PLAIN) && !(MULTIPART <= HTML) && !(MULTIPART <= OCTETS)
  {
    assert PLAIN[0] == 't' && HTML[0] == 't' && OCTETS[0] == 'a' && MULTIPART[0] == 'm';
    assert |PLAIN| != |HTML|;
  }

  lemma NamesAreSound()
    ensures SoundNames(TERMS) && SameNames(H.STANDARD, TERMS)
  {
    forall k ensures ValidName(TERMS.name(k)) && TERMS.name(k)[0] != '-' && Lower(TERMS.name(k)) == TERMS.key(k) {
      LowerPartName(k);
    }
    forall k, l | TERMS.key(k) == TERMS.key(l) ensures k == l {
      KeysDiffer(k);
      KeysDiffer(l);
    }
  }

  lemma WordsAreSound()
    ensures SoundWords(TERMS)
  {
    TextIsSteady();
    ContainersAreSteady();
    OctetsIsSteady();
    EncodingIsSteady();
    InlineIsSteady();
    AttachmentIsSteady();
  }

  lemma ContainersAreSound()
    ensures SoundContainers(TERMS)
  {
    OnlyContainersAreContainers();
  }

  lemma QuotedIsRead(name: string, x: string, printed: string)
    requires M.IsPlainWord(name) && D.PlainAscii(x) && (forall i :: 0 <= i < |x| ==> !D.NeedsEscape(x[i]))
    requires printed == "\"" + x + "\""
    ensures M.AreParams(M.Parameter(name, printed))
  {
    D.QuotedPlain(x);
    D.QuotedReads(x, "");
    M.PlainWordIsToken(name);
    M.ParamsStep(name, printed, x, "", []);
    M.ParamsEnd([] + [M.Param(name, x)]);
    assert M.Parameter(name, printed) + "" == M.Parameter(name, printed);
  }

  lemma ParametersWith(t: Terms, name: string, x: string, printed: string)
    requires M.IsPlainWord(name) && D.PlainAscii(x) && (forall i :: 0 <= i < |x| ==> !D.NeedsEscape(x[i]))
    requires printed == "\"" + x + "\"" && t.charset == M.Parameter(name, printed) && M.IsPlainWord(t.boundary)
    ensures SoundParameters(t)
  {
    QuotedIsRead(name, x, printed);
    M.PlainWordIsToken(t.boundary);
    D.ParameterIsPlain(name, printed);
    D.ParameterEnds(name, printed);
  }

  lemma ParametersAreSound()
    ensures SoundParameters(TERMS)
  {
    ParametersWith(TERMS, "charset", "UTF-8", "\"UTF-8\"");
  }

  lemma TermsAreSound()
    ensures SoundTerms(TERMS) && SameNames(H.STANDARD, TERMS)
  {
    NamesAreSound();
    WordsAreSound();
    ContainersAreSound();
    ParametersAreSound();
  }

  /**
   * Every e-mail is read back from its rendered text: it is refused exactly
   * when something in it is larger than a part may be or an attachment poses
   * as a container, and otherwise every attachment is there, in order, and the
   * bodies are where they were exactly under the stated condition.
   */
  lemma MessageRoundTrip(lib: H.Library, d: Decoders, isHtml: seq<Byte> -> bool,
                         e: H.Envelope, names: seq<string>, c: Content, b: string, alt: string)
    requires H.SoundLibrary(lib) && !isHtml([])
    requires BoundariesOk(b, alt) && AttachmentsOk(c.attachments)
    requires forall n :: n in names ==> n in e.headers
    requires H.Block(lib, H.STANDARD, e, names).Ok?
    ensures RoundTrips(lib, H.STANDARD, TERMS, d, isHtml, e, names, c, b, alt)
  {
    H.StandardIsSound();
    TermsAreSound();
    TripWith(lib, H.STANDARD, TERMS, d, isHtml, e, names, c, b, alt);
  }

  /** The rendered text, read again. */
  ghost predicate RoundTrips(lib: H.Library, v: H.Vocabulary, t: Terms, d: Decoders, isHtml: seq<Byte> -> bool,
                             e: H.Envelope, names: seq<string>, c: Content, b: string, alt: string)
    requires forall n :: n in names ==> n in e.headers
    requires H.Block(lib, v, e, names).Ok?
  {
    var text := Print(RenderLines(H.Block(lib, v, e, names).value, RenderContent(t, isHtml, c, b, alt)));
    Faithful(t, isHtml, c, ParseRaw(t, d, text))
  }

  lemma TripWith(lib: H.Library, v: H.Vocabulary, t: Terms, d: Decoders, isHtml: seq<Byte> -> bool,
                 e: H.Envelope, names: seq<string>, c: Content, b: string, alt: string)
    requires H.SoundLibrary(lib) && H.SoundVocabulary(v) && SoundTerms(t) && SameNames(v, t) && !isHtml([])
    requires BoundariesOk(b, alt) && AttachmentsOk(c.attachments)
    requires forall n :: n in names ==> n in e.headers
    requires H.Block(lib, v, e, names).Ok?
    ensures RoundTrips(lib, v, t, d, isHtml, e, names, c, b, alt)
  {
    RenderThenParse(lib, v, t, d, isHtml, e, names, c, b, alt);
    ArrivesFaithfully(t, isHtml, c);
  }

  ghost predicate Faithful(t: Terms, isHtml: seq<Byte> -> bool, c: Content, r: Parsed) {
    && (r.error.None? <==> AllSmall(ItemsOf(isHtml, c)) && NoContainers(t, c.attachments))
    && (r.error.None? ==>
      && SameFiles(t, c.attachments, r.content.attachments)
      && ((r.content.body, r.content.html) == (c.body, c.html) <==> BodiesSurvive(isHtml, c)))
  }

  ghost predicate SameFiles(t: Terms, sent: seq<Attachment>, got: seq<Attachment>) {
    |got| == |sent| && forall i :: 0 <= i < |sent| ==> SameFile(t, sent[i], got[i])
  }

  /** The data exactly, the name and the type as they could be printed, and the content ID if it could be. */
  ghost predicate SameFile(t: Terms, sent: Attachment, got: Attachment) {
    && got.data == sent.data
    && got.name == (if D.Sanitize(sent.name) == "" then t.attachment else D.Sanitize(sent.name))
    && got.mediaType == Trim(if D.Sanitize(sent.mediaType) == "" then t.octets else D.Sanitize(sent.mediaType))
    && (got.contentId == sent.contentId <==> IdSurvives(sent.contentId))
  }

  /** A content ID that a header may hold and that brings no angle brackets of its own. */
  predicate IdSurvives(id: string) {
    D.Legal(id) && (id == "" || (!IsAngle(id[0]) && !IsAngle(id[|id| - 1])))
  }

  predicate IsAngle(c: char) {
    c == '<' || c == '>'
  }

  lemma {:induction false} TrimAnglesShape(s: string)
    ensures
      var r := TrimAngles(s);
      && (r != "" ==> !IsAngle(r[0]) && !IsAngle(r[|r| - 1]))
      && (s != "" && !IsAngle(s[0]) && !IsAngle(s[|s| - 1]) ==> r == s)
      && (D.Legal(s) ==> D.Legal(r))
    decreases |s|
  {
    if s != "" && IsAngle(s[0]) {
      TrimAnglesShape(s[1..]);
    } else if s != "" && IsAngle(s[|s| - 1]) {
      TrimAnglesShape(s[..|s| - 1]);
    }
  }

  lemma {:induction false} TrimLastAngle(s: string)
    ensures TrimAngles(s + ">") == TrimAngles(s)
    decreases |s|
  {
    var t := s + ">";
    if s == "" {
      assert t[1..] == "";
    } else if IsAngle(s[0]) {
      assert t[1..] == s[1..] + ">";
      TrimLastAngle(s[1..]);
    } else {
      assert t[..|t| - 1] == s;
    }
  }

  /** The reader strips the brackets the printer put on, and any more it finds. */
  lemma IdRoundTrip(a: Attachment)
    ensures TrimAngles(PrintedId(a)) == a.contentId <==> IdSurvives(a.contentId)
  {
    var id := a.contentId;
    if id != "" {
      var safe := D.Sanitize(id);
      var printed := Bracketed(id);
      TrimTight(printed);
      assert printed[1..] == safe + ">";
      TrimLastAngle(safe);
      TrimAnglesShape(safe);
      D.SanitizeIsLegal(id);
    }
  }

  lemma FilesArrive(t: Terms, atts: seq<Attachment>)
    ensures SameFiles(t, atts, ReceivedAll(t, atts))
  {
    forall i | 0 <= i < |atts| ensures SameFile(t, atts[i], ReceivedAll(t, atts)[i]) {
      IdRoundTrip(atts[i]);
    }
  }

  lemma ArrivesFaithfully(t: Terms, isHtml: seq<Byte> -> bool, c: Content)
    requires !isHtml([])
    ensures Faithful(t, isHtml, c, Arrives(t, isHtml, c))
  {
    ContentArrives(t, isHtml, c);
    NoneRefusedIff(t, isHtml, c);
    BodiesSurviveIff(isHtml, c);
    FilesArrive(t, c.attachments);
  }

  // ---- attachments that pose as containers ----

  lemma TypeAsGiven(t: Terms, a: Attachment)
    requires M.Visible(a.mediaType)
    ensures Trim(TypeOf(t, a)) == a.mediaType
  {
    D.SanitizeIsLegal(a.mediaType);
    TrimTight(a.mediaType);
  }

  /** An e-mail with an attachment whose type is a container's is refused, whatever the attachment holds. */
  lemma ContainerIsRefused(isHtml: seq<Byte> -> bool, data: seq<Byte>)
    requires !isHtml([])
    ensures
      var a := Attachment("x", MIXED, "", data);
      && IsContainer(TERMS, a)
      && Arrives(TERMS, isHtml, Content([], [], [a])) == Parsed(EMPTY, Some(NoBoundary))
  {
    var a := Attachment("x", MIXED, "", data);
    ContainersAreSteady();
    TypeAsGiven(TERMS, a);
    assert M.StandsBefore(MIXED, "");
    assert MIXED + "" == MIXED;
    M.ParamsEnd([]);
    RefusedWithoutBoundary(TERMS, isHtml, a);
  }

  lemma RefusedWithoutBoundary(t: Terms, isHtml: seq<Byte> -> bool, a: Attachment)
    requires !isHtml([]) && Refusal(t, File(a)) == Some(NoBoundary)
    ensures Arrives(t, isHtml, Content([], [], [a])) == Parsed(EMPTY, Some(NoBoundary))
  {
    var c := Content([], [], [a]);
    var items := Bodies(isHtml, c) + Files(c.attachments);
    assert items[0] == Plain([]) && items[1..] == [File(a)];
    DeliverOne(t, File(a), EMPTY);
  }

  /** A type that is cut short is no type: such an attachment arrives. */
  lemma BareMultipartArrives(data: seq<Byte>)
    ensures !IsContainer(TERMS, Attachment("x", MULTIPART, "", data))
  {
    CutShort(TERMS, Attachment("x", MULTIPART, "", data), "multipart");
  }

  lemma CutShort(t: Terms, a: Attachment, token: string)
    requires M.IsPlainWord(token) && a.mediaType == token + "/" && t.multipart != ""
    ensures !IsContainer(t, a)
  {
    SlashEndsType(token, a.mediaType);
    TypeAsGiven(t, a);
  }

  lemma SlashEndsType(token: string, word: string)
    requires M.IsPlainWord(token) && word == token + "/"
    ensures M.Visible(word) && M.Parse(word).kind == ""
  {
    M.PlainWordIsToken(token);
    M.TokenEndIs(token, "/");
    assert Lower(word) == word;
    assert word[|token| + 1..] == "";
    M.VisibleKind(word);
  }
}
