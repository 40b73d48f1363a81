/** What the fields of a rendered message say, read from its text. */
module RenderedFields {
  import opened Prelude
  import opened Wire
  import opened HeaderBlock
  import opened RawMessage
  import opened Message
  import MT = MimeTree
  import D = Disposition

  // ---- blind recipients ----

  /** Blind recipients leave no trace: whoever they are, the block is the same. */
  lemma BccIsInvisible(lib: Library, v: Vocabulary, e: Envelope, bcc: seq<string>, names: seq<string>)
    requires forall n :: n in names ==> n in e.headers
    ensures Block(lib, v, e.(bcc := bcc), names) == Block(lib, v, e, names)
  {
    assert Own(lib, e.(bcc := bcc)) == Own(lib, e);
  }

  // ---- looking up ----

  lemma {:induction false} GetPastOthers(a: seq<Field>, b: seq<Field>, key: string)
    requires forall i :: 0 <= i < |a| ==> Lower(a[i].name) != key
    ensures Get(a + b, key) == Get(b, key)
    decreases |a|
  {
    if a == [] {
      assert a + b == b;
    } else {
      assert (a + b)[1..] == a[1..] + b;
      GetPastOthers(a[1..], b, key);
    }
  }

  lemma GetPast(a: seq<Field>, b: seq<Field>, key: string)
    requires Absent(a, key)
    ensures Get(Trimmed(a + b), key) == Get(Trimmed(b), key)
  {
    TrimmedConcat(a, b);
    forall i | 0 <= i < |a| ensures Lower(Trimmed(a)[i].name) != key {
      assert !IsField(a, i, key);
    }
    GetPastOthers(Trimmed(a), Trimmed(b), key);
  }

  lemma GetNone(fs: seq<Field>, key: string)
    requires Absent(fs, key)
    ensures Get(Trimmed(fs), key) == ""
  {
    GetPast(fs, [], key);
    assert fs + [] == fs;
  }

  lemma GetHead(f: Field, fs: seq<Field>, key: string)
    ensures Get(Trimmed([f] + fs), key) == if Lower(f.name) == key then Trim(f.value) else Get(Trimmed(fs), key)
  {
    assert ([f] + fs)[1..] == fs;
    assert Trimmed([f] + fs)[1..] == Trimmed(fs);
  }

  /** The value a kind is given; "" when it is given none. */
  function ValueIn(ps: seq<(Kind, string)>, k: Kind): string {
    if ps == [] then "" else if ps[0].0 == k then ps[0].1 else ValueIn(ps[1..], k)
  }

  lemma {:induction false} EmittedValue(v: Vocabulary, ps: seq<(Kind, string)>, k: Kind, more: seq<Field>)
    requires SoundVocabulary(v) && Ranked(v, ps) && Absent(more, v.key(k))
    ensures Get(Trimmed(Emit(v, ps) + more), v.key(k)) == Trim(ValueIn(ps, k))
    decreases |ps|
  {
    if ps == [] {
      assert [] + more == more;
      GetNone(more, v.key(k));
    } else {
      var rest := ps[1..];
      assert forall i :: 0 <= i < |rest| ==> rest[i] == ps[i + 1];
      EmittedValue(v, rest, k, more);
      NextEmitted(v, ps, k, more, Emit(v, rest) + more);
      if ps[0].0 == k && ps[0].1 == "" {
        NotAgain(v, rest, k, more);
      }
    }
  }

  lemma NextEmitted(v: Vocabulary, ps: seq<(Kind, string)>, k: Kind, more: seq<Field>, after: seq<Field>)
    requires SoundVocabulary(v) && ps != [] && after == Emit(v, ps[1..]) + more
    ensures Get(Trimmed(Emit(v, ps) + more), v.key(k)) ==
      if ps[0].1 != "" && ps[0].0 == k then Trim(ps[0].1) else Get(Trimmed(after), v.key(k))
  {
    if ps[0].1 == "" {
      assert [] + Emit(v, ps[1..]) == Emit(v, ps[1..]);
    } else {
      var f := Field(v.name(ps[0].0), ps[0].1);
      assert Emit(v, ps) + more == [f] + after;
      assert Lower(f.name) == v.key(ps[0].0);
      GetHead(f, after, v.key(k));
    }
  }

  lemma {:induction false} NotAgain(v: Vocabulary, ps: seq<(Kind, string)>, k: Kind, more: seq<Field>)
    requires SoundVocabulary(v) && (forall i :: 0 <= i < |ps| ==> ps[i].0 != k) && Absent(more, v.key(k))
    ensures Get(Trimmed(Emit(v, ps) + more), v.key(k)) == ""
    decreases |ps|
  {
    if ps == [] {
      assert [] + more == more;
      GetNone(more, v.key(k));
    } else {
      assert forall i :: 0 <= i < |ps[1..]| ==> ps[1..][i] == ps[i + 1];
      NotAgain(v, ps[1..], k, more);
      NextEmitted(v, ps, k, more, Emit(v, ps[1..]) + more);
    }
  }

  // ---- the builder's own fields ----

  /** What a field of the builder's own is there to say; nothing, and it is not written. */
  function Saying(lib: Library, e: Envelope, k: Kind): string {
    match k
    case From => lib.address(e.sender)
    case To => if e.to == [] then "" else lib.addresses(e.to)
    case Cc => if e.cc == [] then "" else lib.addresses(e.cc)
    case ReplyTo => if e.replyTo == "" then "" else lib.addresses([e.replyTo])
    case Subject => AsHeader(lib, e.subject)
    case MimeVersion => "1.0"
    case Date => lib.date
    case MessageId => lib.messageId
    case _ => ""
  }

  predicate IsContent(k: Kind) {
    k == ContentType || k == TransferEncoding
  }

  ghost predicate SaysItsOwn(lib: Library, v: Vocabulary, e: Envelope, fs: seq<Field>) {
    forall k :: !IsContent(k) ==> Get(fs, v.key(k)) == Trim(Saying(lib, e, k))
  }

  /** Text as a header shows it: made safe, and encoded as words unless all of it can be printed. */
  function AsHeader(lib: Library, s: string): string {
    if D.PlainAscii(D.Sanitize(s)) then D.Sanitize(s) else lib.encodeWord(D.Sanitize(s))
  }

  lemma OwnValues(lib: Library, e: Envelope, k: Kind)
    requires !IsContent(k)
    ensures ValueIn(Own(lib, e), k) == Saying(lib, e, k)
  {
    var ps := Own(lib, e);
    assert forall i :: 0 <= i < |ps| ==> Rank(ps[i].0) == i;
    assert ps[Rank(k)].0 == k;
    ValueAt(ps, Rank(k), k);
  }

  lemma {:induction false} ValueAt(ps: seq<(Kind, string)>, i: nat, k: Kind)
    requires i < |ps| && ps[i].0 == k && forall j :: 0 <= j < i ==> ps[j].0 != k
    ensures ValueIn(ps, k) == ps[i].1
    decreases i
  {
    if i > 0 {
      ValueAt(ps[1..], i - 1, k);
    }
  }

  /** The fields of a message, as a reader finds them in its text. */
  function FieldsOf(text: string): Option<seq<Field>> {
    match Split(text)
    case None => None
    case Some(lines) =>
      match ReadFields(lines)
      case None => None
      case Some((fields, _)) => Some(fields)
  }

  lemma OwnAreRead(lib: Library, v: Vocabulary, e: Envelope, more: seq<Field>)
    requires SoundVocabulary(v) && forall k :: !IsContent(k) ==> Absent(more, v.key(k))
    ensures SaysItsOwn(lib, v, e, Trimmed(Emit(v, Own(lib, e)) + more))
  {
    OwnIsRanked(lib, v, e);
    forall k | !IsContent(k)
      ensures Get(Trimmed(Emit(v, Own(lib, e)) + more), v.key(k)) == Trim(Saying(lib, e, k))
    {
      EmittedValue(v, Own(lib, e), k, more);
      OwnValues(lib, e, k);
    }
  }

  /** The content fields that follow the block. */
  ghost predicate ContentOnly(v: Vocabulary, fs: seq<Field>) {
    forall i :: 0 <= i < |fs| ==> fs[i].name == v.name(ContentType) || fs[i].name == v.name(TransferEncoding)
  }

  lemma ContentIsNoOther(v: Vocabulary, fs: seq<Field>, key: string)
    requires SoundVocabulary(v) && ContentOnly(v, fs) && key != v.key(ContentType) && key != v.key(TransferEncoding)
    ensures Absent(fs, key)
  {
    forall i ensures !IsField(fs, i, key) {
      if 0 <= i < |fs| {
        assert Lower(fs[i].name) == v.key(ContentType) || Lower(fs[i].name) == v.key(TransferEncoding);
      }
    }
  }

  lemma AfterOwn(lib: Library, v: Vocabulary, e: Envelope, names: seq<string>, content: seq<Field>, k: Kind)
    requires SoundLibrary(lib) && SoundVocabulary(v) && ContentOnly(v, content) && !IsContent(k)
    requires forall n :: n in names ==> n in e.headers
    requires Custom(lib, v, e.headers, names).Ok?
    ensures Absent(Custom(lib, v, e.headers, names).value + content, v.key(k))
  {
    KeysAreSkipped(v, k);
    CustomHasNone(lib, v, e.headers, names, v.key(k));
    ContentIsNoOther(v, content, v.key(k));
    AppendOnce(Custom(lib, v, e.headers, names).value, content, v.key(k));
  }

  lemma BlockSaysItsOwn(lib: Library, v: Vocabulary, e: Envelope, names: seq<string>, content: seq<Field>)
    requires SoundLibrary(lib) && SoundVocabulary(v) && ContentOnly(v, content)
    requires forall n :: n in names ==> n in e.headers
    requires Block(lib, v, e, names).Ok?
    ensures SaysItsOwn(lib, v, e, Trimmed(Block(lib, v, e, names).value + content))
  {
    var custom := Custom(lib, v, e.headers, names).value;
    forall k | !IsContent(k) ensures Absent(custom + content, v.key(k)) {
      AfterOwn(lib, v, e, names, content, k);
    }
    OwnAreRead(lib, v, e, custom + content);
    InThree(Emit(v, Own(lib, e)), custom, content);
  }

  lemma InThree(a: seq<Field>, b: seq<Field>, c: seq<Field>)
    ensures (a + b) + c == a + (b + c)
  {
  }

  // ---- the caller's fields ----

  /** The caller's field `name` is the only one so spelled, and it is one the builder writes. */
  ghost predicate TakenOver(lib: Library, v: Vocabulary, names: seq<string>, name: string) {
    && name in names && !Skipped(v, lib.lower(name)) && ValidName(name)
    && forall other :: other in names && other != name ==> Lower(other) != Lower(name)
  }

  lemma {:induction false} CustomIsRead(lib: Library, v: Vocabulary, h: map<string, string>, names: seq<string>,
          name: string, content: seq<Field>)
    requires SoundLibrary(lib) && (forall n :: n in names ==> n in h) && Custom(lib, v, h, names).Ok?
    requires name in h && !Skipped(v, lib.lower(name)) && ValidName(name)
    requires forall other :: other in names && other != name ==> Lower(other) != Lower(name)
    requires Absent(content, Lower(name))
    ensures Get(Trimmed(Custom(lib, v, h, names).value + content), Lower(name)) ==
      if name in names then Trim(AsHeader(lib, h[name])) else ""
    decreases |names|
  {
    if names == [] {
      assert [] + content == content;
      GetNone(content, Lower(name));
    } else {
      var rest := names[1..];
      assert forall n :: n in names <==> n == names[0] || n in rest;
      CustomIsRead(lib, v, h, rest, name, content);
      NextCustom(lib, v, h, names, name, content, Custom(lib, v, h, rest).value + content);
      if names[0] == name && AsHeader(lib, h[name]) == "" {
        assert Trim("") == "";
      }
    }
  }

  lemma NextCustom(lib: Library, v: Vocabulary, h: map<string, string>, names: seq<string>, name: string,
                   content: seq<Field>, after: seq<Field>)
    requires names != [] && (forall n :: n in names ==> n in h) && Custom(lib, v, h, names).Ok?
    requires !Skipped(v, lib.lower(name)) && ValidName(name)
    requires names[0] != name ==> Lower(names[0]) != Lower(name)
    requires after == Custom(lib, v, h, names[1..]).value + content
    ensures Get(Trimmed(Custom(lib, v, h, names).value + content), Lower(name)) ==
      if names[0] == name && AsHeader(lib, h[name]) != "" then Trim(AsHeader(lib, h[name]))
      else Get(Trimmed(after), Lower(name))
  {
    var first, value := names[0], EncodeHeader(lib, h[names[0]]);
    var custom, rest := Custom(lib, v, h, names).value, Custom(lib, v, h, names[1..]).value;
    if Skipped(v, lib.lower(first)) || value == "" {
      assert custom == rest || custom == [] + rest;
    } else {
      assert custom == [Field(first, value)] + rest;
      HeadThenRest(Field(first, value), rest, content, Lower(name));
    }
  }

  lemma HeadThenRest(f: Field, rest: seq<Field>, content: seq<Field>, key: string)
    ensures Get(Trimmed(([f] + rest) + content), key)
         == if Lower(f.name) == key then Trim(f.value) else Get(Trimmed(rest + content), key)
  {
    assert ([f] + rest) + content == [f] + (rest + content);
    GetHead(f, rest + content, key);
  }

  lemma CustomFieldIsRead(lib: Library, v: Vocabulary, e: Envelope, names: seq<string>, name: string,
                          content: seq<Field>)
    requires SoundLibrary(lib) && SoundVocabulary(v) && ContentOnly(v, content)
    requires forall n :: n in names ==> n in e.headers
    requires Block(lib, v, e, names).Ok? && TakenOver(lib, v, names, name)
    ensures Get(Trimmed(Block(lib, v, e, names).value + content), Lower(name)) == Trim(AsHeader(lib, e.headers[name]))
  {
    var own, custom := Emit(v, Own(lib, e)), Custom(lib, v, e.headers, names).value;
    NoOtherHasIt(lib, v, e, name, content);
    CustomIsRead(lib, v, e.headers, names, name, content);
    GetPast(own, custom + content, Lower(name));
    InThree(own, custom, content);
  }

  lemma NoOtherHasIt(lib: Library, v: Vocabulary, e: Envelope, name: string, content: seq<Field>)
    requires SoundLibrary(lib) && SoundVocabulary(v) && ContentOnly(v, content)
    requires !Skipped(v, lib.lower(name)) && ValidName(name)
    ensures Absent(Emit(v, Own(lib, e)), Lower(name)) && Absent(content, Lower(name))
  {
    assert lib.lower(name) == Lower(name);
    forall k ensures v.key(k) != Lower(name) {
      KeysAreSkipped(v, k);
    }
    EmitHasOnlyOwn(v, Own(lib, e), Lower(name));
    ContentIsNoOther(v, content, Lower(name));
  }

  /** With the shipped names: whatever is not one of the builder's own, Bcc or a trace field is taken over. */
  lemma CallersFieldIsTaken(lib: Library, names: seq<string>, name: string)
    requires SoundLibrary(lib) && name in names && ValidName(name)
    requires (forall k :: Lower(name) != Key(k)) && Lower(name) != "bcc" && Lower(name) !in Trace()
    requires forall other :: other in names && other != name ==> Lower(other) != Lower(name)
    ensures TakenOver(lib, STANDARD, names, name)
  {
    OnlyTheseAreReserved(Lower(name));
    assert STANDARD.key(Date) == Key(Date) && STANDARD.key(MessageId) == Key(MessageId);
  }

  lemma OnlyTheseAreReserved(key: string)
    requires (forall k :: key != Key(k)) && key != "bcc"
    ensures key !in Reserved()
  {
    assert key != Key(From) && key != Key(To) && key != Key(Cc) && key != Key(ReplyTo) && key != Key(Subject);
    assert key != Key(MimeVersion) && key != Key(ContentType) && key != Key(TransferEncoding);
  }

  // ---- the type ----

  /** The type a message declares: what a reader that knows no better has to go by. */
  function DeclaredType(t: MT.Terms, isHtml: seq<Byte> -> bool, c: MT.Content): string {
    if c.attachments != [] then t.mixed
    else if c.body != [] && c.html != [] then t.alternative
    else if c.html != [] || isHtml(c.body) then t.html
    else t.plain
  }

  lemma TypeIsDeclared(t: MT.Terms, isHtml: seq<Byte> -> bool, c: MT.Content, b: string)
    requires MT.SoundTerms(t) && MT.SoundBoundary(b)
    ensures
      var value := RawMessage.ContentType(t, isHtml, c, b);
      Trim(value) == value && MT.MediaType(value) == DeclaredType(t, isHtml, c)
  {
    if IsMultipart(c) {
      BoundaryIsRead(t, if c.attachments != [] then t.mixed else t.alternative, b);
    } else {
      var word := if MainBody(isHtml, c).1 then t.html else t.plain;
      PlainTypeIsRead(t, word);
      MediaTypeOf(word, t.charset);
    }
  }

  lemma TypeIsRead(v: Vocabulary, t: MT.Terms, isHtml: seq<Byte> -> bool, c: MT.Content, b: string, alt: string,
                   block: seq<Field>)
    requires SoundVocabulary(v) && MT.SoundTerms(t) && SameNames(v, t) && BoundariesOk(b, alt)
    requires Absent(block, v.key(ContentType))
    ensures
      var p := RenderContent(t, isHtml, c, b, alt);
      && ContentOnly(v, p.fields)
      && MT.MediaType(Get(Trimmed(block + p.fields), v.key(ContentType))) == DeclaredType(t, isHtml, c)
  {
    var first, rest := ContentFieldsAre(v, t, isHtml, c, b, alt);
    TypeIsDeclared(t, isHtml, c, b);
    FirstIsRead(block, first, rest, v.key(ContentType));
  }

  lemma ContentFieldsAre(v: Vocabulary, t: MT.Terms, isHtml: seq<Byte> -> bool, c: MT.Content, b: string, alt: string)
    returns (first: Field, rest: seq<Field>)
    requires SoundVocabulary(v) && SameNames(v, t)
    ensures RenderContent(t, isHtml, c, b, alt).fields == [first] + rest && ContentOnly(v, [first] + rest)
    ensures first == Field(v.name(ContentType), RawMessage.ContentType(t, isHtml, c, b))
    ensures Lower(first.name) == v.key(ContentType)
  {
    first := Field(v.name(ContentType), RawMessage.ContentType(t, isHtml, c, b));
    rest := if IsMultipart(c) then [] else [Field(v.name(TransferEncoding), t.base64)];
  }

  lemma FirstIsRead(block: seq<Field>, f: Field, rest: seq<Field>, key: string)
    requires Absent(block, key) && Lower(f.name) == key
    ensures Get(Trimmed(block + ([f] + rest)), key) == Trim(f.value)
  {
    GetPast(block, [f] + rest, key);
    GetHead(f, rest, key);
  }

  // ---- the whole message ----

  /**
   * Read from the text of a rendered message: every field of the builder's own
   * says its own and nothing else, each of the caller's that is taken over says
   * what the caller set, and the declared type is that of the content.
   */
  lemma RenderedFieldsAreRight(lib: Library, v: Vocabulary, t: MT.Terms, isHtml: seq<Byte> -> bool, e: Envelope,
                               names: seq<string>, c: MT.Content, b: string, alt: string)
    requires SoundLibrary(lib) && SoundVocabulary(v) && MT.SoundTerms(t) && SameNames(v, t) && BoundariesOk(b, alt)
    requires forall n :: n in names ==> n in e.headers
    requires Block(lib, v, e, names).Ok?
    ensures
      var fs := FieldsOf(Print(RenderLines(Block(lib, v, e, names).value, RenderContent(t, isHtml, c, b, alt))));
      && fs.Some?
      && SaysItsOwn(lib, v, e, fs.value)
      && (forall n :: TakenOver(lib, v, names, n) ==> Get(fs.value, Lower(n)) == Trim(AsHeader(lib, e.headers[n])))
      && MT.MediaType(Get(fs.value, v.key(ContentType))) == DeclaredType(t, isHtml, c)
  {
    var block, p := Block(lib, v, e, names).value, RenderContent(t, isHtml, c, b, alt);
    BlockIsPrintable(lib, v, e, names);
    ContentIsOneLine(t, isHtml, c, b, alt);
    FieldsAreFound(block, p);
    NoContentFields(lib, v, e, names, ContentType);
    TypeIsRead(v, t, isHtml, c, b, alt, block);
    BlockSaysItsOwn(lib, v, e, names, p.fields);
    forall n | TakenOver(lib, v, names, n)
      ensures Get(Trimmed(block + p.fields), Lower(n)) == Trim(AsHeader(lib, e.headers[n]))
    {
      CustomFieldIsRead(lib, v, e, names, n, p.fields);
    }
  }

  lemma FieldsAreFound(block: seq<Field>, p: MT.Part)
    requires AllPrintable(block) && AllPrintable(p.fields) && AllOneLine(p.body)
    ensures FieldsOf(Print(RenderLines(block, p))) == Some(Trimmed(block + p.fields))
  {
    LinesReadBack(block + p.fields, p.body);
  }

  // ---- attachments ----

  /** A part with an attachment says that it is to be shown in the text exactly when it has a content ID. */
  lemma ShownInlineIff(t: MT.Terms, a: MT.Attachment)
    requires MT.SoundTerms(t) && D.Octets(a.name)
    ensures D.ReadKind(Get(Trimmed(AttachmentFields(t, a)), t.key(MT.Disposition)))
         == if a.contentId != "" then t.inline else t.attachment
  {
    var value := DispositionRead(t, a);
  }

  lemma DispositionRead(t: MT.Terms, a: MT.Attachment) returns (value: string)
    requires MT.SoundTerms(t) && D.Octets(a.name)
    ensures Get(Trimmed(AttachmentFields(t, a)), t.key(MT.Disposition)) == value
    ensures D.ReadKind(value) == if a.contentId != "" then t.inline else t.attachment
  {
    value := D.Format(Message.KindOf(t, a), a.name);
    AttachmentFieldsRead(t, a);
    DispositionIsTight(t, a);
    KindIsRead(t, a);
  }

  lemma KindIsRead(t: MT.Terms, a: MT.Attachment)
    requires MT.Steady(t.inline) && MT.Steady(t.attachment) && D.Octets(a.name)
    ensures D.ReadKind(D.Format(Message.KindOf(t, a), a.name)) == if a.contentId != "" then t.inline else t.attachment
  {
    D.WordsAreUsable();
    D.FilenameRoundTrip(D.WORDS, Message.KindOf(t, a), a.name);
  }
}
