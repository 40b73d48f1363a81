/**
 * The header block utils.go builds: which fields it writes, in which order, and
 * which of the caller's it refuses. The buffer starts empty.
 */
module HeaderBlock {
  import opened Prelude
  import opened Wire
  import opened Disposition

  /** The fields the builder itself writes, in the order it writes them. */
  datatype Kind = From | To | Cc | ReplyTo | Subject | MimeVersion | Date | MessageId | ContentType | TransferEncoding

  function Rank(k: Kind): nat {
    match k
    case From => 0
    case To => 1
    case Cc => 2
    case ReplyTo => 3
    case Subject => 4
    case MimeVersion => 5
    case Date => 6
    case MessageId => 7
    case ContentType => 8
    case TransferEncoding => 9
  }

  // Long names are written in pieces: the verifier reads a literal byte by byte.

  /** How fields are spelled, and which names a caller may not use. */
  datatype Vocabulary = Vocabulary(name: Kind -> string, key: Kind -> string, bcc: string, reserved: set<string>,
                                   trace: set<string>)

  ghost predicate SoundVocabulary(v: Vocabulary) {
    && (forall k :: ValidName(v.name(k)) && Lower(v.name(k)) == v.key(k))
    && (forall k, l :: v.key(k) == v.key(l) ==> k == l)
    && (forall k :: k != Date && k != MessageId ==> v.key(k) in v.reserved)
    && (forall k :: v.key(k) !in v.trace && v.key(k) != v.bcc)
    && v.bcc in v.reserved
  }

  const STANDARD := Vocabulary(Spelling, Key, "bcc", Reserved(), Trace())

  function Reserved(): set<string> {
    {Key(From), Key(To), Key(Cc), "bcc", Key(ReplyTo), Key(Subject), Key(MimeVersion),
     Key(ContentType), Key(TransferEncoding)}
  }

  function Trace(): set<string> {
    {"received", "return-path", "dkim" + "-signature", "domainkey" + "-signature",
     "authentication" + "-results", "arc-seal", "arc-message" + "-signature",
     "arc-authentication" + "-results", "delivered-to", "x-received"}
  }

  function Spelling(k: Kind): string {
    match k
    case From => "From"
    case To => "To"
    case Cc => "Cc"
    case ReplyTo => "Reply-To"
    case Subject => "Subject"
    case MimeVersion => "MIME" + "-Version"
    case Date => "Date"
    case MessageId => "Message" + "-ID"
    case ContentType => "Content" + "-Type"
    case TransferEncoding => "Content" + "-Transfer" + "-Encoding"
  }

  function Key(k: Kind): string {
    match k
    case From => "from"
    case To => "to"
    case Cc => "cc"
    case ReplyTo => "reply-to"
    case Subject => "subject"
    case MimeVersion => "mime" + "-version"
    case Date => "date"
    case MessageId => "message" + "-id"
    case ContentType => "content" + "-type"
    case TransferEncoding => "content" + "-transfer" + "-encoding"
  }

  /** What the Go library and the clock supply. */
  datatype Library = Library(
    address: string -> string, addresses: seq<string> -> string, encodeWord: string -> string,
    lower: string -> string, date: string, messageId: string)

  ghost predicate SoundLibrary(lib: Library) {
    && (forall s :: OneLine(lib.address(s)))
    && (forall ss :: OneLine(lib.addresses(ss)))
    && (forall s :: OneLine(lib.encodeWord(s)))
    && OneLine(lib.date) && OneLine(lib.messageId)
    && (forall s :: ValidName(s) ==> lib.lower(s) == Lower(s))
  }

  datatype Envelope = Envelope(
    sender: string, to: seq<string>, cc: seq<string>, bcc: seq<string>,
    replyTo: string, subject: string, headers: map<string, string>)

  // ---- the fields ----

  function EncodeHeader(lib: Library, s: string): string {
    var safe := Sanitize(s);
    if safe == "" then "" else if PlainAscii(safe) then safe else lib.encodeWord(safe)
  }

  /** The builder's own fields before the caller's, with the values they get. */
  function Own(lib: Library, e: Envelope): seq<(Kind, string)> {
    [(From, lib.address(e.sender)),
     (To, if |e.to| > 0 then lib.addresses(e.to) else ""),
     (Cc, if |e.cc| > 0 then lib.addresses(e.cc) else ""),
     (ReplyTo, if e.replyTo != "" then lib.addresses([e.replyTo]) else ""),
     (Subject, EncodeHeader(lib, e.subject)),
     (MimeVersion, "1.0"),
     (Date, lib.date),
     (MessageId, lib.messageId)]
  }

  /** A field without a value is not written. */
  function Emit(v: Vocabulary, ps: seq<(Kind, string)>): seq<Field> {
    if ps == [] then []
    else (if ps[0].1 == "" then [] else [Field(v.name(ps[0].0), ps[0].1)]) + Emit(v, ps[1..])
  }

  predicate Skipped(v: Vocabulary, key: string) {
    key in v.reserved || key in v.trace || key == v.key(Date) || key == v.key(MessageId)
  }

  /** The caller's fields, or the first name that is not legal. */
  function Custom(lib: Library, v: Vocabulary, h: map<string, string>, names: seq<string>): Result<seq<Field>, string>
    requires forall n :: n in names ==> n in h
    decreases |names|
  {
    if names == [] then Ok([])
    else
      var name := names[0];
      if Skipped(v, lib.lower(name)) then Custom(lib, v, h, names[1..])
      else if !ValidName(name) then Err(name)
      else
        match Custom(lib, v, h, names[1..])
        case Err(bad) => Err(bad)
        case Ok(fs) =>
          var value := EncodeHeader(lib, h[name]);
          Ok((if value == "" then [] else [Field(name, value)]) + fs)
  }

  function Block(lib: Library, v: Vocabulary, e: Envelope, names: seq<string>): Result<seq<Field>, string>
    requires forall n :: n in names ==> n in e.headers
  {
    match Custom(lib, v, e.headers, names)
    case Err(bad) => Err(bad)
    case Ok(fs) => Ok(Emit(v, Own(lib, e)) + fs)
  }

  // ---- the order of the caller's fields ----

  /** The order of strings by their octets. */
  predicate Less(a: string, b: string) {
    b != "" && (a == "" || a[0] < b[0] || (a[0] == b[0] && Less(a[1..], b[1..])))
  }

  ghost predicate Ascending(names: seq<string>) {
    forall i, j :: 0 <= i < j < |names| ==> Less(names[i], names[j])
  }

  /** Every key of the map once, in ascending order. */
  ghost predicate SortedKeys(names: seq<string>, h: map<string, string>) {
    Ascending(names) && forall n :: n in names <==> n in h
  }

  lemma {:induction false} LessIsStrict(a: string, b: string)
    requires Less(a, b)
    ensures a != b && !Less(b, a)
    decreases |a|
  {
    if a != "" && a[0] == b[0] {
      LessIsStrict(a[1..], b[1..]);
    }
  }

  /** There is only one such enumeration, so rendering twice gives the same bytes. */
  lemma SortedKeysUnique(h: map<string, string>, a: seq<string>, b: seq<string>)
    requires SortedKeys(a, h) && SortedKeys(b, h)
    ensures a == b
  {
    AscendingUnique(a, b);
  }

  lemma {:induction false} AscendingUnique(a: seq<string>, b: seq<string>)
    requires Ascending(a) && Ascending(b)
    requires forall n :: n in a <==> n in b
    ensures a == b
    decreases |a|
  {
    if a == [] {
      assert forall i :: 0 <= i < |b| ==> b[i] in a;
    } else {
      FirstIsLeast(a, b);
      forall n ensures n in a[1..] <==> n in b[1..] {
        TailMembers(a, n);
        TailMembers(b, n);
      }
      AscendingUnique(a[1..], b[1..]);
      assert a == [a[0]] + a[1..] && b == [b[0]] + b[1..];
    }
  }

  lemma FirstIsLeast(a: seq<string>, b: seq<string>)
    requires Ascending(a) && Ascending(b) && a != []
    requires forall n :: n in a <==> n in b
    ensures b != [] && a[0] == b[0]
  {
    assert a[0] in a;
    assert b[0] in b;
    var i :| 0 <= i < |b| && b[i] == a[0];
    var j :| 0 <= j < |a| && a[j] == b[0];
    assert j > 0 ==> Less(a[0], b[0]);
    if i > 0 {
      LessIsStrict(b[0], a[0]);
    }
  }

  lemma TailMembers(a: seq<string>, n: string)
    requires Ascending(a) && a != []
    ensures n in a[1..] <==> n in a && n != a[0]
  {
    if n in a[1..] {
      var i :| 0 <= i < |a| - 1 && a[1..][i] == n;
      LessIsStrict(a[0], a[i + 1]);
    }
  }

  // ---- what the block holds ----

  lemma EncodedIsOneLine(lib: Library, s: string)
    requires SoundLibrary(lib)
    ensures OneLine(EncodeHeader(lib, s))
  {
    SanitizeIsLegal(s);
    LegalIsOneLine(Sanitize(s));
  }

  lemma {:induction false} CustomIsPrintable(lib: Library, v: Vocabulary, h: map<string, string>, names: seq<string>)
    requires SoundLibrary(lib)
    requires forall n :: n in names ==> n in h
    ensures Custom(lib, v, h, names).Ok? ==> AllPrintable(Custom(lib, v, h, names).value)
    decreases |names|
  {
    if names != [] {
      var name := names[0];
      CustomIsPrintable(lib, v, h, names[1..]);
      if Skipped(v, lib.lower(name)) {
      } else if !ValidName(name) {
      } else {
        EncodedIsOneLine(lib, h[name]);
      }
    }
  }

  ghost predicate OneLineValues(ps: seq<(Kind, string)>) {
    forall i :: 0 <= i < |ps| ==> OneLine(ps[i].1)
  }

  lemma {:induction false} EmitIsPrintable(v: Vocabulary, ps: seq<(Kind, string)>)
    requires SoundVocabulary(v) && OneLineValues(ps)
    ensures AllPrintable(Emit(v, ps))
    decreases |ps|
  {
    if ps != [] {
      assert OneLine(ps[0].1);
      assert forall i :: 0 <= i < |ps[1..]| ==> ps[1..][i] == ps[i + 1];
      EmitIsPrintable(v, ps[1..]);
      assert ValidName(v.name(ps[0].0));
    }
  }

  lemma OwnValuesAreOneLine(lib: Library, e: Envelope)
    requires SoundLibrary(lib)
    ensures OneLineValues(Own(lib, e))
  {
    EncodedIsOneLine(lib, e.subject);
    assert OneLine("1.0");
    assert OneLine("");
  }

  lemma BlockIsPrintable(lib: Library, v: Vocabulary, e: Envelope, names: seq<string>)
    requires SoundLibrary(lib) && SoundVocabulary(v)
    requires forall n :: n in names ==> n in e.headers
    ensures Block(lib, v, e, names).Ok? ==> AllPrintable(Block(lib, v, e, names).value)
  {
    OwnValuesAreOneLine(lib, e);
    EmitIsPrintable(v, Own(lib, e));
    CustomIsPrintable(lib, v, e.headers, names);
  }

  /** A rendered block reads back as the fields that were written, in order, and ends where the body begins. */
  lemma BlockReadsBack(lib: Library, v: Vocabulary, e: Envelope, names: seq<string>, more: seq<Field>,
          body: seq<string>)
    requires SoundLibrary(lib) && SoundVocabulary(v) && AllPrintable(more) && AllOneLine(body)
    requires forall n :: n in names ==> n in e.headers
    requires Block(lib, v, e, names).Ok?
    ensures
      var fs := Block(lib, v, e, names).value + more;
      var lines := FieldLines(fs) + ([""] + body);
      Split(Print(lines)) == Some(lines) && ReadFields(lines) == Some((Trimmed(fs), body))
  {
    var fs := Block(lib, v, e, names).value + more;
    BlockIsPrintable(lib, v, e, names);
    ReadPrintedFields(fs, body);
    FieldLinesAreOneLine(fs);
    assert OneLine("");
    SplitPrint(FieldLines(fs) + ([""] + body));
  }

  /** The caller's fields come through exactly when they are neither skipped nor empty. */
  lemma {:induction false} CustomHolds(lib: Library, v: Vocabulary, h: map<string, string>, names: seq<string>,
          f: Field)
    requires forall n :: n in names ==> n in h
    requires Custom(lib, v, h, names).Ok?
    ensures f in Custom(lib, v, h, names).value <==>
      f.name in names && !Skipped(v, lib.lower(f.name)) && f.value != "" && f.value == EncodeHeader(lib, h[f.name])
    decreases |names|
  {
    if names != [] {
      var name := names[0];
      assert f.name in names <==> f.name == name || f.name in names[1..];
      CustomHolds(lib, v, h, names[1..], f);
      if Skipped(v, lib.lower(name)) {
      } else {
      }
    }
  }

  predicate Refused(lib: Library, v: Vocabulary, name: string) {
    !Skipped(v, lib.lower(name)) && !ValidName(name)
  }

  /** The builder fails exactly when some name that is not skipped is illegal, and names such a one. */
  lemma {:induction false} CustomFailsIff(lib: Library, v: Vocabulary, h: map<string, string>, names: seq<string>)
    requires forall n :: n in names ==> n in h
    ensures Custom(lib, v, h, names).Err? <==> exists n :: n in names && Refused(lib, v, n)
    ensures Custom(lib, v, h, names).Err? ==>
      Custom(lib, v, h, names).error in names && Refused(lib, v, Custom(lib, v, h, names).error)
    decreases |names|
  {
    if names != [] {
      var name := names[0];
      CustomFailsIff(lib, v, h, names[1..]);
      assert forall n :: n in names <==> n == name || n in names[1..];
      if Skipped(v, lib.lower(name)) {
        assert !Refused(lib, v, name);
      } else if !ValidName(name) {
        assert Refused(lib, v, name);
      } else {
        assert !Refused(lib, v, name);
      }
    }
  }

  // ---- nothing twice, nothing forged ----

  /** Fields of the builder's own, by rising rank. */
  ghost predicate Ranked(v: Vocabulary, ps: seq<(Kind, string)>) {
    forall i, j :: 0 <= i < j < |ps| ==> Rank(ps[i].0) < Rank(ps[j].0)
  }

  ghost predicate IsField(fs: seq<Field>, i: int, key: string) {
    0 <= i < |fs| && Lower(fs[i].name) == key
  }

  ghost predicate AtMostOnce(fs: seq<Field>, key: string) {
    forall i, j :: IsField(fs, i, key) && IsField(fs, j, key) ==> i == j
  }

  ghost predicate Absent(fs: seq<Field>, key: string) {
    forall i :: !IsField(fs, i, key)
  }

  lemma {:induction false} EmitRanks(v: Vocabulary, ps: seq<(Kind, string)>, k: Kind)
    requires SoundVocabulary(v) && Ranked(v, ps)
    ensures AtMostOnce(Emit(v, ps), v.key(k))
    ensures (forall i :: 0 <= i < |ps| ==> ps[i].0 != k) ==> Absent(Emit(v, ps), v.key(k))
    decreases |ps|
  {
    if ps != [] {
      var rest := ps[1..];
      assert forall i :: 0 <= i < |rest| ==> rest[i] == ps[i + 1];
      EmitRanks(v, rest, k);
      if ps[0].1 != "" {
        var f := Field(v.name(ps[0].0), ps[0].1);
        assert Lower(f.name) == v.key(ps[0].0);
        if ps[0].0 == k {
          assert forall i :: 0 <= i < |rest| ==> rest[i].0 != k;
        }
        Prepend(f, Emit(v, rest), v.key(k));
      } else {
        assert Emit(v, ps) == [] + Emit(v, rest) == Emit(v, rest);
      }
    }
  }

  lemma Prepend(f: Field, fs: seq<Field>, key: string)
    ensures Lower(f.name) != key && AtMostOnce(fs, key) ==> AtMostOnce([f] + fs, key)
    ensures Lower(f.name) != key && Absent(fs, key) ==> Absent([f] + fs, key)
    ensures Absent(fs, key) ==> AtMostOnce([f] + fs, key)
  {
    forall i | IsField([f] + fs, i, key) ensures i == 0 || IsField(fs, i - 1, key) {
    }
  }

  lemma {:induction false} EmitHasOnlyOwn(v: Vocabulary, ps: seq<(Kind, string)>, key: string)
    requires SoundVocabulary(v) && forall k :: v.key(k) != key
    ensures Absent(Emit(v, ps), key)
    decreases |ps|
  {
    if ps != [] {
      EmitHasOnlyOwn(v, ps[1..], key);
      if ps[0].1 == "" {
        assert Emit(v, ps) == [] + Emit(v, ps[1..]) == Emit(v, ps[1..]);
      } else {
        assert Lower(v.name(ps[0].0)) == v.key(ps[0].0);
        Prepend(Field(v.name(ps[0].0), ps[0].1), Emit(v, ps[1..]), key);
      }
    }
  }

  /** No name that is skipped gets through, however it is capitalised. */
  lemma {:induction false} CustomHasNone(lib: Library, v: Vocabulary, h: map<string, string>, names: seq<string>,
          key: string)
    requires SoundLibrary(lib) && Skipped(v, key)
    requires forall n :: n in names ==> n in h
    requires Custom(lib, v, h, names).Ok?
    ensures Absent(Custom(lib, v, h, names).value, key)
    decreases |names|
  {
    if names != [] {
      var name := names[0];
      var rest := names[1..];
      CustomHasNone(lib, v, h, rest, key);
      if Skipped(v, lib.lower(name)) {
      } else {
        assert lib.lower(name) == Lower(name);
        var value := EncodeHeader(lib, h[name]);
        var fs := Custom(lib, v, h, rest).value;
        if value == "" {
          assert [] + fs == fs;
        } else {
          Prepend(Field(name, value), fs, key);
        }
      }
    }
  }

  lemma OwnIsRanked(lib: Library, v: Vocabulary, e: Envelope)
    ensures Ranked(v, Own(lib, e))
  {
    assert forall i :: 0 <= i < |Own(lib, e)| ==> Rank(Own(lib, e)[i].0) == i;
  }

  lemma AppendOnce(a: seq<Field>, b: seq<Field>, key: string)
    ensures AtMostOnce(a, key) && Absent(b, key) ==> AtMostOnce(a + b, key)
    ensures Absent(a, key) && Absent(b, key) ==> Absent(a + b, key)
  {
    forall i | IsField(a + b, i, key) ensures IsField(a, i, key) || IsField(b, i - |a|, key) {
    }
  }

  /** Every field of the builder's own appears at most once in the whole block, whatever the caller supplied. */
  lemma EachFieldOnce(lib: Library, v: Vocabulary, e: Envelope, names: seq<string>, k: Kind)
    requires SoundLibrary(lib) && SoundVocabulary(v)
    requires forall n :: n in names ==> n in e.headers
    requires Block(lib, v, e, names).Ok?
    ensures AtMostOnce(Block(lib, v, e, names).value, v.key(k))
  {
    OwnIsRanked(lib, v, e);
    EmitRanks(v, Own(lib, e), k);
    KeysAreSkipped(v, k);
    CustomHasNone(lib, v, e.headers, names, v.key(k));
    AppendOnce(Emit(v, Own(lib, e)), Custom(lib, v, e.headers, names).value, v.key(k));
  }

  lemma KeysAreSkipped(v: Vocabulary, k: Kind)
    requires SoundVocabulary(v)
    ensures Skipped(v, v.key(k))
  {
  }

  /** The content fields are left to whoever writes the body. */
  lemma NoContentFields(lib: Library, v: Vocabulary, e: Envelope, names: seq<string>, k: Kind)
    requires SoundLibrary(lib) && SoundVocabulary(v)
    requires forall n :: n in names ==> n in e.headers
    requires Block(lib, v, e, names).Ok?
    requires k == ContentType || k == TransferEncoding
    ensures Absent(Block(lib, v, e, names).value, v.key(k))
  {
    OwnIsRanked(lib, v, e);
    OwnHasNoContent(lib, e, k);
    EmitRanks(v, Own(lib, e), k);
    KeysAreSkipped(v, k);
    CustomHasNone(lib, v, e.headers, names, v.key(k));
    AppendOnce(Emit(v, Own(lib, e)), Custom(lib, v, e.headers, names).value, v.key(k));
  }

  lemma OwnHasNoContent(lib: Library, e: Envelope, k: Kind)
    requires k == ContentType || k == TransferEncoding
    ensures forall i :: 0 <= i < |Own(lib, e)| ==> Own(lib, e)[i].0 != k
  {
  }

  /** No Bcc and no trace field is ever written, from the caller's headers or otherwise. */
  lemma NothingForged(lib: Library, v: Vocabulary, e: Envelope, names: seq<string>, key: string)
    requires SoundLibrary(lib) && SoundVocabulary(v)
    requires forall n :: n in names ==> n in e.headers
    requires Block(lib, v, e, names).Ok?
    requires key == v.bcc || key in v.trace
    ensures Absent(Block(lib, v, e, names).value, key)
  {
    EmitHasOnlyOwn(v, Own(lib, e), key);
    CustomHasNone(lib, v, e.headers, names, key);
    AppendOnce(Emit(v, Own(lib, e)), Custom(lib, v, e.headers, names).value, key);
  }

  lemma StandardIsSound()
    ensures SoundVocabulary(STANDARD)
  {
    forall k ensures ValidName(STANDARD.name(k)) && Lower(STANDARD.name(k)) == STANDARD.key(k) {
      LowerSpelling(k);
    }
    forall k, l | STANDARD.key(k) == STANDARD.key(l) ensures k == l {
      KindOfKey(k);
      KindOfKey(l);
    }
    forall k ensures STANDARD.key(k) !in STANDARD.trace && STANDARD.key(k) != STANDARD.bcc {
      KeyIsNoTrace(k);
    }
    forall k | k != Date && k != MessageId ensures STANDARD.key(k) in STANDARD.reserved {
      KeyIsReserved(k);
    }
  }

  lemma KeyIsReserved(k: Kind)
    requires k != Date && k != MessageId
    ensures Key(k) in Reserved()
  {
  }

  lemma LowerSpelling(k: Kind)
    ensures ValidName(Spelling(k))
    ensures Lower(Spelling(k)) == Key(k)
  {
    SpellingIsValid(k);
    match k
    case From => LowerIs("From", "from");
    case To => LowerIs("To", "to");
    case Cc => LowerIs("Cc", "cc");
    case ReplyTo => LowerIs("Reply-To", "reply-to");
    case Subject => LowerIs("Subject", "subject");
    case MimeVersion => LowerIs("MIME" + "-Version", "mime" + "-version");
    case Date => LowerIs("Date", "date");
    case MessageId => LowerIs("Message" + "-ID", "message" + "-id");
    case ContentType => LowerIs("Content" + "-Type", "content" + "-type");
    case TransferEncoding => LowerTransferEncoding();
  }

  lemma LowerTransferEncoding()
    ensures Lower(Spelling(TransferEncoding)) == Key(TransferEncoding)
  {
    LowerIs(Spelling(TransferEncoding), Key(TransferEncoding));
  }

  lemma SpellingIsValid(k: Kind)
    ensures ValidName(Spelling(k))
  {
  }

  lemma LowerIs(s: string, l: string)
    requires |l| == |s| && forall i :: 0 <= i < |l| ==> l[i] == LowerChar(s[i])
    ensures Lower(s) == l
  {
  }

  function KindOf(key: string): Kind {
    if |key| == 2 then if key[0] == 't' then To else Cc
    else if |key| == 4 then if key[0] == 'f' then From else Date
    else if |key| == 7 then Subject
    else if |key| == 8 then ReplyTo
    else if |key| == 10 then MessageId
    else if |key| == 12 then if key[0] == 'm' then MimeVersion else ContentType
    else TransferEncoding
  }

  lemma KindOfKey(k: Kind)
    ensures KindOf(Key(k)) == k
  {
  }

  lemma KeyIsNoTrace(k: Kind)
    ensures Key(k) !in Trace() && Key(k) != "bcc"
  {
    var key := Key(k);
    assert key !in Trace() by {
      assert |key| == 8 ==> key[2] == 'p';
      assert |key| == 10 ==> key[0] == 'm';
      assert |key| == 12 ==> key[0] != 'd';
    }
  }

  // ---- the builder ----

  /** A block of fields as it stands in the buffer. */
  function Printed(fs: seq<Field>): string {
    Print(FieldLines(fs))
  }

  function PrintedField(key: string, value: string): string {
    if value == "" then "" else Line(Field(key, value)) + CRLF
  }

  lemma PrintedMore(key: string, value: string, fs: seq<Field>)
    ensures Printed((if value == "" then [] else [Field(key, value)]) + fs) == PrintedField(key, value) + Printed(fs)
  {
    if value == "" {
      assert [] + fs == fs;
    } else {
      var all := [Field(key, value)] + fs;
      assert all[1..] == fs;
      assert FieldLines(all)[1..] == FieldLines(fs);
    }
  }

  class Builder {
    var out: string

    constructor ()
      ensures out == ""
    {
      out := "";
    }

    method WriteHeader(key: string, value: string)
      modifies this
      ensures out == old(out) + PrintedField(key, value)
    {
      if value == "" {
        return;
      }
      out := out + key;
      out := out + (":" + " ");
      out := out + value;
      out := out + CRLF;
      assert out == old(out) + (Line(Field(key, value)) + CRLF);
    }

    method WriteOwn(lib: Library, v: Vocabulary, e: Envelope)
      modifies this
      ensures out == old(out) + Printed(Emit(v, Own(lib, e)))
    {
      var ps := Own(lib, e);
      assert ps[0..] == ps;
      for i := 0 to |ps|
        invariant out + Printed(Emit(v, ps[i..])) == old(out) + Printed(Emit(v, ps))
      {
        var name, value := v.name(ps[i].0), ps[i].1;
        EmitStep(v, ps, i);
        PrintedMore(name, value, Emit(v, ps[i + 1..]));
        Regroup(out, PrintedField(name, value), Printed(Emit(v, ps[i + 1..])));
        WriteHeader(name, value);
      }
      assert out + "" == out;
    }

    /** The caller's names come in ascending order; the first illegal one ends the rendering. */
    method WriteCustom(lib: Library, v: Vocabulary, h: map<string, string>, names: seq<string>)
      returns (bad: Option<string>)
      requires forall n :: n in names ==> n in h
      modifies this
      ensures
        match Custom(lib, v, h, names)
        case Err(name) => bad == Some(name)
        case Ok(fs) => bad == None && out == old(out) + Printed(fs)
    {
      assert names[0..] == names;
      for i := 0 to |names|
        invariant Ahead(Custom(lib, v, h, names), Custom(lib, v, h, names[i..]), old(out), out)
      {
        var name := names[i];
        CustomStep(lib, v, h, names, i);
        if Skipped(v, lib.lower(name)) {
          continue;
        }
        if !ValidName(name) {
          return Some(name);
        }
        var value := EncodeHeader(lib, h[name]);
        AheadMore(Custom(lib, v, h, names), Custom(lib, v, h, names[i + 1..]), name, value, old(out), out);
        WriteHeader(name, value);
      }
      bad := None;
      assert out + "" == out;
    }

    method BuildHeader(lib: Library, v: Vocabulary, e: Envelope, names: seq<string>) returns (bad: Option<string>)
      requires forall n :: n in names ==> n in e.headers
      modifies this
      ensures
        match Block(lib, v, e, names)
        case Err(name) => bad == Some(name)
        case Ok(fs) => bad == None && out == old(out) + Printed(fs)
    {
      WriteOwn(lib, v, e);
      bad := WriteCustom(lib, v, e.headers, names);
      if bad == None {
        PrintedConcat(Emit(v, Own(lib, e)), Custom(lib, v, e.headers, names).value);
      }
    }
  }

  lemma PrintedConcat(a: seq<Field>, b: seq<Field>)
    ensures Printed(a + b) == Printed(a) + Printed(b)
  {
    FieldLinesConcat(a, b);
    PrintConcat(FieldLines(a), FieldLines(b));
  }

  lemma Regroup(a: string, b: string, c: string)
    ensures a + (b + c) == (a + b) + c
  {
  }

  lemma EmitStep(v: Vocabulary, ps: seq<(Kind, string)>, i: nat)
    requires i < |ps|
    ensures Emit(v, ps[i..]) ==
      (if ps[i].1 == "" then [] else [Field(v.name(ps[i].0), ps[i].1)]) + Emit(v, ps[i + 1..])
  {
    assert ps[i..][0] == ps[i] && ps[i..][1..] == ps[i + 1..];
  }

  /** What was written and what is still to come make up the whole. */
  ghost predicate Ahead(all: Result<seq<Field>, string>, rest: Result<seq<Field>, string>,
                        before: string, out: string)
  {
    match all
    case Err(name) => rest == Err(name)
    case Ok(fs) => rest.Ok? && out + Printed(rest.value) == before + Printed(fs)
  }

  lemma AheadMore(all: Result<seq<Field>, string>, rest: Result<seq<Field>, string>, name: string, value: string,
          before: string, out: string)
    requires rest.Ok? ==> Ahead(all, Ok((if value == "" then [] else [Field(name, value)]) + rest.value), before, out)
    requires rest.Err? ==> Ahead(all, rest, before, out)
    ensures Ahead(all, rest, before, out + PrintedField(name, value))
  {
    if rest.Ok? {
      PrintedMore(name, value, rest.value);
      Regroup(out, PrintedField(name, value), Printed(rest.value));
    }
  }

  lemma CustomStep(lib: Library, v: Vocabulary, h: map<string, string>, names: seq<string>, i: nat)
    requires i < |names| && forall n :: n in names ==> n in h
    ensures
      var name := names[i];
      var rest := Custom(lib, v, h, names[i + 1..]);
      var value := EncodeHeader(lib, h[name]);
      Custom(lib, v, h, names[i..]) ==
        if Skipped(v, lib.lower(name)) then rest
        else if !ValidName(name) then Err(name)
        else if rest.Err? then rest
        else Ok((if value == "" then [] else [Field(name, value)]) + rest.value)
  {
    assert names[i..][0] == names[i] && names[i..][1..] == names[i + 1..];
  }
}
