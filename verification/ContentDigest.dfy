/** The bytes identity.go feeds to its hash: every field after its length, and what that tells apart. */
module ContentDigest {
  import opened Prelude

  type Bytes = seq<Byte>

  datatype Attachment = Attachment(name: Bytes, data: Bytes)

  /** The parts of an e-mail the digest looks at. `date` is the Date header the sender set. */
  datatype Email = Email(sender: Bytes, subject: Bytes, date: Bytes, to: seq<Bytes>, body: Bytes, html: Bytes,
                         attachments: seq<Attachment>)

  // ---- eight-byte lengths ----

  function Power256(n: nat): (p: nat)
    ensures p > 0
  {
    if n == 0 then 1 else 256 * Power256(n - 1)
  }

  function BigEndian(n: nat, width: nat): (b: Bytes)
    ensures |b| == width
  {
    if width == 0 then [] else BigEndian(n / 256, width - 1) + [n % 256]
  }

  function Number(b: Bytes): nat {
    if b == [] then 0 else Number(b[..|b| - 1]) * 256 + b[|b| - 1]
  }

  lemma {:induction false} NumberOfBigEndian(n: nat, width: nat)
    requires n < Power256(width)
    ensures Number(BigEndian(n, width)) == n
    decreases width
  {
    if width > 0 {
      NumberOfBigEndian(n / 256, width - 1);
      var b := BigEndian(n, width);
      assert b[..width - 1] == BigEndian(n / 256, width - 1);
    }
  }

  /** Byte `i` of a length is the length shifted right by the bytes that follow. */
  lemma {:induction false} BigEndianAt(n: nat, width: nat, i: nat)
    requires i < width
    ensures BigEndian(n, width)[i] == n / Power256(width - 1 - i) % 256
    decreases width
  {
    if i == width - 1 {
      assert Power256(0) == 1;
    } else {
      BigEndianAt(n / 256, width - 1, i);
      var p := Power256(width - 2 - i);
      assert Power256(width - 1 - i) == 256 * p;
      DivideTwice(n, 256, p);
    }
  }

  lemma DivideTwice(n: nat, a: nat, b: nat)
    requires a > 0 && b > 0
    ensures a * b > 0
    ensures n / a / b == n / (a * b)
  {
    var q, r := n / a, n % a;
    var s, t := q / b, q % b;
    Nest(n, a, b, q, r, s, t);
    QuotientIs(n, a * b, s, a * t + r);
  }

  lemma Nest(n: nat, a: nat, b: nat, q: nat, r: nat, s: nat, t: nat)
    requires n == a * q + r && r < a
    requires q == b * s + t && t < b
    ensures n == (a * b) * s + (a * t + r)
    ensures 0 <= a * t + r < a * b
  {
    assert a * (b * s + t) == (a * b) * s + a * t;
    assert a * b == a * (b - 1) + a;
    Scale(a, t, b - 1);
  }

  lemma Scale(a: nat, x: nat, y: nat)
    requires x <= y
    ensures 0 <= a * x <= a * y
  {
  }

  lemma QuotientIs(n: int, d: int, q: int, r: int)
    requires n == d * q + r && 0 <= r < d
    ensures n / d == q
  {
    var x := n / d - q;
    assert n == d * (n / d) + n % d;
    assert d * x == d * (n / d) - d * q;
    Positive(d, x + 1);
    Positive(d, 1 - x);
  }

  // ---- the stream ----

  const LENGTH_WIDTH := 8

  function Frame(field: Bytes): Bytes {
    BigEndian(|field|, LENGTH_WIDTH) + field
  }

  function Stream(fields: seq<Bytes>): Bytes {
    if fields == [] then [] else Frame(fields[0]) + Stream(fields[1..])
  }

  function Parse(stream: Bytes): Option<seq<Bytes>>
    decreases |stream|
  {
    if stream == [] then Some([])
    else if |stream| < LENGTH_WIDTH then None
    else
      var n := Number(stream[..LENGTH_WIDTH]);
      var rest := stream[LENGTH_WIDTH..];
      if n > |rest| then None
      else
        match Parse(rest[n..])
        case None => None
        case Some(more) => Some([rest[..n]] + more)
  }

  /** A length fits its eight bytes. */
  ghost predicate Fits(field: Bytes) {
    |field| < Power256(LENGTH_WIDTH)
  }

  ghost predicate AllFit(fields: seq<Bytes>) {
    forall i :: 0 <= i < |fields| ==> Fits(fields[i])
  }

  lemma ParseNext(f: Bytes, fields: seq<Bytes>)
    requires Fits(f) && Parse(Stream(fields)) == Some(fields)
    ensures Parse(Frame(f) + Stream(fields)) == Some([f] + fields)
  {
    NumberOfBigEndian(|f|, LENGTH_WIDTH);
    ParseFrame(BigEndian(|f|, LENGTH_WIDTH), f, Stream(fields), Frame(f) + Stream(fields));
  }

  /** The stream can be taken apart again. */
  lemma {:induction false} ParseStream(fields: seq<Bytes>)
    requires AllFit(fields)
    ensures Parse(Stream(fields)) == Some(fields)
    decreases |fields|
  {
    if fields != [] {
      var rest := fields[1..];
      assert Fits(fields[0]);
      assert forall i :: 0 <= i < |rest| ==> rest[i] == fields[i + 1];
      ParseStream(rest);
      ParseNext(fields[0], rest);
      assert fields == [fields[0]] + rest;
    }
  }

  lemma ParseFrame(length: Bytes, f: Bytes, more: Bytes, s: Bytes)
    requires |length| == LENGTH_WIDTH && Number(length) == |f| && s == length + f + more
    requires Parse(more).Some?
    ensures Parse(s) == Some([f] + Parse(more).value)
  {
    assert s[..LENGTH_WIDTH] == length;
    var rest := s[LENGTH_WIDTH..];
    assert rest == f + more;
    assert rest[|f|..] == more && rest[..|f|] == f;
  }

  // ---- the digest ----

  function AttachmentFields(atts: seq<Attachment>): seq<Bytes> {
    if atts == [] then [] else [atts[0].name, atts[0].data] + AttachmentFields(atts[1..])
  }

  function Fields(e: Email): seq<Bytes> {
    [e.sender, e.subject, e.date] + e.to + [e.body, e.html] + AttachmentFields(e.attachments)
  }

  /** Nothing but recipients and a date is nothing to identify a message by. */
  predicate Blank(e: Email) {
    e.sender == [] && e.subject == [] && e.body == [] && e.html == [] && e.attachments == []
  }

  function Digested(e: Email): Option<Bytes> {
    if Blank(e) then None else Some(Stream(Fields(e)))
  }

  // ---- the hash object ----

  class Hash {
    var stream: Bytes

    constructor ()
      ensures stream == []
    {
      stream := [];
    }

    method Write(b: Bytes)
      modifies this
      ensures stream == old(stream) + b
    {
      stream := stream + b;
    }

    method WriteField(b: Bytes)
      modifies this
      ensures stream == old(stream) + Frame(b)
    {
      var n := new Byte[8];
      for i := 0 to 8
        invariant forall j :: 0 <= j < i ==> n[j] == BigEndian(|b|, LENGTH_WIDTH)[j]
        invariant stream == old(stream)
      {
        BigEndianAt(|b|, LENGTH_WIDTH, i);
        n[i] := |b| / Power256(7 - i) % 256;
      }
      assert n[..] == BigEndian(|b|, LENGTH_WIDTH);
      Write(n[..]);
      Write(b);
      assert stream == old(stream) + Frame(b);
    }
  }

  lemma {:induction false} StreamConcat(a: seq<Bytes>, b: seq<Bytes>)
    ensures Stream(a + b) == Stream(a) + Stream(b)
    decreases |a|
  {
    if a == [] {
      assert a + b == b;
    } else {
      assert (a + b)[1..] == a[1..] + b;
      StreamConcat(a[1..], b);
    }
  }

  lemma StreamOne(f: Bytes)
    ensures Stream([f]) == Frame(f)
  {
    assert [f][1..] == [];
    assert Frame(f) + [] == Frame(f);
  }

  lemma StreamTwo(f: Bytes, g: Bytes)
    ensures Stream([f, g]) == Frame(f) + Frame(g)
  {
    StreamOne(f);
    StreamOne(g);
    StreamConcat([f], [g]);
    assert [f, g] == [f] + [g];
  }

  method WriteRecipients(h: Hash, to: seq<Bytes>)
    modifies h
    ensures h.stream == old(h.stream) + Stream(to)
  {
    assert to[..0] == [] && old(h.stream) + [] == old(h.stream);
    for i := 0 to |to|
      invariant h.stream == old(h.stream) + Stream(to[..i])
    {
      h.WriteField(to[i]);
      StreamOne(to[i]);
      StreamConcat(to[..i], [to[i]]);
      assert to[..i + 1] == to[..i] + [to[i]];
    }
    assert to[..|to|] == to;
  }

  lemma {:induction false} AttachmentFieldsConcat(a: seq<Attachment>, b: seq<Attachment>)
    ensures AttachmentFields(a + b) == AttachmentFields(a) + AttachmentFields(b)
    decreases |a|
  {
    if a == [] {
      assert a + b == b;
    } else {
      assert (a + b)[1..] == a[1..] + b;
      AttachmentFieldsConcat(a[1..], b);
    }
  }

  lemma OneMoreAttachment(atts: seq<Attachment>, i: nat)
    requires i < |atts|
    ensures Stream(AttachmentFields(atts[..i + 1])) ==
      Stream(AttachmentFields(atts[..i])) + Frame(atts[i].name) + Frame(atts[i].data)
  {
    assert atts[..i + 1] == atts[..i] + [atts[i]];
    StreamAttachment(atts[..i], atts[i], atts[..i + 1]);
  }

  lemma StreamAttachment(before: seq<Attachment>, a: Attachment, all: seq<Attachment>)
    requires all == before + [a]
    ensures Stream(AttachmentFields(all)) == Stream(AttachmentFields(before)) + Frame(a.name) + Frame(a.data)
  {
    AttachmentFieldsConcat(before, [a]);
    assert [a][1..] == [];
    assert AttachmentFields([a]) == [a.name, a.data];
    StreamConcat(AttachmentFields(before), [a.name, a.data]);
    StreamTwo(a.name, a.data);
  }

  lemma AfterOneMore(before: Bytes, atts: seq<Attachment>, i: nat)
    requires i < |atts|
    ensures before + Stream(AttachmentFields(atts[..i + 1])) ==
      before + Stream(AttachmentFields(atts[..i])) + Frame(atts[i].name) + Frame(atts[i].data)
  {
    OneMoreAttachment(atts, i);
    AllTogether(before, Stream(AttachmentFields(atts[..i])), Frame(atts[i].name), Frame(atts[i].data));
  }

  lemma AllTogether(a: Bytes, b: Bytes, c: Bytes, d: Bytes)
    ensures a + (b + c + d) == a + b + c + d
  {
  }

  method WriteAttachments(h: Hash, atts: seq<Attachment>)
    modifies h
    ensures h.stream == old(h.stream) + Stream(AttachmentFields(atts))
  {
    assert atts[..0] == [] && old(h.stream) + [] == old(h.stream);
    for i := 0 to |atts|
      invariant h.stream == old(h.stream) + Stream(AttachmentFields(atts[..i]))
    {
      AfterOneMore(old(h.stream), atts, i);
      h.WriteField(atts[i].name);
      h.WriteField(atts[i].data);
    }
    assert atts[..|atts|] == atts;
  }

  method Digest(e: Email) returns (stream: Option<Bytes>)
    ensures stream == Digested(e)
  {
    if e.sender == [] && e.subject == [] && |e.body| == 0 && |e.html| == 0 && |e.attachments| == 0 {
      return None;
    }
    var h := new Hash();
    h.WriteField(e.sender);
    h.WriteField(e.subject);
    h.WriteField(e.date);
    WriteRecipients(h, e.to);
    h.WriteField(e.body);
    h.WriteField(e.html);
    WriteAttachments(h, e.attachments);
    StreamOfFields(e);
    return Some(h.stream);
  }

  lemma StreamOfFields(e: Email)
    ensures Stream(Fields(e)) ==
      [] + Frame(e.sender) + Frame(e.subject) + Frame(e.date) + Stream(e.to)
        + Frame(e.body) + Frame(e.html) + Stream(AttachmentFields(e.attachments))
  {
    StreamThree(e.sender, e.subject, e.date);
    StreamTwo(e.body, e.html);
    StreamParts([e.sender, e.subject, e.date], e.to, [e.body, e.html], AttachmentFields(e.attachments));
  }

  lemma StreamThree(f: Bytes, g: Bytes, h: Bytes)
    ensures Stream([f, g, h]) == [] + Frame(f) + Frame(g) + Frame(h)
  {
    StreamTwo(f, g);
    StreamOne(h);
    StreamConcat([f, g], [h]);
    assert [f, g, h] == [f, g] + [h];
  }

  lemma StreamParts(a: seq<Bytes>, b: seq<Bytes>, c: seq<Bytes>, d: seq<Bytes>)
    ensures Stream(a + b + c + d) == Stream(a) + Stream(b) + Stream(c) + Stream(d)
  {
    StreamConcat(a + b + c, d);
    StreamConcat(a + b, c);
    StreamConcat(a, b);
  }

  // ---- which e-mails share a digest ----

  /** The two bodies read as recipients and the first attachment as the bodies. */
  function Shift(e: Email): Email
    requires e.attachments != []
  {
    e.(to := e.to + [e.body, e.html], body := e.attachments[0].name, html := e.attachments[0].data,
       attachments := e.attachments[1..])
  }

  function ShiftBy(e: Email, k: nat): Email
    requires k <= |e.attachments|
    decreases k
  {
    if k == 0 then e else ShiftBy(Shift(e), k - 1)
  }

  lemma ShiftKeepsFields(e: Email)
    requires e.attachments != []
    ensures Fields(Shift(e)) == Fields(e)
  {
    var first := e.attachments[0];
    assert AttachmentFields(e.attachments) == [first.name, first.data] + AttachmentFields(e.attachments[1..]);
  }

  lemma {:induction false} AttachmentFieldsInjective(a: seq<Attachment>, b: seq<Attachment>)
    requires AttachmentFields(a) == AttachmentFields(b)
    ensures a == b
    decreases |a|
  {
    if a == [] {
    } else {
      assert b != [];
      var x, y := AttachmentFields(a), AttachmentFields(b);
      assert x[0] == y[0] && x[1] == y[1];
      assert x[2..] == AttachmentFields(a[1..]) && y[2..] == AttachmentFields(b[1..]);
      AttachmentFieldsInjective(a[1..], b[1..]);
      assert a == [a[0]] + a[1..] && b == [b[0]] + b[1..];
    }
  }

  lemma {:induction false} AttachmentFieldsLength(a: seq<Attachment>)
    ensures |AttachmentFields(a)| == 2 * |a|
  {
    if a != [] {
      AttachmentFieldsLength(a[1..]);
    }
  }

  /** With as many recipients, equal fields are equal e-mails. */
  lemma SameFields(a: Email, b: Email)
    requires Fields(a) == Fields(b) && |a.to| == |b.to|
    ensures a == b
  {
    var f, n := Fields(a), |a.to|;
    assert f[0] == a.sender && f[1] == a.subject && f[2] == a.date && f[3 + n] == a.body && f[4 + n] == a.html;
    assert f[0] == b.sender && f[1] == b.subject && f[2] == b.date && f[3 + n] == b.body && f[4 + n] == b.html;
    assert f[3..3 + n] == a.to && f[3..3 + n] == b.to;
    assert f[5 + n..] == AttachmentFields(a.attachments) && f[5 + n..] == AttachmentFields(b.attachments);
    AttachmentFieldsInjective(a.attachments, b.attachments);
  }

  lemma {:induction false} FieldsAgree(a: Email, b: Email)
    requires |a.attachments| >= |b.attachments|
    ensures Fields(a) == Fields(b) <==> ShiftBy(a, |a.attachments| - |b.attachments|) == b
    decreases |a.attachments|
  {
    if |a.attachments| == |b.attachments| {
      AttachmentFieldsLength(a.attachments);
      AttachmentFieldsLength(b.attachments);
      if Fields(a) == Fields(b) {
        assert |Fields(a)| == |Fields(b)|;
        SameFields(a, b);
      }
    } else {
      ShiftKeepsFields(a);
      FieldsAgree(Shift(a), b);
    }
  }

  /** Only an e-mail that is nothing but recipients and a date has no digest. */
  lemma NoDigestIff(e: Email)
    ensures Digested(e) == None <==> e == Email([], [], e.date, e.to, [], [], [])
  {
  }

  ghost predicate EmailFits(e: Email) {
    AllFit(Fields(e))
  }

  /**
   * Two e-mails that are not blank share a digest exactly when one is the
   * other with some attachments read as bodies and bodies as recipients.
   */
  lemma DigestsAgree(a: Email, b: Email)
    requires !Blank(a) && !Blank(b) && EmailFits(a) && EmailFits(b)
    requires |a.attachments| >= |b.attachments|
    ensures Digested(a) == Digested(b) <==> ShiftBy(a, |a.attachments| - |b.attachments|) == b
  {
    ParseStream(Fields(a));
    ParseStream(Fields(b));
    FieldsAgree(a, b);
  }

  /** So with equally many recipients a digest determines all it covers. */
  lemma DigestIsUnique(a: Email, b: Email)
    requires !Blank(a) && !Blank(b) && EmailFits(a) && EmailFits(b)
    requires |a.to| == |b.to|
    ensures Digested(a) == Digested(b) <==> a == b
  {
    ParseStream(Fields(a));
    ParseStream(Fields(b));
    if Fields(a) == Fields(b) {
      SameFields(a, b);
    }
  }

  /** Without that condition it does not: every e-mail with an attachment has a twin with two more recipients. */
  lemma Twins(e: Email)
    requires e.attachments != [] && !Blank(Shift(e))
    ensures Shift(e) != e && |Shift(e).to| == |e.to| + 2
    ensures Digested(Shift(e)) == Digested(e)
  {
    ShiftKeepsFields(e);
  }
}
