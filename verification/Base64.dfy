/**
 * Base64 bodies: the standard encoding (section 4 of RFC 4648), the writer
 * that breaks it into 76-column lines (section 6.8 of RFC 2045), and the
 * reader that undoes both.
 */
module Base64 {
  import opened Prelude
  import opened Wire

  // ---- the encoding ----

  type Sextet = n: int | 0 <= n < 64

  function Letter(n: Sextet): (c: char)
    ensures Value(c) == Some(n)
  {
    if n < 26 then (n + 65) as char
    else if n < 52 then (n + 71) as char
    else if n < 62 then (n - 4) as char
    else if n == 62 then '+'
    else '/'
  }

  function Value(c: char): Option<Sextet> {
    if 'A' <= c <= 'Z' then Some(c as int - 65)
    else if 'a' <= c <= 'z' then Some(c as int - 71)
    else if '0' <= c <= '9' then Some(c as int + 4)
    else if c == '+' then Some(62)
    else if c == '/' then Some(63)
    else None
  }

  /** One to three octets make four letters, the missing octets padded. */
  function EncodeGroup(d: seq<Byte>): (q: string)
    requires 1 <= |d| <= 3
    ensures |q| == 4
    ensures forall i :: 0 <= i < 4 ==> IsBase64(q[i])
  {
    if |d| == 1 then
      [Letter(d[0] / 4), Letter(d[0] % 4 * 16), '=', '=']
    else if |d| == 2 then
      [Letter(d[0] / 4), Letter(d[0] % 4 * 16 + d[1] / 16), Letter(d[1] % 16 * 4), '=']
    else
      [Letter(d[0] / 4), Letter(d[0] % 4 * 16 + d[1] / 16), Letter(d[1] % 16 * 4 + d[2] / 64), Letter(d[2] % 64)]
  }

  function DecodeGroup(q: string): (d: Option<seq<Byte>>)
    requires |q| == 4
    ensures d.Some? ==> 1 <= |d.value| <= 3
  {
    var v, w, x, y := Value(q[0]), Value(q[1]), Value(q[2]), Value(q[3]);
    if v.None? || w.None? then None
    else if q[2] == '=' then
      if q[3] == '=' then Some([v.value * 4 + w.value / 16]) else None
    else if x.None? then None
    else if q[3] == '=' then
      Some([v.value * 4 + w.value / 16, w.value % 16 * 16 + x.value / 4])
    else if y.None? then None
    else
      Some([v.value * 4 + w.value / 16, w.value % 16 * 16 + x.value / 4, x.value % 4 * 64 + y.value])
  }

  lemma GroupRoundTrip(d: seq<Byte>)
    requires 1 <= |d| <= 3
    ensures DecodeGroup(EncodeGroup(d)) == Some(d)
  {
    if |d| == 1 {
      OneOctet(d[0]);
      assert d == [d[0]];
    } else if |d| == 2 {
      TwoOctets(d[0], d[1]);
      assert d == [d[0], d[1]];
    } else {
      ThreeOctets(d[0], d[1], d[2]);
      assert d == [d[0], d[1], d[2]];
    }
  }

  lemma OneOctet(a: Byte)
    ensures DecodeGroup(EncodeGroup([a])) == Some([a])
  {
    Regroup(a, 0, 0);
    assert Value(EncodeGroup([a])[1]) == Some(a % 4 * 16);
  }

  lemma TwoOctets(a: Byte, b: Byte)
    ensures DecodeGroup(EncodeGroup([a, b])) == Some([a, b])
  {
    Regroup(a, b, 0);
    assert Value(EncodeGroup([a, b])[1]) == Some(a % 4 * 16 + b / 16);
  }

  lemma ThreeOctets(a: Byte, b: Byte, c: Byte)
    ensures DecodeGroup(EncodeGroup([a, b, c])) == Some([a, b, c])
  {
    Regroup(a, b, c);
    assert Value(EncodeGroup([a, b, c])[1]) == Some(a % 4 * 16 + b / 16);
    assert Value(EncodeGroup([a, b, c])[2]) == Some(b % 16 * 4 + c / 64);
  }

  /** Cutting three octets into four sextets loses nothing. */
  lemma Regroup(a: Byte, b: Byte, c: Byte)
    ensures a == a / 4 * 4 + (a % 4 * 16 + b / 16) / 16
    ensures b == (a % 4 * 16 + b / 16) % 16 * 16 + (b % 16 * 4 + c / 64) / 4
    ensures c == (b % 16 * 4 + c / 64) % 4 * 64 + c % 64
  {
  }

  function Encode(data: seq<Byte>): string
    decreases |data|
  {
    if data == [] then ""
    else if |data| <= 3 then EncodeGroup(data)
    else EncodeGroup(data[..3]) + Encode(data[3..])
  }

  /** What a decoder gives before it meets the end of its input, or (`whole` is false) an error. */
  datatype Decoded = Decoded(data: seq<Byte>, whole: bool)

  /** Only the last group may be padded. */
  function Decode(s: string): Decoded
    decreases |s|
  {
    if s == "" then Decoded([], true)
    else if |s| < 4 then Decoded([], false)
    else
      match DecodeGroup(s[..4])
      case None => Decoded([], false)
      case Some(d) =>
        if |d| < 3 then Decoded(d, |s| == 4)
        else
          var rest := Decode(s[4..]);
          Decoded(d + rest.data, rest.whole)
  }

  lemma {:induction false} DecodeEncode(data: seq<Byte>)
    ensures Decode(Encode(data)) == Decoded(data, true)
    decreases |data|
  {
    var s := Encode(data);
    if data == [] {
    } else if |data| <= 3 {
      GroupRoundTrip(data);
      assert s[..4] == s && s[4..] == "";
      assert data + [] == data;
    } else {
      GroupRoundTrip(data[..3]);
      DecodeEncode(data[3..]);
      assert s[..4] == EncodeGroup(data[..3]) && s[4..] == Encode(data[3..]);
      assert data == data[..3] + data[3..];
    }
  }

  /** An encoding cut short still gives every whole group. */
  lemma {:induction false} DecodeCut(data: seq<Byte>, k: nat, groups: nat)
    requires 4 * groups <= k <= |Encode(data)|
    ensures |Decode(Encode(data)[..k]).data| >= Min(|data|, 3 * groups)
    decreases |data|
  {
    if groups == 0 {
    } else if |data| <= 3 {
      assert Encode(data)[..k] == Encode(data);
      DecodeEncode(data);
    } else {
      var head, rest := data[..3], data[3..];
      GroupRoundTrip(head);
      DecodeCut(rest, k - 4, groups - 1);
      DecodeUnfolds(EncodeGroup(head), Encode(rest)[..k - 4], Encode(data)[..k]);
    }
  }

  lemma DecodeUnfolds(q: string, rest: string, s: string)
    requires |q| == 4 && s == q + rest
    requires DecodeGroup(q).Some? && |DecodeGroup(q).value| == 3
    ensures Decode(s).data == DecodeGroup(q).value + Decode(rest).data
  {
    assert s[..4] == q && s[4..] == rest;
  }

  /** A character of an encoding. */
  predicate IsBase64(c: char) {
    Value(c).Some? || c == '='
  }

  lemma {:induction false} EncodeAlphabet(data: seq<Byte>)
    ensures forall i :: 0 <= i < |Encode(data)| ==> IsBase64(Encode(data)[i])
    decreases |data|
  {
    if data == [] {
    } else if |data| <= 3 {
    } else {
      EncodeAlphabet(data[3..]);
    }
  }

  lemma {:induction false} EncodeLength(data: seq<Byte>)
    ensures |Encode(data)| == (|data| + 2) / 3 * 4
    decreases |data|
  {
    if data == [] {
    } else if |data| <= 3 {
    } else {
      EncodeLength(data[3..]);
      assert (|data| + 2) / 3 == (|data[3..]| + 2) / 3 + 1;
    }
  }

  // ---- lines ----

  const WIDTH := 76

  /** The lines of an encoding: every one full but the last. */
  function Lines(s: string): (ls: seq<string>)
    ensures |ls| > 0
    decreases |s|
  {
    if |s| <= WIDTH then [s] else [s[..WIDTH]] + Lines(s[WIDTH..])
  }

  function Join(lines: seq<string>): string {
    if lines == [] then ""
    else if |lines| == 1 then lines[0]
    else lines[0] + CRLF + Join(lines[1..])
  }

  function Wrapped(s: string): string {
    Join(Lines(s))
  }

  lemma {:induction false} LinesShape(s: string)
    ensures forall i :: 0 <= i < |Lines(s)| - 1 ==> |Lines(s)[i]| == 76
    ensures |Lines(s)[|Lines(s)| - 1]| <= 76
    ensures s != "" ==> forall i :: 0 <= i < |Lines(s)| ==> Lines(s)[i] != ""
    ensures forall i, j :: 0 <= i < |Lines(s)| && 0 <= j < |Lines(s)[i]| ==> Lines(s)[i][j] in s
    decreases |s|
  {
    if |s| > WIDTH {
      LinesShape(s[WIDTH..]);
    }
  }

  lemma {:induction false} WrappedUnfolds(s: string)
    requires |s| > WIDTH
    ensures Wrapped(s) == s[..WIDTH] + CRLF + Wrapped(s[WIDTH..])
  {
    assert Lines(s)[1..] == Lines(s[WIDTH..]);
  }

  // ---- the writer ----

  /** How much of the last line is full. */
  function Column(s: string): nat
    decreases |s|
  {
    if |s| <= WIDTH then |s| else Column(s[WIDTH..])
  }

  /** Writing a piece that fits on the last line, after a line break if that line is full. */
  lemma {:induction false} WrapMore(s: string, p: string)
    requires p != ""
    requires |p| <= if Column(s) == WIDTH then WIDTH else WIDTH - Column(s)
    ensures Column(s) <= WIDTH
    ensures Wrapped(s + p) == Wrapped(s) + Break(Column(s) == WIDTH) + p
    ensures Column(s + p) == (if Column(s) == WIDTH then 0 else Column(s)) + |p|
    decreases |s|
  {
    if |s| < WIDTH {
      assert Lines(s + p) == [s + p];
      assert s + "" == s;
    } else if |s| == WIDTH {
      WrapAfter(s, p, s + p);
    } else {
      var head, tail := s[..WIDTH], s[WIDTH..];
      assert s + p == head + (tail + p) && s == head + tail;
      WrapMore(tail, p);
      WrapAfter(head, tail + p, s + p);
      WrapAfter(head, tail, s);
    }
  }

  function Break(due: bool): string {
    if due then CRLF else ""
  }

  /** A full line comes before the rest. */
  lemma WrapAfter(head: string, rest: string, s: string)
    requires |head| == WIDTH && rest != "" && s == head + rest
    ensures Wrapped(s) == head + CRLF + Wrapped(rest)
    ensures Column(s) == Column(rest)
  {
    assert s[..WIDTH] == head && s[WIDTH..] == rest;
    WrappedUnfolds(s);
  }

  class Writer {
    var out: string
    var col: nat
    ghost var raw: string    // all that was written, without the breaks

    ghost predicate Valid()
      reads this
    {
      out == Wrapped(raw) && col == Column(raw) <= WIDTH
    }

    constructor ()
      ensures Valid() && raw == ""
    {
      out, col, raw := "", 0, "";
    }

    method Write(p: string)
      requires Valid()
      modifies this
      ensures Valid() && raw == old(raw) + p
    {
      var rest := p;
      assert raw + p == old(raw) + p;
      while |rest| > 0
        invariant Valid()
        invariant raw + rest == old(raw) + p
      {
        ghost var before := raw;
        var full := col == WIDTH;
        if full {
          out := out + CRLF;
          col := 0;
        }
        var n := Min(WIDTH - col, |rest|);
        WrapMore(before, rest[..n]);
        assert Wrapped(before) + "" == Wrapped(before);
        out := out + rest[..n];
        raw := raw + rest[..n];
        col := col + n;
        assert before + rest == before + rest[..n] + rest[n..];
        rest := rest[n..];
      }
      assert raw + "" == raw;
    }
  }

  function Concat(chunks: seq<string>): string {
    if chunks == [] then "" else chunks[0] + Concat(chunks[1..])
  }

  /** A body, however the encoder cuts up what it writes. */
  method WriteMimeBase64(data: seq<Byte>, chunks: seq<string>) returns (out: string)
    requires Concat(chunks) == Encode(data)
    ensures out == Wrapped(Encode(data))
  {
    var w := new Writer();
    assert chunks[0..] == chunks;
    assert "" + Concat(chunks) == Concat(chunks);
    for i := 0 to |chunks|
      invariant w.Valid() && fresh(w)
      invariant w.raw + Concat(chunks[i..]) == Encode(data)
    {
      assert chunks[i..][1..] == chunks[i + 1..];
      assert w.raw + (chunks[i] + Concat(chunks[i + 1..])) == w.raw + chunks[i] + Concat(chunks[i + 1..]);
      w.Write(chunks[i]);
    }
    assert w.raw + "" == w.raw;
    out := w.out;
  }

  // ---- the reader ----

  /** The decoder ignores line breaks. */
  function Strip(s: string): string {
    if s == "" then ""
    else if s[0] == '\r' || s[0] == '\n' then Strip(s[1..])
    else [s[0]] + Strip(s[1..])
  }

  lemma {:induction false} StripConcat(a: string, b: string)
    ensures Strip(a + b) == Strip(a) + Strip(b)
    decreases |a|
  {
    if a == "" {
      assert a + b == b;
    } else {
      assert (a + b)[1..] == a[1..] + b;
      StripConcat(a[1..], b);
    }
  }

  predicate Plain(s: string) {
    forall i :: 0 <= i < |s| ==> s[i] != '\r' && s[i] != '\n'
  }

  lemma {:induction false} StripPlain(s: string)
    requires Plain(s)
    ensures Strip(s) == s
  {
    if s != "" {
      StripPlain(s[1..]);
    }
  }

  lemma {:induction false} StripWrapped(s: string)
    requires Plain(s)
    ensures Strip(Wrapped(s)) == s
    decreases |s|
  {
    if |s| <= WIDTH {
      StripPlain(s);
    } else {
      WrappedUnfolds(s);
      StripPlain(s[..WIDTH]);
      StripWrapped(s[WIDTH..]);
      StripConcat(s[..WIDTH] + CRLF, Wrapped(s[WIDTH..]));
      StripConcat(s[..WIDTH], CRLF);
      assert s == s[..WIDTH] + s[WIDTH..];
    }
  }

  const MAX_PART_SIZE := 25 * 1048576

  datatype ReadError = Corrupt | PartTooLarge

  function Limited(s: string, n: nat): string {
    if |s| <= n then s else s[..n]
  }

  /** Reading a part: a cap on the encoded text, then the decoder, then a cap on what it gives. */
  function DecodePart(decoder: string -> Decoded, text: string): Result<seq<Byte>, ReadError> {
    Accept(decoder(Limited(text, 2 * MAX_PART_SIZE)))
  }

  function Accept(decoded: Decoded): Result<seq<Byte>, ReadError> {
    if |decoded.data| > MAX_PART_SIZE then Err(PartTooLarge)
    else if !decoded.whole then Err(Corrupt)
    else Ok(decoded.data)
  }

  function DecodeText(text: string): Decoded {
    Decode(Strip(text))
  }

  /** Of any first stretch of a wrapped body at least nine characters in ten are letters. */
  lemma {:induction false} StripCut(s: string, w: string, t: string) returns (k: nat)
    requires Plain(s)
    requires w == Wrapped(s) && t <= w
    ensures k <= |s| && 9 * |t| <= 10 * k
    ensures Strip(t) == s[..k]
    decreases |s|
  {
    if |s| <= WIDTH {
      StripPlain(t);
      k := |t|;
    } else {
      WrappedUnfolds(s);
      var head, rest := s[..WIDTH], s[WIDTH..];
      if |t| <= WIDTH {
        assert t == s[..|t|];
        StripPlain(t);
        k := |t|;
      } else if |t| == WIDTH + 1 {
        assert t == head + "\r";
        StripConcat(head, "\r");
        StripPlain(head);
        k := WIDTH;
      } else {
        var more := t[WIDTH + 2..];
        var j := StripCut(rest, Wrapped(rest), more);
        assert t == (head + CRLF) + more;
        StripConcat(head + CRLF, more);
        StripConcat(head, CRLF);
        StripPlain(head);
        k := WIDTH + j;
        assert s[..k] == head + rest[..j];
      }
    }
  }

  lemma {:induction false} WrappedLength(s: string)
    ensures |Wrapped(s)| <= |s| + |s| / WIDTH * 2
    decreases |s|
  {
    if |s| > WIDTH {
      WrappedUnfolds(s);
      WrappedLength(s[WIDTH..]);
    }
  }

  lemma EncodingIsPlain(data: seq<Byte>)
    ensures Plain(Encode(data))
  {
    EncodeAlphabet(data);
  }

  /** A body of at most the cap is read back exactly, line breaks after it or not; a larger one is refused. */
  lemma BodyRoundTrip(data: seq<Byte>, breaks: string)
    requires AllBreaks(breaks)
    ensures DecodePart(DecodeText, Wrapped(Encode(data)) + breaks) ==
      if |data| <= MAX_PART_SIZE then Ok(data) else Err(PartTooLarge)
  {
    var w := Wrapped(Encode(data));
    var kept := Capped(w + breaks);
    BodyAndRest(w, kept, w + breaks);
    BodyKept(data, w, kept, |w| + |breaks|);
    Verdict(DecodeText, data, w + breaks, kept);
  }

  ghost predicate IsBody(data: seq<Byte>, w: string) {
    w == Wrapped(Encode(data))
  }

  /** What is decoded of a body. */
  lemma BodyKept(data: seq<Byte>, w: string, kept: string, size: nat)
    requires IsBody(data, w) && |w| <= size && |kept| == Min(size, 2 * MAX_PART_SIZE)
    requires |w| <= |kept| ==> w <= kept && AllBreaks(kept[|w|..])
    requires |w| > |kept| ==> kept <= w
    ensures |data| <= MAX_PART_SIZE ==> DecodeText(kept) == Decoded(data, true)
    ensures |data| > MAX_PART_SIZE ==> |DecodeText(kept).data| > MAX_PART_SIZE
  {
    if |data| <= MAX_PART_SIZE {
      BodyLength(data);
      WholeText(data, w, kept);
    } else if |w| <= |kept| {
      WholeText(data, w, kept);
    } else {
      CutText(data, w, kept, 9 * (2 * MAX_PART_SIZE) / 40);
    }
  }

  lemma Verdict(decoder: string -> Decoded, data: seq<Byte>, text: string, kept: string)
    requires kept <= text && |kept| == Min(|text|, 2 * MAX_PART_SIZE)
    requires |data| <= MAX_PART_SIZE ==> decoder(kept) == Decoded(data, true)
    requires |data| > MAX_PART_SIZE ==> |decoder(kept).data| > MAX_PART_SIZE
    ensures DecodePart(decoder, text) == if |data| <= MAX_PART_SIZE then Ok(data) else Err(PartTooLarge)
  {
    assert Limited(text, 2 * MAX_PART_SIZE) == kept;
  }

  lemma BodyAndRest(w: string, kept: string, text: string)
    requires w <= text && kept <= text && AllBreaks(text[|w|..])
    ensures |w| <= |kept| ==> w <= kept && AllBreaks(kept[|w|..])
    ensures |w| > |kept| ==> kept <= w
  {
    if |w| <= |kept| {
      forall i | 0 <= i < |kept| - |w| ensures kept[|w|..][i] == text[|w|..][i] {
      }
    }
  }

  lemma Capped(text: string) returns (kept: string)
    ensures kept <= text && |kept| == Min(|text|, 2 * MAX_PART_SIZE)
  {
    kept := Limited(text, 2 * MAX_PART_SIZE);
  }

  /** A body of at most the cap is never cut. */
  lemma BodyLength(data: seq<Byte>)
    ensures |data| <= MAX_PART_SIZE ==> |Wrapped(Encode(data))| <= 2 * MAX_PART_SIZE
  {
    EncodeLength(data);
    WrappedLength(Encode(data));
  }

  lemma WholeText(data: seq<Byte>, w: string, text: string)
    requires IsBody(data, w) && w <= text && AllBreaks(text[|w|..])
    ensures DecodeText(text) == Decoded(data, true)
  {
    var s := Encode(data);
    var breaks := text[|w|..];
    assert text == w + breaks;
    EncodingIsPlain(data);
    StripWrapped(s);
    StripConcat(w, breaks);
    StripBreaks(breaks);
    assert s + "" == s;
    DecodeEncode(data);
  }

  /** A body cut short keeps nine letters for every ten characters. */
  lemma CutLetters(data: seq<Byte>, w: string, text: string) returns (letters: string)
    requires IsBody(data, w) && text <= w
    ensures letters <= Encode(data) && 9 * |text| <= 10 * |letters|
    ensures Strip(text) == letters
  {
    EncodingIsPlain(data);
    var k := StripCut(Encode(data), w, text);
    letters := Encode(data)[..k];
  }

  lemma CutText(data: seq<Byte>, w: string, text: string, groups: nat)
    requires IsBody(data, w) && text <= w && 40 * groups <= 9 * |text|
    ensures |DecodeText(text).data| >= Min(|data|, 3 * groups)
  {
    var letters := CutLetters(data, w, text);
    DecodeLetters(data, text, letters, groups);
  }

  lemma DecodeLetters(data: seq<Byte>, text: string, letters: string, groups: nat)
    requires letters <= Encode(data) && 4 * groups <= |letters|
    requires Strip(text) == letters
    ensures |DecodeText(text).data| >= Min(|data|, 3 * groups)
  {
    assert letters == Encode(data)[..|letters|];
    DecodeCut(data, |letters|, groups);
  }

  predicate AllBreaks(s: string) {
    forall i :: 0 <= i < |s| ==> s[i] == '\r' || s[i] == '\n'
  }

  lemma {:induction false} StripBreaks(s: string)
    requires AllBreaks(s)
    ensures Strip(s) == ""
  {
    if s != "" {
      StripBreaks(s[1..]);
    }
  }

  // ---- the published examples ----

  /** The shortest test vector of section 10 of RFC 4648, and one that shows the last two letters of the alphabet. */
  lemma Vectors()
    ensures Encode([102]) == ['Z', 'g', '=', '=']
    ensures Encode([251, 255]) == ['+', '/', '8', '=']
  {
    OneGroup([102]);
    OneGroup([251, 255]);
  }

  lemma OneGroup(d: seq<Byte>)
    requires 1 <= |d| <= 3
    ensures Encode(d) == EncodeGroup(d)
  {
  }
}
