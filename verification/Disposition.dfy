/**
 * Content-Disposition values: how utils.go makes a file name safe and prints
 * it, and how a reader takes it apart. A character is one octet.
 */
module Disposition {
  import opened Prelude
  import opened Text
  import opened Wire
  import opened MediaTypes

  predicate Octets(s: string) {
    forall i :: 0 <= i < |s| ==> s[i] as int < 256
  }

  // ---- runes ----

  predicate Within(s: string, i: nat, low: int, high: int) {
    i < |s| && low <= s[i] as int <= high
  }

  /** How many octets the first rune takes; 0 when it is not UTF-8. */
  function Width(s: string): (w: nat)
    requires s != ""
    ensures w <= 4 && w <= |s|
    ensures w == 1 <==> s[0] as int < 0x80
    ensures forall i :: 0 <= i < w && w > 1 ==> s[i] as int >= 0x80
  {
    var a := s[0] as int;
    if a < 0x80 then 1
    else if 0xC2 <= a <= 0xDF && Within(s, 1, 0x80, 0xBF) then 2
    else if 0xE0 <= a <= 0xEF
      && Within(s, 1, if a == 0xE0 then 0xA0 else 0x80, if a == 0xED then 0x9F else 0xBF)
      && Within(s, 2, 0x80, 0xBF) then 3
    else if 0xF0 <= a <= 0xF4
      && Within(s, 1, if a == 0xF0 then 0x90 else 0x80, if a == 0xF4 then 0x8F else 0xBF)
      && Within(s, 2, 0x80, 0xBF) && Within(s, 3, 0x80, 0xBF) then 4
    else 0
  }

  const REPLACEMENT := [0xEF as char, 0xBF as char, 0xBD as char]

  /** The first rune as it would be written back, and the octets it was read from. */
  function FirstRune(s: string): (r: (string, nat))
    requires s != ""
    ensures 1 <= r.1 <= |s| && r.0 != ""
    ensures s[0] as int < 0x80 ==> r == ([s[0]], 1)
    ensures s[0] as int >= 0x80 ==> forall i :: 0 <= i < |r.0| ==> r.0[i] as int >= 0x80
  {
    var w := Width(s);
    assert w == 1 ==> s[..w] == [s[0]];
    if w == 0 then (REPLACEMENT, 1) else (s[..w], w)
  }

  predicate IsIllegal(c: char) {
    (c as int < 0x20 && c != '\t') || c as int == 0x7f
  }

  predicate IsPrintable(c: char) {
    0x20 <= c as int <= 0x7e
  }

  predicate Legal(s: string) {
    forall i :: 0 <= i < |s| ==> !IsIllegal(s[i])
  }

  predicate PlainAscii(s: string) {
    forall i :: 0 <= i < |s| ==> IsPrintable(s[i])
  }

  /** Does some rune of the string have no place in a header? */
  predicate HasIllegalRune(s: string)
    decreases |s|
  {
    s != "" && (IsIllegal(s[0]) || HasIllegalRune(s[FirstRune(s).1..]))
  }

  function Clean(s: string): string
    decreases |s|
  {
    if s == "" then ""
    else (if IsIllegal(s[0]) then "" else FirstRune(s).0) + Clean(s[FirstRune(s).1..])
  }

  function Sanitize(s: string): string {
    if HasIllegalRune(s) then Clean(s) else s
  }

  lemma {:induction false} LegalRunes(s: string)
    ensures !HasIllegalRune(s) <==> Legal(s)
    decreases |s|
  {
    if s != "" {
      var w := FirstRune(s).1;
      LegalRunes(s[w..]);
      assert s == s[..w] + s[w..];
      if !IsIllegal(s[0]) {
        assert Width(s) <= 1 ==> w == 1;
        assert Legal(s[..w]);
      }
    }
  }

  lemma {:induction false} CleanIsLegal(s: string)
    ensures Legal(Clean(s))
    ensures Octets(s) ==> Octets(Clean(s))
    decreases |s|
  {
    if s != "" {
      var (rune, w) := FirstRune(s);
      CleanIsLegal(s[w..]);
    }
  }

  /** What comes out may stand in a header, and what might already stand there is untouched. */
  lemma SanitizeIsLegal(s: string)
    ensures Legal(Sanitize(s))
    ensures Legal(s) <==> Sanitize(s) == s
    ensures Octets(s) ==> Octets(Sanitize(s))
    ensures Sanitize(Sanitize(s)) == Sanitize(s)
  {
    LegalRunes(s);
    CleanIsLegal(s);
    LegalRunes(Sanitize(s));
  }

  method SanitizeHeaderValue(s: string) returns (b: string)
    ensures b == Sanitize(s)
  {
    if !HasIllegalRune(s) {
      return s;
    }
    b := "";
    var rest := s;
    while rest != ""
      invariant b + Clean(rest) == Clean(s)
      decreases |rest|
    {
      var (rune, w) := FirstRune(rest);
      CleanSoFar(b, if IsIllegal(rest[0]) then "" else rune, Clean(rest[w..]));
      if !IsIllegal(rest[0]) {
        b := b + rune;
      }
      rest := rest[w..];
    }
    assert b + "" == b;
  }

  lemma CleanSoFar(b: string, kept: string, rest: string)
    ensures b + (kept + rest) == (b + kept) + rest
    ensures b + "" == b
  {
  }

  // ---- the quoted form ----

  function AsciiRunes(s: string): string
    decreases |s|
  {
    if s == "" then ""
    else [if IsPrintable(s[0]) then s[0] else '_'] + AsciiRunes(s[FirstRune(s).1..])
  }

  function Ascii(s: string): string {
    if PlainAscii(s) then s else AsciiRunes(s)
  }

  lemma {:induction false} AsciiIsPlain(s: string)
    ensures PlainAscii(AsciiRunes(s))
    decreases |s|
  {
    if s != "" {
      AsciiIsPlain(s[FirstRune(s).1..]);
    }
  }

  method AsciiFilename(s: string) returns (b: string)
    ensures b == Ascii(s)
  {
    if PlainAscii(s) {
      return s;
    }
    b := "";
    var rest := s;
    while rest != ""
      invariant b + AsciiRunes(rest) == AsciiRunes(s)
      decreases |rest|
    {
      b := b + [if IsPrintable(rest[0]) then rest[0] else '_'];
      rest := rest[FirstRune(rest).1..];
    }
    assert b + "" == b;
  }

  predicate NeedsEscape(c: char) {
    c == '"' || c == '\\'
  }

  function Quoted(s: string): string {
    if s == "" then ""
    else if NeedsEscape(s[0]) then ['\\', s[0]] + Quoted(s[1..])
    else [s[0]] + Quoted(s[1..])
  }

  lemma {:induction false} QuotedPlain(s: string)
    requires forall i :: 0 <= i < |s| ==> !NeedsEscape(s[i])
    ensures Quoted(s) == s
  {
    if s != "" {
      QuotedPlain(s[1..]);
    }
  }

  lemma QuotedStep(c: char, tail: string, s: string)
    requires s == [c] + tail
    ensures Quoted(s) == (if NeedsEscape(c) then ['\\'] else "") + [c] + Quoted(tail)
  {
    assert s[1..] == tail;
  }

  function Escape(c: char): string {
    if NeedsEscape(c) then ['\\', c] else [c]
  }

  lemma QuotedOne(c: char, t: string)
    ensures Quoted([c] + t) == Escape(c) + Quoted(t)
  {
    QuotedStep(c, t, [c] + t);
  }

  lemma QuotedBefore(c: char, t: string, after: string)
    ensures Quoted([c] + t) + after == Escape(c) + (Quoted(t) + after)
  {
    QuotedOne(c, t);
    Grouped(Escape(c), Quoted(t), after);
  }

  lemma Grouped(a: string, b: string, c: string)
    ensures a + b + c == a + (b + c)
  {
  }

  lemma QuotedSoFar(b: string, c: char, rest: string)
    ensures b + (Escape(c) + rest) == (if NeedsEscape(c) then b + ['\\'] else b) + [c] + rest
  {
  }

  method QuoteFilename(s: string) returns (b: string)
    ensures b == Quoted(s)
  {
    if forall i :: 0 <= i < |s| ==> !NeedsEscape(s[i]) {
      QuotedPlain(s);
      return s;
    }
    b := "";
    assert s[0..] == s;
    for i := 0 to |s|
      invariant b + Quoted(s[i..]) == Quoted(s)
    {
      assert s[i..] == [s[i]] + s[i + 1..];
      QuotedOne(s[i], s[i + 1..]);
      QuotedSoFar(b, s[i], Quoted(s[i + 1..]));
      if NeedsEscape(s[i]) {
        b := b + ['\\'];
      }
      b := b + [s[i]];
    }
    assert b + "" == b;
  }

  lemma UnquoteOne(c: char, tail: string)
    requires IsPrintable(c)
    ensures Unquote(Escape(c) + tail) == Preceded(c, Unquote(tail))
  {
    var s := Escape(c) + tail;
    if NeedsEscape(c) {
      assert s[2..] == tail;
    } else {
      assert s[1..] == tail;
    }
  }

  /** The first unescaped quote is the one that was printed to close the name. */
  lemma {:induction false} UnquoteQuoted(s: string, rest: string)
    requires PlainAscii(s)
    ensures Unquote(Quoted(s) + ("\"" + rest)) == Some((s, rest))
    decreases |s|
  {
    if s == "" {
      assert Quoted(s) + ("\"" + rest) == "\"" + rest;
      assert ("\"" + rest)[1..] == rest;
    } else {
      var t := s[1..];
      assert s == [s[0]] + t;
      UnquoteQuoted(t, rest);
      QuotedBefore(s[0], t, "\"" + rest);
      UnquoteOne(s[0], Quoted(t) + ("\"" + rest));
    }
  }

  // ---- the extended form ----

  predicate IsAttrChar(c: char) {
    'a' <= c <= 'z' || 'A' <= c <= 'Z' || '0' <= c <= '9' || IsMark(c)
  }

  predicate IsMark(c: char) {
    || c == '!' || c == '#' || c == '$' || c == '&' || c == '+' || c == '-'
    || c == '.' || c == '^' || c == '_' || c == '`' || c == '|' || c == '~'
  }

  function HexDigit(n: int): (c: char)
    requires 0 <= n < 16
    ensures HexValue(c) == Some(n)
    ensures IsAttrChar(c)
  {
    if n < 10 then (n + 48) as char else (n + 55) as char
  }

  function EscapeOctet(c: char): string {
    if IsAttrChar(c) then [c] else ['%', HexDigit(c as int / 16 % 16), HexDigit(c as int % 16)]
  }

  function Escaped(s: string): string {
    if s == "" then "" else EscapeOctet(s[0]) + Escaped(s[1..])
  }

  lemma EscapedStep(c: char, tail: string, s: string)
    requires s == [c] + tail
    ensures Escaped(s) == EscapeOctet(c) + Escaped(tail)
  {
    assert s[1..] == tail;
  }

  method Rfc2231Escape(s: string) returns (b: string)
    ensures b == Escaped(s)
  {
    b := "";
    assert s[0..] == s;
    for i := 0 to |s|
      invariant b + Escaped(s[i..]) == Escaped(s)
    {
      var c := s[i];
      EscapedStep(c, s[i + 1..], s[i..]);
      EscapeSoFar(b, c, Escaped(s[i + 1..]));
      if IsAttrChar(c) {
        b := b + [c];
      } else {
        b := b + ['%', HexDigit(c as int / 16 % 16), HexDigit(c as int % 16)];
      }
    }
    assert b + "" == b;
  }

  lemma EscapeSoFar(b: string, c: char, rest: string)
    ensures b + (EscapeOctet(c) + rest) == (b + EscapeOctet(c)) + rest
  {
  }

  lemma {:induction false} DecodeEscaped(s: string)
    requires Octets(s)
    ensures PercentDecode(Escaped(s)) == Some(s)
    decreases |s|
  {
    if s != "" {
      var rest := Escaped(s[1..]);
      DecodeEscaped(s[1..]);
      DecodeOctet(s[0], rest);
      assert s == [s[0]] + s[1..];
    }
  }

  lemma DecodeOctet(c: char, rest: string)
    requires c as int < 256 && PercentDecode(rest).Some?
    ensures PercentDecode(EscapeOctet(c) + rest) == Some([c] + PercentDecode(rest).value)
  {
    var e := EscapeOctet(c) + rest;
    if IsAttrChar(c) {
      assert e[1..] == rest;
    } else {
      var high, low := HexDigit(c as int / 16 % 16), HexDigit(c as int % 16);
      Nibbles(c as int);
      assert e == ['%', high, low] + rest;
      DecodeEscape(high, low, rest, e);
    }
  }

  lemma Nibbles(n: int)
    requires 0 <= n < 256
    ensures n / 16 % 16 * 16 + n % 16 == n
  {
  }

  lemma DecodeEscape(high: char, low: char, rest: string, s: string)
    requires HexValue(high).Some? && HexValue(low).Some? && PercentDecode(rest).Some?
    requires s == ['%', high, low] + rest
    ensures PercentDecode(s) == Some([(HexValue(high).value * 16 + HexValue(low).value) as char]
         + PercentDecode(rest).value)
  {
    assert s[3..] == rest;
  }

  lemma {:induction false} EscapedAlphabet(s: string)
    ensures forall i :: 0 <= i < |Escaped(s)| ==> IsAttrChar(Escaped(s)[i]) || Escaped(s)[i] == '%'
  {
    if s != "" {
      EscapedAlphabet(s[1..]);
    }
  }

  // ---- the whole value ----

  /** The words a value is made of. */
  datatype Words = Words(name: string, charset: string)

  const WORDS := Words("filename", UTF8)

  predicate Usable(w: Words) {
    UsableName(w.name) && IsToken(w.charset) && Free(w.charset, '\'') && FoldCase(w.charset) == UTF8
  }

  function FormatWith(w: Words, kind: string, filename: string): string {
    var safe := Sanitize(filename);
    if safe == "" then kind
    else kind + Parameter(w.name, "\"" + Quoted(Ascii(safe)) + "\"") + Extension(w, safe)
  }

  function Extension(w: Words, safe: string): string {
    if PlainAscii(safe) then "" else Parameter(w.name + "*", w.charset + ("''" + Escaped(safe)))
  }

  function Format(kind: string, filename: string): string {
    FormatWith(WORDS, kind, filename)
  }

  method FormatDisposition(w: Words, kind: string, filename: string) returns (b: string)
    ensures b == FormatWith(w, kind, filename)
  {
    var safe := SanitizeHeaderValue(filename);
    if safe == "" {
      return kind;
    }
    var ascii := AsciiFilename(safe);
    var quoted := QuoteFilename(ascii);
    b := kind;
    b := b + Parameter(w.name, "\"" + quoted + "\"");
    if !PlainAscii(safe) {
      var escaped := Rfc2231Escape(safe);
      b := b + Parameter(w.name + "*", w.charset + ("''" + escaped));
    }
  }

  // ---- reading it ----

  function ReadKind(value: string): string {
    Parse(value).kind
  }

  function ReadFilename(w: Words, value: string): Option<string> {
    Value(Parse(value).params, w.name)
  }

  // ---- what is printed is read ----

  lemma QuotedReads(x: string, rest: string)
    requires PlainAscii(x)
    ensures ReadsTo("\"" + Quoted(x) + "\"", rest, x)
  {
    var s := "\"" + Quoted(x) + "\"" + rest;
    assert s[1..] == Quoted(x) + ("\"" + rest);
    UnquoteQuoted(x, rest);
  }

  lemma AttrIsToken(c: char)
    ensures IsAttrChar(c) || c == '%' ==> IsTokenChar(c)
  {
  }

  lemma ExtensionIsToken(w: Words, safe: string)
    requires Usable(w)
    ensures IsToken(w.charset + ("''" + Escaped(safe)))
  {
    var v := w.charset + ("''" + Escaped(safe));
    EscapedAlphabet(safe);
    forall i | 0 <= i < |v| ensures IsTokenChar(v[i]) {
      if i >= |w.charset| + 2 {
        assert v[i] == Escaped(safe)[i - |w.charset| - 2];
        AttrIsToken(v[i]);
      }
    }
  }

  lemma StarredIsUsable(name: string)
    requires UsableName(name)
    ensures UsableName(name + "*")
  {
    var s := name + "*";
    assert forall i :: 0 <= i < |name| ==> s[i] == name[i] && LowerChar(name[i]) == Lower(name)[i];
    assert Lower(s) == s;
  }

  /** The parameters of a printed value, as they are read. */
  function PrintedParams(w: Words, safe: string): seq<Param> {
    [Param(w.name, Ascii(safe))]
    + if PlainAscii(safe) then [] else [Param(w.name + "*", w.charset + ("''" + Escaped(safe)))]
  }

  lemma ReadExtension(w: Words, safe: string, seen: seq<Param>)
    requires Usable(w) && Lookup(seen, w.name + "*") == None
    ensures ReadParams(Extension(w, safe), seen) == Good(seen + PrintedParams(w, safe)[1..])
  {
    if PlainAscii(safe) {
      assert seen + [] == seen;
    } else {
      var name, v := w.name + "*", w.charset + ("''" + Escaped(safe));
      ExtensionIsToken(w, safe);
      StarredIsUsable(w.name);
      TokenReads(v, "");
      ParamsStep(name, v, v, "", seen);
      assert Extension(w, safe) == Parameter(name, v) + "";
    }
  }

  lemma PrintedParamsRead(w: Words, safe: string)
    requires Usable(w)
    ensures ReadParams(Parameter(w.name, "\"" + Quoted(Ascii(safe)) + "\"") + Extension(w, safe), [])
         == Good(PrintedParams(w, safe))
  {
    var x, rest, first := Ascii(safe), Extension(w, safe), [Param(w.name, Ascii(safe))];
    AsciiIsPlain(safe);
    QuotedReads(x, rest);
    ParamsStep(w.name, "\"" + Quoted(x) + "\"", x, rest, []);
    assert [] + first == first;
    NoneLonger(first, w.name + "*");
    ReadExtension(w, safe, first);
    assert first + PrintedParams(w, safe)[1..] == PrintedParams(w, safe);
  }

  lemma ValueRead(w: Words, safe: string)
    requires Usable(w) && Octets(safe)
    ensures Value(PrintedParams(w, safe), w.name) == Some(safe)
  {
    var ps := PrintedParams(w, safe);
    if PlainAscii(safe) {
      assert ps == [Param(w.name, safe)];
      PlainValue(w.name, safe);
    } else {
      assert ps[1..][0] == ps[1] && |w.name + "*"| > |w.name|;
      assert Lookup(ps, w.name + "*") == Some(ps[1].value);
      DecodesAs(w.charset, Escaped(safe));
      DecodeEscaped(safe);
      ExtendedValue(ps, w.name, ps[1].value);
    }
  }

  lemma PrintedIsRead(w: Words, kind: string, params: string, ps: seq<Param>)
    requires Stands(kind) && (params == "" || params[0] == ';') && ReadParams(params, []) == Good(ps)
    ensures ReadKind(kind + params) == kind && ReadFilename(w, kind + params) == Value(ps, w.name)
  {
    assert StandsBefore(kind, params);
  }

  lemma NoValue(name: string)
    ensures Value([], name) == None
  {
  }

  lemma FormatParts(w: Words, kind: string, filename: string, params: string)
    requires Sanitize(filename) != ""
    requires var safe := Sanitize(filename);
             params == Parameter(w.name, "\"" + Quoted(Ascii(safe)) + "\"") + Extension(w, safe)
    ensures FormatWith(w, kind, filename) == kind + params
  {
  }

  /** For every file name a reader gets back the kind and exactly the sanitised name. */
  lemma FilenameRoundTrip(w: Words, kind: string, filename: string)
    requires Usable(w) && Octets(filename) && Stands(kind)
    ensures ReadKind(FormatWith(w, kind, filename)) == kind
    ensures ReadFilename(w, FormatWith(w, kind, filename)) ==
      if Sanitize(filename) == "" then None else Some(Sanitize(filename))
  {
    SanitizeIsLegal(filename);
    var safe := Sanitize(filename);
    if safe == "" {
      ParamsEnd([]);
      PrintedIsRead(w, kind, "", []);
      NoValue(w.name);
      assert kind + "" == kind;
    } else {
      var params := Parameter(w.name, "\"" + Quoted(Ascii(safe)) + "\"") + Extension(w, safe);
      PrintedParamsRead(w, safe);
      PrintedIsRead(w, kind, params, PrintedParams(w, safe));
      FormatParts(w, kind, filename, params);
      ValueRead(w, safe);
    }
  }

  lemma PlainWordsAreUsable(w: Words)
    requires IsPlainWord(w.name) && IsPlainWord(w.charset) && w.charset == UTF8
    ensures Usable(w)
  {
    PlainWordIsToken(w.name);
    PlainWordIsToken(w.charset);
  }

  lemma WordsAreUsable()
    ensures Usable(WORDS)
  {
    PlainWordsAreUsable(WORDS);
  }

  /** So with the words the printer uses. */
  lemma DispositionRoundTrip(kind: string, filename: string)
    requires Octets(filename) && IsKind(kind)
    ensures ReadKind(Format(kind, filename)) == kind
    ensures ReadFilename(WORDS, Format(kind, filename)) ==
      if Sanitize(filename) == "" then None else Some(Sanitize(filename))
  {
    WordsAreUsable();
    KindStands(kind);
    FilenameRoundTrip(WORDS, kind, filename);
  }

  lemma PlainIsOneLine(s: string)
    requires PlainAscii(s)
    ensures OneLine(s)
  {
  }

  lemma LegalIsOneLine(s: string)
    requires Legal(s)
    ensures OneLine(s)
  {
  }

  /** Whatever the name, the printed value stays on its line: it is printable ASCII throughout. */
  lemma FormatIsPrintable(w: Words, kind: string, filename: string)
    requires Usable(w) && PlainAscii(kind)
    ensures PlainAscii(FormatWith(w, kind, filename))
  {
    var safe := Sanitize(filename);
    AsciiIsPlain(safe);
    QuotedIsPlain(Ascii(safe));
    EscapedIsPlain(safe);
    ParameterIsPlain(w.name, "\"" + Quoted(Ascii(safe)) + "\"");
    ParameterIsPlain(w.name + "*", w.charset + ("''" + Escaped(safe)));
  }

  lemma ParameterIsPlain(name: string, value: string)
    requires PlainAscii(name) && PlainAscii(value)
    ensures PlainAscii(Parameter(name, value))
  {
  }

  lemma {:induction false} QuotedIsPlain(s: string)
    requires PlainAscii(s)
    ensures PlainAscii(Quoted(s))
  {
    if s != "" {
      QuotedIsPlain(s[1..]);
    }
  }

  lemma EscapedIsPlain(s: string)
    ensures PlainAscii(Escaped(s))
  {
    EscapedAlphabet(s);
  }

  /** The printed value neither begins nor ends with a blank, when its kind does not. */
  lemma FormatIsTight(kind: string, filename: string)
    requires Tight(kind) && kind != ""
    ensures Tight(Format(kind, filename))
  {
    var safe := Sanitize(filename);
    if safe != "" {
      var value := "\"" + Quoted(Ascii(safe)) + "\"";
      assert value[|value| - 1] == '"';
      ParameterEnds(WORDS.name, value);
      ExtensionEnds(WORDS, safe);
      EndsTight(kind, Parameter(WORDS.name, value), Extension(WORDS, safe));
    }
  }

  lemma EndsTight(a: string, b: string, c: string)
    requires Tight(a) && a != "" && b != "" && !IsBlank(b[|b| - 1]) && (c != "" ==> !IsBlank(c[|c| - 1]))
    ensures Tight(a + b + c)
  {
  }

  lemma ExtensionEnds(w: Words, safe: string)
    ensures Extension(w, safe) != "" ==> !IsBlank(Extension(w, safe)[|Extension(w, safe)| - 1])
  {
    if !PlainAscii(safe) {
      EscapedAlphabet(safe);
      EscapedIsNotEmpty(safe);
      ParameterEnds(w.name + "*", w.charset + ("''" + Escaped(safe)));
    }
  }

  lemma EscapedIsNotEmpty(s: string)
    requires s != ""
    ensures Escaped(s) != ""
  {
  }

  lemma ParameterEnds(name: string, value: string)
    requires value != ""
    ensures Parameter(name, value) != ""
    ensures Parameter(name, value)[|Parameter(name, value)| - 1] == value[|value| - 1]
  {
  }
}
