/**
 * Media types, dispositions and their parameters, as Go's `mime` package reads
 * them (section 5.1 of RFC 2045 and sections 3 and 4 of RFC 2231). A character
 * is one octet.
 */
module MediaTypes {
  import opened Prelude
  import opened Text
  import opened Wire

  // ---- tokens ----

  predicate IsSpecial(c: char) {
    || c == '(' || c == ')' || c == '<' || c == '>' || c == '@' || c == ',' || c == ';' || c == ':'
    || c == '\\' || c == '"' || c == '/' || c == '[' || c == ']' || c == '?' || c == '='
  }

  predicate IsTokenChar(c: char) {
    '!' <= c <= '~' && !IsSpecial(c)
  }

  predicate IsToken(s: string) {
    s != "" && forall i :: 0 <= i < |s| ==> IsTokenChar(s[i])
  }

  /** Where the token in front ends. */
  function TokenEnd(s: string): (n: nat)
    ensures n <= |s| && forall i :: 0 <= i < n ==> IsTokenChar(s[i])
    ensures n < |s| ==> !IsTokenChar(s[n])
  {
    if s == "" || !IsTokenChar(s[0]) then 0 else 1 + TokenEnd(s[1..])
  }

  // ---- white space and case, beyond ASCII too ----

  predicate IsSpaceByte(c: char) {
    c == ' ' || '\t' <= c <= '\r'
  }

  /** U+1680, U+2000 to U+200A, U+2028, U+2029, U+202F, U+205F and U+3000. */
  predicate IsWideSpace(a: int, b: int, c: int) {
    || (a == 0xE1 && b == 0x9A && c == 0x80)
    || (a == 0xE2 && b == 0x80 && (0x80 <= c <= 0x8A || c == 0xA8 || c == 0xA9 || c == 0xAF))
    || (a == 0xE2 && b == 0x81 && c == 0x9F)
    || (a == 0xE3 && b == 0x80 && c == 0x80)
  }

  /** How many octets the white space in front takes; 0 when there is none. */
  function SpaceWidth(s: string): (w: nat)
    ensures w <= |s|
    ensures w > 1 ==> s[0] as int >= 0x80 && s[w - 1] as int >= 0x80
  {
    if s == "" then 0
    else if IsSpaceByte(s[0]) then 1
    else if |s| >= 2 && s[0] as int == 0xC2 && (s[1] as int == 0x85 || s[1] as int == 0xA0) then 2
    else if |s| >= 3 && IsWideSpace(s[0] as int, s[1] as int, s[2] as int) then 3
    else 0
  }

  function SkipSpaces(s: string): (r: string)
    ensures |r| <= |s|
    decreases |s|
  {
    if SpaceWidth(s) == 0 then s else SkipSpaces(s[SpaceWidth(s)..])
  }

  function EndWidth(s: string): (w: nat)
    ensures w <= |s|
  {
    if |s| >= 1 && SpaceWidth(s[|s| - 1..]) == 1 then 1
    else if |s| >= 2 && SpaceWidth(s[|s| - 2..]) == 2 then 2
    else if |s| >= 3 && SpaceWidth(s[|s| - 3..]) == 3 then 3
    else 0
  }

  function DropEndSpaces(s: string): string
    decreases |s|
  {
    if EndWidth(s) == 0 then s else DropEndSpaces(s[..|s| - EndWidth(s)])
  }

  function TrimSpaces(s: string): string {
    DropEndSpaces(SkipSpaces(s))
  }

  /** The Kelvin sign and the dotted capital I are the runes beyond ASCII whose lower case is a letter of it. */
  function FoldCase(s: string): string
    decreases |s|
  {
    if s == "" then ""
    else if |s| >= 3 && s[0] as int == 0xE2 && s[1] as int == 0x84 && s[2] as int == 0xAA then "k" + FoldCase(s[3..])
    else if |s| >= 2 && s[0] as int == 0xC4 && s[1] as int == 0xB0 then "i" + FoldCase(s[2..])
    else [LowerChar(s[0])] + FoldCase(s[1..])
  }

  // ---- what stands before the parameters ----

  /** A token, or two with a slash between them, and nothing more. */
  predicate WellFormed(s: string) {
    var n := TokenEnd(s);
    n > 0 && (n == |s| || (s[n] == '/' && IsToken(s[n + 1..])))
  }

  /** "" when it is malformed. */
  function Kind(base: string): string {
    var kind := TrimSpaces(FoldCase(base));
    if WellFormed(kind) then kind else ""
  }

  /** What comes before the first `c`, and the rest from there on. */
  function Before(s: string, c: char): (r: (string, string))
    ensures r.0 + r.1 == s
  {
    var i := IndexByte(s, c);
    if i < 0 then (s, "") else (s[..i], s[i..])
  }

  // ---- parameters ----

  datatype Param = Param(name: string, value: string)

  /** Reading a quoted string after its opening quote: the content, and what follows the closing quote. */
  function Unquote(s: string): (r: Option<(string, string)>)
    ensures r.Some? ==> |r.value.1| < |s|
    decreases |s|
  {
    if s == "" then None
    else if s[0] == '"' then Some(("", s[1..]))
    else if s[0] == '\\' && |s| > 1 && IsSpecial(s[1]) then Preceded(s[1], Unquote(s[2..]))
    else if s[0] == '\r' || s[0] == '\n' then None
    else Preceded(s[0], Unquote(s[1..]))
  }

  function Preceded(c: char, r: Option<(string, string)>): Option<(string, string)> {
    match r
    case None => None
    case Some((content, rest)) => Some(([c] + content, rest))
  }

  function ReadValue(s: string): (r: Option<(string, string)>)
    ensures r.Some? ==> |r.value.1| < |s|
  {
    if s != "" && s[0] == '"' then Unquote(s[1..])
    else
      var n := TokenEnd(s);
      if n == 0 then None else Some((s[..n], s[n..]))
  }

  /** One parameter with the semicolon before it, and what follows. */
  function ReadParam(s: string): (r: Option<(Param, string)>)
    ensures r.Some? ==> |r.value.1| < |s|
  {
    var start := SkipSpaces(s);
    if start == "" || start[0] != ';' then None
    else
      var named := SkipSpaces(start[1..]);
      var n := TokenEnd(named);
      var sign := SkipSpaces(named[n..]);
      if n == 0 || sign == "" || sign[0] != '=' then None
      else
        match ReadValue(SkipSpaces(sign[1..]))
        case None => None
        case Some((value, rest)) => Some((Param(Lower(named[..n]), value), rest))
  }

  function Lookup(ps: seq<Param>, name: string): Option<string> {
    if ps == [] then None else if ps[0].name == name then Some(ps[0].value) else Lookup(ps[1..], name)
  }

  datatype Params = Good(all: seq<Param>) | Malformed | Conflicting

  /** A parameter may come twice only with the same value. */
  function ReadParams(s: string, seen: seq<Param>): Params
    decreases |s|
  {
    if SkipSpaces(s) == "" then Good(seen)
    else
      match ReadParam(s)
      case None => if TrimSpaces(s) == ";" then Good(seen) else Malformed
      case Some((p, rest)) =>
        var before := Lookup(seen, p.name);
        if before.Some? && before.value != p.value then Conflicting else ReadParams(rest, seen + [p])
  }

  /** What is read of a value; `ok` when there was nothing wrong with it. */
  datatype Media = Media(kind: string, params: seq<Param>, ok: bool)

  function Parse(value: string): Media {
    var (base, rest) := Before(value, ';');
    if Kind(base) == "" then Media("", [], false) else WithParams(Kind(base), ReadParams(rest, []))
  }

  function WithParams(kind: string, params: Params): Media {
    match params
    case Good(ps) => Media(kind, ps, true)
    case Malformed => Media(kind, [], false)
    case Conflicting => Media("", [], false)
  }

  // ---- values in other forms ----

  function HexValue(c: char): Option<int> {
    if '0' <= c <= '9' then Some(c as int - 48)
    else if 'A' <= c <= 'F' then Some(c as int - 55)
    else if 'a' <= c <= 'f' then Some(c as int - 87)
    else None
  }

  function PercentDecode(s: string): Option<string> {
    if s == "" then Some("")
    else if s[0] == '%' then
      if |s| < 3 || HexValue(s[1]).None? || HexValue(s[2]).None? then None
      else
        match PercentDecode(s[3..])
        case None => None
        case Some(rest) => Some([(HexValue(s[1]).value * 16 + HexValue(s[2]).value) as char] + rest)
    else
      match PercentDecode(s[1..])
      case None => None
      case Some(rest) => Some([s[0]] + rest)
  }

  const UTF8 := "utf-8"
  const ASCII := "us-ascii"

  /** A charset, a language and the escaped text, with apostrophes between them. */
  function DecodeExtended(v: string): Option<string> {
    var (charset, rest) := Before(v, '\'');
    if rest == "" then None
    else
      var (language, text) := Before(rest[1..], '\'');
      if text == "" || (FoldCase(charset) != ASCII && FoldCase(charset) != UTF8) then None
      else PercentDecode(text[1..])
  }

  function Decimal(n: nat): string {
    if n < 10 then [(n + 48) as char] else Decimal(n / 10) + [(n % 10 + 48) as char]
  }

  function OrEmpty(s: Option<string>): string {
    match s case None => "" case Some(x) => x
  }

  /** A value in numbered pieces, from the n-th on. There are no more pieces than parameters. */
  function Pieces(ps: seq<Param>, name: string, n: nat): Option<string>
    decreases |ps| - n
  {
    if n >= |ps| then None
    else
      var piece := name + "*" + Decimal(n);
      var plain, escaped := Lookup(ps, piece), Lookup(ps, piece + "*");
      if plain.Some? then Some(plain.value + OrEmpty(Pieces(ps, name, n + 1)))
      else if escaped.None? then None
      else
        var text := if n == 0 then DecodeExtended(escaped.value) else PercentDecode(escaped.value);
        Some(OrEmpty(text) + OrEmpty(Pieces(ps, name, n + 1)))
  }

  /** The extended form counts before pieces, and either before the plain form. */
  function Value(ps: seq<Param>, name: string): Option<string> {
    var plain, extended := Lookup(ps, name), Lookup(ps, name + "*");
    if extended.Some? then (if DecodeExtended(extended.value).Some? then DecodeExtended(extended.value) else plain)
    else if Pieces(ps, name, 0).Some? then Pieces(ps, name, 0)
    else plain
  }

  // ---- what is printed plainly reads as itself ----

  /** In lower case and well formed. */
  predicate IsKind(word: string) {
    WellFormed(word) && Lower(word) == word
  }

  lemma {:induction false} TokenEndIs(token: string, rest: string)
    requires forall i :: 0 <= i < |token| ==> IsTokenChar(token[i])
    requires rest == "" || !IsTokenChar(rest[0])
    ensures TokenEnd(token + rest) == |token|
  {
    var s := token + rest;
    var n := TokenEnd(s);
    assert forall i :: 0 <= i < |token| ==> s[i] == token[i];
    assert |token| < |s| ==> s[|token|] == rest[0];
  }

  lemma TypeAndSubtype(a: string, b: string)
    requires IsToken(a) && IsToken(b)
    ensures WellFormed(a + ("/" + b))
  {
    var s := a + ("/" + b);
    TokenEndIs(a, "/" + b);
    assert s[|a|] == '/' && s[|a| + 1..] == b;
  }

  lemma OneToken(a: string)
    requires IsToken(a)
    ensures WellFormed(a)
  {
    TokenEndIs(a, "");
    assert a + "" == a;
  }

  /** Visible ASCII without a semicolon. */
  predicate Visible(s: string) {
    s != "" && forall i :: 0 <= i < |s| ==> '!' <= s[i] <= '~' && s[i] != ';'
  }

  lemma KindIsVisible(word: string)
    requires WellFormed(word)
    ensures Visible(word)
  {
    var n := TokenEnd(word);
    if n < |word| {
      assert forall i :: n < i < |word| ==> word[i] == word[n + 1..][i - n - 1];
    }
  }

  lemma {:induction false} FoldIsLower(s: string)
    requires forall i :: 0 <= i < |s| ==> s[i] as int < 0x80
    ensures FoldCase(s) == Lower(s)
    decreases |s|
  {
    if s != "" {
      FoldIsLower(s[1..]);
    }
  }

  lemma TrimVisible(s: string)
    requires Visible(s)
    ensures TrimSpaces(s) == s
  {
    assert SpaceWidth(s) == 0;
    assert s[|s| - 1..] == [s[|s| - 1]];
  }

  /** A visible word that is no media type is read as none. */
  lemma VisibleKind(word: string)
    requires Visible(word)
    ensures Parse(word).kind == if WellFormed(Lower(word)) then Lower(word) else ""
  {
    FoldIsLower(word);
    assert Visible(Lower(word));
    TrimVisible(Lower(word));
    NoByte(word, ';');
    ParamsEnd([]);
  }

  lemma KindOfKind(word: string)
    requires IsKind(word)
    ensures Kind(word) == word && word != "" && Free(word, ';')
  {
    KindIsVisible(word);
    FoldIsLower(word);
    TrimVisible(word);
  }

  lemma BeforeFirst(s: string, c: char, rest: string)
    requires Free(s, c)
    ensures Before(s + ([c] + rest), c) == (s, [c] + rest)
  {
    FirstByte(s, c, rest);
    assert s + [c] + rest == s + ([c] + rest);
  }

  /** A kind and its parameters. */
  ghost predicate StandsBefore(word: string, rest: string) {
    (rest == "" || rest[0] == ';') ==> Parse(word + rest) == WithParams(word, ReadParams(rest, []))
  }

  /** Whatever parameters follow, the word is read as the kind. */
  ghost predicate Stands(word: string) {
    forall rest: string :: StandsBefore(word, rest)
  }

  lemma KindStands(word: string)
    requires IsKind(word)
    ensures Stands(word)
  {
    forall rest: string ensures StandsBefore(word, rest) {
      if rest == "" || rest[0] == ';' {
        ParsePrinted(word, rest);
      }
    }
  }

  lemma ParsePrinted(word: string, rest: string)
    requires IsKind(word) && (rest == "" || rest[0] == ';')
    ensures Parse(word + rest) == WithParams(word, ReadParams(rest, []))
  {
    KindOfKind(word);
    CutAtSemicolon(word, rest);
  }

  lemma CutAtSemicolon(word: string, rest: string)
    requires Free(word, ';') && (rest == "" || rest[0] == ';')
    ensures Before(word + rest, ';') == (word, rest)
  {
    if rest == "" {
      NoByte(word, ';');
      assert word + rest == word;
    } else {
      assert rest == [';'] + rest[1..];
      BeforeFirst(word, ';', rest[1..]);
    }
  }

  /** Lower-case letters, digits and dashes. */
  predicate IsPlainWord(s: string) {
    s != "" && forall i :: 0 <= i < |s| ==> 'a' <= s[i] <= 'z' || '0' <= s[i] <= '9' || s[i] == '-'
  }

  lemma PlainWordIsToken(s: string)
    requires IsPlainWord(s)
    ensures IsToken(s) && Lower(s) == s && FoldCase(s) == s && Free(s, '\'')
  {
    assert forall i :: 0 <= i < |s| ==> LowerChar(s[i]) == s[i];
    assert Lower(s) == s;
    FoldIsLower(s);
  }

  /** A kind and parameters that are in order. */
  lemma ParseGood(word: string, rest: string)
    requires Stands(word) && (rest == "" || rest[0] == ';') && AreParams(rest)
    ensures Parse(word + rest).kind == word && Parse(word + rest).ok
  {
    assert StandsBefore(word, rest);
  }

  // ---- printed parameters ----

  function Parameter(name: string, value: string): string {
    ";" + (" " + name + "=" + value)
  }

  predicate UsableName(name: string) {
    IsToken(name) && Lower(name) == name
  }

  ghost predicate AreParams(s: string) {
    ReadParams(s, []).Good?
  }

  /** A printed value is read up to its end. */
  ghost predicate ReadsTo(printed: string, rest: string, value: string) {
    printed != "" && !IsSpaceByte(printed[0]) && printed[0] as int < 0x80
    && ReadValue(printed + rest) == Some((value, rest))
  }

  lemma SkipNone(s: string)
    requires s != "" && s[0] as int < 0x80 && !IsSpaceByte(s[0])
    ensures SkipSpaces(s) == s
  {
  }

  lemma SkipOne(s: string)
    requires s != "" && s[0] as int < 0x80 && !IsSpaceByte(s[0])
    ensures SkipSpaces(" " + s) == s
  {
    assert (" " + s)[1..] == s;
    SkipNone(s);
  }

  /** The steps of reading a parameter, one after the other. */
  lemma ReadParamIs(s: string, named: string, n: nat, sign: string, value: string, rest: string)
    requires s != "" && s[0] == ';' && SkipSpaces(s) == s && SkipSpaces(s[1..]) == named
    requires TokenEnd(named) == n && n > 0 && SkipSpaces(named[n..]) == sign && sign != "" && sign[0] == '='
    requires ReadValue(SkipSpaces(sign[1..])) == Some((value, rest))
    ensures ReadParam(s) == Some((Param(Lower(named[..n]), value), rest))
  {
  }

  lemma NameIsRead(name: string, given: string)
    requires UsableName(name)
    ensures
      var named := name + ("=" + given);
      && SkipSpaces(" " + named) == named && TokenEnd(named) == |name| && named[..|name|] == name
      && SkipSpaces(named[|name|..]) == "=" + given
  {
    var named := name + ("=" + given);
    assert named[0] == name[0];
    SkipOne(named);
    TokenEndIs(name, "=" + given);
    assert named[|name|..] == "=" + given;
    SkipNone("=" + given);
  }

  lemma ReadPrinted(name: string, printed: string, value: string, rest: string)
    requires UsableName(name) && ReadsTo(printed, rest, value)
    ensures ReadParam(Parameter(name, printed) + rest) == Some((Param(name, value), rest))
  {
    var given := printed + rest;
    var named := name + ("=" + given);
    var s := ";" + (" " + named);
    assert Parameter(name, printed) + rest == s;
    SkipNone(s);
    assert s[1..] == " " + named;
    NameIsRead(name, given);
    SkipNone(given);
    assert ("=" + given)[1..] == given;
    ReadParamIs(s, named, |name|, "=" + given, value, rest);
  }

  lemma ParamsStep(name: string, printed: string, value: string, rest: string, seen: seq<Param>)
    requires UsableName(name) && ReadsTo(printed, rest, value) && Lookup(seen, name) == None
    ensures ReadParams(Parameter(name, printed) + rest, seen) == ReadParams(rest, seen + [Param(name, value)])
  {
    var s := Parameter(name, printed) + rest;
    ReadPrinted(name, printed, value, rest);
    SkipNone(s);
  }

  lemma ParamsEnd(seen: seq<Param>)
    ensures ReadParams("", seen) == Good(seen)
  {
  }

  lemma TokenReads(token: string, rest: string)
    requires IsToken(token) && (rest == "" || !IsTokenChar(rest[0]))
    ensures ReadsTo(token, rest, token)
  {
    TokenEndIs(token, rest);
    assert (token + rest)[..|token|] == token && (token + rest)[|token|..] == rest;
  }

  /** One parameter with a token for its value. */
  lemma OneParameter(name: string, token: string)
    requires UsableName(name) && IsToken(token)
    ensures ReadParams(Parameter(name, token), []) == Good([Param(name, token)])
  {
    TokenReads(token, "");
    ParamsStep(name, token, token, "", []);
    assert Parameter(name, token) + "" == Parameter(name, token);
    assert [] + [Param(name, token)] == [Param(name, token)];
  }

  // ---- looking values up ----

  lemma {:induction false} NoneLonger(ps: seq<Param>, name: string)
    requires forall i :: 0 <= i < |ps| ==> |ps[i].name| < |name|
    ensures Lookup(ps, name) == None
    decreases |ps|
  {
    if ps != [] {
      NoneLonger(ps[1..], name);
    }
  }

  lemma PlainValue(name: string, value: string)
    ensures Value([Param(name, value)], name) == Some(value)
  {
    var ps := [Param(name, value)];
    NoneLonger(ps, name + "*");
    NoneLonger(ps, name + "*" + Decimal(0));
    NoneLonger(ps, name + "*" + Decimal(0) + "*");
  }

  /** The extended form, when it can be decoded, is the one that counts. */
  lemma ExtendedValue(ps: seq<Param>, name: string, extended: string)
    requires Lookup(ps, name + "*") == Some(extended) && DecodeExtended(extended).Some?
    ensures Value(ps, name) == DecodeExtended(extended)
  {
  }

  lemma DecodesAs(charset: string, text: string)
    requires Free(charset, '\'') && FoldCase(charset) == UTF8
    ensures DecodeExtended(charset + ("''" + text)) == PercentDecode(text)
  {
    assert "''" + text == ['\''] + ("'" + text);
    BeforeFirst(charset, '\'', "'" + text);
    assert ("''" + text)[1..] == "" + (['\''] + text);
    BeforeFirst("", '\'', text);
    assert (['\''] + text)[1..] == text;
  }
}
