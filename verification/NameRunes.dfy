/** What a header value keeps of a text, and what a plain file name shows of it, rune by rune. */
module NameRunes {
  import opened Disposition

  /** The runes of a text as they would be written; an octet that is no UTF-8 reads as the replacement. */
  function Runes(s: string): (rs: seq<string>)
    ensures forall i :: 0 <= i < |rs| ==> rs[i] != ""
    decreases |s|
  {
    if s == "" then [] else [FirstRune(s).0] + Runes(s[FirstRune(s).1..])
  }

  function Together(rs: seq<string>): string {
    if rs == [] then "" else rs[0] + Together(rs[1..])
  }

  /** The runes that may stand in a header. */
  function Allowed(rs: seq<string>): (allowed: seq<string>)
    requires forall i :: 0 <= i < |rs| ==> rs[i] != ""
  {
    if rs == [] then [] else (if IsIllegal(rs[0][0]) then [] else [rs[0]]) + Allowed(rs[1..])
  }

  lemma {:induction false} CleanIs(s: string)
    ensures Clean(s) == Together(Allowed(Runes(s)))
    decreases |s|
  {
    if s != "" {
      var (rune, w) := FirstRune(s);
      CleanIs(s[w..]);
      AllowedStep(rune, Runes(s[w..]));
      assert IsIllegal(rune[0]) <==> IsIllegal(s[0]);
      TogetherWith(rune, Allowed(Runes(s[w..])));
    }
  }

  lemma AllowedStep(rune: string, rs: seq<string>)
    requires rune != "" && forall i :: 0 <= i < |rs| ==> rs[i] != ""
    ensures Allowed([rune] + rs) == if IsIllegal(rune[0]) then Allowed(rs) else [rune] + Allowed(rs)
  {
    assert ([rune] + rs)[1..] == rs;
  }

  /** Of a text that may not stand in a header as it is, every rune that may is kept, in order, and no other. */
  lemma SanitizeKeepsTheRest(s: string)
    ensures Sanitize(s) == if Legal(s) then s else Together(Allowed(Runes(s)))
  {
    LegalRunes(s);
    CleanIs(s);
  }

  /** Valid UTF-8. */
  predicate WellFormed(s: string)
    decreases |s|
  {
    s == "" || (Width(s) > 0 && WellFormed(s[FirstRune(s).1..]))
  }

  lemma {:induction false} RunesMakeTheText(s: string)
    requires WellFormed(s)
    ensures Together(Runes(s)) == s
    decreases |s|
  {
    if s != "" {
      var (rune, w) := FirstRune(s);
      RunesMakeTheText(s[w..]);
      FirstIsAsWritten(s, rune, w);
      TogetherWith(rune, Runes(s[w..]));
    }
  }

  lemma FirstIsAsWritten(s: string, rune: string, w: nat)
    requires s != "" && Width(s) > 0 && (rune, w) == FirstRune(s)
    ensures rune + s[w..] == s
  {
  }

  lemma TogetherWith(rune: string, rs: seq<string>)
    ensures Together([rune] + rs) == rune + Together(rs)
  {
    assert ([rune] + rs)[1..] == rs;
  }

  // ---- the name that readers without RFC 2231 see ----

  predicate ShowsAs(rune: string, c: char) {
    c == if |rune| == 1 && IsPrintable(rune[0]) then rune[0] else '_'
  }

  ghost predicate Shows(rs: seq<string>, shown: string) {
    |shown| == |rs| && forall i :: 0 <= i < |rs| ==> ShowsAs(rs[i], shown[i])
  }

  lemma {:induction false} AsciiRunesShow(s: string)
    ensures Shows(Runes(s), AsciiRunes(s))
    decreases |s|
  {
    if s != "" {
      var (rune, w) := FirstRune(s);
      AsciiRunesShow(s[w..]);
      FirstShows(s, rune);
      ShowsNext(rune, Runes(s[w..]), if IsPrintable(s[0]) then s[0] else '_', AsciiRunes(s[w..]));
    }
  }

  lemma {:induction false} PlainShowsItself(s: string)
    requires PlainAscii(s)
    ensures AsciiRunes(s) == s
    decreases |s|
  {
    if s != "" {
      assert IsPrintable(s[0]) && FirstRune(s).1 == 1;
      PlainShowsItself(s[1..]);
      assert s == [s[0]] + s[1..];
    }
  }

  lemma ShowsNext(rune: string, rs: seq<string>, c: char, shown: string)
    requires ShowsAs(rune, c) && Shows(rs, shown)
    ensures Shows([rune] + rs, [c] + shown)
  {
  }

  lemma FirstShows(s: string, rune: string)
    requires s != "" && rune == FirstRune(s).0
    ensures ShowsAs(rune, if IsPrintable(s[0]) then s[0] else '_')
  {
    if s[0] as int >= 0x80 {
      assert rune[0] as int >= 0x80;
    }
  }

  /** The plain form of a name has one character for each rune: itself if it is printable ASCII, else `_`. */
  lemma AsciiShowsEachRune(s: string)
    ensures Shows(Runes(s), Ascii(s))
  {
    AsciiRunesShow(s);
    if PlainAscii(s) {
      PlainShowsItself(s);
    }
  }
}
