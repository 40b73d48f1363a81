/** Exactly when converting a second time changes nothing. */
module OutlookFixpoint {
  import opened Text
  import opened Normalizer
  import opened OutlookDocument
  import opened OutlookMarks
  import opened OutlookPlaces
  import opened OutlookCells
  import opened OutlookHalves
  import opened OutlookSettled
  import opened OutlookUnclosed

  // ---- a completed html tag is complete ----

  lemma ContainsIn(before: string, x: string, after: string, w: string)
    requires Contains(x, w)
    ensures Contains(before + x + after, w)
  {
    var k := Index(x, w);
    AtAfter(before, x, w, k);
    AtBefore(before + x, after, w, |before| + k);
  }

  lemma NotAtEnd(before: string, w: string, k: nat)
    requires Sticky(w) && At(before + ">", w, k)
    ensures At(before, w, k)
  {
    var s := before + ">";
    assert w[|w| - 1] == s[k..k + |w|][|w| - 1] == s[k + |w| - 1];
    assert s[|before|] == '>';
    assert before[k..k + |w|] == s[k..k + |w|];
  }

  /** A word that stood in the tag still does. */
  lemma WordStays(before: string, x: string, w: string)
    requires Sticky(w) && Contains(before + ">", w)
    ensures Contains(before + x + ">", w)
  {
    var k := Index(before + ">", w);
    NotAtEnd(before, w, k);
    AtBefore(before, x, w, k);
    AtBefore(before + x, ">", w, k);
  }

  lemma HeldFirst(x: string, y: string, w: string)
    requires Contains(x, w)
    ensures Contains(x + y, w)
  {
    AtBefore(x, y, w, Index(x, w));
  }

  lemma HeldLast(x: string, y: string, w: string)
    requires Contains(y, w)
    ensures Contains(x + y, w)
  {
    AtAfter(x, y, w, Index(y, w));
  }

  lemma {:induction false} MissingHolds(namespaces: seq<(string, string)>, tag: string, i: nat)
    requires i < |namespaces| && Declares(namespaces[i].0, namespaces[i].1) && !Contains(tag, namespaces[i].0)
    ensures Contains(MissingNamespaces(namespaces, tag), namespaces[i].0)
    decreases |namespaces|
  {
    var first := if Contains(tag, namespaces[0].0) then "" else namespaces[0].1;
    var rest := MissingNamespaces(namespaces[1..], tag);
    if i == 0 {
      HeldFirst(first, rest, namespaces[0].0);
    } else {
      MissingHolds(namespaces[1..], tag, i - 1);
      HeldLast(first, rest, namespaces[i].0);
    }
  }

  /** Every word a tag is looked through for. */
  ghost predicate Complete(cfg: Config, tag: string) {
    && (forall i :: 0 <= i < |cfg.namespaces| ==> Contains(tag, cfg.namespaces[i].0))
    && Contains(tag, "lang=")
  }

  lemma {:induction false} NothingMissing(namespaces: seq<(string, string)>, tag: string)
    requires forall i :: 0 <= i < |namespaces| ==> Contains(tag, namespaces[i].0)
    ensures MissingNamespaces(namespaces, tag) == ""
    decreases |namespaces|
  {
    if namespaces != [] {
      var rest := namespaces[1..];
      assert forall i :: 0 <= i < |rest| ==> rest[i] == namespaces[i + 1];
      NothingMissing(rest, tag);
    }
  }

  lemma FrontHolds(cfg: Config, read: string, before: string, i: nat)
    requires Clean(cfg) && i < |cfg.namespaces| && read == before + ">"
    ensures Contains(before + Extra(cfg, read) + ">", cfg.namespaces[i].0)
  {
    var w := cfg.namespaces[i].0;
    assert Declares(w, cfg.namespaces[i].1);
    if Contains(read, w) {
      WordStays(before, Extra(cfg, read), w);
    } else {
      MissingHolds(cfg.namespaces, read, i);
      ExtraHolds(cfg, read, before, w);
    }
  }

  lemma ExtraHolds(cfg: Config, read: string, before: string, w: string)
    requires Contains(MissingNamespaces(cfg.namespaces, read), w)
          || (!Contains(read, "lang=") && Contains(cfg.lang, w))
    ensures Contains(before + Extra(cfg, read) + ">", w)
  {
    var missing, lang := MissingNamespaces(cfg.namespaces, read), if Contains(read, "lang=") then "" else cfg.lang;
    if Contains(missing, w) {
      HeldFirst(missing, lang, w);
    } else {
      HeldLast(missing, lang, w);
    }
    ContainsIn(before, missing + lang, ">", w);
  }

  lemma FrontHoldsLang(cfg: Config, read: string, before: string)
    requires Clean(cfg) && read == before + ">"
    ensures Contains(before + Extra(cfg, read) + ">", "lang=")
  {
    if Contains(read, "lang=") {
      WordStays(before, Extra(cfg, read), "lang=");
    } else {
      ExtraHolds(cfg, read, before, "lang=");
    }
  }

  lemma FrontIsComplete(cfg: Config, read: string, out: string)
    requires Clean(cfg) && Front(cfg, read, out) && read != ""
    ensures Complete(cfg, out)
  {
    var before := FrontParts(cfg, read, out);
    forall i | 0 <= i < |cfg.namespaces| ensures Contains(out, cfg.namespaces[i].0) {
      FrontHolds(cfg, read, before, i);
    }
    FrontHoldsLang(cfg, read, before);
  }

  lemma StaysComplete(cfg: Config, out: string, x: string)
    requires Clean(cfg) && Complete(cfg, out) && Half(out, x)
    ensures Complete(cfg, x)
  {
    forall i | 0 <= i < |cfg.namespaces| ensures Contains(x, cfg.namespaces[i].0) {
      assert Declares(cfg.namespaces[i].0, cfg.namespaces[i].1);
      assert WordKept(out, x, cfg.namespaces[i].0);
    }
    assert WordKept(out, x, "lang=");
  }

  lemma NothingExtra(cfg: Config, x: string, again: string)
    requires x != "" && Complete(cfg, x) && Front(cfg, x, again)
    ensures again == x
  {
    NothingMissing(cfg.namespaces, x);
    assert Extra(cfg, x) == "";
    assert x[..|x| - 1] + "" + ">" == x;
  }

  /** Nothing is added to what was written for the html tag and then rewritten. */
  lemma FrontAgain(cfg: Config, read: string, out: string, x: string, again: string)
    requires Clean(cfg) && Front(cfg, read, out) && Half(out, x) && Front(cfg, x, again)
    ensures again == x
  {
    if read != "" {
      FrontIsComplete(cfg, read, out);
      StaysComplete(cfg, out, x);
      assert Ends(out, x);
      NothingExtra(cfg, x, again);
    }
  }

  // ---- a document whose body is not wrapped ----

  lemma MarksFollow(b: string, y: string)
    requires Follows(b, y)
    ensures Marks(y) == Marks(b)
  {
    if y == FixEmptyTds(b) {
      MarksFix(b);
    } else {
      MarksFollowCell(b, SpacesEnd(b, 0), b[SpacesEnd(b, 0) + 5..]);
    }
  }

  lemma MarksFollowCell(b: string, n: nat, rest: string)
    requires LeadsToClose(b) && n == SpacesEnd(b, 0) && rest == b[n + 5..]
    ensures Marks(FILLED + FixEmptyTds(rest)) == Marks(b)
  {
    MarksFix(rest);
    MarksLed(b, n, b[..n], b[n..n + 5], rest);
    MarksFilled(FixEmptyTds(rest));
  }

  lemma MarksFilled(v: string)
    ensures Marks(FILLED + v) == [Open(Other), Close] + Marks(v)
  {
    assert FILLED + v == "&nbsp;" + ("</td>" + v);
    MarksPastSpaces("&nbsp;", "</td>", v);
  }

  lemma MarksLed(b: string, n: nat, ws: string, end: string, rest: string)
    requires LeadsToClose(b) && n == SpacesEnd(b, 0) && ws == b[..n] && end == b[n..n + 5] && rest == b[n + 5..]
    ensures Marks(b) == [Open(Other), Close] + Marks(rest)
  {
    assert b == ws + (end + rest);
    assert forall i :: 0 <= i < n ==> IsSpace(ws[i]);
    assert end[0] == b[n] && end[1] == b[n + 1] && end[2] == b[n + 2] && end[3] == b[n + 3] && end[4] == b[n + 4];
    MarksPastSpaces(ws, end, rest);
  }

  lemma MarksPastSpaces(ws: string, end: string, rest: string)
    requires Markless(ws) && |end| == 5 && ClosesCell(end, 0)
    ensures Marks(ws + (end + rest)) == [Open(Other), Close] + Marks(rest)
  {
    MarksOfClose(end, rest);
    NoMarks(ws);
    MarksConcat(ws, end + rest);
  }

  /** What was written for the html tag ends where the html tag of the result does. */
  lemma StartAgain(html: string, once: string, out: string, n: string, x: string, y: string)
    requires Marks(once) == Marks(html) && Marks(html) == Marks(out) + Marks(n)
    requires Marks(out) == Marks(html[..Start(html)])
    requires once == x + y && Half(out, x) && Follows(n, y)
    ensures Start(once) == |x|
  {
    MarksFollow(n, y);
    MarksConcat(x, y);
    StartIs(html);
    StartIs(once);
    assert once[..|x|] == x;
    assert Edge(once, |x|);
    SameEdge(once, Start(once), |x|);
  }

  /** What the second conversion writes before it fills empty cells. */
  lemma SecondPass(cfg: Config, html: string, out: string, n: string, x: string, y: string)
    requires Clean(cfg) && Front(cfg, html[..Start(html)], out) && Settled(cfg.attributes, n)
    requires Half(out, x) && Follows(n, y) && !Wraps(x + y) && Start(x + y) == |x|
    ensures Converted(cfg, x + y) == x + y
  {
    var once := x + y;
    var again := FrontIs(cfg, once);
    assert once[..|x|] == x && once[|x|..] == y;
    FrontAgain(cfg, html[..Start(html)], out, x, again);
    WholeIs(cfg, once, again);
    SettledFollows(cfg.attributes, n, y);
  }

  lemma SameConditions(html: string, once: string)
    requires Marks(once) == Marks(html)
    ensures Unclosed(once) == Unclosed(html) && Wraps(once) == Wraps(html)
  {
    UnclosedIs(html);
    UnclosedIs(once);
    WrapsIs(html);
    WrapsIs(once);
  }

  /** Without a body to wrap, what a pass writes is what the next pass writes. */
  lemma UnwrappedAgain(cfg: Config, html: string)
    requires Clean(cfg) && !Wraps(html)
    ensures
      var once := FixEmptyTds(Converted(cfg, html));
      FixEmptyTds(Converted(cfg, once)) == once
  {
    var once := FixEmptyTds(Converted(cfg, html));
    var out := FrontIs(cfg, html);
    WholeIs(cfg, html, out);
    WholeMarks(cfg, html);
    SameConditions(html, once);
    UnwrappedOnce(cfg, html, html[..Start(html)], out, html[Start(html)..], once);
    FixTwice(Converted(cfg, html));
  }

  lemma UnwrappedOnce(cfg: Config, html: string, read: string, out: string, rest: string, once: string)
    requires Clean(cfg) && read == html[..Start(html)] && rest == html[Start(html)..] && Front(cfg, read, out)
    requires once == FixEmptyTds(out + Normalize(cfg.attributes, rest)) && Marks(once) == Marks(html) && !Wraps(once)
    ensures Converted(cfg, once) == once
  {
    var n := Normalize(cfg.attributes, rest);
    NormalizeTwice(cfg.attributes, rest);
    FrontKeeps(cfg, read, out);
    var x, y := Halved(out, n);
    MarksNormalize(cfg.attributes, rest);
    StartIs(html);
    MarkSplit(html, Start(html));
    StartAgain(html, once, out, n, x, y);
    SecondPass(cfg, html, out, n, x, y);
  }

  // ---- the results ----

  /** A conversion that a second conversion leaves as it is. */
  predicate Idempotent(cfg: Config, html: string) {
    var once := ToOutlookHTML(cfg, html);
    once.Done? && ToOutlookHTML(cfg, once.html) == once
  }

  lemma UnclosedIdempotentIff(cfg: Config, html: string)
    requires Clean(cfg) && Unclosed(html) && !AlreadyConverted(html)
    ensures Idempotent(cfg, html) <==> !Wraps(html)
    ensures ToOutlookHTML(cfg, html).Done? && !AlreadyConverted(ToOutlookHTML(cfg, html).html)
  {
    var once := FixEmptyTds(Converted(cfg, html));
    UnclosedConversion(cfg, html);
    UnclosedStaysUnmarked(cfg, html);
    if Wraps(html) {
      WrapsAgain(cfg, html);
      UnclosedConversion(cfg, once);
      WrapsAgain(cfg, once);
    } else {
      WholeMarks(cfg, html);
      SameConditions(html, once);
      UnclosedConversion(cfg, once);
      UnwrappedAgain(cfg, html);
    }
  }

  /** Of the documents that are converted, exactly the convertible ones come out marked. */
  lemma MarkedIff(cfg: Config, html: string)
    requires Clean(cfg) && Contains(cfg.headTags, SENTINEL) && html != "" && !AlreadyConverted(html)
    ensures ToOutlookHTML(cfg, html).Done? && AlreadyConverted(ToOutlookHTML(cfg, html).html) <==> Convertible(html)
  {
    if Convertible(html) {
      ConvertedIsMarked(cfg, html);
    } else if Unclosed(html) {
      UnclosedIdempotentIff(cfg, html);
    } else {
      PanicsIff(cfg, html);
    }
  }

  /** Converting twice is converting once, except for a panic and for a body that is wrapped under a head left open. */
  lemma IdempotentIff(cfg: Config, html: string)
    requires Clean(cfg) && Contains(cfg.headTags, SENTINEL)
    ensures Idempotent(cfg, html) <==>
      html == "" || AlreadyConverted(html) || Convertible(html) || (Unclosed(html) && !Wraps(html))
  {
    if html == "" || AlreadyConverted(html) {
    } else if Convertible(html) {
      ConversionIsIdempotent(cfg, html);
    } else if Unclosed(html) {
      UnclosedIdempotentIff(cfg, html);
    } else {
      PanicsIff(cfg, html);
    }
  }
}
