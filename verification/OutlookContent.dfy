/** A conversion keeps the document: what was in it is still there, in order, and what is added stands in its place. */
module OutlookContent {
  import opened Prelude
  import opened Text
  import opened Normalizer
  import opened OutlookDocument
  import opened OutlookMarks
  import opened OutlookPlaces
  import W = Wire

  // ---- up to case and white space ----

  /** In lower case and without white space. */
  function Squeezed(s: string): string {
    if s == "" then "" else (if IsSpace(s[0]) then "" else [W.LowerChar(s[0])]) + Squeezed(s[1..])
  }

  /** All of `s` is in `out`, in order, up to case and white space. */
  ghost predicate Shown(s: string, out: string) {
    Subsequence(Squeezed(s), Squeezed(out))
  }

  lemma {:induction false} SqueezedConcat(a: string, b: string)
    ensures Squeezed(a + b) == Squeezed(a) + Squeezed(b)
    decreases |a|
  {
    if a == "" {
      assert a + b == b;
    } else {
      var t := a[1..];
      SqueezedConcat(t, b);
      SqueezedByte(a[0], t, a);
      SqueezedByte(a[0], t + b, a + b);
    }
  }

  lemma SqueezedByte(c: char, t: string, s: string)
    requires s == [c] + t
    ensures Squeezed(s) == (if IsSpace(c) then "" else [W.LowerChar(c)]) + Squeezed(t)
  {
    assert s[1..] == t;
  }

  lemma {:induction false} Transitive(a: string, b: string, c: string)
    requires Subsequence(a, b) && Subsequence(b, c)
    ensures Subsequence(a, c)
    decreases |c|
  {
    if a != "" {
      if b[0] == c[0] && Subsequence(b[1..], c[1..]) {
        if a[0] == b[0] && Subsequence(a[1..], b[1..]) {
          Transitive(a[1..], b[1..], c[1..]);
        } else {
          Transitive(a, b[1..], c[1..]);
        }
      } else {
        Transitive(a, b, c[1..]);
      }
    }
  }

  lemma ShownThrough(a: string, b: string, c: string)
    requires Shown(a, b) && Shown(b, c)
    ensures Shown(a, c)
  {
    Transitive(Squeezed(a), Squeezed(b), Squeezed(c));
  }

  lemma ShownTogether(a: string, x: string, b: string, y: string)
    requires Shown(a, x) && Shown(b, y)
    ensures Shown(a + b, x + y)
  {
    SqueezedConcat(a, b);
    SqueezedConcat(x, y);
    Joined(Squeezed(a), Squeezed(x), Squeezed(b), Squeezed(y));
  }

  lemma ShownItself(s: string)
    ensures Shown(s, s)
  {
    SubsequenceOfItself(Squeezed(s));
  }

  lemma ShownInMore(a: string, x: string, extra: string)
    requires Shown(a, x)
    ensures Shown(a, x + extra) && Shown(a, extra + x)
  {
    ShownTogether(a, x, "", extra);
    ShownTogether("", extra, a, x);
    assert a + "" == a && "" + a == a;
  }

  lemma {:induction false} ShownSubsequence(a: string, b: string)
    requires Subsequence(a, b)
    ensures Shown(a, b)
    decreases |b|
  {
    if a != "" {
      assert b == [b[0]] + b[1..] && a == [a[0]] + a[1..];
      if a[0] == b[0] && Subsequence(a[1..], b[1..]) {
        ShownSubsequence(a[1..], b[1..]);
        ShownItself([a[0]]);
        ShownTogether([a[0]], [b[0]], a[1..], b[1..]);
      } else {
        ShownSubsequence(a, b[1..]);
        ShownInMore(a, b[1..], [b[0]]);
      }
    }
  }

  lemma NormalizeShows(a: Attributes, s: string)
    ensures Shown(s, Normalize(a, s))
  {
    NormalizeOnlyAdds(a, s);
    ShownSubsequence(s, Normalize(a, s));
  }

  // ---- filling cells ----

  lemma {:induction false} SpacesShowNothing(ws: string)
    requires forall i :: 0 <= i < |ws| ==> IsSpace(ws[i])
    ensures Squeezed(ws) == ""
  {
    if ws != "" {
      SpacesShowNothing(ws[1..]);
    }
  }

  lemma OpeningShows(p: string)
    requires |p| == 3 && OpensCell(p)
    ensures Squeezed(p) == Squeezed("<td")
  {
    assert p == "<" + p[1..] && "<td" == "<" + "td";
    SqueezedConcat("<", p[1..]);
    SqueezedConcat("<", "td");
    NameShows(p[1..]);
  }

  lemma ClosingShows(p: string)
    requires |p| == 5 && ClosesCell(p, 0)
    ensures Squeezed(p) == Squeezed("</td>")
  {
    assert p == ['<', '/'] + p[2..4] + ['>'];
    assert "</td>" == ['<', '/'] + "td" + ['>'];
    SqueezedConcat(['<', '/'] + p[2..4], ['>']);
    SqueezedConcat(['<', '/'], p[2..4]);
    SqueezedConcat(['<', '/'] + "td", ['>']);
    SqueezedConcat(['<', '/'], "td");
    NameShows(p[2..4]);
  }

  lemma NameShows(n: string)
    requires |n| == 2 && OneOf(n[0], 't', 'T') && OneOf(n[1], 'd', 'D')
    ensures Squeezed(n) == Squeezed("td")
  {
    assert n[1..][1..] == "" && n[1..][0] == n[1];
    assert "td"[1..] == "d" && "d"[1..] == "";
  }

  lemma CellShows(s: string, c: Cell, rest: string, fixed: string)
    requires EmptyCell(s) == Some(c) && rest == s[c.close + 5..] && Shown(rest, fixed)
    ensures Shown(s, ("<td" + s[3..c.gt] + ">") + FILLED + fixed)
  {
    var mid, ws, end := s[3..c.gt], s[c.gt + 1..c.close], s[c.close..c.close + 5];
    CellParts(s, c, mid, ws, end, rest);
    assert forall i :: 0 <= i < |ws| ==> IsSpace(ws[i]);
    PartsShow(s, s[..3], mid, ws, end, rest, fixed);
  }

  lemma PartsShow(s: string, p: string, mid: string, ws: string, end: string, rest: string, fixed: string)
    requires s == p + (mid + (">" + (ws + (end + rest)))) && |p| == 3 && OpensCell(p)
    requires forall i :: 0 <= i < |ws| ==> IsSpace(ws[i])
    requires |end| == 5 && ClosesCell(end, 0) && Shown(rest, fixed)
    ensures Shown(s, ("<td" + mid + ">") + FILLED + fixed)
  {
    OpeningShows(p);
    ShownItself("<td");
    TailShows(ws, end, rest, fixed);
    var tail, filled := ">" + (ws + (end + rest)), ">" + (FILLED + fixed);
    ShownItself(mid);
    ShownTogether(mid, mid, tail, filled);
    ShownTogether(p, "<td", mid + tail, mid + filled);
    InOrder("<td", mid, ">", FILLED, fixed);
  }

  lemma TailShows(ws: string, end: string, rest: string, fixed: string)
    requires forall i :: 0 <= i < |ws| ==> IsSpace(ws[i])
    requires |end| == 5 && ClosesCell(end, 0) && Shown(rest, fixed)
    ensures Shown(">" + (ws + (end + rest)), ">" + (FILLED + fixed))
  {
    ClosingShows(end);
    ShownItself("</td>");
    ShownTogether(end, "</td>", rest, fixed);
    SpacesShowNothing(ws);
    ShownTogether(ws, "&nbsp;", end + rest, "</td>" + fixed);
    assert FILLED + fixed == "&nbsp;" + ("</td>" + fixed);
    ShownItself(">");
    ShownTogether(">", ">", ws + (end + rest), FILLED + fixed);
  }

  lemma ByteShows(c: char, t: string, u: string, s: string)
    requires Shown(t, u) && s == [c] + t
    ensures Shown(s, [c] + u)
  {
    ShownItself([c]);
    ShownTogether([c], [c], t, u);
  }

  /** Filling empty cells loses nothing but white space and the case of the cells' tags. */
  lemma {:induction false} FixShows(s: string)
    ensures Shown(s, FixEmptyTds(s))
    decreases |s|
  {
    if s != "" {
      match EmptyCell(s)
      case None =>
        FixShows(s[1..]);
        CopyShows(s, s[1..]);
      case Some(c) =>
        FixShows(s[c.close + 5..]);
        FillShows(s, c, s[c.close + 5..]);
    }
  }

  lemma CopyShows(s: string, t: string)
    requires s != "" && EmptyCell(s).None? && t == s[1..] && Shown(t, FixEmptyTds(t))
    ensures Shown(s, FixEmptyTds(s))
  {
    Copies(s, t);
    ByteShows(s[0], t, FixEmptyTds(t), s);
  }

  lemma FillShows(s: string, c: Cell, rest: string)
    requires EmptyCell(s) == Some(c) && rest == s[c.close + 5..] && Shown(rest, FixEmptyTds(rest))
    ensures Shown(s, FixEmptyTds(s))
  {
    Fills(s, c, "<td" + s[3..c.gt] + ">", rest);
    CellShows(s, c, rest, FixEmptyTds(rest));
  }

  // ---- where things stand ----

  predicate IsFragment(html: string) {
    FindTag(html, "<html", "<HTML") == -1 && FindTag(html, "<head", "<HEAD") == -1
  }

  /** Where the head block goes: past the head tag if that is closed, past the html tag otherwise. */
  function HeadPlace(html: string): (r: nat)
    ensures r <= |html|
  {
    var at := FindTag(html, "<head", "<HEAD");
    if at == -1 || TagEnd(html, at) == -1 then Start(html) else TagEnd(html, at)
  }

  /** What goes there: nothing if the head tag is left open, and tags of its own if there is no head. */
  function HeadBlock(cfg: Config, html: string): string {
    var at := FindTag(html, "<head", "<HEAD");
    if at == -1 then "<head>" + cfg.headTags + "</head>"
    else if TagEnd(html, at) == -1 then "" else cfg.headTags
  }

  /** Past the body tag, if it is closed and does not come before `from`. */
  function BodyPlace(html: string, from: nat): (r: Option<nat>)
    ensures r.Some? ==> from <= r.value <= |html|
  {
    var at := FindTag(html, "<body", "<BODY");
    if at == -1 || at < from || TagEnd(html, at) == -1 then None else Some(TagEnd(html, at))
  }

  /** The content of a closed body between the tags of the container, and what follows it; else the opening tags. */
  function Inside(cfg: Config, rest: string): string {
    var close := FindTag(rest, "</body>", "</BODY>");
    if close == -1 then cfg.container + Normalize(cfg.attributes, rest)
    else
      cfg.container + (Normalize(cfg.attributes, rest[..close])
      + (cfg.closeContainer + Normalize(cfg.attributes, rest[close..])))
  }

  /** The rest of a document from the place of its head block on. */
  function FromHead(cfg: Config, html: string, from: nat): string
    requires from <= |html|
  {
    match BodyPlace(html, from)
    case None => Normalize(cfg.attributes, html[from..])
    case Some(end) => html[from..end] + Inside(cfg, html[end..])
  }

  /**
   * A converted document, without the declarations in its html tag and before
   * its cells are filled: the document itself, with the head block in the head
   * and the container around the body's content, normalised from there on.
   */
  function Woven(cfg: Config, html: string): string {
    if IsFragment(html) then
      cfg.fragmentOpen + cfg.headTags + cfg.holder + cfg.container + Normalize(cfg.attributes, html) + cfg.fragmentClose
    else html[..HeadPlace(html)] + (HeadBlock(cfg, html) + FromHead(cfg, html, HeadPlace(html)))
  }

  // ---- all of it is written ----

  lemma HtmlTagShows(cfg: Config, html: string)
    ensures
      var p := AfterHtmlTag(cfg, html);
      p.curr == Start(html) && Shown(html[..p.curr], p.out)
  {
    var p := AfterHtmlTag(cfg, html);
    if p.curr == 0 {
      assert html[..0] == "";
    } else {
      ClosedTagShows(html, p.curr, MissingNamespaces(cfg.namespaces, html[..p.curr]),
                     if Contains(html[..p.curr], "lang=") then "" else cfg.lang);
    }
  }

  lemma ClosedTagShows(html: string, end: nat, missing: string, lang: string)
    requires 0 < end <= |html| && html[end - 1] == '>'
    ensures Shown(html[..end], html[..end - 1] + missing + lang + ">")
  {
    var before := html[..end - 1];
    ShownItself(before);
    ShownInMore(before, before, missing);
    ShownInMore(before, before + missing, lang);
    ShownItself(">");
    ShownTogether(before, before + missing + lang, ">", ">");
    assert before + ">" == html[..end];
  }

  lemma HeadShows(cfg: Config, html: string, p: Progress)
    requires p.curr == Start(html) && Shown(html[..p.curr], p.out) && !IsFragment(html)
    requires AfterHead(cfg, html, p).Some?
    ensures
      var r := AfterHead(cfg, html, p).value;
      r.curr == HeadPlace(html) && Shown(html[..r.curr] + HeadBlock(cfg, html), r.out)
  {
    var at := FindTag(html, "<head", "<HEAD");
    if at != -1 {
      var end := TagEnd(html, at);
      if end == -1 {
        assert html[..p.curr] + "" == html[..p.curr];
      } else {
        ShownFurther(html, p.curr, end, p.out);
        ShownItself(cfg.headTags);
        ShownTogether(html[..end], p.out + html[p.curr..end], cfg.headTags, cfg.headTags);
      }
    } else {
      OwnHeadShows(html[..p.curr], p.out, cfg.headTags);
    }
  }

  lemma OwnHeadShows(read: string, out: string, tags: string)
    requires Shown(read, out)
    ensures Shown(read + ("<head>" + tags + "</head>"), out + "\n<head>" + tags + "</head>")
  {
    ShownItself("<head>" + tags + "</head>");
    ShownInMore("<head>" + tags + "</head>", "<head>" + tags + "</head>", "\n");
    ShownTogether(read, out, "<head>" + tags + "</head>", "\n" + ("<head>" + tags + "</head>"));
    assert "\n<head>" == "\n" + "<head>";
    assert out + "\n<head>" + tags + "</head>" == out + ("\n" + ("<head>" + tags + "</head>"));
  }

  lemma ShownFurther(html: string, from: nat, to: nat, out: string)
    requires from <= to <= |html| && Shown(html[..from], out)
    ensures Shown(html[..to], out + html[from..to])
  {
    ShownItself(html[from..to]);
    ShownTogether(html[..from], out, html[from..to], html[from..to]);
    assert html[..from] + html[from..to] == html[..to];
  }

  /** What is written from the body tag on. */
  lemma BodyIs(cfg: Config, html: string, p: Progress) returns (last: string)
    requires p.curr <= |html|
    ensures last == Normalize(cfg.attributes, html[AfterBody(cfg, html, p).curr..])
    ensures AfterBody(cfg, html, p).out + last == p.out + FromHead(cfg, html, p.curr)
  {
    match BodyPlace(html, p.curr)
    case None =>
      NoBody(cfg, html, p);
      last := FromHead(cfg, html, p.curr);
    case Some(end) =>
      AfterBodyAt(cfg, html, p, end, Inner(cfg, html[end..]));
      FromHeadAt(cfg, html, p.curr, end, html[end..]);
      last := SomeBody(cfg, html, p, end, html[end..], AfterBody(cfg, html, p), FromHead(cfg, html, p.curr));
  }

  lemma SomeBody(cfg: Config, html: string, p: Progress, end: nat, rest: string, q: Progress, written: string)
    returns (last: string)
    requires p.curr <= end <= |html| && rest == html[end..]
    requires q == Progress(p.out + html[p.curr..end] + cfg.container + Inner(cfg, rest).out,
                           end + Inner(cfg, rest).curr)
    requires written == html[p.curr..end] + Inside(cfg, rest)
    ensures q.curr <= |html| && last == Normalize(cfg.attributes, html[q.curr..]) && q.out + last == p.out + written
  {
    var inner := Inner(cfg, rest);
    Slices(html, end, inner.curr);
    last := Normalize(cfg.attributes, html[q.curr..]);
    InnerIs(cfg, rest, inner, last);
    AllTogether(p.out, html[p.curr..end], cfg.container, inner.out, last, Inside(cfg, rest), q.out, written);
  }

  lemma AllTogether(out: string, tag: string, container: string, inner: string, last: string, inside: string,
                    written: string, rest: string)
    requires written == out + tag + container + inner && inside == container + (inner + last) && rest == tag + inside
    ensures written + last == out + rest
  {
    InOrder(out, tag, container, inner, last);
  }

  lemma FromHeadAt(cfg: Config, html: string, from: nat, end: nat, rest: string)
    requires from <= |html| && BodyPlace(html, from) == Some(end) && rest == html[end..]
    ensures FromHead(cfg, html, from) == html[from..end] + Inside(cfg, rest)
  {
  }

  lemma NoBody(cfg: Config, html: string, p: Progress)
    requires p.curr <= |html| && BodyPlace(html, p.curr) == None
    ensures AfterBody(cfg, html, p) == p && FromHead(cfg, html, p.curr) == Normalize(cfg.attributes, html[p.curr..])
  {
  }

  lemma AfterBodyAt(cfg: Config, html: string, p: Progress, end: nat, inner: Progress)
    requires p.curr <= |html| && BodyPlace(html, p.curr) == Some(end) && inner == Inner(cfg, html[end..])
    ensures AfterBody(cfg, html, p)
         == Progress(p.out + html[p.curr..end] + cfg.container + inner.out, end + inner.curr)
  {
  }

  lemma InOrder(a: string, b: string, c: string, d: string, e: string)
    ensures a + b + c + d + e == a + (b + (c + (d + e)))
  {
  }

  lemma InnerIs(cfg: Config, rest: string, inner: Progress, last: string)
    requires inner == Inner(cfg, rest) && last == Normalize(cfg.attributes, rest[inner.curr..])
    ensures cfg.container + (inner.out + last) == Inside(cfg, rest)
  {
    var close := FindTag(rest, "</body>", "</BODY>");
    if close == -1 {
      assert rest[0..] == rest;
      assert "" + last == last;
    } else {
      Regrouped(Normalize(cfg.attributes, rest[..close]), cfg.closeContainer, last);
    }
  }

  lemma Regrouped(a: string, b: string, c: string)
    ensures (a + b) + c == a + (b + c)
  {
  }

  lemma WholeIsWoven(cfg: Config, html: string)
    requires !IsFragment(html) && html != "" && !AlreadyConverted(html) && ToOutlookHTML(cfg, html).Done?
    ensures Shown(Woven(cfg, html), ToOutlookHTML(cfg, html).html)
  {
    var p := AfterHtmlTag(cfg, html);
    HtmlTagShows(cfg, html);
    var r := AfterHead(cfg, html, p).value;
    HeadShows(cfg, html, p);
    var last := BodyIs(cfg, html, r);
    var whole := AfterBody(cfg, html, r).out + last;
    var rest := FromHead(cfg, html, r.curr);
    ShownItself(rest);
    ShownTogether(html[..r.curr] + HeadBlock(cfg, html), r.out, rest, rest);
    Regrouped(html[..r.curr], HeadBlock(cfg, html), rest);
    FixShows(whole);
    ShownThrough(Woven(cfg, html), whole, FixEmptyTds(whole));
  }

  /**
   * Whatever is converted comes out with everything in its place: a fragment
   * in the container of a whole document, a document with the head block in
   * its head and the container around its body's content.
   */
  lemma ConversionIsWoven(cfg: Config, html: string)
    requires html != "" && !AlreadyConverted(html) && ToOutlookHTML(cfg, html).Done?
    ensures Shown(Woven(cfg, html), ToOutlookHTML(cfg, html).html)
  {
    if IsFragment(html) {
      FixShows(Woven(cfg, html));
    } else {
      WholeIsWoven(cfg, html);
    }
  }

  // ---- and nothing is lost ----

  lemma InsideShows(cfg: Config, rest: string)
    ensures Shown(rest, Inside(cfg, rest))
  {
    var close := FindTag(rest, "</body>", "</BODY>");
    if close == -1 {
      NormalizeShows(cfg.attributes, rest);
      ShownInMore(rest, Normalize(cfg.attributes, rest), cfg.container);
    } else {
      ClosedInsideShows(cfg, rest, rest[..close], rest[close..]);
    }
  }

  lemma ClosedInsideShows(cfg: Config, rest: string, before: string, after: string)
    requires rest == before + after
    ensures Shown(rest, cfg.container + (Normalize(cfg.attributes, before)
                        + (cfg.closeContainer + Normalize(cfg.attributes, after))))
  {
    NormalizeShows(cfg.attributes, before);
    NormalizeShows(cfg.attributes, after);
    ShownInMore(after, Normalize(cfg.attributes, after), cfg.closeContainer);
    var closed := cfg.closeContainer + Normalize(cfg.attributes, after);
    ShownTogether(before, Normalize(cfg.attributes, before), after, closed);
    ShownInMore(rest, Normalize(cfg.attributes, before) + closed, cfg.container);
  }

  lemma FromHeadShows(cfg: Config, html: string, from: nat)
    requires from <= |html|
    ensures Shown(html[from..], FromHead(cfg, html, from))
  {
    match BodyPlace(html, from)
    case None => NormalizeShows(cfg.attributes, html[from..]);
    case Some(end) =>
      FromHeadAt(cfg, html, from, end, html[end..]);
      InsideShows(cfg, html[end..]);
      ShownInRest(html, from, end, Inside(cfg, html[end..]));
  }

  lemma ShownInRest(html: string, from: nat, end: nat, inside: string)
    requires from <= end <= |html| && Shown(html[end..], inside)
    ensures Shown(html[from..], html[from..end] + inside)
  {
    ShownItself(html[from..end]);
    ShownTogether(html[from..end], html[from..end], html[end..], inside);
    assert html[from..end] + html[end..] == html[from..];
  }

  lemma WovenShows(cfg: Config, html: string)
    ensures Shown(html, Woven(cfg, html))
  {
    if IsFragment(html) {
      FragmentShows(html, Normalize(cfg.attributes, html), cfg.fragmentOpen + cfg.headTags + cfg.holder + cfg.container,
                    cfg.fragmentClose, cfg.attributes);
    } else {
      FromHeadShows(cfg, html, HeadPlace(html));
      ShownInTwo(html, HeadPlace(html), HeadBlock(cfg, html), FromHead(cfg, html, HeadPlace(html)));
    }
  }

  lemma ShownInTwo(html: string, k: nat, added: string, rest: string)
    requires k <= |html| && Shown(html[k..], rest)
    ensures Shown(html, html[..k] + (added + rest))
  {
    ShownInMore(html[k..], rest, added);
    ShownItself(html[..k]);
    ShownTogether(html[..k], html[..k], html[k..], added + rest);
    assert html[..k] + html[k..] == html;
  }

  lemma FragmentShows(html: string, normal: string, before: string, after: string, a: Attributes)
    requires normal == Normalize(a, html)
    ensures Shown(html, before + normal + after)
  {
    NormalizeShows(a, html);
    ShownInMore(html, normal, before);
    ShownInMore(html, before + normal, after);
  }

  /** For every document that can be converted: all of it is in the result, in order, up to case and white space. */
  lemma NothingIsLost(cfg: Config, html: string)
    requires ToOutlookHTML(cfg, html).Done?
    ensures Shown(html, ToOutlookHTML(cfg, html).html)
  {
    if html == "" || AlreadyConverted(html) {
      ShownItself(html);
    } else {
      ConversionIsWoven(cfg, html);
      WovenShows(cfg, html);
      ShownThrough(html, Woven(cfg, html), ToOutlookHTML(cfg, html).html);
    }
  }
}
