/** Conversion of a whole document for Outlook, and why converting twice changes nothing. */
module OutlookDocument {
  import opened Prelude
  import opened Text
  import opened Normalizer

  const SENTINEL := "<!--gsmail:outlook-->"

  predicate AlreadyConverted(html: string) {
    Contains(html, SENTINEL)
  }

  /** `Panics` is a slice whose low bound passed its high one. */
  datatype Outcome = Done(html: string) | Panics

  /** The lower-case spelling if there is one, else the upper-case one. */
  function FindTag(html: string, lower: string, upper: string): (r: int)
    ensures -1 <= r <= |html|
  {
    var r := Index(html, lower);
    if r == -1 then Index(html, upper) else r
  }

  /** The end of the tag that starts at `from`: past its `>`, if it has one. */
  function TagEnd(html: string, from: nat): (r: int)
    requires from <= |html|
    ensures r == -1 || from < r <= |html|
  {
    var gt := IndexByte(html[from..], '>');
    if gt == -1 then -1 else from + gt + 1
  }

  // ---- the empty-cell rewrite ----

  predicate IsSpace(c: char) {
    c == ' ' || c == '\t' || c == '\n' || c == '\r' || c == '\U{000C}'
  }

  /** The first index at or after `i` that holds no white space. */
  function SpacesEnd(s: string, i: nat): (j: nat)
    requires i <= |s|
    ensures i <= j <= |s| && forall k :: i <= k < j ==> IsSpace(s[k])
    ensures j < |s| ==> !IsSpace(s[j])
    decreases |s| - i
  {
    if i < |s| && IsSpace(s[i]) then SpacesEnd(s, i + 1) else i
  }

  predicate OpensCell(s: string) {
    |s| >= 3 && s[0] == '<' && OneOf(s[1], 't', 'T') && OneOf(s[2], 'd', 'D')
  }

  predicate ClosesCell(s: string, i: nat) {
    i + 5 <= |s| && s[i] == '<' && s[i + 1] == '/'
    && OneOf(s[i + 2], 't', 'T') && OneOf(s[i + 3], 'd', 'D') && s[i + 4] == '>'
  }

  /** An opening cell tag that ends at `gt`, white space, and a closing tag at `close`. */
  datatype Cell = Cell(gt: nat, close: nat)

  function EmptyCell(s: string): (r: Option<Cell>)
    ensures r.Some? ==> 3 <= r.value.gt < r.value.close && r.value.close + 5 <= |s|
  {
    if !OpensCell(s) then None
    else
      var gt := IndexByteFrom(s, '>', 3);
      if gt < 0 then None
      else
        var close := SpacesEnd(s, gt + 1);
        if ClosesCell(s, close) then Some(Cell(gt, close)) else None
  }

  const FILLED := "&nbsp;</td>"

  /** Each empty cell, leftmost first, gets a non-breaking space. */
  function FixEmptyTds(s: string): string
    decreases |s|
  {
    if s == "" then ""
    else
      match EmptyCell(s)
      case None => [s[0]] + FixEmptyTds(s[1..])
      case Some(c) => ("<td" + s[3..c.gt] + ">") + FILLED + FixEmptyTds(s[c.close + 5..])
  }

  // ---- the conversion ----

  /** The literals a conversion writes, and the attributes the normaliser adds. */
  datatype Config = Config(
    headTags: string,
    namespaces: seq<(string, string)>,
    lang: string,
    fragmentOpen: string,
    holder: string,
    container: string,
    closeContainer: string,
    fragmentClose: string,
    attributes: Attributes)

  // Long literals are written in pieces: the verifier reads a literal byte by byte.
  const URN := "\"urn:schemas-" + "microsoft-com:"
  const OMML := "\"http://schemas." + "microsoft.com/office/" + "2004/12/omml\""
  const SPACING := " cellspacing=\"0\"" + " cellpadding=\"0\""
  const TABLE := "<table role=" + "\"presentation\"" + " width=\"100%\"" + SPACING + " border=\"0\">"

  /** As shipped, for a given head block. */
  function Standard(headTags: string): Config {
    Config(
      headTags,
      [("xmlns:v=", " xmlns:v=" + URN + "vml\""),
       ("xmlns:o=", " xmlns:o=" + URN + "office:office\""),
       ("xmlns:w=", " xmlns:w=" + URN + "office:word\""),
       ("xmlns:m=", " xmlns:m=" + OMML)],
      " lang=\"en\"",
      "<!DOCTYPE html>" + "<html lang=\"en\"><head>",
      "</head>" + "<body id=\"OutlookHolder\">",
      TABLE + "<tr><td>",
      "</td></tr></table>",
      "</td></tr></table>" + "</body></html>",
      OUTLOOK)
  }

  function MissingNamespaces(namespaces: seq<(string, string)>, openTag: string): string {
    if namespaces == [] then ""
    else
      (if Contains(openTag, namespaces[0].0) then "" else namespaces[0].1)
      + MissingNamespaces(namespaces[1..], openTag)
  }

  /** What has been written, and how far the input has been read. */
  datatype Progress = Progress(out: string, curr: nat)

  function AfterHtmlTag(cfg: Config, html: string): (p: Progress)
    ensures p.curr <= |html|
  {
    var at := FindTag(html, "<html", "<HTML");
    if at == -1 || TagEnd(html, at) == -1 then Progress("", 0)
    else
      var end := TagEnd(html, at);
      Progress(
        html[..end - 1] + MissingNamespaces(cfg.namespaces, html[..end])
        + (if Contains(html[..end], "lang=") then "" else cfg.lang) + ">",
        end)
  }

  function AfterHead(cfg: Config, html: string, p: Progress): (r: Option<Progress>)
    requires p.curr <= |html|
    ensures r.Some? ==> r.value.curr <= |html|
  {
    var at := FindTag(html, "<head", "<HEAD");
    if at != -1 then
      var end := TagEnd(html, at);
      if end == -1 then Some(p)
      else if p.curr > end then None
      else Some(Progress(p.out + html[p.curr..end] + cfg.headTags, end))
    else if FindTag(html, "<html", "<HTML") != -1 then
      Some(Progress(p.out + "\n<head>" + cfg.headTags + "</head>", p.curr))
    else Some(p)
  }

  function AfterBody(cfg: Config, html: string, p: Progress): (r: Progress)
    requires p.curr <= |html|
    ensures r.curr <= |html| && p.out <= r.out
  {
    var at := FindTag(html, "<body", "<BODY");
    if at == -1 || at < p.curr || TagEnd(html, at) == -1 then p
    else
      var end := TagEnd(html, at);
      var wrapped := p.out + html[p.curr..end] + cfg.container;
      var inner := Inner(cfg, html[end..]);
      Progress(wrapped + inner.out, end + inner.curr)
  }

  /** The body's content, if the body is closed. */
  function Inner(cfg: Config, rest: string): (r: Progress)
    ensures r.curr <= |rest|
  {
    var close := FindTag(rest, "</body>", "</BODY>");
    if close == -1 then Progress("", 0)
    else Progress(Normalize(cfg.attributes, rest[..close]) + cfg.closeContainer, close)
  }

  function ToOutlookHTML(cfg: Config, html: string): Outcome {
    if html == "" || AlreadyConverted(html) then Done(html)
    else if FindTag(html, "<html", "<HTML") == -1 && FindTag(html, "<head", "<HEAD") == -1 then
      Done(FixEmptyTds(cfg.fragmentOpen + cfg.headTags + cfg.holder + cfg.container
                       + Normalize(cfg.attributes, html) + cfg.fragmentClose))
    else
      match AfterHead(cfg, html, AfterHtmlTag(cfg, html))
      case None => Panics
      case Some(p) =>
        var q := AfterBody(cfg, html, p);
        Done(FixEmptyTds(q.out + Normalize(cfg.attributes, html[q.curr..])))
  }

  method Convert(cfg: Config, html: string) returns (r: Outcome)
    ensures r == ToOutlookHTML(cfg, html)
  {
    if |html| == 0 || AlreadyConverted(html) {
      return Done(html);
    }
    var buf := new Buffer();
    var htmlIdx := FindTag(html, "<html", "<HTML");
    var headIdx := FindTag(html, "<head", "<HEAD");
    if htmlIdx == -1 && headIdx == -1 {
      buf.Append(cfg.fragmentOpen);
      buf.Append(cfg.headTags);
      buf.Append(cfg.holder);
      buf.Append(cfg.container);
      AppendNormalized(cfg.attributes, buf, html);
      buf.Append(cfg.fragmentClose);
      assert "" + cfg.fragmentOpen == cfg.fragmentOpen;
      assert buf.bytes == cfg.fragmentOpen + cfg.headTags + cfg.holder + cfg.container
                          + Normalize(cfg.attributes, html) + cfg.fragmentClose;
      return Done(FixEmptyTds(buf.bytes));
    }
    var curr := OpenHtml(cfg, buf, html, htmlIdx);
    var ok;
    curr, ok := FillHead(cfg, buf, html, curr, htmlIdx, headIdx);
    if !ok {
      return Panics;
    }
    curr := WrapBody(cfg, buf, html, curr);
    AppendNormalized(cfg.attributes, buf, html[curr..]);
    r := Done(FixEmptyTds(buf.bytes));
  }

  /** The document up to the end of its html tag, with the tag's attributes completed. */
  method CompleteTag(cfg: Config, buf: Buffer, html: string, htmlEnd: nat)
    requires 0 < htmlEnd <= |html| && buf.bytes == ""
    modifies buf
    ensures buf.bytes == html[..htmlEnd - 1] + MissingNamespaces(cfg.namespaces, html[..htmlEnd])
                         + (if Contains(html[..htmlEnd], "lang=") then "" else cfg.lang) + ">"
  {
    var openTag := html[..htmlEnd];
    buf.Append(html[..htmlEnd - 1]);
    AppendMissingNamespaces(cfg.namespaces, buf, openTag);
    assert buf.bytes + "" == buf.bytes;
    if !Contains(openTag, "lang=") {
      buf.Append(cfg.lang);
    }
    buf.Append(">");
  }

  /** Copies up to the end of the html tag, completing its attributes. */
  method OpenHtml(cfg: Config, buf: Buffer, html: string, htmlIdx: int) returns (curr: nat)
    requires htmlIdx == FindTag(html, "<html", "<HTML") && buf.bytes == ""
    modifies buf
    ensures Progress(buf.bytes, curr) == AfterHtmlTag(cfg, html)
  {
    curr := 0;
    if htmlIdx != -1 {
      var htmlEnd := TagEnd(html, htmlIdx);
      if htmlEnd != -1 {
        CompleteTag(cfg, buf, html, htmlEnd);
        curr := htmlEnd;
      }
    }
  }

  /** Puts the head block into the head, or a head of its own after the html tag. */
  method FillHead(cfg: Config, buf: Buffer, html: string, from: nat, htmlIdx: int, headIdx: int)
    returns (curr: nat, ok: bool)
    requires htmlIdx == FindTag(html, "<html", "<HTML") && headIdx == FindTag(html, "<head", "<HEAD")
    requires from <= |html|
    modifies buf
    ensures (if ok then Some(Progress(buf.bytes, curr)) else None)
         == AfterHead(cfg, html, Progress(old(buf.bytes), from))
  {
    curr, ok := from, true;
    if headIdx != -1 {
      var headEnd := TagEnd(html, headIdx);
      if headEnd != -1 {
        if curr > headEnd {
          ok := false;
          return;
        }
        buf.Append(html[curr..headEnd]);
        buf.Append(cfg.headTags);
        curr := headEnd;
      }
    } else if htmlIdx != -1 {
      buf.Append("\n<head>");
      buf.Append(cfg.headTags);
      buf.Append("</head>");
    }
  }

  method AppendMissingNamespaces(namespaces: seq<(string, string)>, buf: Buffer, openTag: string)
    modifies buf
    ensures buf.bytes == old(buf.bytes) + MissingNamespaces(namespaces, openTag)
  {
    ghost var before, all := buf.bytes, MissingNamespaces(namespaces, openTag);
    for i := 0 to |namespaces|
      invariant buf.bytes + MissingNamespaces(namespaces[i..], openTag) == before + all
    {
      assert namespaces[i..][1..] == namespaces[i + 1..];
      if !Contains(openTag, namespaces[i].0) {
        buf.Append(namespaces[i].1);
      }
    }
    assert buf.bytes + "" == buf.bytes;
  }

  /** Wraps the body's content in the container table. */
  method WrapBody(cfg: Config, buf: Buffer, html: string, from: nat) returns (curr: nat)
    requires from <= |html|
    modifies buf
    ensures Progress(buf.bytes, curr) == AfterBody(cfg, html, Progress(old(buf.bytes), from))
  {
    curr := from;
    var bodyIdx := FindTag(html, "<body", "<BODY");
    if bodyIdx != -1 && bodyIdx >= curr {
      var bodyEnd := TagEnd(html, bodyIdx);
      if bodyEnd != -1 {
        buf.Append(html[curr..bodyEnd]);
        buf.Append(cfg.container);
        var taken := CloseBody(cfg, buf, html[bodyEnd..]);
        curr := bodyEnd + taken;
      }
    }
  }

  method CloseBody(cfg: Config, buf: Buffer, rest: string) returns (taken: nat)
    modifies buf
    ensures taken == Inner(cfg, rest).curr && buf.bytes == old(buf.bytes) + Inner(cfg, rest).out
  {
    taken := 0;
    var close := FindTag(rest, "</body>", "</BODY>");
    if close != -1 {
      AppendNormalized(cfg.attributes, buf, rest[..close]);
      buf.Append(cfg.closeContainer);
      taken := close;
    }
  }

  // ---- the sentinel survives ----

  predicate SentinelAt(s: string, k: nat) {
    k + 21 <= |s| && s[k..k + 21] == SENTINEL
  }

  /** All that matters of the sentinel: one `<` at its start, one `>` at its end, and it opens no cell. */
  lemma SentinelShape(s: string, k: nat)
    requires SentinelAt(s, k)
    ensures s[k] == '<' && s[k + 1] == '!' && s[k + 20] == '>'
    ensures forall i :: k < i < k + 20 ==> s[i] != '<' && s[i] != '>'
  {
    assert |SENTINEL| == 21;
    var w := s[k..k + 21];
    assert w[0] == '<' && w[1] == '!' && w[20] == '>';
    assert forall i :: 0 < i < 20 ==> w[i] != '<' && w[i] != '>';
    assert forall i :: k <= i < k + 21 ==> s[i] == w[i - k];
  }

  /** Where no empty cell starts, a byte is copied. */
  lemma Copies(s: string, t: string)
    requires s != "" && EmptyCell(s).None? && t == s[1..]
    ensures FixEmptyTds(s) == [s[0]] + FixEmptyTds(t)
  {
  }

  /** What is written for an empty cell. */
  lemma Fills(s: string, c: Cell, head: string, t: string)
    requires EmptyCell(s) == Some(c) && head == "<td" + s[3..c.gt] + ">" && t == s[c.close + 5..]
    ensures FixEmptyTds(s) == head + FILLED + FixEmptyTds(t)
  {
  }

  lemma Prepended(h: string, t: string, y: string)
    requires h != "" && t == h[1..]
    ensures [h[0]] + (t + y) == h + y
  {
  }

  /** Text is copied. */
  lemma {:induction false} CopiesText(s: string, text: string, rest: string)
    requires s == text + rest && Free(text, '<')
    ensures FixEmptyTds(s) == text + FixEmptyTds(rest)
    decreases |text|
  {
    if text == "" {
      assert s == rest;
    } else {
      var t := text[1..];
      assert s[0] == text[0] && s[1..] == t + rest;
      Copies(s, t + rest);
      CopiesText(t + rest, t, rest);
      Prepended(text, t, FixEmptyTds(rest));
    }
  }

  lemma Shifted(before: string, s: string, at: nat, whole: string)
    requires SentinelAt(s, at) && whole == before + s
    ensures SentinelAt(whole, |before| + at)
  {
    assert whole[|before| + at..|before| + at + 21] == s[at..at + 21];
  }

  lemma Unshifted(s: string, n: nat, k: nat, rest: string)
    requires SentinelAt(s, k) && n <= k && rest == s[n..]
    ensures SentinelAt(rest, k - n)
  {
    assert rest[k - n..k - n + 21] == s[k..k + 21];
  }

  lemma {:induction false} SentinelSurvives(s: string, k: nat) returns (at: nat)
    requires SentinelAt(s, k)
    ensures SentinelAt(FixEmptyTds(s), at)
    decreases |s|
  {
    SentinelShape(s, k);
    if k == 0 {
      at := 0;
      CopiesSentinel(s, s[1..]);
    } else {
      match EmptyCell(s)
      case None =>
        Unshifted(s, 1, k, s[1..]);
        at := SentinelSurvives(s[1..], k - 1);
        Shifted([s[0]], FixEmptyTds(s[1..]), at, FixEmptyTds(s));
        at := at + 1;
      case Some(c) =>
        if c.close + 5 <= k {
          Unshifted(s, c.close + 5, k, s[c.close + 5..]);
          at := SentinelSurvives(s[c.close + 5..], k - (c.close + 5));
          at := SentinelPastCell(s, c, s[c.close + 5..], at);
        } else {
          at := k;
          SentinelInCell(s, k, c, "<td" + s[3..c.gt] + ">", FixEmptyTds(s[c.close + 5..]));
        }
    }
  }

  lemma CopiesSentinel(s: string, tail: string)
    requires SentinelAt(s, 0) && tail == s[1..]
    ensures SentinelAt(FixEmptyTds(s), 0)
  {
    SentinelShape(s, 0);
    CopiesText(tail, tail[..20], tail[20..]);
    var out := FixEmptyTds(s);
    assert out == [s[0]] + (tail[..20] + FixEmptyTds(tail[20..]));
    assert out[0..21] == s[0..21];
  }

  lemma SentinelPastCell(s: string, c: Cell, rest: string, k: nat) returns (at: nat)
    requires EmptyCell(s) == Some(c) && rest == s[c.close + 5..] && SentinelAt(FixEmptyTds(rest), k)
    ensures SentinelAt(FixEmptyTds(s), at)
  {
    var before := ("<td" + s[3..c.gt] + ">") + "&nbsp;</td>";
    Shifted(before, FixEmptyTds(rest), k, FixEmptyTds(s));
    at := |before| + k;
  }

  lemma SentinelInCell(s: string, k: nat, c: Cell, head: string, fixed: string)
    requires SentinelAt(s, k) && EmptyCell(s) == Some(c) && 0 < k < c.close + 5
    requires head == "<td" + s[3..c.gt] + ">"
    ensures SentinelAt(head + "&nbsp;</td>" + fixed, k)
  {
    InsideCellTag(s, k, c, head);
    Extended(head, k, "&nbsp;</td>", head + "&nbsp;</td>");
    Extended(head + "&nbsp;</td>", k, fixed, head + "&nbsp;</td>" + fixed);
  }

  lemma Extended(s: string, k: nat, after: string, whole: string)
    requires SentinelAt(s, k) && whole == s + after
    ensures SentinelAt(whole, k)
  {
    assert whole[k..k + 21] == s[k..k + 21];
  }

  /** A sentinel that overlaps an empty cell lies within the cell's opening tag, which is kept. */
  lemma InsideCellTag(s: string, k: nat, c: Cell, head: string)
    requires SentinelAt(s, k) && EmptyCell(s) == Some(c) && 0 < k < c.close + 5
    requires head == "<td" + s[3..c.gt] + ">"
    ensures k + 21 <= |head| && head[k..k + 21] == SENTINEL
  {
    SentinelShape(s, k);
    assert forall i :: c.gt < i < c.close ==> IsSpace(s[i]);
    assert 3 <= k < c.gt;
    assert !IsAt(s, '>', k + 20) || k + 20 >= c.gt;
    assert IsAt(s, '>', c.gt);
    assert k + 20 == c.gt;
    SameEnd(s, k, c.gt, "<td", head);
  }

  lemma SameEnd(s: string, k: nat, gt: nat, name: string, head: string)
    requires |name| == 3 <= k && k + 20 == gt < |s| && s[gt] == '>' && head == name + s[3..gt] + ">"
    ensures |head| == gt + 1 && head[k..k + 21] == s[k..k + 21]
  {
    assert head == name + s[3..gt + 1];
  }

  lemma SentinelIsContained(s: string)
    ensures AlreadyConverted(s) <==> exists k: nat :: SentinelAt(s, k)
  {
    assert |SENTINEL| == 21;
    if exists k: nat :: SentinelAt(s, k) {
      var k: nat :| SentinelAt(s, k);
      assert At(s, SENTINEL, k);
    }
    if AlreadyConverted(s) {
      assert SentinelAt(s, Index(s, SENTINEL));
    }
  }

  /** Rewriting empty cells never unmarks a document. */
  lemma FixKeepsSentinel(s: string)
    requires AlreadyConverted(s)
    ensures AlreadyConverted(FixEmptyTds(s))
  {
    SentinelIsContained(s);
    var k: nat :| SentinelAt(s, k);
    var at := SentinelSurvives(s, k);
    SentinelIsContained(FixEmptyTds(s));
  }

  lemma Surrounded(before: string, s: string, after: string, whole: string)
    requires AlreadyConverted(s) && whole == before + s + after
    ensures AlreadyConverted(whole)
  {
    SentinelIsContained(s);
    var k: nat :| SentinelAt(s, k);
    assert whole[|before| + k..|before| + k + 21] == s[k..k + 21];
    assert SentinelAt(whole, |before| + k);
    SentinelIsContained(whole);
  }

  // ---- the results ----

  /** A fragment, or a document whose head, if any, is closed and does not come before the end of its html tag. */
  predicate Convertible(html: string) {
    var at := FindTag(html, "<html", "<HTML");
    var head := FindTag(html, "<head", "<HEAD");
    head == -1
    || (TagEnd(html, head) != -1 && (at == -1 || TagEnd(html, at) <= TagEnd(html, head)))
  }

  lemma FragmentIsMarked(cfg: Config, body: string)
    requires Contains(cfg.headTags, SENTINEL)
    ensures AlreadyConverted(FixEmptyTds(cfg.fragmentOpen + cfg.headTags + cfg.holder + cfg.container
                                         + body + cfg.fragmentClose))
  {
    var whole := cfg.fragmentOpen + cfg.headTags + cfg.holder + cfg.container + body + cfg.fragmentClose;
    Surrounded(cfg.fragmentOpen, cfg.headTags, cfg.holder + cfg.container + body + cfg.fragmentClose, whole);
    FixKeepsSentinel(whole);
  }

  lemma PrefixMarks(marked: string, out: string, extra: string, tail: string)
    requires AlreadyConverted(marked) && out == marked + extra
    ensures AlreadyConverted(FixEmptyTds(out + tail))
  {
    Surrounded("", marked, extra + tail, out + tail);
    FixKeepsSentinel(out + tail);
  }

  /** Every convertible document comes out marked. */
  lemma ConvertedIsMarked(cfg: Config, html: string)
    requires Contains(cfg.headTags, SENTINEL) && html != "" && Convertible(html)
    ensures ToOutlookHTML(cfg, html).Done? && AlreadyConverted(ToOutlookHTML(cfg, html).html)
  {
    if !AlreadyConverted(html) {
      if FindTag(html, "<html", "<HTML") == -1 && FindTag(html, "<head", "<HEAD") == -1 {
        FragmentIsMarked(cfg, Normalize(cfg.attributes, html));
      } else {
        HeadIsMarked(cfg, html);
        RestIsMarked(cfg, html, AfterHead(cfg, html, AfterHtmlTag(cfg, html)).value);
      }
    }
  }

  lemma RestIsMarked(cfg: Config, html: string, p: Progress)
    requires p.curr <= |html| && AlreadyConverted(p.out)
    ensures
      var q := AfterBody(cfg, html, p);
      AlreadyConverted(FixEmptyTds(q.out + Normalize(cfg.attributes, html[q.curr..])))
  {
    var q := AfterBody(cfg, html, p);
    PrefixMarks(p.out, q.out, q.out[|p.out|..], Normalize(cfg.attributes, html[q.curr..]));
  }

  lemma HeadIsMarked(cfg: Config, html: string)
    requires Contains(cfg.headTags, SENTINEL) && Convertible(html)
    requires FindTag(html, "<html", "<HTML") != -1 || FindTag(html, "<head", "<HEAD") != -1
    ensures AfterHead(cfg, html, AfterHtmlTag(cfg, html)).Some?
    ensures AlreadyConverted(AfterHead(cfg, html, AfterHtmlTag(cfg, html)).value.out)
  {
    var p := AfterHtmlTag(cfg, html);
    var at := FindTag(html, "<head", "<HEAD");
    if at != -1 {
      var before := p.out + html[p.curr..TagEnd(html, at)];
      Surrounded(before, cfg.headTags, "", before + cfg.headTags);
    } else {
      Surrounded(p.out + "\n<head>", cfg.headTags, "</head>", p.out + "\n<head>" + cfg.headTags + "</head>");
    }
  }

  /** Converting what was converted changes nothing. */
  lemma ConversionIsIdempotent(cfg: Config, html: string)
    requires Contains(cfg.headTags, SENTINEL) && Convertible(html)
    ensures var once := ToOutlookHTML(cfg, html);
            once.Done? && ToOutlookHTML(cfg, once.html) == once
  {
    if html != "" {
      ConvertedIsMarked(cfg, html);
    }
  }

  /** The conversion fails exactly on an unconverted document whose head tag ends before its html tag does. */
  lemma PanicsIff(cfg: Config, html: string)
    ensures ToOutlookHTML(cfg, html).Panics? <==>
      && html != "" && !AlreadyConverted(html)
      && FindTag(html, "<html", "<HTML") != -1 && FindTag(html, "<head", "<HEAD") != -1
      && TagEnd(html, FindTag(html, "<head", "<HEAD")) != -1
      && TagEnd(html, FindTag(html, "<html", "<HTML")) > TagEnd(html, FindTag(html, "<head", "<HEAD"))
  {
  }
}
