/** Documents whose head tag is never closed: they stay unmarked, and each pass wraps their body again. */
module OutlookUnclosed {
  import opened Prelude
  import opened Text
  import opened Normalizer
  import opened OutlookDocument
  import opened OutlookMarks
  import opened OutlookPlaces
  import opened OutlookSentinel
  import opened OutlookHalves

  // ---- what the proofs need of the literals ----

  /** Goes into a tag before its `>`. */
  ghost predicate Insertable(x: string) {
    x != "" && x[0] == ' ' && x[|x| - 1] != '-' && Markless(x)
  }

  predicate Dull(m: seq<Mark>) {
    forall i :: 0 <= i < |m| ==> m[i] == Close || m[i] == Open(Other)
  }

  /** Tags around a body, none of them html, head, body or a comment. */
  ghost predicate Shell(x: string) {
    x != "" && x[0] == '<' && x[|x| - 1] == '>' && Free(x, '!') && Dull(Marks(x))
  }

  /** A declaration that is looked for by a word it holds. */
  ghost predicate Declares(word: string, decl: string) {
    Insertable(decl) && Sticky(word) && Contains(decl, word)
  }

  ghost predicate Clean(cfg: Config) {
    && (forall i :: 0 <= i < |cfg.namespaces| ==> Declares(cfg.namespaces[i].0, cfg.namespaces[i].1))
    && Declares("lang=", cfg.lang) && Shell(cfg.container) && Shell(cfg.closeContainer) && Quiet(cfg.attributes)
  }

  // ---- the front: the html tag, completed ----

  /** What is added to the html tag. */
  function Extra(cfg: Config, openTag: string): string {
    MissingNamespaces(cfg.namespaces, openTag) + (if Contains(openTag, "lang=") then "" else cfg.lang)
  }

  lemma InsertableConcat(x: string, y: string)
    requires (x == "" || Insertable(x)) && (y == "" || Insertable(y))
    ensures x + y == "" || Insertable(x + y)
  {
  }

  lemma {:induction false} MissingIsInsertable(namespaces: seq<(string, string)>, openTag: string)
    requires forall i :: 0 <= i < |namespaces| ==> Declares(namespaces[i].0, namespaces[i].1)
    ensures MissingNamespaces(namespaces, openTag) == "" || Insertable(MissingNamespaces(namespaces, openTag))
    decreases |namespaces|
  {
    if namespaces != [] {
      var rest := namespaces[1..];
      assert Declares(namespaces[0].0, namespaces[0].1);
      assert forall i :: 0 <= i < |rest| ==> rest[i] == namespaces[i + 1];
      MissingIsInsertable(rest, openTag);
      var first := if Contains(openTag, namespaces[0].0) then "" else namespaces[0].1;
      InsertableConcat(first, MissingNamespaces(rest, openTag));
    }
  }

  lemma ExtraIsInsertable(cfg: Config, openTag: string)
    requires Clean(cfg)
    ensures Extra(cfg, openTag) == "" || Insertable(Extra(cfg, openTag))
  {
    MissingIsInsertable(cfg.namespaces, openTag);
    InsertableConcat(MissingNamespaces(cfg.namespaces, openTag), if Contains(openTag, "lang=") then "" else cfg.lang);
  }

  /** What is written for the text up to the end of the html tag. */
  ghost predicate Front(cfg: Config, read: string, out: string) {
    if read == "" then out == ""
    else read[|read| - 1] == '>' && out == read[..|read| - 1] + Extra(cfg, read) + ">"
  }

  lemma FrontIs(cfg: Config, html: string) returns (out: string)
    ensures AfterHtmlTag(cfg, html) == Progress(out, Start(html))
    ensures Front(cfg, html[..Start(html)], out)
  {
    var curr := Start(html);
    out := AfterHtmlTag(cfg, html).out;
    StartIs(html);
    if curr > 0 {
      CompletedFront(cfg, html, curr, html[..curr], out);
    }
  }

  lemma CompletedFront(cfg: Config, html: string, curr: nat, read: string, out: string)
    requires 0 < curr <= |html| && html[curr - 1] == '>' && read == html[..curr]
    requires out == html[..curr - 1] + MissingNamespaces(cfg.namespaces, read)
                    + (if Contains(read, "lang=") then "" else cfg.lang) + ">"
    ensures Front(cfg, read, out)
  {
    assert read[..|read| - 1] == html[..curr - 1];
    var missing, lang := MissingNamespaces(cfg.namespaces, read), if Contains(read, "lang=") then "" else cfg.lang;
    assert html[..curr - 1] + missing + lang == html[..curr - 1] + (missing + lang);
  }

  lemma FrontParts(cfg: Config, read: string, out: string) returns (before: string)
    requires Front(cfg, read, out) && read != ""
    ensures read == before + ">" && out == before + Extra(cfg, read) + ">" && out[|out| - 1] == '>'
  {
    before := read[..|read| - 1];
  }

  /** The completed tag has the marks of the tag, and is no sentinel. */
  lemma FrontKeeps(cfg: Config, read: string, out: string)
    requires Clean(cfg) && Front(cfg, read, out)
    ensures EndsWell(out) && (read != "" ==> out != "") && Marks(out) == Marks(read)
    ensures !AlreadyConverted(read) ==> !AlreadyConverted(out)
  {
    if read != "" {
      var before := FrontParts(cfg, read, out);
      CompletedKeeps(cfg, read, before);
    }
  }

  lemma CompletedKeeps(cfg: Config, read: string, before: string)
    requires Clean(cfg) && read == before + ">"
    ensures Marks(before + Extra(cfg, read) + ">") == Marks(read)
    ensures !AlreadyConverted(read) ==> !AlreadyConverted(before + Extra(cfg, read) + ">")
  {
    ExtraIsInsertable(cfg, read);
    TagKeeps(read, before, Extra(cfg, read));
  }

  lemma TagKeeps(read: string, before: string, x: string)
    requires read == before + ">" && (x == "" || Insertable(x))
    ensures Marks(before + x + ">") == Marks(read)
    ensures !AlreadyConverted(read) ==> !AlreadyConverted(before + x + ">")
  {
    CompletedTag(before, x);
    if !AlreadyConverted(read) {
      UnmarkedTo(read, |before|);
      assert read[..|before|] == before;
      UnmarkedTag(before, x);
    }
  }

  lemma CompletedTag(before: string, x: string)
    requires x == "" || Insertable(x)
    ensures Marks(before + x + ">") == Marks(before + ">")
  {
    if x == "" {
      assert before + x == before;
    } else {
      MarksInserted(before, x, ">");
    }
  }

  lemma UnmarkedTag(before: string, x: string)
    requires x == "" || Insertable(x)
    requires !AlreadyConverted(before) && !AlreadyConverted(before + ">")
    ensures !AlreadyConverted(before + x + ">")
  {
    if x == "" {
      assert before + x == before;
    } else {
      UnmarkedInsert(before, x, ">");
    }
  }

  // ---- the body ----

  /** Past the body tag. */
  function BodyEnd(html: string): (end: nat)
    requires Wraps(html)
    ensures Start(html) < end <= |html| && html[end - 1] == '>'
  {
    TagEnd(html, FindTag(html, "<body", "<BODY"))
  }

  /** The document before empty cells are filled. */
  function Converted(cfg: Config, html: string): string {
    var q := AfterBody(cfg, html, AfterHtmlTag(cfg, html));
    q.out + Normalize(cfg.attributes, html[q.curr..])
  }

  lemma UnclosedConversion(cfg: Config, html: string)
    requires Unclosed(html) && !AlreadyConverted(html)
    ensures ToOutlookHTML(cfg, html) == Done(FixEmptyTds(Converted(cfg, html)))
  {
    assert html != "" by {
      FindIs(html, HeadLower, HeadUpper);
    }
    var p := AfterHtmlTag(cfg, html);
    assert AfterHead(cfg, html, p) == Some(p);
  }

  /** A body's content between the container's tags, and what follows it. */
  function Around(cfg: Config, inner: string, last: string): string {
    cfg.container + (inner + last)
  }

  lemma WholeIs(cfg: Config, html: string, out: string)
    requires !Wraps(html) && AfterHtmlTag(cfg, html) == Progress(out, Start(html))
    ensures Converted(cfg, html) == out + Normalize(cfg.attributes, html[Start(html)..])
  {
  }

  lemma WrappedIs(cfg: Config, html: string, out: string) returns (inner: Progress, last: string)
    requires Wraps(html) && AfterHtmlTag(cfg, html) == Progress(out, Start(html))
    ensures inner == Inner(cfg, html[BodyEnd(html)..]) && last == html[BodyEnd(html)..][inner.curr..]
    ensures Converted(cfg, html)
         == out + html[Start(html)..BodyEnd(html)] + Around(cfg, inner.out, Normalize(cfg.attributes, last))
  {
    var p, rest := Progress(out, Start(html)), html[BodyEnd(html)..];
    inner := Inner(cfg, rest);
    AfterBodyIs(cfg, html, p, rest, inner);
    last := html[BodyEnd(html) + inner.curr..];
    Tail(html, BodyEnd(html), inner.curr, rest);
    Regrouped(out + html[Start(html)..BodyEnd(html)], cfg.container, inner.out, Normalize(cfg.attributes, last));
  }

  lemma Tail(html: string, end: nat, n: nat, rest: string)
    requires end <= |html| && rest == html[end..] && n <= |rest|
    ensures html[end + n..] == rest[n..]
  {
  }

  lemma Regrouped(a: string, b: string, c: string, d: string)
    ensures a + b + c + d == a + (b + (c + d))
  {
  }

  lemma AfterBodyIs(cfg: Config, html: string, p: Progress, rest: string, inner: Progress)
    requires Wraps(html) && p.curr == Start(html) && rest == html[BodyEnd(html)..] && inner == Inner(cfg, rest)
    ensures AfterBody(cfg, html, p)
         == Progress(p.out + html[p.curr..BodyEnd(html)] + cfg.container + inner.out, BodyEnd(html) + inner.curr)
  {
    var body := FindTag(html, "<body", "<BODY");
    assert TagEnd(html, body) == BodyEnd(html);
  }

  // ---- its skeleton ----

  lemma WholeMarks(cfg: Config, html: string)
    requires Clean(cfg) && !Wraps(html)
    ensures Marks(FixEmptyTds(Converted(cfg, html))) == Marks(html)
  {
    var out := FrontIs(cfg, html);
    WholeIs(cfg, html, out);
    PlainMarks(cfg, html, Start(html), out, html[Start(html)..]);
    MarksFix(Converted(cfg, html));
  }

  lemma PlainMarks(cfg: Config, html: string, curr: nat, out: string, rest: string)
    requires Clean(cfg) && curr <= |html| && Front(cfg, html[..curr], out) && rest == html[curr..]
    ensures Marks(out + Normalize(cfg.attributes, rest)) == Marks(html)
  {
    FrontKeeps(cfg, html[..curr], out);
    MarksNormalize(cfg.attributes, rest);
    MarksConcat(out, Normalize(cfg.attributes, rest));
    MarkSplit(html, curr);
  }

  /** A document whose skeleton `a + b + e` has become wider, the second time before some `>`. */
  datatype Widened = Widened(a: seq<Mark>, b: seq<Mark>, d: seq<Mark>, e: seq<Mark>)

  ghost predicate Widens(c: seq<Mark>, was: seq<Mark>, now: seq<Mark>, v: Widened) {
    && was == v.a + (v.b + v.e) && now == v.a + (c + (v.b + (v.d + v.e)))
    && Dull(v.d) && (v.d == [] || Close in v.e)
  }

  lemma WrappedMarks(cfg: Config, html: string) returns (v: Widened)
    requires Clean(cfg) && Wraps(html)
    ensures Widens(Marks(cfg.container), Marks(html), Marks(FixEmptyTds(Converted(cfg, html))), v)
    ensures v.a == Marks(html[..BodyEnd(html)])
  {
    var out := FrontIs(cfg, html);
    var inner, last := WrappedIs(cfg, html, out);
    MarksFix(Converted(cfg, html));
    v := MarksWrapped(cfg, html, out, Start(html), BodyEnd(html), inner, last);
  }

  lemma MarksWrapped(cfg: Config, html: string, out: string, curr: nat, end: nat, inner: Progress, last: string)
    returns (v: Widened)
    requires Clean(cfg) && curr < end <= |html| && html[end - 1] == '>' && Front(cfg, html[..curr], out)
    requires inner == Inner(cfg, html[end..]) && last == html[end..][inner.curr..]
    ensures Widens(Marks(cfg.container), Marks(html),
                   Marks(out + html[curr..end] + Around(cfg, inner.out, Normalize(cfg.attributes, last))), v)
    ensures v.a == Marks(html[..end])
  {
    var around := Around(cfg, inner.out, Normalize(cfg.attributes, last));
    var b, d, e := AroundMarks(cfg, html[end..], inner, last);
    v := MarksAtBody(cfg, html, out, curr, end, around, b, d, e);
  }

  lemma MarksAtBody(cfg: Config, html: string, out: string, curr: nat, end: nat, around: string,
                    b: seq<Mark>, d: seq<Mark>, e: seq<Mark>)
    returns (v: Widened)
    requires Clean(cfg) && curr < end <= |html| && html[end - 1] == '>' && Front(cfg, html[..curr], out)
    requires Marks(html[end..]) == b + e && Marks(around) == Marks(cfg.container) + (b + (d + e))
    requires Dull(d) && (d == [] || Close in e)
    ensures Widens(Marks(cfg.container), Marks(html), Marks(out + html[curr..end] + around), v)
    ensures v.a == Marks(html[..end])
  {
    v := Widened(Marks(html[..end]), b, d, e);
    FrontAndBody(cfg, html[..curr], out, html[curr..end], around, html[..end]);
    MarkSplit(html, end);
  }

  lemma FrontAndBody(cfg: Config, read: string, out: string, mid: string, around: string, both: string)
    requires Clean(cfg) && Front(cfg, read, out) && mid != "" && mid[|mid| - 1] == '>' && both == read + mid
    ensures Marks(out + mid + around) == Marks(both) + Marks(around)
  {
    FrontKeeps(cfg, read, out);
    assert (out + mid)[|out + mid| - 1] == '>';
    MarksConcat(out + mid, around);
    MarksConcat(out, mid);
    MarksConcat(read, mid);
  }

  lemma AroundMarks(cfg: Config, rest: string, inner: Progress, last: string)
    returns (b: seq<Mark>, d: seq<Mark>, e: seq<Mark>)
    requires Clean(cfg) && inner == Inner(cfg, rest) && last == rest[inner.curr..]
    ensures Marks(rest) == b + e
    ensures Marks(Around(cfg, inner.out, Normalize(cfg.attributes, last))) == Marks(cfg.container) + (b + (d + e))
    ensures Dull(d) && (d == [] || Close in e)
  {
    var close := FindTag(rest, "</body>", "</BODY>");
    var y := Normalize(cfg.attributes, last);
    MarksNormalize(cfg.attributes, last);
    if close == -1 {
      b, d, e := Marks(rest), [], [];
      OpenBodyMarks(cfg.container, rest, last, y);
    } else {
      ClosedBody(rest, close);
      b, d, e := Marks(rest[..close]), Marks(cfg.closeContainer), Marks(last);
      MarkSplit(rest, close);
      MarksNormalize(cfg.attributes, rest[..close]);
      ClosedBodyMarks(cfg.container, Normalize(cfg.attributes, rest[..close]), cfg.closeContainer, y);
    }
  }

  lemma OpenBodyMarks(c: string, rest: string, last: string, y: string)
    requires EndsWell(c) && last == rest[0..] && Marks(y) == Marks(last)
    ensures Marks(c + ("" + y)) == Marks(c) + (Marks(rest) + ([] + [])) && Marks(rest) == Marks(rest) + []
  {
    assert last == rest && "" + y == y;
    MarksConcat(c, y);
  }

  lemma ClosedBodyMarks(c: string, x: string, k: string, y: string)
    requires EndsWell(c) && k != "" && k[0] == '<' && EndsWell(k)
    ensures Marks(c + (x + k + y)) == Marks(c) + (Marks(x) + (Marks(k) + Marks(y)))
  {
    MarksAround(x, k, y);
    MarksConcat(c, x + k + y);
  }

  lemma ClosedBody(rest: string, close: nat)
    requires At(rest, "</body>", close) || At(rest, "</BODY>", close)
    ensures close < |rest| && rest[close] == '<' && Close in Marks(rest[close..])
  {
    assert rest[close..close + 7][0] == '<' && rest[close..close + 7][6] == '>';
    var t := rest[close..];
    assert t[6] == '>';
    assert IsAt(t, '>', 6);
    CloseIs(t);
  }

  lemma MarksAround(x: string, k: string, y: string)
    requires k != "" && k[0] == '<' && EndsWell(k)
    ensures Marks(x + k + y) == Marks(x) + (Marks(k) + Marks(y))
  {
    var ky := k + y;
    assert x + k + y == x + ky;
    MarksConcat(k, y);
    MarksConcat(x, ky);
  }

  // ---- a dull insertion changes none of the conditions ----

  lemma FirstInWider(a: seq<Mark>, c: seq<Mark>, b: seq<Mark>, x: Mark)
    requires x !in c
    ensures
      var r := FirstMark(a + b, x);
      FirstMark(a + c + b, x) == if r < |a| then r else r + |c|
  {
    var m, w := a + b, a + c + b;
    var r := FirstMark(m, x);
    assert forall i :: 0 <= i < |a| ==> w[i] == m[i];
    assert forall i :: |a| <= i < |a| + |c| ==> w[i] == c[i - |a|];
    assert forall i :: |a| + |c| <= i < |w| ==> w[i] == m[i - |c|];
    if r >= 0 {
      var at := if r < |a| then r else r + |c|;
      assert w[at] == x;
    } else {
      assert forall i :: 0 <= i < |w| ==> w[i] != x;
    }
  }

  lemma FindInWider(a: seq<Mark>, c: seq<Mark>, b: seq<Mark>, lower: Kind, upper: Kind)
    requires Dull(c) && Cased(lower, upper)
    ensures
      var r := FindOpen(a + b, lower, upper);
      FindOpen(a + c + b, lower, upper) == if r < |a| then r else r + |c|
  {
    FirstInWider(a, c, b, Open(lower));
    FirstInWider(a, c, b, Open(upper));
  }

  /** A mark with a `>` after it in `a` keeps that `>`; one with none after it has moved past the insertion. */
  lemma CloseInWider(a: seq<Mark>, c: seq<Mark>, b: seq<Mark>, i: nat)
    requires i < |a + b|
    ensures
      var r := CloseFrom(a + b, i);
      && (r != -1 && r <= |a| ==> CloseFrom(a + c + b, i) == r)
      && (r == -1 && i >= |a| ==> CloseFrom(a + c + b, i + |c|) == -1)
  {
    var m, w := a + b, a + c + b;
    var r := CloseFrom(m, i);
    if r != -1 && r <= |a| {
      FirstShared(m[i..], w[i..], r - i);
    }
    if i >= |a| {
      assert w[i + |c|..] == m[i..];
    }
  }

  lemma FirstShared(x: seq<Mark>, y: seq<Mark>, n: nat)
    requires n <= |x| && n <= |y| && 0 <= FirstMark(x, Close) < n
    requires forall i :: 0 <= i < n ==> x[i] == y[i]
    ensures FirstMark(y, Close) == FirstMark(x, Close)
  {
    assert y[FirstMark(x, Close)] == Close;
  }

  /** An unclosed head, and a body tag that is closed among the first `n` marks. */
  ghost predicate Rewraps(m: seq<Mark>, n: nat) {
    && UnclosedIn(m) && WrapsIn(m) && n <= |m|
    && CloseFrom(m, FindOpen(m, BodyLower, BodyUpper)) <= n
  }

  lemma InsertKeepsHead(a: seq<Mark>, c: seq<Mark>, b: seq<Mark>)
    requires Dull(c) && UnclosedIn(a + b) && |a| > 0 && Close in (a + b)[|a| - 1..]
    ensures UnclosedIn(a + c + b)
  {
    var head := FindOpen(a + b, HeadLower, HeadUpper);
    FindInWider(a, c, b, HeadLower, HeadUpper);
    NotBefore(a + b, head, |a|);
    CloseInWider(a, c, b, head);
  }

  lemma InsertKeepsStart(a: seq<Mark>, c: seq<Mark>, b: seq<Mark>)
    requires Dull(c) && StartOf(a + b) <= |a| && |a| > 0 && Close in (a + b)[|a| - 1..]
    ensures StartOf(a + c + b) == StartOf(a + b)
  {
    var html := FindOpen(a + b, HtmlLower, HtmlUpper);
    FindInWider(a, c, b, HtmlLower, HtmlUpper);
    if html != -1 {
      CloseInWider(a, c, b, html);
      if CloseFrom(a + b, html) == -1 {
        NotBefore(a + b, html, |a|);
      }
    }
  }

  lemma InsertKeeps(a: seq<Mark>, c: seq<Mark>, b: seq<Mark>)
    requires Dull(c) && Rewraps(a + b, |a|)
    requires |a| > 0 && Close in (a + b)[|a| - 1..]
    ensures Rewraps(a + c + b, |a|)
  {
    var body := FindOpen(a + b, BodyLower, BodyUpper);
    InsertKeepsHead(a, c, b);
    InsertKeepsStart(a, c, b);
    FindInWider(a, c, b, BodyLower, BodyUpper);
    CloseInWider(a, c, b, body);
  }

  /** What no `>` follows stands after the last one. */
  lemma NotBefore(m: seq<Mark>, i: nat, n: nat)
    requires i < |m| && 0 < n <= |m| && CloseFrom(m, i) == -1 && Close in m[n - 1..]
    ensures i >= n
  {
    var k :| 0 <= k < |m[n - 1..]| && m[n - 1..][k] == Close;
    assert m[n - 1 + k] == Close;
    assert forall j :: 0 <= j < |m[i..]| ==> m[i..][j] != Close && m[i + j] == m[i..][j];
    assert n - 1 + k < i;
  }

  // ---- the results ----

  lemma UnclosedStaysUnmarked(cfg: Config, html: string)
    requires Clean(cfg) && !AlreadyConverted(html)
    ensures !AlreadyConverted(FixEmptyTds(Converted(cfg, html)))
  {
    var out := FrontIs(cfg, html);
    UnmarkedTo(html, Start(html));
    FrontKeeps(cfg, html[..Start(html)], out);
    UnmarkedConverted(cfg, html, out);
    UnmarkedFix(Converted(cfg, html));
  }

  lemma UnmarkedConverted(cfg: Config, html: string, out: string)
    requires Clean(cfg) && !AlreadyConverted(html) && !AlreadyConverted(out) && EndsWell(out)
    requires AfterHtmlTag(cfg, html) == Progress(out, Start(html))
    ensures !AlreadyConverted(Converted(cfg, html))
  {
    if Wraps(html) {
      var inner, last := WrappedIs(cfg, html, out);
      UnmarkedBody(cfg, html, out, Start(html), BodyEnd(html), inner, last);
    } else {
      WholeIs(cfg, html, out);
      UnmarkedWhole(cfg, html, out, html[Start(html)..], Start(html));
    }
  }

  lemma UnmarkedWhole(cfg: Config, html: string, out: string, rest: string, curr: nat)
    requires Clean(cfg) && !AlreadyConverted(html) && !AlreadyConverted(out) && EndsWell(out)
    requires curr <= |html| && rest == html[curr..]
    ensures !AlreadyConverted(out + Normalize(cfg.attributes, rest))
  {
    UnmarkedFrom(html, curr);
    UnmarkedNormalize(cfg.attributes, rest);
    UnmarkedConcat(out, Normalize(cfg.attributes, rest));
  }

  lemma UnmarkedBody(cfg: Config, html: string, out: string, curr: nat, end: nat, inner: Progress, last: string)
    requires Clean(cfg) && !AlreadyConverted(html) && !AlreadyConverted(out) && EndsWell(out)
    requires curr < end <= |html| && html[end - 1] == '>'
    requires inner == Inner(cfg, html[end..]) && last == html[end..][inner.curr..]
    ensures !AlreadyConverted(out + html[curr..end] + Around(cfg, inner.out, Normalize(cfg.attributes, last)))
  {
    var around := Around(cfg, inner.out, Normalize(cfg.attributes, last));
    UnmarkedSlice(html, curr, end);
    UnmarkedFrom(html, end);
    UnmarkedAround(cfg, html[end..], inner, last);
    UnmarkedConcat(out, html[curr..end]);
    UnmarkedConcat(out + html[curr..end], around);
  }

  lemma UnmarkedAround(cfg: Config, rest: string, inner: Progress, last: string)
    requires Clean(cfg) && !AlreadyConverted(rest) && inner == Inner(cfg, rest) && last == rest[inner.curr..]
    ensures !AlreadyConverted(Around(cfg, inner.out, Normalize(cfg.attributes, last)))
  {
    var close := FindTag(rest, "</body>", "</BODY>");
    var y := Normalize(cfg.attributes, last);
    UnmarkedFrom(rest, inner.curr);
    UnmarkedNormalize(cfg.attributes, last);
    UnmarkedWithoutBang(cfg.container);
    if close == -1 {
      assert "" + y == y;
      UnmarkedConcat(cfg.container, y);
    } else {
      UnmarkedTo(rest, close);
      UnmarkedNormalize(cfg.attributes, rest[..close]);
      UnmarkedShell(cfg, Normalize(cfg.attributes, rest[..close]), y);
    }
  }

  lemma UnmarkedShell(cfg: Config, x: string, y: string)
    requires Clean(cfg) && !AlreadyConverted(x) && !AlreadyConverted(y)
    ensures !AlreadyConverted(cfg.container + (x + cfg.closeContainer + y))
  {
    UnmarkedWithoutBang(cfg.container);
    UnmarkedWithoutBang(cfg.closeContainer);
    UnmarkedConcat(x, cfg.closeContainer);
    assert (x + cfg.closeContainer)[|x + cfg.closeContainer| - 1] == '>';
    UnmarkedConcat(x + cfg.closeContainer, y);
    UnmarkedConcat(cfg.container, x + cfg.closeContainer + y);
  }

  /** A pass over an unclosed document with a body leaves such a document again, with more tags in it. */
  lemma WrapsAgain(cfg: Config, html: string)
    requires Clean(cfg) && Unclosed(html) && Wraps(html)
    ensures
      var once := FixEmptyTds(Converted(cfg, html));
      Unclosed(once) && Wraps(once) && |Marks(once)| > |Marks(html)|
  {
    var once := FixEmptyTds(Converted(cfg, html));
    var v := WrappedMarks(cfg, html);
    BodyEndIs(html);
    LastOfTag(Marks(html), v.a, v.b + v.e);
    UnclosedIs(once);
    WrapsIs(once);
    WidenedKeeps(Marks(cfg.container), Marks(html), Marks(once), v);
  }

  lemma BodyEndIs(html: string)
    requires Unclosed(html) && Wraps(html)
    ensures Rewraps(Marks(html), |Marks(html[..BodyEnd(html)])|)
    ensures CloseFrom(Marks(html), FindOpen(Marks(html), BodyLower, BodyUpper)) == |Marks(html[..BodyEnd(html)])|
  {
    UnclosedIs(html);
    WrapsIs(html);
    FindIs(html, BodyLower, BodyUpper);
    EndIs(html, FindTag(html, "<body", "<BODY"));
  }

  lemma WidenedKeeps(c: seq<Mark>, was: seq<Mark>, now: seq<Mark>, v: Widened)
    requires Widens(c, was, now, v) && Dull(c) && c != [] && Rewraps(was, |v.a|)
    requires |v.a| > 0 && Close in was[|v.a| - 1..]
    ensures Rewraps(now, |v.a + c + v.b|) && |now| > |was|
  {
    var wide := v.a + c + v.b;
    Regroup(c, was, now, v);
    InsertKeeps(v.a, c, v.b + v.e);
    Rewider(wide + v.e, |v.a|, |wide|);
    if v.d != [] {
      StillCloses(wide, v.e);
      InsertKeeps(wide, v.d, v.e);
    }
  }

  lemma Regroup(c: seq<Mark>, was: seq<Mark>, now: seq<Mark>, v: Widened)
    requires Widens(c, was, now, v)
    ensures v.a + c + (v.b + v.e) == v.a + c + v.b + v.e
    ensures now == v.a + c + v.b + v.d + v.e
    ensures v.d == [] ==> v.a + c + v.b + v.d == v.a + c + v.b
  {
  }

  lemma StillCloses(a: seq<Mark>, b: seq<Mark>)
    requires a != [] && Close in b
    ensures Close in (a + b)[|a| - 1..]
  {
    var k :| 0 <= k < |b| && b[k] == Close;
    assert (a + b)[|a| - 1..][k + 1] == Close;
  }

  lemma Rewider(m: seq<Mark>, i: nat, j: nat)
    requires Rewraps(m, i) && i <= j <= |m|
    ensures Rewraps(m, j)
  {
  }

  lemma LastOfTag(m: seq<Mark>, a: seq<Mark>, rest: seq<Mark>)
    requires m == a + rest && FindOpen(m, BodyLower, BodyUpper) >= 0
    requires CloseFrom(m, FindOpen(m, BodyLower, BodyUpper)) == |a|
    ensures |a| > 0 && Close in m[|a| - 1..]
  {
    var body := FindOpen(m, BodyLower, BodyUpper);
    var r := FirstMark(m[body..], Close);
    assert m[body..][r] == Close && body + r + 1 == |a|;
    assert m[|a| - 1..][0] == Close;
  }
}
