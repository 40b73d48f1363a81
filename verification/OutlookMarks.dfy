/**
 * The skeleton of a document: its `<` and `>` in order, each `<` with the tag
 * it opens as far as the conversion cares. Every rewrite keeps the skeleton, and
 * where the tags stand can be read off it.
 */
module OutlookMarks {
  import opened Prelude
  import opened Text
  import opened Normalizer
  import opened OutlookDocument

  datatype Kind = HtmlLower | HtmlUpper | HeadLower | HeadUpper | BodyLower | BodyUpper | Other

  datatype Mark = Open(kind: Kind) | Close

  predicate Named(t: string, a: char, b: char, c: char, d: char) {
    |t| >= 5 && t[1] == a && t[2] == b && t[3] == c && t[4] == d
  }

  /** What a `<` opens. */
  function KindAt(t: string): Kind {
    if Named(t, 'h', 't', 'm', 'l') then HtmlLower
    else if Named(t, 'H', 'T', 'M', 'L') then HtmlUpper
    else if Named(t, 'h', 'e', 'a', 'd') then HeadLower
    else if Named(t, 'H', 'E', 'A', 'D') then HeadUpper
    else if Named(t, 'b', 'o', 'd', 'y') then BodyLower
    else if Named(t, 'B', 'O', 'D', 'Y') then BodyUpper
    else Other
  }

  function Pattern(k: Kind): string {
    match k
    case HtmlLower => "<html"
    case HtmlUpper => "<HTML"
    case HeadLower => "<head"
    case HeadUpper => "<HEAD"
    case BodyLower => "<body"
    case BodyUpper => "<BODY"
    case Other => "<"
  }

  function Marks(s: string): seq<Mark>
    decreases |s|
  {
    if s == "" then []
    else if s[0] == '<' then [Open(KindAt(s))] + Marks(s[1..])
    else if s[0] == '>' then [Close] + Marks(s[1..])
    else Marks(s[1..])
  }

  predicate IsLetter(c: char) {
    'a' <= c <= 'z' || 'A' <= c <= 'Z'
  }

  /** No tag name runs across the place where `b` follows `a`. */
  predicate Joint(a: string, b: string) {
    a == "" || b == "" || a[|a| - 1] == '>' || !IsLetter(b[0])
  }

  predicate EndsWell(s: string) {
    s == "" || s[|s| - 1] == '>'
  }

  lemma KindInFront(a: string, b: string)
    requires a != "" && a[0] == '<' && Joint(a, b)
    ensures KindAt(a + b) == KindAt(a)
  {
    if |a| < 5 && b != "" {
      assert (a + b)[|a|] == b[0] && (a + b)[|a| - 1] == a[|a| - 1];
    }
  }

  lemma {:induction false} MarksConcat(a: string, b: string)
    requires Joint(a, b)
    ensures Marks(a + b) == Marks(a) + Marks(b)
    decreases |a|
  {
    if a == "" {
      assert a + b == b;
    } else {
      if a[0] == '<' {
        KindInFront(a, b);
      }
      assert (a + b)[1..] == a[1..] + b;
      MarksConcat(a[1..], b);
    }
  }

  predicate Markless(s: string) {
    Free(s, '<') && Free(s, '>')
  }

  lemma {:induction false} NoMarks(s: string)
    requires Markless(s)
    ensures Marks(s) == []
  {
    if s != "" {
      NoMarks(s[1..]);
    }
  }

  /** Text put in before something that cannot continue a name. */
  lemma MarksInserted(a: string, x: string, b: string)
    requires Markless(x) && x != "" && !IsLetter(x[0]) && b != "" && !IsLetter(b[0])
    ensures Marks(a + x + b) == Marks(a) + Marks(b)
    ensures Marks(a + b) == Marks(a) + Marks(b)
  {
    MarksConcat(a + x, b);
    MarksConcat(a, x);
    MarksConcat(a, b);
    NoMarks(x);
  }

  // ---- the normaliser keeps the skeleton ----

  ghost predicate MarklessAttributes(a: Attributes) {
    && Markless(a.table) && a.table != "" && a.table[0] == ' '
    && Markless(a.img) && a.img != "" && a.img[0] == ' '
  }

  lemma MarksInsert(tag: string, attributes: string)
    requires |tag| >= 2 && tag[|tag| - 1] == '>'
    requires Markless(attributes) && attributes != "" && attributes[0] == ' '
    ensures Marks(Insert(tag, attributes)) == Marks(tag)
  {
    var c := Closing(tag);
    MarksInserted(tag[..c], attributes, tag[c..]);
    assert tag == tag[..c] + tag[c..];
  }

  /** A block starts with `<` and ends with `>` or with the document. */
  ghost predicate Framed(b: Block) {
    && b.taken != "" && b.taken[0] == '<' && b.out != "" && b.out[0] == '<'
    && (b.rest == "" || (b.taken[|b.taken| - 1] == '>' && b.out[|b.out| - 1] == '>'))
  }

  lemma OpenedIsFramed(a: Attributes, t: string)
    requires t != "" && t[0] == '<'
    ensures Framed(Opened(a, t))
  {
    var b := Opened(a, t);
    if b.rest != "" {
      if StartsComment(t) && Index(t, "-->") >= 0 {
        var end := Index(t, "-->");
        assert t[end..end + 3] == "-->";
        assert t[end + 2] == '>';
      } else {
        var end := IndexByte(t, '>');
        assert t[end] == '>';
      }
    }
  }

  lemma MarksOpened(a: Attributes, t: string)
    requires MarklessAttributes(a) && t != "" && t[0] == '<'
    ensures Marks(Opened(a, t).out) == Marks(Opened(a, t).taken)
  {
    if StartsComment(t) && Index(t, "-->") >= 0 {
    } else if IndexByte(t, '>') < 0 {
    } else {
      var tag := t[..IndexByte(t, '>') + 1];
      if IsTableTag(tag) && !Contains(tag, "role=") {
        MarksInsert(tag, a.table);
      } else if IsImgTag(tag) && !Contains(tag, "border=") {
        MarksInsert(tag, a.img);
      }
    }
  }

  /** All a walk needs to know of what `open` writes for `t`. */
  ghost predicate KeepsMarks(open: string -> Block, t: string) {
    t != "" && t[0] == '<' ==> Framed(open(t)) && Marks(open(t).out) == Marks(open(t).taken)
  }

  lemma {:induction false} MarksWalk(open: string -> Block, src: string)
    requires Advancing(open) && forall t: string :: KeepsMarks(open, t)
    ensures Marks(Walk(open, src)) == Marks(src)
    decreases |src|
  {
    if IndexByte(src, '<') >= 0 {
      var text, t, b, rest := Parts(open, src);
      assert KeepsMarks(open, t);
      MarksWalk(open, rest);
      MarksTurn(text, b, Walk(open, rest));
    }
  }

  lemma MarksTurn(text: string, b: Block, next: string)
    requires Framed(b) && Marks(b.out) == Marks(b.taken) && Marks(next) == Marks(b.rest)
    requires b.rest == "" ==> next == ""
    ensures Marks(text + b.out + next) == Marks(text + b.taken + b.rest)
  {
    assert text + b.out + next == text + (b.out + next);
    assert text + b.taken + b.rest == text + (b.taken + b.rest);
    MarksConcat(text, b.taken + b.rest);
    MarksConcat(b.taken, b.rest);
    MarksConcat(text, b.out + next);
    MarksConcat(b.out, next);
  }

  lemma MarksNormalize(a: Attributes, src: string)
    requires MarklessAttributes(a)
    ensures Marks(Normalize(a, src)) == Marks(src)
  {
    forall t: string ensures KeepsMarks(Opener(a), t) {
      if t != "" && t[0] == '<' {
        OpenedIsFramed(a, t);
        MarksOpened(a, t);
      }
    }
    MarksWalk(Opener(a), src);
  }

  // ---- so does the empty-cell rewrite ----

  /** The text before the first `<`, and the rest from there. */
  function FirstOpen(s: string): (r: nat)
    ensures r <= |s| && Free(s[..r], '<') && (r < |s| ==> s[r] == '<')
  {
    NoneBefore(s, '<');
    if IndexByte(s, '<') < 0 then |s| else IndexByte(s, '<')
  }

  lemma FixStarts(s: string)
    requires s != "" && s[0] == '<'
    ensures FixEmptyTds(s) != "" && FixEmptyTds(s)[0] == '<'
  {
  }

  /** Up to the first `<` nothing changes, and that stays the first. */
  lemma FixText(s: string) returns (r: nat)
    ensures r == FirstOpen(s) && FixEmptyTds(s) == s[..r] + FixEmptyTds(s[r..])
    ensures r < |s| ==> |FixEmptyTds(s)| > r && FixEmptyTds(s)[r] == '<'
    ensures r == |s| ==> FixEmptyTds(s) == s
  {
    r := FirstOpen(s);
    assert s == s[..r] + s[r..];
    CopiesText(s, s[..r], s[r..]);
    if r < |s| {
      FixStarts(s[r..]);
    }
  }

  lemma FixKeepsKind(t: string)
    ensures KindAt("<" + FixEmptyTds(t)) == KindAt("<" + t)
  {
    var r := FixText(t);
    SameKind(t, FixEmptyTds(t), r);
  }

  lemma SameKind(t: string, u: string, r: nat)
    requires r <= |t| && r <= |u| && t[..r] == u[..r]
    requires r < |t| ==> t[r] == '<' && r < |u| && u[r] == '<'
    requires r == |t| ==> u == t
    ensures KindAt("<" + u) == KindAt("<" + t)
  {
    assert forall i :: 0 <= i < r ==> u[i] == t[i];
    var x, y := "<" + u, "<" + t;
    assert forall i :: 0 < i <= r ==> x[i] == y[i];
    if r < |t| {
      assert x[r + 1] == '<' && y[r + 1] == '<';
    }
  }

  /** The opening of a cell, however it is spelled. */
  lemma MarksOfCell(p: string, x: string)
    requires |p| == 3 && OpensCell(p)
    ensures Marks(p + x) == [Open(Other)] + Marks(x)
  {
    var s := p + x;
    assert s[0] == p[0] && s[1] == p[1] && s[2] == p[2];
    assert KindAt(s) == Other;
    var s1 := s[1..];
    var s2 := s1[1..];
    assert s1[0] == p[1] && s2[0] == p[2];
    assert s2[1..] == x;
    assert Marks(s1) == Marks(s2) == Marks(x);
  }

  lemma MarksOfClose(p: string, x: string)
    requires |p| == 5 && ClosesCell(p, 0)
    ensures Marks(p + x) == [Open(Other), Close] + Marks(x)
  {
    var s := p + x;
    assert KindAt(s) == Other;
    var t := s[1..];
    assert t == p[1..4] + (">" + x);
    NoMarks(p[1..4]);
    MarksConcat(p[1..4], ">" + x);
    assert (">" + x)[1..] == x;
  }

  lemma MarksOfCopied(s: string, t: string, u: string)
    requires s != "" && t == s[1..] && u == FixEmptyTds(t) && Marks(u) == Marks(t)
    ensures Marks([s[0]] + u) == Marks(s)
  {
    assert s == [s[0]] + t && ([s[0]] + u)[1..] == u;
    if s[0] == '<' {
      FixKeepsKind(t);
    }
  }

  lemma {:induction false} MarksFix(s: string)
    ensures Marks(FixEmptyTds(s)) == Marks(s)
    decreases |s|
  {
    if s != "" {
      if EmptyCell(s).None? {
        var t := s[1..];
        MarksFix(t);
        Copies(s, t);
        MarksOfCopied(s, t, FixEmptyTds(t));
      } else {
        var c := EmptyCell(s).value;
        var rest := s[c.close + 5..];
        MarksFix(rest);
        Fills(s, c, "<td" + s[3..c.gt] + ">", rest);
        MarksOfEmptyCell(s, c, rest);
        MarksOfFixedCell(s[3..c.gt], FixEmptyTds(rest));
      }
    }
  }

  /** A cell taken apart: its opening, the rest of its tag, white space, its closing tag, and what follows. */
  lemma CellParts(s: string, c: Cell, mid: string, ws: string, end: string, rest: string)
    requires EmptyCell(s) == Some(c)
    requires mid == s[3..c.gt] && ws == s[c.gt + 1..c.close] && end == s[c.close..c.close + 5]
         && rest == s[c.close + 5..]
    ensures OpensCell(s[..3]) && Free(mid, '>') && Markless(ws) && ClosesCell(end, 0)
    ensures s[c.gt] == '>'
    ensures s == s[..3] + (mid + (">" + (ws + (end + rest))))
  {
    assert IsAt(s, '>', c.gt);
    forall i | 0 <= i < |mid| ensures mid[i] != '>' {
      assert !IsAt(s, '>', 3 + i);
    }
    forall i | 0 <= i < |ws| ensures ws[i] != '<' && ws[i] != '>' {
      assert IsSpace(s[c.gt + 1 + i]);
    }
    assert s[c.close..] == end + rest;
    assert s[c.gt..] == ">" + (ws + s[c.close..]);
    assert s == s[..3] + (mid + s[c.gt..]);
  }

  lemma MarksOfEmptyCell(s: string, c: Cell, rest: string)
    requires EmptyCell(s) == Some(c) && rest == s[c.close + 5..]
    ensures Marks(s) == [Open(Other)] + Marks(s[3..c.gt]) + [Close, Open(Other), Close] + Marks(rest)
  {
    var mid, ws, end := s[3..c.gt], s[c.gt + 1..c.close], s[c.close..c.close + 5];
    CellParts(s, c, mid, ws, end, rest);
    MarksOfParts(s[..3], mid, ws, end, rest);
  }

  lemma MarksOfParts(p: string, mid: string, ws: string, end: string, rest: string)
    requires |p| == 3 && OpensCell(p) && Markless(ws) && |end| == 5 && ClosesCell(end, 0)
    ensures Marks(p + (mid + (">" + (ws + (end + rest)))))
         == [Open(Other)] + Marks(mid) + [Close, Open(Other), Close] + Marks(rest)
  {
    MarksOfCell(p, mid + (">" + (ws + (end + rest))));
    MarksOfTail(mid, ws, end, rest);
  }

  lemma MarksOfTail(mid: string, ws: string, end: string, rest: string)
    requires Markless(ws) && |end| == 5 && ClosesCell(end, 0)
    ensures Marks(mid + (">" + (ws + (end + rest)))) == Marks(mid) + [Close, Open(Other), Close] + Marks(rest)
  {
    var tail := end + rest;
    MarksConcat(mid, ">" + (ws + tail));
    assert (">" + (ws + tail))[1..] == ws + tail;
    NoMarks(ws);
    MarksConcat(ws, tail);
    MarksOfClose(end, rest);
  }

  lemma MarksOfFixedCell(mid: string, fixed: string)
    ensures Marks("<td" + mid + ">" + FILLED + fixed)
         == [Open(Other)] + Marks(mid) + [Close, Open(Other), Close] + Marks(fixed)
  {
    var whole := "<td" + mid + ">" + FILLED + fixed;
    assert FILLED == "&nbsp;" + "</td>";
    assert whole == "<td" + (mid + (">" + ("&nbsp;" + ("</td>" + fixed))));
    MarksOfCell("<td", mid + (">" + ("&nbsp;" + ("</td>" + fixed))));
    MarksOfTail(mid, "&nbsp;", "</td>", fixed);
  }
}
