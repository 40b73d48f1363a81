/** Where a document's tags stand, read off its skeleton. */
module OutlookPlaces {
  import opened Text
  import opened OutlookDocument
  import opened OutlookMarks

  // ---- searching a skeleton ----

  function FirstMark(m: seq<Mark>, x: Mark): (r: int)
    ensures -1 <= r < |m|
    ensures r == -1 ==> x !in m
    ensures r >= 0 ==> m[r] == x && forall i :: 0 <= i < r ==> m[i] != x
  {
    if m == [] then -1
    else if m[0] == x then 0
    else
      var r := FirstMark(m[1..], x);
      if r == -1 then -1 else r + 1
  }

  function FindOpen(m: seq<Mark>, lower: Kind, upper: Kind): (r: int)
    ensures -1 <= r < |m|
  {
    if FirstMark(m, Open(lower)) == -1 then FirstMark(m, Open(upper)) else FirstMark(m, Open(lower))
  }

  /** Past the first `>` from `i` on. */
  function CloseFrom(m: seq<Mark>, i: nat): (r: int)
    requires i <= |m|
    ensures r == -1 || i < r <= |m|
    ensures r == -1 <==> Close !in m[i..]
  {
    var r := FirstMark(m[i..], Close);
    if r == -1 then -1 else i + r + 1
  }

  lemma FirstAfter(a: seq<Mark>, b: seq<Mark>, x: Mark)
    requires x !in a && b != [] && b[0] == x
    ensures FirstMark(a + b, x) == |a|
  {
    assert (a + b)[|a|] == x;
    assert forall i :: 0 <= i < |a| ==> (a + b)[i] == a[i];
  }

  // ---- from text to skeleton ----

  lemma MarkSplit(s: string, i: nat)
    requires i <= |s| && Joint(s[..i], s[i..])
    ensures Marks(s) == Marks(s[..i]) + Marks(s[i..])
  {
    assert s == s[..i] + s[i..];
    MarksConcat(s[..i], s[i..]);
  }

  lemma AtKind(s: string, i: nat, k: Kind)
    requires k != Other && i < |s|
    ensures At(s, Pattern(k), i) <==> s[i] == '<' && KindAt(s[i..]) == k
  {
    var t := s[i..];
    if i + 5 <= |s| {
      assert s[i..i + 5] == [s[i], t[1], t[2], t[3], t[4]];
    }
  }

  lemma {:induction false} NoOpen(s: string, k: Kind)
    requires k != Other && forall i: nat :: !At(s, Pattern(k), i)
    ensures Open(k) !in Marks(s)
    decreases |s|
  {
    if s != "" {
      AtKind(s, 0, k);
      assert s[0..] == s;
      forall i: nat ensures !At(s[1..], Pattern(k), i) {
        assert !At(s, Pattern(k), i + 1);
        if i + 5 <= |s| - 1 {
          assert s[1..][i..i + 5] == s[i + 1..i + 6];
        }
      }
      NoOpen(s[1..], k);
    }
  }

  lemma FirstOpenIs(s: string, k: Kind)
    requires k != Other
    ensures
      var r := Index(s, Pattern(k));
      && (r == -1 ==> FirstMark(Marks(s), Open(k)) == -1)
      && (r >= 0 ==> r < |s| && s[r] == '<' && FirstMark(Marks(s), Open(k)) == |Marks(s[..r])|)
  {
    var r := Index(s, Pattern(k));
    if r == -1 {
      NoOpen(s, k);
    } else {
      assert At(s, Pattern(k), r) && |Pattern(k)| == 5;
      AtKind(s, r, k);
      MarkSplit(s, r);
      forall i: nat ensures !At(s[..r], Pattern(k), i) {
        if i + 5 <= r {
          assert s[..r][i..i + 5] == s[i..i + 5];
          assert !At(s, Pattern(k), i);
        }
      }
      NoOpen(s[..r], k);
      FirstAfter(Marks(s[..r]), Marks(s[r..]), Open(k));
    }
  }

  predicate Cased(lower: Kind, upper: Kind) {
    lower != Other && upper != Other
  }

  lemma FindIs(s: string, lower: Kind, upper: Kind)
    requires Cased(lower, upper)
    ensures
      var r := FindTag(s, Pattern(lower), Pattern(upper));
      && (r == -1 <==> FindOpen(Marks(s), lower, upper) == -1)
      && (r >= 0 ==> r < |s| && s[r] == '<' && FindOpen(Marks(s), lower, upper) == |Marks(s[..r])|)
  {
    FirstOpenIs(s, lower);
    FirstOpenIs(s, upper);
  }

  /** The first `>` of a text. */
  lemma CloseIs(t: string)
    ensures
      var gt := IndexByte(t, '>');
      && (gt == -1 ==> Close !in Marks(t))
      && (gt >= 0 ==> FirstMark(Marks(t), Close) + 1 == |Marks(t[..gt + 1])| && Close in Marks(t))
  {
    var gt := IndexByte(t, '>');
    if gt == -1 {
      NoneBefore(t, '>');
      NoClose(t);
    } else {
      NoneBefore(t, '>');
      NoClose(t[..gt]);
      MarkSplit(t, gt);
      assert Marks(t[gt..])[0] == Close;
      FirstAfter(Marks(t[..gt]), Marks(t[gt..]), Close);
      assert t[..gt + 1] == t[..gt] + ">";
      MarksConcat(t[..gt], ">");
      assert Marks(">") == [Close];
    }
  }

  lemma {:induction false} NoClose(t: string)
    requires Free(t, '>')
    ensures Close !in Marks(t)
    decreases |t|
  {
    if t != "" {
      NoClose(t[1..]);
    }
  }

  lemma EndIs(s: string, from: nat)
    requires from < |s| && s[from] == '<'
    ensures |Marks(s[..from])| <= |Marks(s)|
    ensures
      var end := TagEnd(s, from);
      var r := CloseFrom(Marks(s), |Marks(s[..from])|);
      && (end == -1 <==> r == -1)
      && (end != -1 ==> r == |Marks(s[..end])| && s[end - 1] == '>')
  {
    var t := s[from..];
    MarkSplit(s, from);
    CloseIs(t);
    CloseInRest(Marks(s[..from]), Marks(t), Marks(s));
    EndIn(s, from, t, Marks(s[..from]));
  }

  lemma EndIn(s: string, from: nat, t: string, a: seq<Mark>)
    requires from < |s| && s[from] == '<' && t == s[from..] && a == Marks(s[..from])
    ensures
      var end := TagEnd(s, from);
      var gt := IndexByte(t, '>');
      && end == (if gt == -1 then -1 else from + gt + 1)
      && (end != -1 ==> |Marks(s[..end])| == |a| + |Marks(t[..gt + 1])| && s[end - 1] == '>')
  {
    var gt := IndexByte(t, '>');
    if gt >= 0 {
      EndAt(s, from, t, gt);
    }
  }

  lemma CloseInRest(a: seq<Mark>, b: seq<Mark>, m: seq<Mark>)
    requires m == a + b
    ensures CloseFrom(m, |a|) == if FirstMark(b, Close) == -1 then -1 else |a| + FirstMark(b, Close) + 1
  {
    assert m[|a|..] == b;
  }

  lemma EndAt(s: string, from: nat, t: string, gt: nat)
    requires from < |s| && s[from] == '<' && t == s[from..] && gt < |t| && t[gt] == '>'
    ensures |Marks(s[..from + gt + 1])| == |Marks(s[..from])| + |Marks(t[..gt + 1])|
    ensures s[from + gt] == '>'
  {
    assert s[..from + gt + 1] == s[..from] + t[..gt + 1];
    MarksConcat(s[..from], t[..gt + 1]);
  }

  // ---- order ----

  lemma Later(s: string, i: nat, j: nat)
    requires i < j <= |s| && s[i] == '<'
    ensures |Marks(s[..i])| < |Marks(s[..j])|
  {
    assert s[..j] == s[..i] + s[i..j];
    MarksConcat(s[..i], s[i..j]);
  }

  /** A place where nothing, or a `>`, comes before. */
  predicate Edge(s: string, i: nat) {
    i <= |s| && (i == 0 || s[i - 1] == '>')
  }

  lemma NotEarlier(s: string, i: nat, j: nat)
    requires i <= j <= |s| && Edge(s, i)
    ensures |Marks(s[..i])| <= |Marks(s[..j])|
  {
    assert s[..j] == s[..i] + s[i..j];
    MarksConcat(s[..i], s[i..j]);
  }

  /** Edges with equally many marks before them are the same. */
  lemma SameEdge(s: string, i: nat, j: nat)
    requires Edge(s, i) && Edge(s, j) && |Marks(s[..i])| == |Marks(s[..j])|
    ensures i == j
  {
    if i < j {
      EdgesDiffer(s, i, j);
    } else if j < i {
      EdgesDiffer(s, j, i);
    }
  }

  lemma EdgesDiffer(s: string, i: nat, j: nat)
    requires i < j && Edge(s, i) && Edge(s, j)
    ensures |Marks(s[..i])| < |Marks(s[..j])|
  {
    NotEarlier(s, i, j - 1);
    assert s[..j] == s[..j - 1] + ">";
    MarksConcat(s[..j - 1], ">");
  }

  // ---- the conditions of the conversion ----

  /** Past the html tag, if it is closed. */
  function Start(html: string): (r: nat)
    ensures r <= |html|
  {
    var at := FindTag(html, "<html", "<HTML");
    if at == -1 || TagEnd(html, at) == -1 then 0 else TagEnd(html, at)
  }

  /** There is a head tag, and no `>` after it starts. */
  predicate Unclosed(html: string) {
    var head := FindTag(html, "<head", "<HEAD");
    head != -1 && TagEnd(html, head) == -1
  }

  /** A closed body tag after the html tag, whose content is put into a table. */
  predicate Wraps(html: string) {
    var body := FindTag(html, "<body", "<BODY");
    body != -1 && body >= Start(html) && TagEnd(html, body) != -1
  }

  function StartOf(m: seq<Mark>): (r: nat)
    ensures r <= |m|
  {
    var at := FindOpen(m, HtmlLower, HtmlUpper);
    if at == -1 || CloseFrom(m, at) == -1 then 0 else CloseFrom(m, at)
  }

  predicate UnclosedIn(m: seq<Mark>) {
    var head := FindOpen(m, HeadLower, HeadUpper);
    head != -1 && CloseFrom(m, head) == -1
  }

  predicate WrapsIn(m: seq<Mark>) {
    var body := FindOpen(m, BodyLower, BodyUpper);
    body != -1 && body >= StartOf(m) && CloseFrom(m, body) != -1
  }

  lemma StartIs(html: string)
    ensures |Marks(html[..Start(html)])| == StartOf(Marks(html)) && Edge(html, Start(html))
  {
    FindIs(html, HtmlLower, HtmlUpper);
    var at := FindTag(html, "<html", "<HTML");
    if at != -1 {
      EndIs(html, at);
    }
  }

  lemma UnclosedIs(html: string)
    ensures Unclosed(html) <==> UnclosedIn(Marks(html))
  {
    FindIs(html, HeadLower, HeadUpper);
    var head := FindTag(html, "<head", "<HEAD");
    if head != -1 {
      EndIs(html, head);
    }
  }

  lemma WrapsIs(html: string)
    ensures Wraps(html) <==> WrapsIn(Marks(html))
  {
    FindIs(html, BodyLower, BodyUpper);
    StartIs(html);
    var body := FindTag(html, "<body", "<BODY");
    if body != -1 {
      EndIs(html, body);
      if body >= Start(html) {
        NotEarlier(html, Start(html), body);
      } else {
        Later(html, body, Start(html));
      }
    }
  }
}
