/** The results for the literals the library ships, and at concrete documents. */
module OutlookShipped {
  import opened Text
  import opened Normalizer
  import opened OutlookDocument
  import opened OutlookMarks
  import opened OutlookPlaces
  import opened OutlookSentinel
  import opened OutlookHalves
  import opened OutlookUnclosed
  import opened OutlookFixpoint

  // ---- the declarations ----

  lemma DeclaresThen(word: string, name: string, value: string)
    requires Sticky(word) && name == " " + word && Markless(value) && value != "" && value[|value| - 1] != '-'
    ensures Declares(word, name + value)
  {
    assert '=' in word;
    assert Markless(name);
    assert Contains(name + value, word) by {
      assert name[1..1 + |word|] == word;
      AtBefore(name, value, word, 1);
    }
    assert Insertable(name + value);
  }

  lemma MarklessTogether(x: string, y: string)
    requires Markless(x) && Markless(y)
    ensures Markless(x + y)
  {
  }

  lemma UrnIsMarkless()
    ensures Markless(URN) && Markless(OMML) && OMML != "" && OMML[|OMML| - 1] == '"'
  {
    MarklessTogether("\"urn:schemas-", "microsoft-com:");
    MarklessTogether("\"http://schemas.", "microsoft.com/office/");
    MarklessTogether("\"http://schemas." + "microsoft.com/office/", "2004/12/omml\"");
  }

  lemma UrnDeclares(word: string, name: string, last: string)
    requires Sticky(word) && name == " " + word && Markless(last) && last != "" && last[|last| - 1] == '"'
    ensures Declares(word, name + URN + last)
  {
    UrnIsMarkless();
    MarklessTogether(URN, last);
    DeclaresThen(word, name, URN + last);
    assert name + URN + last == name + (URN + last);
  }

  lemma WordsAreSticky()
    ensures Sticky("xmlns:v=") && Sticky("xmlns:o=") && Sticky("xmlns:w=") && Sticky("xmlns:m=") && Sticky("lang=")
  {
    assert "xmlns:v="[7] == '=' && "xmlns:o="[7] == '=' && "xmlns:w="[7] == '=' && "xmlns:m="[7] == '=';
    assert "lang="[4] == '=';
  }

  lemma NamespacesDeclare(headTags: string, i: nat)
    requires i < |Standard(headTags).namespaces|
    ensures Declares(Standard(headTags).namespaces[i].0, Standard(headTags).namespaces[i].1)
  {
    WordsAreSticky();
    UrnIsMarkless();
    match i
    case 0 => UrnDeclares("xmlns:v=", " xmlns:v=", "vml\"");
    case 1 => UrnDeclares("xmlns:o=", " xmlns:o=", "office:office\"");
    case 2 => UrnDeclares("xmlns:w=", " xmlns:w=", "office:word\"");
    case _ => DeclaresThen("xmlns:m=", " xmlns:m=", OMML);
  }

  lemma LangDeclares()
    ensures Declares("lang=", " lang=\"en\"")
  {
    WordsAreSticky();
    DeclaresThen("lang=", " lang=", "\"en\"");
    assert " lang=" + "\"en\"" == " lang=\"en\"";
  }

  // ---- the container ----

  lemma DullTogether(a: string, b: string)
    requires Joint(a, b) && Dull(Marks(a)) && Dull(Marks(b))
    ensures Dull(Marks(a + b))
  {
    MarksConcat(a, b);
  }

  /** A tag of another name. */
  lemma {:induction false} DullTag(x: string)
    requires x != "" && x[0] == '<' && KindAt(x) == Other && Free(x[1..], '<')
    ensures Dull(Marks(x))
  {
    DullClose(x[1..]);
  }

  lemma {:induction false} DullClose(x: string)
    requires Free(x, '<')
    ensures Dull(Marks(x))
    decreases |x|
  {
    if x != "" {
      DullClose(x[1..]);
    }
  }

  predicate Inside(y: string) {
    Free(y, '!') && Free(y, '<')
  }

  /** A table's or a cell's tag, or the front of one. */
  predicate TagFront(x: string) {
    |x| >= 2 && x[0] == '<' && OneOf(x[1], 't', '/') && Free(x, '!') && Free(x[1..], '<')
  }

  lemma LongerFront(x: string, y: string)
    requires TagFront(x) && Inside(y)
    ensures TagFront(x + y)
  {
    assert (x + y)[1..] == x[1..] + y;
  }

  lemma TagIsShell(x: string)
    requires TagFront(x) && x[|x| - 1] == '>'
    ensures Shell(x)
  {
    DullTag(x);
  }

  lemma ShellTogether(x: string, y: string)
    requires Shell(x) && Shell(y)
    ensures Shell(x + y)
  {
    DullTogether(x, y);
  }

  lemma ShellsTogether(x: string, y: string, z: string, whole: string)
    requires TagFront(x) && TagFront(y) && TagFront(z) && whole == x + y + z
    requires x[|x| - 1] == '>' && y[|y| - 1] == '>' && z[|z| - 1] == '>'
    ensures Shell(whole)
  {
    TagIsShell(x);
    TagIsShell(y);
    TagIsShell(z);
    ShellTogether(x, y);
    ShellTogether(x + y, z);
  }

  lemma LongFront(x: string, a: string, b: string, c: string, d: string, e: string)
    requires TagFront(x) && Inside(a) && Inside(b) && Inside(c) && Inside(d) && Inside(e)
    ensures TagFront(x + a + b + (c + d) + e)
  {
    LongerFront(x, a);
    LongerFront(x + a, b);
    LongerFront(x + a + b, c + d);
    LongerFront(x + a + b + (c + d), e);
  }

  lemma TableIsFront()
    ensures TagFront(TABLE) && TABLE[|TABLE| - 1] == '>'
  {
    LongFront("<table role=", "\"presentation\"", " width=\"100%\"",
              " cellspacing=\"0\"", " cellpadding=\"0\"", " border=\"0\">");
  }

  lemma ContainerIsShell()
    ensures Shell(TABLE + "<tr><td>")
  {
    TableIsFront();
    assert TABLE + "<tr><td>" == TABLE + "<tr>" + "<td>";
    ShellsTogether(TABLE, "<tr>", "<td>", TABLE + "<tr><td>");
  }

  lemma CloseContainerIsShell()
    ensures Shell("</td></tr></table>")
  {
    assert "</td></tr></table>" == "</td>" + "</tr>" + "</table>";
    ShellsTogether("</td>", "</tr>", "</table>", "</td></tr></table>");
  }

  lemma AttributesAreQuiet()
    ensures Quiet(OUTLOOK)
  {
    OutlookIsProper();
    MarklessTogether(" role=", "\"presentation\"");
    MarklessTogether(" cellspacing", "=\"0\"");
    MarklessTogether(" cellpadding", "=\"0\"");
    MarklessTogether(" border=", "\"0\"");
    MarklessTogether(ROLE, CELLSPACING);
    MarklessTogether(ROLE + CELLSPACING, CELLPADDING);
    MarklessTogether(ROLE + CELLSPACING + CELLPADDING, BORDER);
  }

  /** The shipped literals are as the results need them. */
  lemma StandardIsClean(headTags: string)
    ensures Clean(Standard(headTags))
  {
    var cfg := Standard(headTags);
    forall i | 0 <= i < |cfg.namespaces| ensures Declares(cfg.namespaces[i].0, cfg.namespaces[i].1) {
      NamespacesDeclare(headTags, i);
    }
    LangDeclares();
    ContainerIsShell();
    CloseContainerIsShell();
    AttributesAreQuiet();
  }

  // ---- the results, as shipped ----

  lemma ShippedIdempotentIff(headTags: string, html: string)
    requires Contains(headTags, SENTINEL)
    ensures Idempotent(Standard(headTags), html) <==>
      html == "" || AlreadyConverted(html) || Convertible(html) || (Unclosed(html) && !Wraps(html))
  {
    StandardIsClean(headTags);
    IdempotentIff(Standard(headTags), html);
  }

  lemma ShippedMarkedIff(headTags: string, html: string)
    requires Contains(headTags, SENTINEL) && html != "" && !AlreadyConverted(html)
    ensures
      var once := ToOutlookHTML(Standard(headTags), html);
      once.Done? && AlreadyConverted(once.html) <==> Convertible(html)
  {
    StandardIsClean(headTags);
    MarkedIff(Standard(headTags), html);
  }

  // ---- at concrete documents ----

  /** By the first and the third byte, `pat` does not start at `i`. */
  predicate NotHere(s: string, pat: string, i: nat)
    requires |pat| > 2
  {
    i + 2 >= |s| || s[i] != pat[0] || s[i + 2] != pat[2]
  }

  lemma NotHereIs(s: string, pat: string, i: nat)
    requires |pat| > 2 && NotHere(s, pat, i)
    ensures !At(s, pat, i)
  {
    if i + |pat| <= |s| {
      assert s[i..i + |pat|][0] == s[i] && s[i..i + |pat|][2] == s[i + 2];
    }
  }

  lemma FirstAt(s: string, pat: string, r: nat)
    requires |pat| > 2 && r + |pat| <= |s| && s[r..r + |pat|] == pat
    requires forall i: nat :: i < r ==> NotHere(s, pat, i)
    ensures Index(s, pat) == r
  {
    assert At(s, pat, r);
    forall k: nat | k < r ensures !At(s, pat, k) {
      NotHereIs(s, pat, k);
    }
  }

  lemma Nowhere(s: string, pat: string)
    requires |pat| > 2 && forall i: nat :: i < |s| ==> NotHere(s, pat, i)
    ensures Index(s, pat) == -1
  {
    forall k: nat ensures !At(s, pat, k) {
      NotHereIs(s, pat, k);
    }
  }

  lemma EndsAt(s: string, from: nat, gt: nat)
    requires from < gt < |s| && s[gt] == '>' && forall i :: from <= i < gt ==> s[i] != '>'
    ensures TagEnd(s, from) == gt + 1
  {
    var t := s[from..];
    assert IsAt(t, '>', gt - from);
    forall i: nat | i < gt - from ensures !IsAt(t, '>', i) {
      assert t[i] == s[from + i];
    }
  }

  lemma NeverEnds(s: string, from: nat)
    requires from <= |s| && forall i :: from <= i < |s| ==> s[i] != '>'
    ensures TagEnd(s, from) == -1
  {
    NoByte(s[from..], '>');
  }

  lemma SpelledHi(s: string)
    requires s == "<body>hi<head"
    ensures |s| == 13
    ensures s[0] == '<' && s[1] == 'b' && s[2] == 'o' && s[3] == 'd' && s[4] == 'y' && s[5] == '>'
    ensures s[6] == 'h' && s[7] == 'i' && s[8] == '<' && s[9] == 'h' && s[10] == 'e' && s[11] == 'a'
    ensures s[12] == 'd'
  {
  }

  lemma HeadLeftOpen(s: string)
    requires s == "<body>hi<head"
    ensures Unclosed(s) && !AlreadyConverted(s)
  {
    SpelledHi(s);
    UnmarkedWithoutBang(s);
    assert s[8..13] == "<head" && "<head"[2] == 'e';
    FirstAt(s, "<head", 8);
    NeverEnds(s, 8);
  }

  lemma NoHtmlTag(s: string)
    requires s == "<body>hi<head"
    ensures FindTag(s, "<html", "<HTML") == -1
  {
    SpelledHi(s);
    assert "<html"[2] == 't' && "<HTML"[2] == 'T';
    Nowhere(s, "<html");
    Nowhere(s, "<HTML");
  }

  lemma BodyToWrap(s: string)
    requires s == "<body>hi<head"
    ensures Wraps(s)
  {
    SpelledHi(s);
    NoHtmlTag(s);
    assert Start(s) == 0;
    assert s[0..5] == "<body";
    FirstAt(s, "<body", 0);
    EndsAt(s, 0, 5);
  }

  /** Each pass wraps the body of this document again. */
  lemma WrapsForever(headTags: string)
    requires Contains(headTags, SENTINEL)
    ensures !Idempotent(Standard(headTags), "<body>hi<head")
  {
    HeadLeftOpen("<body>hi<head");
    BodyToWrap("<body>hi<head");
    ShippedIdempotentIff(headTags, "<body>hi<head");
  }

  lemma SpelledHtml(s: string)
    requires s == "<html><head"
    ensures |s| == 11
    ensures s[0] == '<' && s[1] == 'h' && s[2] == 't' && s[3] == 'm' && s[4] == 'l' && s[5] == '>'
    ensures s[6] == '<' && s[7] == 'h' && s[8] == 'e' && s[9] == 'a' && s[10] == 'd'
  {
  }

  lemma NoBodyTag(s: string)
    requires s == "<html><head"
    ensures FindTag(s, "<body", "<BODY") == -1
  {
    SpelledHtml(s);
    assert "<body"[2] == 'o' && "<BODY"[2] == 'O';
    Nowhere(s, "<body");
    Nowhere(s, "<BODY");
  }

  lemma SecondHeadLeftOpen(s: string)
    requires s == "<html><head"
    ensures Unclosed(s)
  {
    SpelledHtml(s);
    assert s[6..11] == "<head" && "<head"[2] == 'e';
    FirstAt(s, "<head", 6);
    NeverEnds(s, 6);
  }

  /** This one, with a head left open too, is converted for good by one pass. */
  lemma StaysOpen(headTags: string)
    requires Contains(headTags, SENTINEL)
    ensures Idempotent(Standard(headTags), "<html><head") && !Convertible("<html><head")
  {
    NoBodyTag("<html><head");
    SecondHeadLeftOpen("<html><head");
    ShippedIdempotentIff(headTags, "<html><head");
  }

  lemma SpelledTags(s: string)
    requires s == "<head><html>"
    ensures |s| == 12
    ensures s[0] == '<' && s[1] == 'h' && s[2] == 'e' && s[3] == 'a' && s[4] == 'd' && s[5] == '>'
    ensures s[6] == '<' && s[7] == 'h' && s[8] == 't' && s[9] == 'm' && s[10] == 'l' && s[11] == '>'
  {
  }

  lemma TagsInOrder(s: string)
    requires s == "<head><html>"
    ensures FindTag(s, "<head", "<HEAD") == 0 && TagEnd(s, 0) == 6
    ensures FindTag(s, "<html", "<HTML") == 6 && TagEnd(s, 6) == 12
  {
    SpelledTags(s);
    assert "<html"[2] == 't';
    assert s[0..5] == "<head" && s[6..11] == "<html";
    FirstAt(s, "<head", 0);
    FirstAt(s, "<html", 6);
    EndsAt(s, 0, 5);
    EndsAt(s, 6, 11);
  }

  /** The head tag of this document ends before its html tag does. */
  lemma HeadBeforeHtml(cfg: Config)
    ensures ToOutlookHTML(cfg, "<head><html>") == Panics
  {
    TagsInOrder("<head><html>");
    UnmarkedWithoutBang("<head><html>");
    PanicsIff(cfg, "<head><html>");
  }
}
