/** What holds of every converted document: its html tag declares what Outlook needs, and no cell in it is empty. */
module OutlookPromises {
  import opened Prelude
  import opened Text
  import opened Normalizer
  import opened OutlookDocument
  import opened OutlookMarks
  import opened OutlookPlaces
  import opened OutlookCells
  import opened OutlookHalves
  import opened OutlookUnclosed
  import opened OutlookFixpoint
  import opened OutlookContent

  // ---- empty cells ----

  /** An opening cell tag that ends at `gt`, white space only, and a closing cell tag at `close`, in any case. */
  ghost predicate CellHere(s: string, gt: nat, close: nat) {
    && 3 <= gt < close && close + 5 <= |s|
    && s[0] == '<' && (s[1] == 't' || s[1] == 'T') && (s[2] == 'd' || s[2] == 'D')
    && (forall i :: 3 <= i < gt ==> s[i] != '>') && s[gt] == '>'
    && (forall i :: gt < i < close ==> IsSpace(s[i]))
    && s[close] == '<' && s[close + 1] == '/' && (s[close + 2] == 't' || s[close + 2] == 'T')
    && (s[close + 3] == 'd' || s[close + 3] == 'D') && s[close + 4] == '>'
  }

  lemma FirstGt(s: string, gt: nat)
    requires 3 <= gt < |s| && s[gt] == '>' && forall i :: 3 <= i < gt ==> s[i] != '>'
    ensures IndexByteFrom(s, '>', 3) == gt
  {
    assert IsAt(s, '>', gt);
    assert !IsAt(s, '>', IndexByteFrom(s, '>', 3)) || IndexByteFrom(s, '>', 3) >= gt;
  }

  lemma {:induction false} SpacesUpTo(s: string, from: nat, to: nat)
    requires from <= to < |s| && (forall i :: from <= i < to ==> IsSpace(s[i])) && !IsSpace(s[to])
    ensures SpacesEnd(s, from) == to
    decreases |s| - from
  {
    if from < to {
      SpacesUpTo(s, from + 1, to);
    }
  }

  /** The pattern is found exactly where there is an empty cell. */
  lemma EmptyCellIff(s: string, gt: nat, close: nat)
    ensures EmptyCell(s) == Some(Cell(gt, close)) <==> CellHere(s, gt, close)
  {
    if CellHere(s, gt, close) {
      FirstGt(s, gt);
      SpacesUpTo(s, gt + 1, close);
    }
    if EmptyCell(s) == Some(Cell(gt, close)) {
      assert IsAt(s, '>', gt);
      forall i | 3 <= i < gt ensures s[i] != '>' {
        assert !IsAt(s, '>', i);
      }
    }
  }

  ghost predicate NoCellAt(s: string, i: nat)
    requires i <= |s|
  {
    forall gt: nat, close: nat :: !CellHere(s[i..], gt, close)
  }

  ghost predicate NoCellIn(s: string) {
    forall i: nat :: i <= |s| ==> NoCellAt(s, i)
  }

  lemma NoCellIff(s: string, i: nat)
    requires i <= |s|
    ensures NoCellAt(s, i) <==> EmptyCell(s[i..]).None?
  {
    if EmptyCell(s[i..]).Some? {
      EmptyCellIff(s[i..], EmptyCell(s[i..]).value.gt, EmptyCell(s[i..]).value.close);
    } else {
      forall gt: nat, close: nat ensures !CellHere(s[i..], gt, close) {
        EmptyCellIff(s[i..], gt, close);
      }
    }
  }

  lemma NoCellLater(s: string, t: string)
    requires s != "" && t == s[1..]
    ensures NoCellIn(s) <==> NoCellAt(s, 0) && NoCellIn(t)
  {
    forall i: nat | i <= |t| ensures NoCellAt(t, i) <==> NoCellAt(s, i + 1) {
      assert t[i..] == s[i + 1..];
    }
    assert forall i: nat :: 0 < i <= |s| ==> (NoCellAt(s, i) <==> NoCellAt(t, i - 1));
  }

  /** What is written for an empty cell differs from it, if only in what follows the opening tag. */
  lemma FilledDiffers(s: string, c: Cell)
    requires EmptyCell(s) == Some(c)
    ensures FixEmptyTds(s) != s
  {
    var head, rest := "<td" + s[3..c.gt] + ">", s[c.close + 5..];
    Fills(s, c, head, rest);
    assert FixEmptyTds(s)[c.gt + 1] == FILLED[0] == '&';
    assert s[c.gt + 1] == '<' || IsSpace(s[c.gt + 1]);
  }

  /** A document is left alone exactly when it has no empty cell. */
  lemma {:induction false} LeftAloneIff(s: string)
    ensures FixEmptyTds(s) == s <==> NoCellIn(s)
    decreases |s|
  {
    if s == "" {
      NoCellIff(s, 0);
    } else {
      NoCellIff(s, 0);
      assert s[0..] == s;
      NoCellLater(s, s[1..]);
      LeftAloneIff(s[1..]);
      if EmptyCell(s).Some? {
        FilledDiffers(s, EmptyCell(s).value);
      } else {
        Copies(s, s[1..]);
        assert s == [s[0]] + s[1..];
      }
    }
  }

  /** What stands before the leftmost empty cell stays. */
  lemma {:induction false} TextBeforeStays(s: string, before: string, here: string)
    requires s == before + here && forall j: nat :: j < |before| ==> NoCellAt(s, j)
    ensures FixEmptyTds(s) == before + FixEmptyTds(here)
    decreases |before|
  {
    if before == "" {
      assert s == here;
    } else {
      var rest, t := before[1..], s[1..];
      NoCellIff(s, 0);
      assert s[0..] == s;
      forall j: nat | j < |rest| ensures NoCellAt(t, j) {
        assert t[j..] == s[j + 1..];
        assert NoCellAt(s, j + 1);
      }
      TextBeforeStays(t, rest, here);
      Copies(s, t);
      Prepended(before, rest, FixEmptyTds(here));
    }
  }

  /** The leftmost empty cell gets a non-breaking space, what stands before it stays, and so on after it. */
  lemma LeftmostIsFilled(s: string, before: string, here: string, gt: nat, close: nat)
    requires s == before + here && CellHere(here, gt, close) && forall j: nat :: j < |before| ==> NoCellAt(s, j)
    ensures FixEmptyTds(s)
         == before + (("<td" + here[3..gt] + ">") + "&nbsp;</td>" + FixEmptyTds(here[close + 5..]))
  {
    TextBeforeStays(s, before, here);
    EmptyCellIff(here, gt, close);
    Fills(here, Cell(gt, close), "<td" + here[3..gt] + ">", here[close + 5..]);
  }

  /** No converted document has an empty cell. */
  lemma NoCellIsEmpty(cfg: Config, html: string)
    requires html != "" && !AlreadyConverted(html) && ToOutlookHTML(cfg, html).Done?
    ensures NoCellIn(ToOutlookHTML(cfg, html).html)
  {
    var before := BeforeFilling(cfg, html);
    FixTwice(before);
    LeftAloneIff(FixEmptyTds(before));
  }

  lemma BeforeFilling(cfg: Config, html: string) returns (before: string)
    requires html != "" && !AlreadyConverted(html) && ToOutlookHTML(cfg, html).Done?
    ensures ToOutlookHTML(cfg, html).html == FixEmptyTds(before)
  {
    if IsFragment(html) {
      before := Woven(cfg, html);
    } else {
      var q := AfterBody(cfg, html, AfterHead(cfg, html, AfterHtmlTag(cfg, html)).value);
      before := q.out + Normalize(cfg.attributes, html[q.curr..]);
    }
  }

  // ---- the html tag ----

  /** The document is written after what is written for its html tag. */
  lemma FrontComesFirst(cfg: Config, html: string) returns (more: string)
    requires html != "" && !AlreadyConverted(html) && !IsFragment(html) && ToOutlookHTML(cfg, html).Done?
    ensures ToOutlookHTML(cfg, html).html == FixEmptyTds(AfterHtmlTag(cfg, html).out + more)
  {
    var p := AfterHtmlTag(cfg, html);
    var r := AfterHead(cfg, html, p).value;
    HeadExtends(cfg, html, p);
    var q := AfterBody(cfg, html, r);
    var last := Normalize(cfg.attributes, html[q.curr..]);
    more := q.out[|p.out|..] + last;
    Follow(p.out, r.out, q.out, last);
  }

  lemma HeadExtends(cfg: Config, html: string, p: Progress)
    requires p.curr <= |html| && AfterHead(cfg, html, p).Some?
    ensures p.out <= AfterHead(cfg, html, p).value.out
  {
  }

  lemma Follow(a: string, b: string, c: string, d: string)
    requires a <= b && b <= c
    ensures a <= c && c + d == a + (c[|a|..] + d)
  {
  }

  /** `x` is what a document begins with, up to the end of its html tag. */
  ghost predicate IsHtmlTag(html: string, x: string, out: string) {
    x <= out && x != "" && x[|x| - 1] == '>' && Marks(x) == Marks(html[..Start(html)])
  }

  /** A document with an html tag comes out with one that declares all namespaces and a language. */
  lemma HtmlTagIsComplete(cfg: Config, html: string) returns (x: string)
    requires Clean(cfg) && html != "" && !AlreadyConverted(html) && ToOutlookHTML(cfg, html).Done?
    requires Start(html) > 0
    ensures IsHtmlTag(html, x, ToOutlookHTML(cfg, html).html) && Complete(cfg, x)
  {
    var out := FrontIs(cfg, html);
    StartIs(html);
    FrontKeeps(cfg, html[..Start(html)], out);
    FrontIsComplete(cfg, html[..Start(html)], out);
    assert !IsFragment(html);
    var more := FrontComesFirst(cfg, html);
    x := FrontOfFixed(cfg, out, more);
  }

  lemma FrontOfFixed(cfg: Config, out: string, more: string) returns (x: string)
    requires Clean(cfg) && Complete(cfg, out) && out != "" && EndsWell(out)
    ensures x <= FixEmptyTds(out + more) && x != "" && x[|x| - 1] == '>'
    ensures Complete(cfg, x) && Marks(x) == Marks(out)
  {
    var y;
    x, y := Halved(out, more);
    StaysComplete(cfg, out, x);
    assert Ends(out, x);
    MarksFix(out + more);
    MarksFollow(more, y);
    MarksConcat(x, y);
    MarksConcat(out, more);
    SameHead(Marks(x), Marks(out), Marks(y));
  }

  lemma SameHead(a: seq<Mark>, b: seq<Mark>, c: seq<Mark>)
    requires a + c == b + c
    ensures a == b
  {
    assert |a| == |b|;
    assert (a + c)[..|a|] == a && (b + c)[..|a|] == b;
  }
}
