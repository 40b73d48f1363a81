/** Filling empty cells leaves a normalised document normalised. */
module OutlookSettled {
  import opened Text
  import opened Normalizer
  import opened OutlookDocument
  import opened OutlookMarks
  import opened OutlookCells
  import opened OutlookHalves

  ghost predicate Settled(a: Attributes, s: string) {
    Normalize(a, s) == s
  }

  // ---- what a pass leaves alone, it leaves alone block by block ----

  lemma {:induction false} SubsequenceLength(x: string, y: string)
    requires Subsequence(x, y)
    ensures |x| <= |y|
    decreases |y|
  {
    if x != "" {
      if x[0] == y[0] && Subsequence(x[1..], y[1..]) {
        SubsequenceLength(x[1..], y[1..]);
      } else {
        SubsequenceLength(x, y[1..]);
      }
    }
  }

  lemma Grows(a: Attributes, s: string)
    ensures |Normalize(a, s)| >= |s|
  {
    NormalizeOnlyAdds(a, s);
    SubsequenceLength(s, Normalize(a, s));
  }

  lemma BlockGrows(a: Attributes, t: string)
    ensures |Opened(a, t).out| >= |Opened(a, t).taken|
  {
    OpenedAdds(a, t);
    SubsequenceLength(Opened(a, t).taken, Opened(a, t).out);
  }

  /** A block that is written as it is. */
  ghost predicate Kept(a: Attributes, t: string, b: Block) {
    t != "" && t[0] == '<' && b == Opened(a, t) && b.out == b.taken && t == b.taken + b.rest
  }

  lemma SettledParts(a: Attributes, s: string) returns (before: string, t: string, b: Block)
    requires Settled(a, s) && IndexByte(s, '<') >= 0
    ensures before == s[..IndexByte(s, '<')] && t == s[IndexByte(s, '<')..] && s == before + t && Free(before, '<')
    ensures Kept(a, t, b) && Settled(a, b.rest) && |b.rest| < |s|
  {
    var rest;
    before, t, b, rest := Parts(Opener(a), s);
    BlockGrows(a, t);
    Grows(a, rest);
    SameParts(before, b.taken, rest, b.out, Normalize(a, rest));
  }

  lemma SameParts(before: string, x: string, y: string, u: string, v: string)
    requires before + x + y == before + u + v && |x| <= |u| && |y| <= |v|
    ensures x == u && y == v
  {
    var s := before + x + y;
    assert |x| == |u|;
    assert s[|before|..|before| + |x|] == x && s[|before|..|before| + |u|] == u;
    assert s[|before| + |x|..] == y && s[|before| + |u|..] == v;
  }

  // ---- a block is a block again ----

  lemma CommentSame(t: string)
    requires t != "" && t[0] == '<'
    ensures StartsComment(FixEmptyTds(t)) <==> StartsComment(t)
  {
    if EmptyCell(t).None? {
      Copies(t, t[1..]);
      FixPrefix(t[1..], "!--");
      CommentFront(t, t[1..]);
      CommentFront([t[0]] + FixEmptyTds(t[1..]), FixEmptyTds(t[1..]));
    }
  }

  lemma CommentFront(s: string, t: string)
    requires s != "" && s[0] == '<' && t == s[1..]
    ensures StartsComment(s) <==> "!--" <= t
  {
    if |t| >= 3 {
      assert t[..3] == [s[1], s[2], s[3]];
    }
  }

  ghost predicate Needy(tag: string) {
    (IsTableTag(tag) && !Contains(tag, "role=")) || (IsImgTag(tag) && !Contains(tag, "border="))
  }

  lemma NeedyIff(a: Attributes, tag: string)
    requires Proper(a) && |tag| >= 2
    ensures Rewritten(a, tag) == tag <==> !Needy(tag)
  {
    if IsTableTag(tag) && !Contains(tag, "role=") {
      assert |Insert(tag, a.table)| == |tag| + |a.table|;
    } else if IsImgTag(tag) && !Contains(tag, "border=") {
      assert |Insert(tag, a.img)| == |tag| + |a.img|;
    }
  }

  lemma WordsAreSticky()
    ensures Sticky("role=") && Sticky("border=")
  {
    assert "role="[4] == '=' && "border="[6] == '=';
  }

  lemma NotNeedyAgain(tag: string, x: string)
    requires IsTag(tag) && Half(tag, x) && Alike(tag, x) && !Needy(tag)
    ensures !Needy(x)
  {
    WordsAreSticky();
    assert WordKept(tag, x, "role=") && WordKept(tag, x, "border=");
    assert IsTableTag(x) ==> IsTableTag(tag);
    assert IsImgTag(x) ==> IsImgTag(tag);
  }

  lemma TagAgain(tag: string, x: string)
    requires IsTag(tag) && Half(tag, x)
    ensures Alike(tag, x) && IsTag(x)
  {
    forall i | 0 <= i < |tag| - 1 ensures tag[i] != '>' {
      assert tag[..|tag| - 1][i] == tag[i];
    }
    assert Lone(tag);
    assert AlikeAt(tag[0], x[0]);
    assert forall i :: 0 <= i < |tag| - 1 ==> AlikeAt(tag[i], x[i]);
  }

  lemma TagBlockAgain(a: Attributes, t: string, b: Block, x: string, y: string)
    requires Proper(a) && Kept(a, t, b) && IndexByte(t, '>') >= 0
    requires StartsComment(t) ==> Index(t, "-->") < 0
    requires Half(b.taken, x) && FixEmptyTds(t) == x + y
    ensures Opened(a, x + y) == Block(x, x, y)
  {
    CutTag(t);
    var tag := b.taken;
    TagAgain(tag, x);
    NeedyIff(a, tag);
    NotNeedyAgain(tag, x);
    NeedyIff(a, x);
    CommentSame(t);
    ArrowlessIff(t);
    if StartsComment(t) {
      FixArrowless(t);
    }
    ArrowlessIff(FixEmptyTds(t));
    RereadTag(a, x, y);
  }

  lemma CommentBlockAgain(a: Attributes, t: string, b: Block, x: string, y: string)
    requires Kept(a, t, b) && StartsComment(t) && Index(t, "-->") >= 0
    requires Half(b.taken, x) && FixEmptyTds(t) == x + y
    ensures Opened(a, x + y) == Block(x, x, y)
  {
    var r := Index(t, "-->");
    ArrowIs(t, r);
    CommentSame(t);
    assert ArrowEnds(b.taken);
    forall i: nat | i < |x| - 3 ensures !ArrowAt(x + y, i) {
      assert ArrowFrom(b.taken, x, i);
      EarlierArrow(t, b.taken, r, x, y, i);
    }
    FirstArrow(x + y, |x| - 3);
    assert (x + y)[..|x|] == x && (x + y)[|x|..] == y;
  }

  lemma EarlierArrow(t: string, c: string, r: nat, x: string, y: string, i: nat)
    requires r + 3 <= |t| && c == t[..r + 3] && Index(t, "-->") == r
    requires ArrowFrom(c, x, i) && i + 3 < |x|
    ensures !ArrowAt(x + y, i)
  {
    if ArrowAt(x + y, i) {
      assert ArrowAt(x, i);
      var k: nat :| ArrowAt(c, k) && (k + 3 == |c| ==> i + 3 == |x|);
      ArrowIs(t, k);
    }
  }

  lemma BlockAgain(a: Attributes, t: string, b: Block, x: string, y: string)
    requires Proper(a) && Kept(a, t, b) && IndexByte(t, '>') >= 0
    requires Half(b.taken, x) && FixEmptyTds(t) == x + y
    ensures x != "" && x[0] == '<' && Opened(a, x + y) == Block(x, x, y)
  {
    FixStarts(t);
    assert Ends(b.taken, x);
    if StartsComment(t) && Index(t, "-->") >= 0 {
      CommentBlockAgain(a, t, b, x, y);
    } else {
      TagBlockAgain(a, t, b, x, y);
    }
  }

  lemma BlockEnds(a: Attributes, t: string, b: Block)
    requires Kept(a, t, b) && IndexByte(t, '>') >= 0
    ensures EndsWell(b.taken)
  {
    if StartsComment(t) && Index(t, "-->") >= 0 {
      ArrowIs(t, Index(t, "-->"));
    }
  }

  // ---- past an empty cell ----

  lemma ClosingTag(a: Attributes, t: string)
    requires ClosesCell(t, 0)
    ensures Opened(a, t).rest == t[5..] && Opened(a, t).taken == t[..5]
  {
    assert IsAt(t, '>', 4);
    assert forall i :: 0 <= i < 4 ==> !IsAt(t, '>', i);
  }

  lemma SettledPastCell(a: Attributes, b: string)
    requires Settled(a, b) && LeadsToClose(b)
    ensures Settled(a, b[SpacesEnd(b, 0) + 5..])
  {
    var n := SpacesEnd(b, 0);
    assert IsAt(b, '<', n);
    assert forall i :: 0 <= i < n ==> !IsAt(b, '<', i);
    var before, t, block := SettledParts(a, b);
    assert b == b[..n] + t;
    ClosesAfter(b[..n], t, 0);
    ClosingTag(a, t);
    assert t[5..] == b[n + 5..];
  }

  lemma SettledFilled(a: Attributes, v: string)
    requires Settled(a, v)
    ensures Settled(a, FILLED + v)
  {
    var end := "</td>";
    assert end[..4] == "</td";
    assert IsTag(end);
    RereadTag(a, end, v);
    assert FILLED + v == "&nbsp;" + end + v;
    ReadBack(Opener(a), "&nbsp;", end, v, end + v, FILLED + v);
  }

  // ---- the result ----

  /** Filling empty cells leaves a document that a pass leaves alone one that a pass leaves alone. */
  lemma {:induction false} SettledFix(a: Attributes, s: string)
    requires Proper(a) && Settled(a, s)
    ensures Settled(a, FixEmptyTds(s))
    decreases |s|, 0
  {
    var r := FixText(s);
    if IndexByte(s, '<') >= 0 {
      var before, t, b := SettledParts(a, s);
      CopiesText(s, before, t);
      if IndexByte(t, '>') < 0 {
        NoneBefore(t, '>');
        NoCells(t);
      } else {
        BlockEnds(a, t, b);
        var x, y := Halved(b.taken, b.rest);
        SettledFollows(a, b.rest, y);
        BlockAgain(a, t, b, x, y);
        ReadBack(Opener(a), before, x, y, x + y, before + x + y);
        Grouped(before, x, y);
      }
    }
  }

  lemma {:induction false} SettledFollows(a: Attributes, b: string, y: string)
    requires Proper(a) && Settled(a, b) && Follows(b, y)
    ensures Settled(a, y)
    decreases |b|, 1
  {
    if y == FixEmptyTds(b) {
      SettledFix(a, b);
    } else {
      var rest := b[SpacesEnd(b, 0) + 5..];
      SettledPastCell(a, b);
      SettledFix(a, rest);
      SettledFilled(a, FixEmptyTds(rest));
    }
  }
}
