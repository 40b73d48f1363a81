/** The empty-cell rewrite of a document that is cut after a `>`. */
module OutlookHalves {
  import opened Prelude
  import opened Text
  import opened Normalizer
  import opened OutlookDocument
  import opened OutlookMarks
  import opened OutlookCells

  // ---- what the rewrite keeps of the part before the cut ----

  /** The same but for the case of a cell's name. */
  predicate AlikeAt(c: char, d: char) {
    c == d || (OneOf(c, 't', 'T') && d == 't') || (OneOf(c, 'd', 'D') && d == 'd')
  }

  ghost predicate Alike(a: string, x: string) {
    |a| == |x| && forall i :: 0 <= i < |a| ==> AlikeAt(a[i], x[i])
  }

  ghost predicate ArrowEnds(a: string) {
    |a| >= 3 && ArrowAt(a, |a| - 3)
  }

  /** An end stays an end, a single tag stays one, and an arrow at the end stays there. */
  ghost predicate Ends(a: string, x: string) {
    && EndsWell(x) && (a == "" <==> x == "")
    && (Lone(a) ==> Alike(a, x)) && (ArrowEnds(a) ==> ArrowEnds(x))
  }

  ghost predicate SameFront(a: string, x: string, w: string) {
    Free(w, '<') ==> (w <= a <==> w <= x)
  }

  /** An arrow comes from an arrow, one before the end from one before the end. */
  ghost predicate ArrowFrom(a: string, x: string, i: nat) {
    ArrowAt(x, i) ==> exists k: nat :: ArrowAt(a, k) && (k + 3 == |a| ==> i + 3 == |x|)
  }

  /** A word no empty cell can lie across: within a cell's text it can only stand in the opening tag. */
  predicate Sticky(w: string) {
    w != "" && Markless(w) && '=' in w && !OneOf(w[0], 't', 'T') && !OneOf(w[0], 'd', 'D')
  }

  ghost predicate WordKept(a: string, x: string, w: string) {
    Sticky(w) && Contains(a, w) ==> Contains(x, w)
  }

  ghost predicate Half(a: string, x: string) {
    && Ends(a, x)
    && (forall w: string :: SameFront(a, x, w))
    && (forall i: nat :: ArrowFrom(a, x, i))
    && (forall w: string :: WordKept(a, x, w))
  }

  // ---- past a byte ----

  lemma EndsByte(a: string, t: string, x: string)
    requires a != "" && t == a[1..] && EndsWell(a) && Ends(t, x) && forall w: string :: SameFront(t, x, w)
    ensures Ends(a, [a[0]] + x)
  {
    if Lone(a) && t != "" {
      LoneTail(a, t);
    }
    if ArrowEnds(a) && |a| == 3 {
      assert SameFront(t, x, "->");
      assert Lone(t);
    }
  }

  lemma FrontByte(a: string, t: string, x: string, w: string)
    requires a != "" && t == a[1..] && forall v: string :: SameFront(t, x, v)
    ensures SameFront(a, [a[0]] + x, w)
  {
    if w != "" {
      var v := w[1..];
      assert SameFront(t, x, v);
      PrefixByte(a, t, w, v);
      PrefixByte([a[0]] + x, x, w, v);
    }
  }

  lemma PrefixByte(a: string, t: string, w: string, v: string)
    requires a != "" && w != "" && t == a[1..] && v == w[1..]
    ensures w <= a <==> w[0] == a[0] && v <= t
  {
    assert a == [a[0]] + t && w == [w[0]] + v;
    if |v| <= |t| {
      assert a[..|w|] == [a[0]] + t[..|v|];
    }
  }

  lemma ArrowByte(a: string, t: string, x: string, i: nat)
    requires a != "" && t == a[1..] && Ends(t, x) && EndsWell(a)
    requires forall w: string :: SameFront(t, x, w)
    requires forall j: nat :: ArrowFrom(t, x, j)
    ensures ArrowFrom(a, [a[0]] + x, i)
  {
    var u := [a[0]] + x;
    if ArrowAt(u, i) {
      if i == 0 {
        assert SameFront(t, x, "->");
        ArrowFront(u, x);
        ArrowFront(a, t);
        if |a| == 3 {
          assert Lone(t);
        }
        assert ArrowAt(a, 0);
      } else {
        assert ArrowFrom(t, x, i - 1);
        assert ArrowAt(x, i - 1);
        var k: nat :| ArrowAt(t, k) && (k + 3 == |t| ==> i - 1 + 3 == |x|);
        assert ArrowAt(a, k + 1);
      }
    }
  }

  lemma ArrowFront(s: string, t: string)
    requires s != "" && t == s[1..]
    ensures ArrowAt(s, 0) <==> s[0] == '-' && "->" <= t
  {
    if |t| >= 2 {
      assert t[..2] == [s[1], s[2]];
    }
  }

  lemma WordByte(a: string, t: string, x: string, w: string)
    requires a != "" && t == a[1..] && forall v: string :: SameFront(t, x, v)
    requires forall v: string :: WordKept(t, x, v)
    ensures WordKept(a, [a[0]] + x, w)
  {
    if Sticky(w) && Contains(a, w) {
      var k := Index(a, w);
      var u := [a[0]] + x;
      if k == 0 {
        FrontByte(a, t, x, w);
        assert w <= a && SameFront(a, u, w);
        assert At(u, w, 0);
      } else {
        AtTail(a, w, k, t, 1);
        assert WordKept(t, x, w);
        AtAfter([a[0]], x, w, Index(x, w));
      }
    }
  }

  lemma HalfByte(a: string, t: string, x: string)
    requires a != "" && t == a[1..] && EndsWell(a) && Half(t, x)
    ensures Half(a, [a[0]] + x)
  {
    EndsByte(a, t, x);
    forall w: string ensures SameFront(a, [a[0]] + x, w) { FrontByte(a, t, x, w); }
    forall i: nat ensures ArrowFrom(a, [a[0]] + x, i) { ArrowByte(a, t, x, i); }
    forall w: string ensures WordKept(a, [a[0]] + x, w) { WordByte(a, t, x, w); }
  }

  lemma AtTail(a: string, w: string, k: nat, t: string, n: nat)
    requires At(a, w, k) && n <= k && n <= |a| && t == a[n..]
    ensures At(t, w, k - n)
  {
    assert t[k - n..k - n + |w|] == a[k..k + |w|];
  }

  lemma AtAfter(before: string, x: string, w: string, k: nat)
    requires At(x, w, k)
    ensures At(before + x, w, |before| + k)
  {
    assert (before + x)[|before| + k..|before| + k + |w|] == x[k..k + |w|];
  }

  lemma AtBefore(x: string, after: string, w: string, k: nat)
    requires At(x, w, k)
    ensures At(x + after, w, k)
  {
    assert (x + after)[k..k + |w|] == x[k..k + |w|];
  }

  // ---- past an empty cell ----

  /** A text that starts with an empty cell, for whose opening tag `head` is written. */
  ghost predicate CellFirst(a: string, c: Cell, head: string, t: string) {
    && OpensCell(a) && 3 <= c.gt < c.close && ClosesCell(a, c.close) && t == a[c.close + 5..]
    && a[c.gt] == '>' && (forall i :: 3 <= i < c.gt ==> a[i] != '>')
    && (forall i :: c.gt < i < c.close ==> IsSpace(a[i]))
    && |head| == c.gt + 1 && head[0] == '<' && head[1] == 't' && head[2] == 'd'
    && forall i :: 3 <= i <= c.gt ==> head[i] == a[i]
  }

  lemma EndsCell(a: string, c: Cell, head: string, t: string, x: string)
    requires CellFirst(a, c, head, t) && EndsWell(a) && Ends(t, x)
    ensures Ends(a, head + FILLED + x)
  {
    assert FILLED[|FILLED| - 1] == '>';
    assert (head + FILLED)[|head + FILLED| - 1] == '>';
    assert !Lone(a);
    if ArrowEnds(a) {
      assert a[c.close + 4] == '>' && a[c.close + 3] != '-';
      assert a[|a| - 3] == '-' && a[|a| - 2] == '-' && a[|a| - 1] == '>';
      assert |t| >= 3;
    }
  }

  lemma FrontCell(a: string, c: Cell, head: string, t: string, x: string, w: string)
    requires CellFirst(a, c, head, t)
    ensures SameFront(a, head + FILLED + x, w)
  {
    assert (head + FILLED + x)[0] == '<';
  }

  lemma ArrowPastCell(head: string, y: string, i: nat)
    requires Lone(head) && ArrowAt(head + FILLED + y, i)
    ensures (i < |head| ==> i + 3 == |head| && ArrowAt(head, i))
    ensures i >= |head| ==> i >= |head| + |FILLED| && ArrowAt(y, i - |head| - |FILLED|)
  {
    var s := head + FILLED + y;
    assert s[|head| - 1] == '>';
    assert |FILLED| == 11 && s[|head| + 10] == FILLED[10] == '>' && s[|head| + 9] == FILLED[9] == 'd';
    assert forall j :: |head| <= j < |head| + 10 ==> s[j] == FILLED[j - |head|] != '>';
  }

  lemma ArrowCell(a: string, c: Cell, head: string, t: string, x: string, i: nat)
    requires CellFirst(a, c, head, t) && forall j: nat :: ArrowFrom(t, x, j)
    ensures ArrowFrom(a, head + FILLED + x, i)
  {
    if ArrowAt(head + FILLED + x, i) {
      ArrowPastCell(head, x, i);
      if i < |head| {
        assert ArrowAt(a, i);
      } else {
        var j := i - |head| - |FILLED|;
        assert ArrowFrom(t, x, j);
        var k: nat :| ArrowAt(t, k) && (k + 3 == |t| ==> j + 3 == |x|);
        assert ArrowAt(a, k + c.close + 5);
      }
    }
  }

  lemma WordInCell(a: string, c: Cell, head: string, t: string, w: string, k: nat)
    requires CellFirst(a, c, head, t) && Sticky(w) && At(a, w, k) && k < c.close + 5
    ensures At(head, w, k)
  {
    assert forall i :: 0 <= i < |w| ==> a[k + i] == a[k..k + |w|][i] == w[i];
    assert a[k] == w[0];
    var e :| 0 <= e < |w| && w[e] == '=';
    assert a[k + e] == '=';
    assert a[c.close + 4] == '>';
    assert forall i :: c.gt <= i < c.close + 5 ==> a[i] != '=';
    forall i | k <= i < k + |w| ensures a[i] != '>' {
      assert a[k + (i - k)] == w[i - k];
    }
    assert 3 <= k && k + |w| <= c.gt;
    assert head[k..k + |w|] == a[k..k + |w|];
  }

  lemma WordCell(a: string, c: Cell, head: string, t: string, x: string, w: string)
    requires CellFirst(a, c, head, t) && forall v: string :: WordKept(t, x, v)
    ensures WordKept(a, head + FILLED + x, w)
  {
    if Sticky(w) && Contains(a, w) {
      var k := Index(a, w);
      if k < c.close + 5 {
        WordInCell(a, c, head, t, w, k);
        AtBefore(head, FILLED, w, k);
        AtBefore(head + FILLED, x, w, k);
      } else {
        AtTail(a, w, k, t, c.close + 5);
        assert WordKept(t, x, w);
        AtAfter(head + FILLED, x, w, Index(x, w));
      }
    }
  }

  lemma HalfCell(a: string, c: Cell, head: string, t: string, x: string)
    requires CellFirst(a, c, head, t) && EndsWell(a) && Half(t, x)
    ensures Half(a, head + FILLED + x)
  {
    var u := head + FILLED + x;
    EndsCell(a, c, head, t, x);
    forall w: string ensures SameFront(a, u, w) { FrontCell(a, c, head, t, x, w); }
    forall i: nat ensures ArrowFrom(a, u, i) { ArrowCell(a, c, head, t, x, i); }
    forall w: string ensures WordKept(a, u, w) { WordCell(a, c, head, t, x, w); }
  }

  // ---- a cell across the cut ----

  lemma WordRecased(a: string, x: string, w: string)
    requires |a| >= 4 && OpensCell(a) && x == "<td" + a[3..]
    ensures WordKept(a, x, w)
  {
    if Sticky(w) && Contains(a, w) {
      var k := Index(a, w);
      assert a[k] == a[k..k + |w|][0] == w[0];
      assert w[0] != '<' && a[0] == '<' && OneOf(a[1], 't', 'T') && OneOf(a[2], 'd', 'D');
      assert k >= 3;
      assert x[k..k + |w|] == a[k..k + |w|];
      assert At(x, w, k);
    }
  }

  lemma HalfCut(a: string, x: string)
    requires Lone(a) && OpensCell(a) && x == "<td" + a[3..]
    ensures Half(a, x)
  {
    assert |a| >= 4;
    assert x[0] == '<' && x[1] == 't' && x[2] == 'd' && forall i :: 3 <= i < |a| ==> x[i] == a[i];
    forall i: nat ensures ArrowFrom(a, x, i) {
      assert ArrowAt(x, i) ==> ArrowAt(a, i);
    }
    forall w: string ensures WordKept(a, x, w) { WordRecased(a, x, w); }
  }

  lemma HalfNothing()
    ensures Half("", "")
  {
  }

  // ---- the document in two halves ----

  /** A cell that starts before the cut and does not end before it has its opening tag before it. */
  lemma CellAtCut(a: string, b: string, c: Cell)
    requires EndsWell(a) && a != "" && EmptyCell(a + b) == Some(c) && c.close + 5 > |a|
    ensures c.gt == |a| - 1 && Lone(a) && OpensCell(a)
  {
    var s := a + b;
    var i := |a| - 1;
    assert s[i] == '>';
    assert forall k :: 3 <= k && IsAt(s, '>', k) ==> c.gt <= k;
    assert IsAt(s, '>', i);
    assert i < c.close + 4;
    assert i >= 3;
    assert i >= c.gt;
    assert forall k :: c.gt < k < c.close ==> IsSpace(s[k]);
    assert forall k :: 0 <= k < |a| ==> s[k] == a[k];
    forall k | 0 <= k < i ensures a[k] != '>' {
      assert k >= 3 ==> !IsAt(s, '>', k);
    }
  }

  lemma CellIsFirst(a: string, b: string, c: Cell, head: string, t: string)
    requires EmptyCell(a + b) == Some(c) && c.close + 5 <= |a|
    requires head == "<td" + a[3..c.gt] + ">" && t == a[c.close + 5..]
    ensures CellFirst(a, c, head, t) && head == "<td" + (a + b)[3..c.gt] + ">" && Lone(head)
  {
    var s := a + b;
    assert forall k :: 0 <= k < |a| ==> s[k] == a[k];
    assert s[3..c.gt] == a[3..c.gt];
    assert IsAt(s, '>', c.gt);
    forall k | 3 <= k < c.gt ensures a[k] != '>' {
      assert !IsAt(s, '>', k);
    }
    forall k | c.gt < k < c.close ensures IsSpace(a[k]) {
      assert IsSpace(s[k]);
    }
    CellTag(s, c);
  }

  /** What the rewrite of `a + b` makes of `b`: the same as of `b` alone, unless a cell runs across the cut. */
  ghost predicate Follows(b: string, y: string) {
    || y == FixEmptyTds(b)
    || (LeadsToClose(b) && y == FILLED + FixEmptyTds(b[SpacesEnd(b, 0) + 5..]))
  }

  /** `a + b` is rewritten to `x + y`. */
  ghost predicate Written(a: string, b: string, x: string, y: string) {
    FixEmptyTds(a + b) == x + y
  }

  lemma {:induction false} Halved(a: string, b: string) returns (x: string, y: string)
    requires EndsWell(a)
    ensures Written(a, b, x, y) && Follows(b, y) && Half(a, x)
    decreases |a|
  {
    if a == "" {
      x, y := "", FixEmptyTds(b);
      assert a + b == b && x + y == y;
      HalfNothing();
    } else if EmptyCell(a + b).None? {
      x, y := Halved(a[1..], b);
      HalvedByte(a, b, a[1..], x, y);
      HalfByte(a, a[1..], x);
      x := [a[0]] + x;
    } else {
      var c := EmptyCell(a + b).value;
      if c.close + 5 <= |a| {
        var head, t := "<td" + a[3..c.gt] + ">", a[c.close + 5..];
        x, y := Halved(t, b);
        CellIsFirst(a, b, c, head, t);
        HalvedCell(a, b, c, head, t, x, y);
        HalfCell(a, c, head, t, x);
        x := head + FILLED + x;
      } else {
        CellAtCut(a, b, c);
        x, y := "<td" + a[3..], FILLED + FixEmptyTds((a + b)[c.close + 5..]);
        HalvedAtCut(a, b, c, x, y);
        HalfCut(a, x);
      }
    }
  }

  lemma HalvedByte(a: string, b: string, t: string, x: string, y: string)
    requires a != "" && EmptyCell(a + b).None? && t == a[1..] && Written(t, b, x, y)
    ensures Written(a, b, [a[0]] + x, y)
  {
    assert (a + b)[1..] == t + b;
    Copies(a + b, t + b);
    Grouped([a[0]], x, y);
  }

  lemma HalvedCell(a: string, b: string, c: Cell, head: string, t: string, x: string, y: string)
    requires EmptyCell(a + b) == Some(c) && c.close + 5 <= |a| && t == a[c.close + 5..]
    requires head == "<td" + (a + b)[3..c.gt] + ">" && Written(t, b, x, y)
    ensures Written(a, b, head + FILLED + x, y)
  {
    assert (a + b)[c.close + 5..] == t + b;
    Fills(a + b, c, head, t + b);
    Grouped(head + FILLED, x, y);
  }

  lemma HalvedAtCut(a: string, b: string, c: Cell, x: string, y: string)
    requires EmptyCell(a + b) == Some(c) && c.gt == |a| - 1
    requires x == "<td" + a[3..] && y == FILLED + FixEmptyTds((a + b)[c.close + 5..])
    ensures Written(a, b, x, y) && Follows(b, y)
  {
    var n := SpacesEnd(b, 0);
    SpacesFrom(a, b, 0);
    ClosesAfter(a, b, n);
    assert (a + b)[c.close + 5..] == b[n + 5..];
    assert IsAt(a + b, '>', c.gt);
    HeadAtCut(a, b, c.gt, "<td");
    Fills(a + b, c, x, b[n + 5..]);
    Grouped(x, FILLED, FixEmptyTds(b[n + 5..]));
  }

  lemma HeadAtCut(a: string, b: string, gt: nat, name: string)
    requires 3 <= gt == |a| - 1 && a[gt] == '>'
    ensures name + (a + b)[3..gt] + ">" == name + a[3..]
  {
    assert a[3..] == (a + b)[3..gt] + ">";
  }

  // ---- arrows ----

  lemma ArrowOfCell(s: string, c: Cell, head: string, t: string, i: nat)
    requires EmptyCell(s) == Some(c) && head == "<td" + s[3..c.gt] + ">" && t == s[c.close + 5..]
    requires ArrowAt(FixEmptyTds(s), i)
    ensures i < |head| ==> ArrowAt(s, i)
    ensures i >= |head| ==> i >= |head| + |FILLED| && ArrowAt(FixEmptyTds(t), i - |head| - |FILLED|)
  {
    Fills(s, c, head, t);
    assert s + "" == s;
    CellIsFirst(s, "", c, head, t);
    ArrowPastCell(head, FixEmptyTds(t), i);
  }

  lemma ArrowOfByte(s: string, t: string, i: nat)
    requires s != "" && EmptyCell(s).None? && t == s[1..] && ArrowAt(FixEmptyTds(s), i)
    ensures if i == 0 then ArrowAt(s, 0) else ArrowAt(FixEmptyTds(t), i - 1)
  {
    Copies(s, t);
    if i == 0 {
      FixPrefix(t, "->");
      ArrowFront(s, t);
      ArrowFront([s[0]] + FixEmptyTds(t), FixEmptyTds(t));
    }
  }

  /** The rewrite makes no arrow. */
  lemma {:induction false} FixArrow(s: string, i: nat) returns (k: nat)
    requires ArrowAt(FixEmptyTds(s), i)
    ensures ArrowAt(s, k)
    decreases |s|
  {
    if EmptyCell(s).None? {
      ArrowOfByte(s, s[1..], i);
      if i == 0 {
        k := 0;
      } else {
        k := FixArrow(s[1..], i - 1);
        k := k + 1;
      }
    } else {
      var c := EmptyCell(s).value;
      var head, t := "<td" + s[3..c.gt] + ">", s[c.close + 5..];
      ArrowOfCell(s, c, head, t, i);
      if i < |head| {
        k := i;
      } else {
        k := FixArrow(t, i - |head| - |FILLED|);
        k := k + c.close + 5;
      }
    }
  }

  lemma FixArrowless(s: string)
    requires Arrowless(s)
    ensures Arrowless(FixEmptyTds(s))
  {
    forall i: nat ensures !ArrowAt(FixEmptyTds(s), i) {
      if ArrowAt(FixEmptyTds(s), i) {
        var k := FixArrow(s, i);
      }
    }
  }
}
