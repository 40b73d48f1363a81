/** The empty-cell rewrite, done twice, and done on a document cut in two. */
module OutlookCells {
  import opened Prelude
  import opened Text
  import opened Normalizer
  import opened OutlookDocument
  import opened OutlookMarks

  // ---- a tag and what follows it ----

  /** Up to its first `>`. */
  predicate Lone(h: string) {
    h != "" && h[|h| - 1] == '>' && forall i :: 0 <= i < |h| - 1 ==> h[i] != '>'
  }

  /** White space and a closing cell tag come first. */
  predicate LeadsToClose(z: string) {
    ClosesCell(z, SpacesEnd(z, 0))
  }

  lemma {:induction false} SpacesFrom(h: string, z: string, i: nat)
    requires i <= |z|
    ensures SpacesEnd(h + z, |h| + i) == |h| + SpacesEnd(z, i)
    decreases |z| - i
  {
    if i < |z| {
      assert (h + z)[|h| + i] == z[i];
      SpacesFrom(h, z, i + 1);
    }
  }

  lemma ClosesAfter(h: string, z: string, i: nat)
    ensures ClosesCell(h + z, |h| + i) <==> ClosesCell(z, i)
  {
    if i + 5 <= |z| {
      assert (h + z)[|h| + i..|h| + i + 5] == z[i..i + 5];
      assert forall k :: i <= k < i + 5 ==> (h + z)[|h| + k] == z[k];
    }
  }

  lemma LoneCell(h: string, z: string)
    requires Lone(h)
    ensures EmptyCell(h + z)
         == if OpensCell(h) && LeadsToClose(z) then Some(Cell(|h| - 1, |h| + SpacesEnd(z, 0))) else None
  {
    var s := h + z;
    assert s[|h| - 1] == '>';
    assert forall i :: 0 <= i < |h| ==> s[i] == h[i];
    assert OpensCell(s) <==> OpensCell(h);
    if OpensCell(h) {
      LoneGt(h, z);
      SpacesFrom(h, z, 0);
      ClosesAfter(h, z, SpacesEnd(z, 0));
    }
  }

  lemma LoneGt(h: string, z: string)
    requires Lone(h) && |h| >= 4
    ensures IndexByteFrom(h + z, '>', 3) == |h| - 1
  {
    var s := h + z;
    assert IsAt(s, '>', |h| - 1);
    forall i | 3 <= i < |h| - 1 ensures !IsAt(s, '>', i) {
      assert h[i] == s[i];
    }
  }

  lemma {:induction false} CopiesLone(h: string, z: string)
    requires Lone(h) && !LeadsToClose(z)
    ensures FixEmptyTds(h + z) == h + FixEmptyTds(z)
    decreases |h|
  {
    LoneCell(h, z);
    var t := h[1..];
    Copies(h + z, t + z);
    if t == "" {
      assert t + z == z;
    } else {
      LoneTail(h, t);
      CopiesLone(t, z);
    }
    Prepended(h, t, FixEmptyTds(z));
  }

  lemma LoneTail(h: string, t: string)
    requires Lone(h) && t == h[1..] && t != ""
    ensures Lone(t)
  {
    forall i | 0 <= i < |t| - 1 ensures t[i] != '>' {
      assert t[i] == h[i + 1];
    }
  }

  lemma {:induction false} NoCells(s: string)
    requires Free(s, '>')
    ensures FixEmptyTds(s) == s
    decreases |s|
  {
    if s != "" {
      NoCells(s[1..]);
    }
  }

  // ---- what the rewrite cannot make ----

  lemma ClosesSame(v: string)
    requires v != "" && v[0] == '<' && ClosesCell(FixEmptyTds(v), 0)
    ensures ClosesCell(v, 0)
  {
    if EmptyCell(v).None? {
      Copies(v, v[1..]);
      var t, u := v[1..], FixEmptyTds(v[1..]);
      ClosesFrom(FixEmptyTds(v), u);
      ClosesBefore(t, u, u[..4]);
      ClosesFrom(v, t);
    }
  }

  /** The four bytes after the `<` that make it close a cell. */
  predicate EndName(w: string) {
    |w| >= 4 && w[0] == '/' && OneOf(w[1], 't', 'T') && OneOf(w[2], 'd', 'D') && w[3] == '>'
  }

  lemma ClosesFrom(s: string, t: string)
    requires s != "" && s[0] == '<' && t == s[1..]
    ensures ClosesCell(s, 0) <==> EndName(t)
  {
  }

  lemma ClosesBefore(t: string, u: string, w: string)
    requires u == FixEmptyTds(t) && |u| >= 4 && w == u[..4] && EndName(u)
    ensures EndName(t)
  {
    FixPrefix(t, w);
    assert w <= u && w <= t;
  }

  /** Only white space can stand before the closing tag that is led to. */
  lemma StopsAt(before: string, v: string)
    requires LeadsToClose(before + v) && Free(before, '<') && v != "" && v[0] == '<'
    ensures (forall i :: 0 <= i < |before| ==> IsSpace(before[i])) && ClosesCell(v, 0)
  {
    var s := before + v;
    var j := SpacesEnd(s, 0);
    assert s[|before|] == '<';
    assert forall i :: 0 <= i < |before| ==> s[i] == before[i];
    assert j == |before|;
    ClosesAfter(before, v, 0);
  }

  lemma LeadsAfter(before: string, v: string)
    requires (forall i :: 0 <= i < |before| ==> IsSpace(before[i])) && ClosesCell(v, 0)
    ensures LeadsToClose(before + v)
  {
    var s := before + v;
    assert s[|before|] == '<';
    assert forall i :: 0 <= i < |before| ==> IsSpace(s[i]);
    ClosesAfter(before, v, 0);
  }

  lemma NoCloseBehind(before: string, v: string, fixed: string)
    requires Free(before, '<') && v != "" && v[0] == '<' && fixed == FixEmptyTds(v)
    requires LeadsToClose(before + fixed)
    ensures LeadsToClose(before + v)
  {
    FixStarts(v);
    StopsAt(before, fixed);
    ClosesSame(v);
    LeadsAfter(before, v);
  }

  lemma NoCloseMade(w: string)
    requires LeadsToClose(FixEmptyTds(w))
    ensures LeadsToClose(w)
  {
    var r := FixText(w);
    if r < |w| {
      var before, v := w[..r], w[r..];
      assert w == before + v;
      NoCloseBehind(before, v, FixEmptyTds(v));
    }
  }

  /** A text without `<` is in front after the rewrite if it was before. */
  lemma FixPrefix(t: string, w: string)
    requires Free(w, '<')
    ensures w <= t <==> w <= FixEmptyTds(t)
  {
    var r := FixText(t);
    SamePrefix(t, FixEmptyTds(t), w, r);
  }

  lemma SamePrefix(t: string, u: string, w: string, r: nat)
    requires Free(w, '<') && r <= |t| && r <= |u| && t[..r] == u[..r]
    requires if r < |t| then t[r] == '<' && r < |u| && u[r] == '<' else t == u
    ensures w <= t <==> w <= u
  {
    assert forall i :: 0 <= i < r ==> t[..r][i] == t[i] == u[i];
    if r < |t| {
      assert w <= t || w <= u ==> |w| <= r;
      assert w <= t ==> w == t[..|w|];
      assert w <= u ==> w == u[..|w|];
    }
  }

  /** The two letters after a `<` that make it open a cell. */
  lemma OpensSame(s: string)
    requires s != "" && EmptyCell(s).None?
    ensures OpensCell(FixEmptyTds(s)) <==> OpensCell(s)
  {
    var t := s[1..];
    FixPrefix(t, "td");
    FixPrefix(t, "tD");
    FixPrefix(t, "Td");
    FixPrefix(t, "TD");
    OpensIff(s, t);
    OpensIff([s[0]] + FixEmptyTds(t), FixEmptyTds(t));
  }

  lemma OpensIff(s: string, t: string)
    requires s != "" && t == s[1..]
    ensures OpensCell(s) <==> s[0] == '<' && ("td" <= t || "tD" <= t || "Td" <= t || "TD" <= t)
  {
    if |s| >= 3 {
      assert t[..2] == [s[1], s[2]];
      assert "td"[..2] == "td" && "td"[0] == 't' && "td"[1] == 'd';
    }
  }

  // ---- twice is once ----

  lemma FixedCell(head: string, y: string)
    requires Lone(head)
    ensures FixEmptyTds(head + FILLED + y) == head + FILLED + FixEmptyTds(y)
  {
    Grouped(head, FILLED, y);
    Grouped(head, FILLED, FixEmptyTds(y));
    NotLed(FILLED + y);
    CopiesLone(head, FILLED + y);
    CopiesFilled(y);
  }

  lemma Grouped(a: string, b: string, c: string)
    ensures a + b + c == a + (b + c)
  {
  }

  lemma CopiesFilled(y: string)
    ensures FixEmptyTds(FILLED + y) == FILLED + FixEmptyTds(y)
  {
    var end := "</td>" + y;
    assert FILLED == "&nbsp;" + "</td>";
    Grouped("&nbsp;", "</td>", y);
    CopiesText(FILLED + y, "&nbsp;", end);
    assert "<" + "/td>" == "</td>";
    CopiesEnd("/td>", y);
    Grouped("&nbsp;", "</td>", FixEmptyTds(y));
  }

  /** A closing tag opens no cell. */
  lemma CopiesEnd(name: string, y: string)
    requires name != "" && name[0] == '/' && Free(name, '<')
    ensures FixEmptyTds("<" + name + y) == "<" + name + FixEmptyTds(y)
  {
    var end := "<" + name + y;
    assert end[1] == '/' && end[1..] == name + y;
    Copies(end, name + y);
    CopiesText(name + y, name, y);
    Grouped("<", name, FixEmptyTds(y));
  }

  lemma NotLed(z: string)
    requires z != "" && z[0] == '&'
    ensures !LeadsToClose(z)
  {
  }

  /** Past an empty cell, a tag that opens a cell, or a byte. */
  function Next(s: string): (t: string)
    requires s != ""
    ensures |t| < |s|
  {
    match EmptyCell(s)
    case Some(c) => s[c.close + 5..]
    case None => if OpensCell(s) && IndexByte(s, '>') >= 0 then s[IndexByte(s, '>') + 1..] else s[1..]
  }

  ghost predicate Fixed(u: string) {
    FixEmptyTds(u) == u
  }

  /** Filling empty cells leaves none to fill. */
  lemma {:induction false} FixTwice(s: string)
    ensures Fixed(FixEmptyTds(s))
    decreases |s|
  {
    if s != "" {
      FixTwice(Next(s));
      if EmptyCell(s).Some? {
        FixTwiceCell(s, EmptyCell(s).value, Next(s));
      } else if !OpensCell(s) {
        FixTwiceByte(s, Next(s));
      } else {
        FixTwiceTag(s);
      }
    }
  }

  lemma FixTwiceCell(s: string, c: Cell, t: string)
    requires EmptyCell(s) == Some(c) && t == s[c.close + 5..] && Fixed(FixEmptyTds(t))
    ensures Fixed(FixEmptyTds(s))
  {
    var head := "<td" + s[3..c.gt] + ">";
    CellTag(s, c);
    Fills(s, c, head, t);
    FixedCell(head, FixEmptyTds(t));
  }

  lemma FixTwiceByte(s: string, t: string)
    requires s != "" && t == s[1..] && !OpensCell(s) && Fixed(FixEmptyTds(t))
    ensures Fixed(FixEmptyTds(s))
  {
    OpensSame(s);
    Copies(s, t);
    Copies([s[0]] + FixEmptyTds(t), FixEmptyTds(t));
  }

  lemma FixTwiceTag(s: string)
    requires OpensCell(s) && EmptyCell(s).None? && Fixed(FixEmptyTds(Next(s)))
    ensures Fixed(FixEmptyTds(s))
  {
    var gt := IndexByte(s, '>');
    if gt < 0 {
      NoneBefore(s, '>');
      NoCells(s);
    } else {
      LoneFront(s, gt);
      KeepsTag(s, s[..gt + 1], s[gt + 1..]);
    }
  }

  lemma LoneFront(s: string, gt: nat)
    requires IndexByte(s, '>') == gt
    ensures Lone(s[..gt + 1])
  {
    var h := s[..gt + 1];
    forall i | 0 <= i < gt ensures h[i] != '>' {
      assert !IsAt(s, '>', i);
    }
  }

  lemma KeepsTag(s: string, h: string, z: string)
    requires s == h + z && Lone(h) && OpensCell(h) && EmptyCell(s).None? && Fixed(FixEmptyTds(z))
    ensures Fixed(FixEmptyTds(s))
  {
    LoneCell(h, z);
    CopiesLone(h, z);
    NoCloseIfNone(z);
    CopiesLone(h, FixEmptyTds(z));
  }

  lemma NoCloseIfNone(z: string)
    requires !LeadsToClose(z)
    ensures !LeadsToClose(FixEmptyTds(z))
  {
    if LeadsToClose(FixEmptyTds(z)) {
      NoCloseMade(z);
    }
  }

  lemma CellTag(s: string, c: Cell)
    requires EmptyCell(s) == Some(c)
    ensures Lone("<td" + s[3..c.gt] + ">")
  {
    var h := "<td" + s[3..c.gt] + ">";
    forall i | 0 <= i < |h| - 1 ensures h[i] != '>' {
      if i >= 3 {
        assert !IsAt(s, '>', i);
        assert h[i] == s[i];
      }
    }
  }
}
