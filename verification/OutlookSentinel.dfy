/** No rewrite makes a sentinel out of a document that holds none. */
module OutlookSentinel {
  import opened Prelude
  import opened Text
  import opened Normalizer
  import opened OutlookDocument
  import opened OutlookMarks

  lemma UnmarkedIs(s: string)
    ensures !AlreadyConverted(s) <==> forall k: nat :: !SentinelAt(s, k)
  {
    SentinelIsContained(s);
  }

  /** Across a place before a `<` or after a `>` no sentinel can run. */
  predicate Cut(a: string, b: string) {
    a == "" || b == "" || a[|a| - 1] == '>' || b[0] == '<'
  }

  lemma UnmarkedConcat(a: string, b: string)
    requires !AlreadyConverted(a) && !AlreadyConverted(b) && Cut(a, b)
    ensures !AlreadyConverted(a + b)
  {
    UnmarkedIs(a);
    UnmarkedIs(b);
    UnmarkedIs(a + b);
    forall k: nat ensures !SentinelAt(a + b, k) {
      NotAcross(a, b, k);
    }
  }

  lemma NotAcross(a: string, b: string, k: nat)
    requires !SentinelAt(a, k) && Cut(a, b)
    requires k >= |a| ==> !SentinelAt(b, k - |a|)
    ensures !SentinelAt(a + b, k)
  {
    var s := a + b;
    if k + 21 <= |a| {
      assert s[k..k + 21] == a[k..k + 21];
    } else if k >= |a| {
      if k + 21 <= |s| {
        assert s[k..k + 21] == b[k - |a|..k - |a| + 21];
      }
    } else {
      if b != "" {
        assert s[|a| - 1] == a[|a| - 1] && s[|a|] == b[0];
      }
      ShapeIf(s, k);
    }
  }

  /** What holds wherever a sentinel stands. */
  lemma ShapeIf(s: string, k: nat)
    ensures SentinelAt(s, k) ==>
      && s[k] == '<' && s[k + 1] == '!' && s[k + 19] == '-' && s[k + 20] == '>'
      && forall i :: k < i < k + 20 ==> s[i] != '<' && s[i] != '>'
  {
    if SentinelAt(s, k) {
      SentinelShape(s, k);
      assert s[k..k + 21][19] == '-';
    }
  }

  lemma SliceOfSlice(s: string, i: nat, j: nat, k: nat)
    requires i + k + 21 <= j <= |s|
    ensures s[i..j][k..k + 21] == s[i + k..i + k + 21]
  {
    var x, y := s[i..j][k..k + 21], s[i + k..i + k + 21];
    forall n | 0 <= n < 21 ensures x[n] == y[n] {
    }
  }

  lemma UnmarkedSlice(s: string, i: nat, j: nat)
    requires !AlreadyConverted(s) && i <= j <= |s|
    ensures !AlreadyConverted(s[i..j])
  {
    UnmarkedIs(s);
    UnmarkedIs(s[i..j]);
    forall k: nat ensures !SentinelAt(s[i..j], k) {
      assert !SentinelAt(s, i + k);
      if i + k + 21 <= j {
        SliceOfSlice(s, i, j, k);
      }
    }
  }

  lemma UnmarkedWithoutBang(s: string)
    requires Free(s, '!')
    ensures !AlreadyConverted(s)
  {
    UnmarkedIs(s);
    forall k: nat ensures !SentinelAt(s, k) {
      ShapeIf(s, k);
    }
  }

  /** Text put in before the only `>` from the last `<` on, not ending in a dash. */
  lemma UnmarkedInsert(a: string, x: string, b: string)
    requires !AlreadyConverted(a) && Markless(x) && x != "" && x[|x| - 1] != '-'
    requires b == ">" || b == "/>"
    ensures !AlreadyConverted(a + x + b)
  {
    var s := a + x + b;
    UnmarkedIs(a);
    UnmarkedIs(s);
    assert forall i :: |a| <= i < |a| + |x| ==> s[i] == x[i - |a|];
    assert s[|a| + |x|..] == b;
    assert forall i :: |a| + |x| <= i < |s| ==> s[i] == b[i - |a| - |x|];
    forall k: nat ensures !SentinelAt(s, k) {
      assert !SentinelAt(a, k);
      if k + 21 <= |a| {
        assert s[k..k + 21] == a[k..k + 21];
      } else {
        ShapeIf(s, k);
      }
    }
  }

  // ---- the normaliser ----

  lemma UnmarkedFrom(s: string, i: nat)
    requires !AlreadyConverted(s) && i <= |s|
    ensures !AlreadyConverted(s[i..])
  {
    UnmarkedSlice(s, i, |s|);
    assert s[i..|s|] == s[i..];
  }

  lemma UnmarkedTo(s: string, j: nat)
    requires !AlreadyConverted(s) && j <= |s|
    ensures !AlreadyConverted(s[..j])
  {
    UnmarkedSlice(s, 0, j);
    assert s[0..j] == s[..j];
  }

  ghost predicate Quiet(a: Attributes) {
    Proper(a) && MarklessAttributes(a)
  }

  lemma UnmarkedRewritten(a: Attributes, tag: string)
    requires Quiet(a) && IsTag(tag) && !AlreadyConverted(tag)
    ensures !AlreadyConverted(Rewritten(a, tag))
  {
    var c := Closing(tag);
    UnmarkedTo(tag, c);
    assert tag[c..] == ">" || tag[c..] == "/>";
    UnmarkedInsert(tag[..c], a.table, tag[c..]);
    UnmarkedInsert(tag[..c], a.img, tag[c..]);
  }

  lemma UnmarkedOpened(a: Attributes, t: string)
    requires Quiet(a) && t != "" && t[0] == '<' && !AlreadyConverted(t)
    ensures !AlreadyConverted(Opened(a, t).out)
  {
    if StartsComment(t) && Index(t, "-->") >= 0 {
      UnmarkedTo(t, Index(t, "-->") + 3);
    } else if IndexByte(t, '>') < 0 {
    } else {
      var gt := IndexByte(t, '>');
      NoneBefore(t, '>');
      UnmarkedTo(t, gt + 1);
      var tag := t[..gt + 1];
      assert tag[..|tag| - 1] == t[..gt];
      UnmarkedRewritten(a, tag);
    }
  }

  ghost predicate StaysUnmarked(open: string -> Block, t: string) {
    t != "" && t[0] == '<' ==> Framed(open(t)) && (!AlreadyConverted(t) ==> !AlreadyConverted(open(t).out))
  }

  lemma {:induction false} UnmarkedWalk(open: string -> Block, src: string)
    requires Advancing(open) && forall t: string :: StaysUnmarked(open, t)
    requires !AlreadyConverted(src)
    ensures !AlreadyConverted(Walk(open, src))
    decreases |src|
  {
    var lt := IndexByte(src, '<');
    if lt >= 0 {
      var text, t := src[..lt], src[lt..];
      var b := open(t);
      assert StaysUnmarked(open, t);
      assert t == b.taken + b.rest;
      UnmarkedTo(src, lt);
      UnmarkedFrom(src, lt);
      UnmarkedFrom(t, |b.taken|);
      UnmarkedWalk(open, b.rest);
      UnmarkedTurn(text, b, Walk(open, b.rest));
    }
  }

  lemma UnmarkedTurn(text: string, b: Block, next: string)
    requires !AlreadyConverted(text) && !AlreadyConverted(b.out) && !AlreadyConverted(next)
    requires Framed(b) && (b.rest == "" ==> next == "")
    ensures !AlreadyConverted(text + b.out + next)
  {
    UnmarkedConcat(text, b.out);
    assert (text + b.out)[|text + b.out| - 1] == b.out[|b.out| - 1];
    UnmarkedConcat(text + b.out, next);
  }

  lemma UnmarkedNormalize(a: Attributes, src: string)
    requires Quiet(a) && !AlreadyConverted(src)
    ensures !AlreadyConverted(Normalize(a, src))
  {
    forall t: string ensures StaysUnmarked(Opener(a), t) {
      if t != "" && t[0] == '<' {
        OpenedIsFramed(a, t);
        if !AlreadyConverted(t) {
          UnmarkedOpened(a, t);
        }
      }
    }
    UnmarkedWalk(Opener(a), src);
  }

  // ---- the empty-cell rewrite ----

  lemma {:induction false} UnmarkedFix(s: string)
    requires !AlreadyConverted(s)
    ensures !AlreadyConverted(FixEmptyTds(s))
    decreases |s|
  {
    if s != "" {
      if EmptyCell(s).None? {
        var t := s[1..];
        UnmarkedFrom(s, 1);
        UnmarkedFix(t);
        Copies(s, t);
        UnmarkedCopy(s, t, FixEmptyTds(t));
      } else {
        var c := EmptyCell(s).value;
        var t := s[c.close + 5..];
        UnmarkedFrom(s, c.close + 5);
        UnmarkedFix(t);
        Fills(s, c, "<td" + s[3..c.gt] + ">", t);
        UnmarkedFixedCell(s, c, FixEmptyTds(t));
      }
    }
  }

  lemma UnmarkedFixedCell(s: string, c: Cell, fixed: string)
    requires !AlreadyConverted(s) && EmptyCell(s) == Some(c) && !AlreadyConverted(fixed)
    ensures !AlreadyConverted(("<td" + s[3..c.gt] + ">") + "&nbsp;</td>" + fixed)
  {
    UnmarkedHead(s, c);
    UnmarkedCell("<td" + s[3..c.gt] + ">", fixed);
  }

  lemma UnmarkedCell(head: string, fixed: string)
    requires head != "" && head[|head| - 1] == '>' && !AlreadyConverted(head) && !AlreadyConverted(fixed)
    ensures !AlreadyConverted(head + "&nbsp;</td>" + fixed)
  {
    UnmarkedWithoutBang("&nbsp;</td>");
    UnmarkedConcat(head, "&nbsp;</td>");
    assert (head + "&nbsp;</td>")[|head| + 10] == '>';
    UnmarkedConcat(head + "&nbsp;</td>", fixed);
  }

  lemma ShiftedBack(p: string, x: string, k: nat)
    requires k >= |p| && SentinelAt(p + x, k)
    ensures SentinelAt(x, k - |p|)
  {
    assert x[k - |p|..k - |p| + 21] == (p + x)[k..k + 21];
  }

  /** A sentinel would have to start before `x`. */
  lemma UnmarkedAfter(p: string, x: string)
    requires !AlreadyConverted(x) && forall k: nat :: k < |p| ==> !SentinelAt(p + x, k)
    ensures !AlreadyConverted(p + x)
  {
    UnmarkedIs(x);
    UnmarkedIs(p + x);
    forall k: nat ensures !SentinelAt(p + x, k) {
      if k >= |p| && SentinelAt(p + x, k) {
        ShiftedBack(p, x, k);
      }
    }
  }

  lemma NotInCellName(p: string, x: string, k: nat)
    requires |p| == 3 && p[0] == '<' && p[1] == 't' && p[2] == 'd' && k < 3
    ensures !SentinelAt(p + x, k)
  {
    ShapeIf(p + x, k);
  }

  lemma UnmarkedHead(s: string, c: Cell)
    requires !AlreadyConverted(s) && EmptyCell(s) == Some(c)
    ensures !AlreadyConverted("<td" + s[3..c.gt] + ">")
  {
    var p, mid := "<td", s[3..c.gt + 1];
    UnmarkedSlice(s, 3, c.gt + 1);
    assert IsAt(s, '>', c.gt);
    assert p + s[3..c.gt] + ">" == p + mid;
    forall k: nat | k < |p| ensures !SentinelAt(p + mid, k) {
      NotInCellName(p, mid, k);
    }
    UnmarkedAfter(p, mid);
  }

  lemma UnmarkedCopy(s: string, t: string, v: string)
    requires s != "" && t == s[1..] && v == FixEmptyTds(t) && !AlreadyConverted(s) && !AlreadyConverted(v)
    ensures !AlreadyConverted([s[0]] + v)
  {
    UnmarkedIs(s);
    assert !SentinelAt(s, 0);
    NoneAtFront(s, t, v, [s[0]] + v);
    UnmarkedAfter([s[0]], v);
  }

  lemma NoneAtFront(s: string, t: string, v: string, u: string)
    requires s != "" && t == s[1..] && v == FixEmptyTds(t) && u == [s[0]] + v && !SentinelAt(s, 0)
    ensures !SentinelAt(u, 0)
  {
    var r := FixText(t);
    if r < 20 {
      EarlyOpen(s, t, v, u, r);
    } else {
      assert u[..21] == [s[0]] + v[..20] && s[..21] == [s[0]] + t[..20];
      assert v[..20] == v[..r][..20] && t[..20] == t[..r][..20];
      assert v[..r] == t[..r];
      assert u[0..21] == u[..21] && s[0..21] == s[..21];
    }
  }

  lemma EarlyOpen(s: string, t: string, v: string, u: string, r: nat)
    requires s != "" && t == s[1..] && u == [s[0]] + v && !SentinelAt(s, 0) && r < 20
    requires if r < |t| then |v| > r && v[r] == '<' else v == t
    ensures !SentinelAt(u, 0)
  {
    if r < |t| {
      assert u[r + 1] == v[r];
      ShapeIf(u, 0);
    } else {
      assert u == s;
    }
  }

}
