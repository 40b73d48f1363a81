/** The normaliser tag by tag: which tags it completes, with what, and that it touches nothing else. */
module NormalizerPieces {
  import opened Text
  import opened Normalizer

  /** A document is text, comments and whatever is left unterminated, which all stay as they are, and tags. */
  datatype Piece = Verbatim(text: string) | Tag(text: string)

  /** What stands at a `<`, and what follows it. */
  function Cut(t: string): (r: (Piece, string))
    requires t != ""
    ensures t == r.0.text + r.1 && r.0.text != ""
  {
    if StartsComment(t) && Index(t, "-->") >= 0 then
      (Verbatim(t[..Index(t, "-->") + 3]), t[Index(t, "-->") + 3..])
    else if IndexByte(t, '>') < 0 then (Verbatim(t), "")
    else (Tag(t[..IndexByte(t, '>') + 1]), t[IndexByte(t, '>') + 1..])
  }

  function Pieces(s: string): seq<Piece>
    decreases |s|
  {
    var lt := IndexByte(s, '<');
    if lt < 0 then [Verbatim(s)]
    else
      var (piece, rest) := Cut(s[lt..]);
      assert s[lt..] == piece.text + rest;
      [Verbatim(s[..lt]), piece] + Pieces(rest)
  }

  function Together(ps: seq<Piece>): string {
    if ps == [] then "" else ps[0].text + Together(ps[1..])
  }

  lemma TwoThen(p: Piece, q: Piece, ps: seq<Piece>)
    ensures Together([p, q] + ps) == p.text + (q.text + Together(ps))
  {
    assert ([p, q] + ps)[1..] == [q] + ps;
    assert ([q] + ps)[1..] == ps;
  }

  lemma InThree(a: string, b: string, c: string)
    ensures a + b + c == a + (b + c)
  {
  }

  /** The pieces are all of the document. */
  lemma {:induction false} PiecesMakeTheWhole(s: string)
    ensures Together(Pieces(s)) == s
    decreases |s|
  {
    var lt := IndexByte(s, '<');
    if lt < 0 {
      assert [Verbatim(s)][1..] == [];
    } else {
      var before, t := s[..lt], s[lt..];
      var (piece, rest) := Cut(t);
      WholeAgain(before, t, piece.text, rest, s);
      PiecesMakeTheWhole(rest);
      TwoThen(Verbatim(before), piece, Pieces(rest));
    }
  }

  lemma WholeAgain(before: string, t: string, piece: string, rest: string, s: string)
    requires s == before + t && t == piece + rest && piece != ""
    ensures before + (piece + rest) == s && |rest| < |s|
  {
  }

  // ---- what becomes of a piece ----

  /** A table tag without a role, or an image tag without a border. */
  predicate LacksRole(tag: string) {
    IsTableTag(tag) && !Contains(tag, "role=")
  }

  predicate LacksBorder(tag: string) {
    IsImgTag(tag) && !Contains(tag, "border=")
  }

  /** `done` is `tag` with the attributes before its end, which is `/>` if the tag closes itself. */
  ghost predicate GivenAttributes(tag: string, attributes: string, done: string) {
    exists front: string, end: string ::
      && tag == front + end && done == front + attributes + end
      && (end == ">" || end == "/>") && (end == ">" ==> front != "" && front[|front| - 1] != '/')
  }

  ghost predicate Becomes(a: Attributes, p: Piece, q: Piece) {
    if p.Verbatim? then q == p
    else
      && q.Tag? && !LacksRole(q.text) && !LacksBorder(q.text)
      && if LacksRole(p.text) then GivenAttributes(p.text, a.table, q.text)
         else if LacksBorder(p.text) then GivenAttributes(p.text, a.img, q.text)
         else q == p
  }

  ghost predicate AllBecome(a: Attributes, ps: seq<Piece>, qs: seq<Piece>) {
    |qs| == |ps| && forall i :: 0 <= i < |ps| ==> Becomes(a, ps[i], qs[i])
  }

  lemma InsertGives(tag: string, attributes: string)
    requires IsTag(tag) && |tag| >= 3
    ensures GivenAttributes(tag, attributes, Insert(tag, attributes))
  {
    var k := Closing(tag);
    var front, end := tag[..k], tag[k..];
    assert tag == front + end && Insert(tag, attributes) == front + attributes + end;
    assert end == if tag[|tag| - 2] == '/' then "/>" else ">";
  }

  lemma TagBecomes(a: Attributes, tag: string)
    requires Proper(a) && IsTag(tag)
    ensures Becomes(a, Tag(tag), Tag(Rewritten(a, tag)))
  {
    TagShape(a, tag);
    var done := Rewritten(a, tag);
    if LacksRole(tag) {
      InsertGives(tag, a.table);
      NowContains(tag, a.table, "role=");
      SameName(tag, done);
    } else if LacksBorder(tag) {
      InsertGives(tag, a.img);
      NowContains(tag, a.img, "border=");
      SameName(tag, done);
    }
  }

  /** A completed tag is still the tag it was. */
  lemma SameName(tag: string, done: string)
    requires Reshaped(tag, done) && (IsTableTag(tag) || IsImgTag(tag))
    ensures IsTableTag(tag) ==> !IsImgTag(done)
    ensures IsImgTag(tag) ==> !IsTableTag(done)
  {
    assert done[1] == tag[1];
  }

  // ---- what was written is cut in the same places ----

  lemma CutIsOpened(a: Attributes, t: string)
    requires t != ""
    ensures var (p, rest) := Cut(t);
            Opened(a, t) == Block(p.text, if p.Tag? then Rewritten(a, p.text) else p.text, rest)
  {
  }

  lemma CutAgain(a: Attributes, t: string, p: Piece, rest: string, q: Piece)
    requires Proper(a) && t != "" && t[0] == '<' && Cut(t) == (p, rest)
    requires q == if p.Tag? then Tag(Rewritten(a, p.text)) else p
    ensures q.text != "" && q.text[0] == '<' && Cut(q.text + Normalize(a, rest)) == (q, Normalize(a, rest))
    ensures Becomes(a, p, q)
  {
    var next := Normalize(a, rest);
    if StartsComment(t) && Index(t, "-->") >= 0 {
      CommentStable(t, next);
      assert (p.text + next)[..|p.text|] == p.text && (p.text + next)[|p.text|..] == next;
    } else if IndexByte(t, '>') < 0 {
      assert next == "" && t + "" == t;
    } else {
      CutTag(t);
      TagBecomes(a, p.text);
      TagCutAgain(a, t, p.text, next);
    }
  }

  lemma TagCutAgain(a: Attributes, t: string, tag: string, next: string)
    requires Proper(a) && t != "" && t[0] == '<' && IndexByte(t, '>') >= 0
    requires StartsComment(t) ==> Index(t, "-->") < 0
    requires tag == t[..IndexByte(t, '>') + 1] && next == Normalize(a, t[IndexByte(t, '>') + 1..])
    ensures
      var out := Rewritten(a, tag);
      out != "" && out[0] == '<' && Cut(out + next) == (Tag(out), next)
  {
    CutTag(t);
    TagShape(a, tag);
    StillATag(a, t, tag, next);
    CutAtTag(Rewritten(a, tag), next);
  }

  lemma StillATag(a: Attributes, t: string, tag: string, next: string)
    requires Proper(a) && t != "" && t[0] == '<' && IndexByte(t, '>') >= 0
    requires StartsComment(t) ==> Index(t, "-->") < 0
    requires tag == t[..IndexByte(t, '>') + 1] && next == Normalize(a, t[IndexByte(t, '>') + 1..])
    requires Reshaped(tag, Rewritten(a, tag))
    ensures StartsComment(Rewritten(a, tag) + next) ==> Index(Rewritten(a, tag) + next, "-->") < 0
  {
    if StartsComment(t) {
      StillUnterminated(a, t, IndexByte(t, '>') + 1);
    } else {
      NotAComment(a, t, next);
    }
  }

  lemma CutAtTag(tag: string, next: string)
    requires IsTag(tag) && (StartsComment(tag + next) ==> Index(tag + next, "-->") < 0)
    ensures Cut(tag + next) == (Tag(tag), next)
  {
    FirstByte(tag[..|tag| - 1], '>', next);
    assert tag[..|tag| - 1] + ['>'] + next == tag + next;
    assert (tag + next)[..|tag|] == tag && (tag + next)[|tag|..] == next;
  }

  lemma PiecesAt(before: string, t: string, p: Piece, rest: string, s: string)
    requires s == before + t && Free(before, '<') && t != "" && t[0] == '<' && Cut(t) == (p, rest)
    ensures Pieces(s) == [Verbatim(before), p] + Pieces(rest)
  {
    FirstByte(before, '<', t[1..]);
    assert before + ['<'] + t[1..] == s;
    assert s[..|before|] == before && s[|before|..] == t;
  }

  lemma BothBecome(a: Attributes, before: string, p: Piece, q: Piece, ps: seq<Piece>, qs: seq<Piece>)
    requires Becomes(a, p, q) && AllBecome(a, ps, qs)
    ensures AllBecome(a, [Verbatim(before), p] + ps, [Verbatim(before), q] + qs)
  {
    var all, done := [Verbatim(before), p] + ps, [Verbatim(before), q] + qs;
    forall i | 0 <= i < |all| ensures Becomes(a, all[i], done[i]) {
      if i >= 2 {
        assert all[i] == ps[i - 2] && done[i] == qs[i - 2];
      }
    }
  }

  /**
   * The normalised document has the same pieces in the same order: text and
   * comments as they were, table tags without a role and image tags without a
   * border with their attributes, and every other tag as it was.
   */
  lemma {:induction false} PiecesBecome(a: Attributes, src: string)
    requires Proper(a)
    ensures AllBecome(a, Pieces(src), Pieces(Normalize(a, src)))
    decreases |src|
  {
    var lt := IndexByte(src, '<');
    if lt >= 0 {
      var before, t, b, rest := Parts(Opener(a), src);
      var (p, after) := Cut(t);
      CutIsOpened(a, t);
      var q := if p.Tag? then Tag(Rewritten(a, p.text)) else p;
      CutAgain(a, t, p, rest, q);
      PiecesBecome(a, rest);
      PiecesAt(before, t, p, rest, src);
      InThree(before, q.text, Normalize(a, rest));
      PiecesAt(before, q.text + Normalize(a, rest), q, Normalize(a, rest), Normalize(a, src));
      BothBecome(a, before, p, q, Pieces(rest), Pieces(Normalize(a, rest)));
    }
  }

  /** So with what the library adds: no table in the result is without a role, and no image without a border. */
  lemma NormalizedPieces(src: string)
    ensures Together(Pieces(src)) == src
    ensures AllBecome(OUTLOOK, Pieces(src), Pieces(Normalize(OUTLOOK, src)))
    ensures forall i :: 0 <= i < |Pieces(Normalize(OUTLOOK, src))| && Pieces(Normalize(OUTLOOK, src))[i].Tag? ==>
      var tag := Pieces(Normalize(OUTLOOK, src))[i].text;
      (IsTableTag(tag) ==> Contains(tag, "role=")) && (IsImgTag(tag) ==> Contains(tag, "border="))
  {
    OutlookIsProper();
    PiecesMakeTheWhole(src);
    PiecesBecome(OUTLOOK, src);
    forall i | 0 <= i < |Pieces(Normalize(OUTLOOK, src))| && Pieces(Normalize(OUTLOOK, src))[i].Tag?
      ensures
        var tag := Pieces(Normalize(OUTLOOK, src))[i].text;
        (IsTableTag(tag) ==> Contains(tag, "role=")) && (IsImgTag(tag) ==> Contains(tag, "border="))
    {
      assert Becomes(OUTLOOK, Pieces(src)[i], Pieces(Normalize(OUTLOOK, src))[i]);
    }
  }
}
