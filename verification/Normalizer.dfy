/** The tag normaliser: attributes Outlook needs are added to table and img tags. */
module Normalizer {
  import opened Text

  /** What is added to a table tag and to an img tag. */
  datatype Attributes = Attributes(table: string, img: string)

  // Long literals are written in pieces: the verifier reads a literal byte by byte.
  const ROLE := " role=" + "\"presentation\""
  const CELLSPACING := " cellspacing" + "=\"0\""
  const CELLPADDING := " cellpadding" + "=\"0\""
  const BORDER := " border=" + "\"0\""
  const OUTLOOK := Attributes(ROLE + CELLSPACING + CELLPADDING + BORDER, BORDER)

  /** All the proofs need to know of the attributes. */
  ghost predicate Proper(a: Attributes) {
    && Harmless(a.table) && Harmless(a.img)
    && At(a.table, "role=", 1) && At(a.img, "border=", 1)
  }

  ghost predicate Harmless(s: string) {
    |s| > 0 && s[0] == ' ' && s[|s| - 1] == '"' && forall i :: 0 <= i < |s| ==> s[i] != '>'
  }

  lemma HarmlessTogether(s: string, t: string)
    requires Harmless(s) && Harmless(t)
    ensures Harmless(s + t)
  {
  }

  lemma EachIsHarmless()
    ensures Harmless(ROLE) && Harmless(CELLSPACING) && Harmless(CELLPADDING) && Harmless(BORDER)
    ensures At(ROLE, "role=", 1) && At(BORDER, "border=", 1)
  {
    assert ROLE[1..6] == "role=";
    assert BORDER[1..8] == "border=";
  }

  lemma OutlookIsProper()
    ensures Proper(OUTLOOK)
  {
    EachIsHarmless();
    HarmlessTogether(ROLE, CELLSPACING);
    HarmlessTogether(ROLE + CELLSPACING, CELLPADDING);
    HarmlessTogether(ROLE + CELLSPACING + CELLPADDING, BORDER);
    assert OUTLOOK.table[1..6] == ROLE[1..6];
  }

  predicate OneOf(c: char, lower: char, upper: char) {
    c == lower || c == upper
  }

  predicate IsTableTag(tag: string) {
    |tag| >= 7
    && OneOf(tag[1], 't', 'T') && OneOf(tag[2], 'a', 'A') && OneOf(tag[3], 'b', 'B')
    && OneOf(tag[4], 'l', 'L') && OneOf(tag[5], 'e', 'E')
    && (tag[6] == ' ' || tag[6] == '>')
  }

  predicate IsImgTag(tag: string) {
    |tag| >= 5
    && OneOf(tag[1], 'i', 'I') && OneOf(tag[2], 'm', 'M') && OneOf(tag[3], 'g', 'G')
    && (tag[4] == ' ' || tag[4] == '>')
  }

  /** Before the `>`, or before the `/` of a self-closing tag. */
  function Closing(tag: string): nat
    requires |tag| >= 2
  {
    if tag[|tag| - 2] == '/' then |tag| - 2 else |tag| - 1
  }

  function Insert(tag: string, attributes: string): string
    requires |tag| >= 2
  {
    tag[..Closing(tag)] + attributes + tag[Closing(tag)..]
  }

  function Rewritten(a: Attributes, tag: string): string {
    if IsTableTag(tag) && !Contains(tag, "role=") then Insert(tag, a.table)
    else if IsImgTag(tag) && !Contains(tag, "border=") then Insert(tag, a.img)
    else tag
  }

  /** What a `<` opens: the bytes it takes, what is written for them, and the bytes it leaves. */
  datatype Block = Block(taken: string, out: string, rest: string)

  predicate StartsComment(t: string) {
    |t| >= 4 && t[0] == '<' && t[1] == '!' && t[2] == '-' && t[3] == '-'
  }

  function Opened(a: Attributes, t: string): (b: Block)
    ensures t != "" ==> b.taken != "" && t == b.taken + b.rest
  {
    if StartsComment(t) && Index(t, "-->") >= 0 then
      var end := Index(t, "-->") + 3;
      Block(t[..end], t[..end], t[end..])
    else if IndexByte(t, '>') < 0 then
      Block(t, t, "")
    else
      var end := IndexByte(t, '>') + 1;
      Block(t[..end], Rewritten(a, t[..end]), t[end..])
  }

  ghost predicate Advancing(open: string -> Block) {
    forall t: string :: t != "" ==> open(t).taken != "" && t == open(t).taken + open(t).rest
  }

  /** Copies text, and at each `<` writes what `open` says. */
  function Walk(open: string -> Block, src: string): string
    requires Advancing(open)
    decreases |src|
  {
    var lt := IndexByte(src, '<');
    if lt < 0 then
      src
    else
      var b := open(src[lt..]);
      assert src[lt..] == b.taken + b.rest;
      src[..lt] + b.out + Walk(open, b.rest)
  }

  function Opener(a: Attributes): (open: string -> Block)
    ensures Advancing(open)
  {
    (t: string) => Opened(a, t)
  }

  /** The normalised form of a document. */
  function Normalize(a: Attributes, src: string): string {
    Walk(Opener(a), src)
  }

  // ---- walking ----

  /** A document with a `<`, cut before it and after what it opens. */
  lemma Parts(open: string -> Block, src: string) returns (before: string, t: string, b: Block, rest: string)
    requires Advancing(open) && IndexByte(src, '<') >= 0
    ensures t != "" && t[0] == '<' && b == open(t) && rest == b.rest
    ensures before == src[..IndexByte(src, '<')] && t == src[IndexByte(src, '<')..]
    ensures src == before + t && src == before + b.taken + rest && |rest| < |src|
    ensures Free(before, '<')
    ensures Walk(open, src) == before + b.out + Walk(open, rest)
  {
    var lt := IndexByte(src, '<');
    before, t := src[..lt], src[lt..];
    b := open(t);
    rest := b.rest;
    NoneBefore(src, '<');
  }

  /** What was written is read back the same way. */
  lemma ReadBack(open: string -> Block, before: string, out: string, rest: string, t: string, whole: string)
    requires Advancing(open) && Free(before, '<')
    requires t == out + rest && whole == before + out + rest
    requires out != "" && out[0] == '<' && open(t) == Block(out, out, rest)
    ensures Walk(open, whole) == before + out + Walk(open, rest)
  {
    FirstByte(before, '<', out[1..] + rest);
    assert before + ['<'] + (out[1..] + rest) == whole;
    assert whole[..|before|] == before && whole[|before|..] == t;
  }

  /** What `open` writes for `t` is, with the rest of the walk after it, a block that `open` leaves alone. */
  ghost predicate Stable(open: string -> Block, t: string)
    requires Advancing(open)
  {
    t != "" && t[0] == '<' ==>
      var out := open(t).out;
      && out != "" && out[0] == '<'
      && open(out + Walk(open, open(t).rest)) == Block(out, out, Walk(open, open(t).rest))
  }

  lemma {:induction false} WalkTwice(open: string -> Block, src: string)
    requires Advancing(open) && forall t: string :: Stable(open, t)
    ensures Walk(open, Walk(open, src)) == Walk(open, src)
    decreases |src|
  {
    if IndexByte(src, '<') >= 0 {
      var before, t, b, rest := Parts(open, src);
      assert Stable(open, t);
      WalkTwice(open, rest);
      ReadBack(open, before, b.out, Walk(open, rest), b.out + Walk(open, rest), Walk(open, src));
    }
  }

  // ---- the loop ----

  class Buffer {
    var bytes: string

    constructor ()
      ensures bytes == ""
    {
      bytes := "";
    }

    method Append(s: string)
      modifies this
      ensures bytes == old(bytes) + s
    {
      bytes := bytes + s;
    }
  }

  /** One tag, `src[idx..end + 1]`, with its attributes put before its end. */
  method AppendWith(dest: Buffer, src: string, idx: nat, end: nat, attributes: string)
    requires idx < end < |src|
    modifies dest
    ensures dest.bytes == old(dest.bytes) + Insert(src[idx..end + 1], attributes)
  {
    var closing := end;
    if src[end - 1] == '/' {
      closing := closing - 1;
    }
    dest.Append(src[idx..closing]);
    dest.Append(attributes);
    dest.Append(src[closing..end + 1]);
    ghost var tag := src[idx..end + 1];
    assert tag[|tag| - 2] == src[end - 1] && Closing(tag) == closing - idx;
    assert src[idx..closing] == tag[..closing - idx];
    assert src[closing..end + 1] == tag[closing - idx..];
  }

  lemma Assoc(d: string, x: string, y: string, z: string)
    ensures d + (x + y + z) == d + x + y + z
  {
  }

  /** One turn of the loop: text up to a `<`, then what it opens. */
  lemma Turn(open: string -> Block, rest: string, text: string, t: string, b: Block, next: string, d: string)
    requires Advancing(open) && rest == text + t && IndexByte(rest, '<') == |text| && t != ""
    requires b == open(t) && next == b.rest
    ensures d + text + b.out + Walk(open, next) == d + Walk(open, rest)
  {
    assert rest[|text|..] == t && rest[..|text|] == text;
    Assoc(d, text, b.out, Walk(open, next));
  }

  ghost predicate OpensLike(a: Attributes, open: string -> Block, t: string) {
    open(t) == Opened(a, t)
  }

  method AppendNormalized(a: Attributes, dest: Buffer, src: string)
    modifies dest
    ensures dest.bytes == old(dest.bytes) + Normalize(a, src)
  {
    AppendWalk(a, dest, src, Opener(a));
  }

  /** The loop. It only needs to know what `open` makes of the block at hand. */
  method AppendWalk(a: Attributes, dest: Buffer, src: string, ghost open: string -> Block)
    requires Advancing(open) && forall t: string :: OpensLike(a, open, t)
    modifies dest
    ensures dest.bytes == old(dest.bytes) + Walk(open, src)
  {
    var curr := 0;
    ghost var rest := src;
    while curr < |src|
      invariant 0 <= curr <= |src| && rest == src[curr..]
      invariant dest.bytes + Walk(open, rest) == old(dest.bytes) + Walk(open, src)
    {
      var idx := IndexByte(src[curr..], '<');
      if idx == -1 {
        dest.Append(src[curr..]);
        break;
      }
      curr, rest := AppendTurn(a, dest, src, curr, idx + curr, open, rest);
    }
    if curr == |src| {
      assert rest == "" && dest.bytes + "" == dest.bytes;
    }
  }

  /** One turn of the loop: the text up to the next `<`, and what that opens. */
  method AppendTurn(a: Attributes, dest: Buffer, src: string, curr: nat, idx: nat,
                    ghost open: string -> Block, ghost rest: string)
    returns (next: nat, ghost rest': string)
    requires Advancing(open) && forall t: string :: OpensLike(a, open, t)
    requires curr <= idx < |src| && rest == src[curr..] && IndexByte(rest, '<') == idx - curr && src[idx] == '<'
    modifies dest
    ensures curr < next <= |src| && rest' == src[next..]
    ensures dest.bytes + Walk(open, rest') == old(dest.bytes) + Walk(open, rest)
  {
    ghost var text, t, before := src[curr..idx], src[idx..], dest.bytes;
    assert OpensLike(a, open, t);
    dest.Append(src[curr..idx]);
    var size := AppendBlock(a, dest, src, idx);
    next := idx + size;
    rest' := open(t).rest;
    assert rest' == src[next..] by {
      assert t == open(t).taken + rest';
      Slices(src, idx, size);
    }
    assert before + text + open(t).out + Walk(open, rest') == before + Walk(open, rest) by {
      assert rest == text + t;
      Turn(open, rest, text, t, open(t), rest', before);
    }
  }

  /** The rest of the loop's body: the comment, tag or unterminated text that starts at `idx`. */
  method AppendBlock(a: Attributes, dest: Buffer, src: string, idx: nat) returns (size: nat)
    requires idx < |src| && src[idx] == '<'
    modifies dest
    ensures var b := Opened(a, src[idx..]); size == |b.taken| && dest.bytes == old(dest.bytes) + b.out
  {
    ghost var t := src[idx..];
    if StartsComment(src[idx..]) {
      var end := Index(src[idx..], "-->");
      if end != -1 {
        assert src[idx..idx + end + 3] == t[..end + 3];
        dest.Append(src[idx..idx + end + 3]);
        return end + 3;
      }
    }
    var end := IndexByte(src[idx..], '>');
    if end == -1 {
      dest.Append(src[idx..]);
      return |src| - idx;
    }
    size := end + 1;
    end := end + idx;
    var tag := src[idx..end + 1];
    assert tag == t[..size] && tag[0] == '<' && tag[|tag| - 1] == '>';
    if IsTableTag(tag) && !Contains(tag, "role=") {
      AppendWith(dest, src, idx, end, a.table);
    } else if IsImgTag(tag) && !Contains(tag, "border=") {
      AppendWith(dest, src, idx, end, a.img);
    } else {
      dest.Append(tag);
    }
  }

  // ---- a second pass changes nothing ----

  predicate ArrowAt(s: string, i: nat) {
    i + 2 < |s| && s[i] == '-' && s[i + 1] == '-' && s[i + 2] == '>'
  }

  lemma ArrowIs(s: string, i: nat)
    ensures At(s, "-->", i) <==> ArrowAt(s, i)
  {
    if At(s, "-->", i) {
      assert s[i..i + 3][0] == '-' && s[i..i + 3][1] == '-' && s[i..i + 3][2] == '>';
    }
    if ArrowAt(s, i) {
      assert s[i..i + 3] == "-->";
    }
  }

  /** The first arrow of `s`, by looking at single bytes. */
  lemma FirstArrow(s: string, r: nat)
    requires ArrowAt(s, r) && forall i: nat :: i < r ==> !ArrowAt(s, i)
    ensures Index(s, "-->") == r
  {
    ArrowIs(s, r);
    ArrowIs(s, Index(s, "-->"));
  }

  ghost predicate Arrowless(s: string) {
    forall i: nat :: !ArrowAt(s, i)
  }

  lemma ArrowlessIff(s: string)
    ensures Index(s, "-->") < 0 <==> Arrowless(s)
  {
    if Index(s, "-->") >= 0 {
      ArrowIs(s, Index(s, "-->"));
    } else {
      forall i: nat ensures !ArrowAt(s, i) {
        ArrowIs(s, i);
      }
    }
  }

  lemma ArrowlessPart(s: string, from: nat, to: nat)
    requires from <= to <= |s| && Arrowless(s)
    ensures Arrowless(s[from..to])
  {
    forall i: nat ensures !ArrowAt(s[from..to], i) {
      assert !ArrowAt(s, from + i);
    }
  }

  /** `<`, no `>` before the end, `>`. */
  ghost predicate IsTag(tag: string) {
    |tag| >= 2 && tag[0] == '<' && tag[|tag| - 1] == '>' && Free(tag[..|tag| - 1], '>')
  }

  /** A tag again, with the same opening, and an arrow at its end only if it was left alone. */
  ghost predicate Reshaped(tag: string, out: string) {
    && IsTag(out) && |out| >= |tag|
    && (forall i :: 0 <= i < 4 && i < |tag| ==> out[i] == tag[i])
    && (|tag| < 5 ==> out == tag)
    && (out != tag ==> out[|out| - 2] != '-' && |tag| >= 5 && tag[1] != '!')
  }

  lemma TagShape(a: Attributes, tag: string)
    requires Proper(a) && IsTag(tag)
    ensures Reshaped(tag, Rewritten(a, tag))
  {
    if IsTableTag(tag) && !Contains(tag, "role=") {
      InsertShape(tag, a.table);
    } else if IsImgTag(tag) && !Contains(tag, "border=") {
      InsertShape(tag, a.img);
    }
  }

  lemma InsertShape(tag: string, attributes: string)
    requires IsTag(tag) && Harmless(attributes) && |tag| >= 5 && Closing(tag) >= 4 && tag[1] != '!'
    ensures Reshaped(tag, Insert(tag, attributes))
    ensures var out := Insert(tag, attributes);
            && (forall i :: 0 <= i < Closing(tag) ==> out[i] == tag[i])
            && out[Closing(tag)] == ' ' && |out| == |tag| + |attributes|
  {
    var out, k := Insert(tag, attributes), Closing(tag);
    forall i | 0 <= i < |out| - 1 ensures out[i] != '>' {
      if i < k {
        assert out[i] == tag[..|tag| - 1][i];
      } else if i >= k + |attributes| {
        assert out[i] == tag[..|tag| - 1][i - |attributes|];
      }
    }
  }

  lemma RewriteStable(a: Attributes, tag: string)
    requires Proper(a) && IsTag(tag)
    ensures Rewritten(a, Rewritten(a, tag)) == Rewritten(a, tag)
  {
    if IsTableTag(tag) && !Contains(tag, "role=") {
      InsertShape(tag, a.table);
      NowContains(tag, a.table, "role=");
    } else if IsImgTag(tag) && !Contains(tag, "border=") {
      InsertShape(tag, a.img);
      NowContains(tag, a.img, "border=");
    }
  }

  lemma NowContains(tag: string, attributes: string, pat: string)
    requires |tag| >= 2 && At(attributes, pat, 1)
    ensures Contains(Insert(tag, attributes), pat)
  {
    var out, k := Insert(tag, attributes), Closing(tag);
    assert out[k..k + |attributes|] == attributes;
    assert out[k + 1..k + 1 + |pat|] == attributes[1..1 + |pat|];
    assert At(out, pat, k + 1);
  }

  lemma NoArrowAt(before: string, tag: string, out: string, after: string, i: nat)
    requires Reshaped(tag, out) && IsTag(tag) && !ArrowAt(before + tag, i)
    requires i >= |before + out| ==> !ArrowAt(after, i - |before + out|)
    ensures !ArrowAt(before + out + after, i)
  {
    var all := before + out + after;
    var n := |before + out|;
    assert all[n - 1] == '>';
    if i + 2 < |before| {
      assert all[i] == before[i] && all[i + 1] == before[i + 1] && all[i + 2] == before[i + 2];
    } else if i + 2 < n - 1 {
      assert all[i + 2] == out[..|out| - 1][i + 2 - |before|];
    } else if i + 2 == n - 1 {
      NoArrowAtEnd(before, tag, out, after, i);
    }
  }

  lemma NoArrowAtEnd(before: string, tag: string, out: string, after: string, i: nat)
    requires Reshaped(tag, out) && IsTag(tag) && !ArrowAt(before + tag, i) && i + 3 == |before + out|
    ensures !ArrowAt(before + out + after, i)
  {
    var all := before + out + after;
    if out == tag {
      assert forall j :: 0 <= j < |before + tag| ==> all[j] == (before + tag)[j];
    } else {
      assert all[i + 1] == out[|out| - 2];
    }
  }

  lemma NoArrowInParts(a: Attributes, before: string, tag: string, after: string)
    requires Proper(a) && IsTag(tag) && Arrowless(before + tag) && Arrowless(after)
    ensures Arrowless(before + Rewritten(a, tag) + after)
  {
    TagShape(a, tag);
    var out := Rewritten(a, tag);
    forall i: nat ensures !ArrowAt(before + out + after, i) {
      NoArrowAt(before, tag, out, after, i);
    }
  }

  /** `open` makes no arrow, whatever arrowless text is around. */
  ghost predicate MakesNoArrow(open: string -> Block, before: string, t: string, after: string)
    requires Advancing(open)
  {
    t != "" && t[0] == '<' && Arrowless(before + t) && Arrowless(after) && (open(t).rest == "" ==> after == "") ==>
      Arrowless(before + open(t).out + after)
  }

  lemma {:induction false} WalkMakesNoArrow(open: string -> Block, src: string)
    requires Advancing(open) && Arrowless(src)
    requires forall before: string, t: string, after: string :: MakesNoArrow(open, before, t, after)
    ensures Arrowless(Walk(open, src))
    decreases |src|
  {
    if IndexByte(src, '<') >= 0 {
      var before, t, b, rest := Parts(open, src);
      var n := |before| + |b.taken|;
      ArrowlessPart(src, n, |src|);
      assert src[n..|src|] == rest;
      WalkMakesNoArrow(open, rest);
      assert MakesNoArrow(open, before, t, Walk(open, rest));
    }
  }

  lemma TagMakesNoArrow(a: Attributes, before: string, t: string, after: string)
    requires Proper(a) && t != "" && t[0] == '<' && Arrowless(before + t) && Arrowless(after)
    requires IndexByte(t, '>') >= 0
    ensures Arrowless(before + Rewritten(a, t[..IndexByte(t, '>') + 1]) + after)
  {
    var size := IndexByte(t, '>') + 1;
    CutTag(t);
    ArrowlessPart(before + t, 0, |before| + size);
    assert (before + t)[0..|before| + size] == before + t[..size];
    NoArrowInParts(a, before, t[..size], after);
  }

  lemma OpenedMakesNoArrow(a: Attributes, before: string, t: string, after: string)
    requires Proper(a)
    ensures MakesNoArrow(Opener(a), before, t, after)
  {
    if t != "" && t[0] == '<' && Arrowless(before + t) && Arrowless(after)
       && (Opened(a, t).rest == "" ==> after == "") {
      ArrowlessPart(before + t, |before|, |before + t|);
      assert (before + t)[|before|..|before + t|] == t;
      ArrowlessIff(t);
      if IndexByte(t, '>') < 0 {
        assert Opened(a, t) == Block(t, t, "");
        assert before + t + after == before + t;
      } else {
        TagMakesNoArrow(a, before, t, after);
        assert Opened(a, t).out == Rewritten(a, t[..IndexByte(t, '>') + 1]);
      }
    }
  }

  /** Normalising what follows an unterminated comment cannot terminate it. */
  lemma NoNewArrow(a: Attributes, src: string)
    requires Proper(a) && Arrowless(src)
    ensures Arrowless(Normalize(a, src))
  {
    forall before: string, t: string, after: string ensures MakesNoArrow(Opener(a), before, t, after) {
      OpenedMakesNoArrow(a, before, t, after);
    }
    WalkMakesNoArrow(Opener(a), src);
  }

  /** What was written for a block is read back as that block, unchanged. */
  lemma BlockStable(a: Attributes, t: string)
    requires Proper(a) && t != "" && t[0] == '<'
    ensures var b := Opened(a, t);
            && b.out != "" && b.out[0] == '<'
            && Opened(a, b.out + Normalize(a, b.rest)) == Block(b.out, b.out, Normalize(a, b.rest))
  {
    var b := Opened(a, t);
    var rest := Normalize(a, b.rest);
    if StartsComment(t) && Index(t, "-->") >= 0 {
      CommentStable(t, rest);
      assert (b.taken + rest)[..|b.taken|] == b.taken && (b.taken + rest)[|b.taken|..] == rest;
    } else if IndexByte(t, '>') < 0 {
      assert rest == "" && t + "" == t;
    } else {
      TagStable(a, t, rest);
    }
  }

  lemma CommentStable(t: string, rest: string)
    requires StartsComment(t) && Index(t, "-->") >= 0
    ensures var n := Index(t, "-->") + 3;
            n <= |t| && StartsComment(t[..n] + rest) && Index(t[..n] + rest, "-->") + 3 == n
  {
    var r := Index(t, "-->");
    ArrowIs(t, r);
    var again := t[..r + 3] + rest;
    forall i: nat | i < r ensures !ArrowAt(again, i) {
      ArrowIs(t, i);
    }
    FirstArrow(again, r);
  }

  lemma TagStable(a: Attributes, t: string, rest: string)
    requires Proper(a) && t != "" && t[0] == '<' && IndexByte(t, '>') >= 0
    requires StartsComment(t) ==> Index(t, "-->") < 0
    requires rest == Normalize(a, t[IndexByte(t, '>') + 1..])
    ensures var out := Rewritten(a, t[..IndexByte(t, '>') + 1]);
            out != "" && out[0] == '<' && Opened(a, out + rest) == Block(out, out, rest)
  {
    var n := IndexByte(t, '>') + 1;
    var tag := t[..n];
    CutTag(t);
    TagShape(a, tag);
    var out := Rewritten(a, tag);
    if StartsComment(t) {
      assert out == tag;
      StillUnterminated(a, t, n);
    } else {
      NotAComment(a, t, rest);
    }
    RewriteStable(a, tag);
    RereadTag(a, out, rest);
  }

  lemma CutTag(t: string)
    requires t != "" && t[0] == '<' && IndexByte(t, '>') >= 0
    ensures IsTag(t[..IndexByte(t, '>') + 1])
  {
    NoneBefore(t, '>');
    var tag := t[..IndexByte(t, '>') + 1];
    assert tag[..|tag| - 1] == t[..IndexByte(t, '>')];
  }

  lemma RereadTag(a: Attributes, out: string, rest: string)
    requires IsTag(out) && Rewritten(a, out) == out
    requires StartsComment(out + rest) ==> Index(out + rest, "-->") < 0
    ensures Opened(a, out + rest) == Block(out, out, rest)
  {
    FirstByte(out[..|out| - 1], '>', rest);
    assert out[..|out| - 1] + ['>'] + rest == out + rest;
    assert (out + rest)[..|out|] == out && (out + rest)[|out|..] == rest;
  }

  lemma StillUnterminated(a: Attributes, t: string, n: nat)
    requires Proper(a) && Index(t, "-->") < 0 && n <= |t| && IsTag(t[..n]) && Rewritten(a, t[..n]) == t[..n]
    ensures Index(t[..n] + Normalize(a, t[n..]), "-->") < 0
  {
    ArrowlessIff(t);
    ArrowlessPart(t, n, |t|);
    assert t[n..|t|] == t[n..];
    ArrowlessPart(t, 0, n);
    assert t[0..n] == "" + t[..n];
    NoNewArrow(a, t[n..]);
    NoArrowInParts(a, "", t[..n], Normalize(a, t[n..]));
    assert "" + t[..n] + Normalize(a, t[n..]) == t[..n] + Normalize(a, t[n..]);
    ArrowlessIff(t[..n] + Normalize(a, t[n..]));
  }

  lemma NotAComment(a: Attributes, t: string, rest: string)
    requires Proper(a) && t != "" && t[0] == '<' && IndexByte(t, '>') >= 0 && !StartsComment(t)
    ensures !StartsComment(Rewritten(a, t[..IndexByte(t, '>') + 1]) + rest)
  {
    var tag := t[..IndexByte(t, '>') + 1];
    CutTag(t);
    TagShape(a, tag);
    var again := Rewritten(a, tag) + rest;
    assert forall i :: 0 <= i < 4 && i < |tag| ==> again[i] == t[i];
    assert |tag| < 4 ==> again[|tag| - 1] == '>';
    assert |tag| >= 4 ==> (StartsComment(again) ==> StartsComment(t));
  }

  /** One pass is enough, for every byte string. */
  lemma NormalizeTwice(a: Attributes, src: string)
    requires Proper(a)
    ensures Normalize(a, Normalize(a, src)) == Normalize(a, src)
  {
    forall t: string ensures Stable(Opener(a), t) {
      if t != "" && t[0] == '<' {
        BlockStable(a, t);
      }
    }
    WalkTwice(Opener(a), src);
  }

  lemma NormalizeIsIdempotent(src: string)
    ensures Normalize(OUTLOOK, Normalize(OUTLOOK, src)) == Normalize(OUTLOOK, src)
  {
    OutlookIsProper();
    NormalizeTwice(OUTLOOK, src);
  }

  // ---- a pass only adds ----

  predicate Subsequence(a: string, b: string) {
    a == "" || (b != "" && ((a[0] == b[0] && Subsequence(a[1..], b[1..])) || Subsequence(a, b[1..])))
  }

  lemma {:induction false} SubsequenceOfItself(a: string)
    ensures Subsequence(a, a)
  {
    if a != "" {
      SubsequenceOfItself(a[1..]);
    }
  }

  lemma {:induction false} Joined(a: string, b: string, c: string, d: string)
    requires Subsequence(a, b) && Subsequence(c, d)
    ensures Subsequence(a + c, b + d)
    decreases |b|
  {
    if b == "" {
      assert a + c == c && b + d == d;
    } else {
      assert (b + d)[1..] == b[1..] + d;
      if a == "" {
        Joined(a, b[1..], c, d);
      } else if a[0] == b[0] && Subsequence(a[1..], b[1..]) {
        assert (a + c)[1..] == a[1..] + c;
        Joined(a[1..], b[1..], c, d);
      } else {
        Joined(a, b[1..], c, d);
      }
    }
  }

  lemma InsertAdds(tag: string, attributes: string)
    requires |tag| >= 2
    ensures Subsequence(tag, Insert(tag, attributes))
  {
    var k := Closing(tag);
    SubsequenceOfItself(tag[..k]);
    SubsequenceOfItself(tag[k..]);
    Joined(tag[..k], tag[..k], "", attributes);
    Joined(tag[..k] + "", tag[..k] + attributes, tag[k..], tag[k..]);
    assert tag[..k] + "" + tag[k..] == tag;
  }

  lemma RewriteAdds(a: Attributes, tag: string)
    ensures Subsequence(tag, Rewritten(a, tag))
  {
    if IsTableTag(tag) && !Contains(tag, "role=") {
      InsertAdds(tag, a.table);
    } else if IsImgTag(tag) && !Contains(tag, "border=") {
      InsertAdds(tag, a.img);
    } else {
      SubsequenceOfItself(tag);
    }
  }

  lemma OpenedAdds(a: Attributes, t: string)
    ensures Subsequence(Opened(a, t).taken, Opened(a, t).out)
  {
    if StartsComment(t) && Index(t, "-->") >= 0 {
      SubsequenceOfItself(Opened(a, t).taken);
    } else if IndexByte(t, '>') < 0 {
      SubsequenceOfItself(t);
    } else {
      RewriteAdds(a, Opened(a, t).taken);
    }
  }

  lemma PartsAdd(before: string, taken: string, out: string, rest: string, after: string)
    requires Subsequence(taken, out) && Subsequence(rest, after)
    ensures Subsequence(before + taken + rest, before + out + after)
  {
    SubsequenceOfItself(before);
    Joined(before, before, taken, out);
    Joined(before + taken, before + out, rest, after);
  }

  lemma {:induction false} WalkOnlyAdds(open: string -> Block, src: string)
    requires Advancing(open)
    requires forall t: string :: t != "" ==> Subsequence(open(t).taken, open(t).out)
    ensures Subsequence(src, Walk(open, src))
    decreases |src|
  {
    if IndexByte(src, '<') < 0 {
      SubsequenceOfItself(src);
    } else {
      var before, t, b, rest := Parts(open, src);
      WalkOnlyAdds(open, rest);
      PartsAdd(before, b.taken, b.out, rest, Walk(open, rest));
    }
  }

  /** No byte of the input is lost or reordered. */
  lemma NormalizeOnlyAdds(a: Attributes, src: string)
    ensures Subsequence(src, Normalize(a, src))
  {
    forall t: string | t != "" ensures Subsequence(Opener(a)(t).taken, Opener(a)(t).out) {
      OpenedAdds(a, t);
    }
    WalkOnlyAdds(Opener(a), src);
  }
}
