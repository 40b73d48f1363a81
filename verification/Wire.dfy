/**
 * Lines and header fields as they stand on the wire (section 2.2 of RFC 5322),
 * and a reader of both.
 */
module Wire {
  import opened Prelude
  import opened Text

  const CRLF := "\r\n"

  // ---- lines ----

  predicate OneLine(s: string) {
    Free(s, '\r') && Free(s, '\n')
  }

  predicate AllOneLine(lines: seq<string>) {
    forall i :: 0 <= i < |lines| ==> OneLine(lines[i])
  }

  function Print(lines: seq<string>): string {
    if lines == [] then "" else lines[0] + CRLF + Print(lines[1..])
  }

  /** The first line and what follows its end; a carriage return alone is malformed. */
  function ReadLine(s: string): (r: Option<(string, string)>)
    ensures r.Some? ==> |r.value.1| < |s|
  {
    var i := IndexByte(s, '\r');
    if i < 0 || i + 1 >= |s| || s[i + 1] != '\n' then None
    else Some((s[..i], s[i + 2..]))
  }

  function Split(s: string): Option<seq<string>>
    decreases |s|
  {
    if s == "" then Some([])
    else
      match ReadLine(s)
      case None => None
      case Some((line, rest)) =>
        match Split(rest)
        case None => None
        case Some(lines) => Some([line] + lines)
  }

  lemma ReadFirstLine(line: string, rest: string)
    requires OneLine(line)
    ensures ReadLine(line + CRLF + rest) == Some((line, rest))
  {
    var s := line + CRLF + rest;
    FirstByte(line, '\r', "\n" + rest);
    assert s == line + ['\r'] + ("\n" + rest);
    assert s[|line| + 2..] == rest && s[..|line|] == line;
  }

  /** Cutting at line ends gives back exactly the lines that were printed. */
  lemma {:induction false} SplitPrint(lines: seq<string>)
    requires AllOneLine(lines)
    ensures Split(Print(lines)) == Some(lines)
    decreases |lines|
  {
    if lines != [] {
      assert OneLine(lines[0]);
      ReadFirstLine(lines[0], Print(lines[1..]));
      assert forall i :: 0 <= i < |lines[1..]| ==> lines[1..][i] == lines[i + 1];
      SplitPrint(lines[1..]);
      assert lines == [lines[0]] + lines[1..];
    }
  }

  lemma {:induction false} PrintConcat(a: seq<string>, b: seq<string>)
    ensures Print(a + b) == Print(a) + Print(b)
    decreases |a|
  {
    if a == [] {
      assert a + b == b;
    } else {
      assert (a + b)[1..] == a[1..] + b;
      PrintConcat(a[1..], b);
    }
  }

  // ---- fields ----

  datatype Field = Field(name: string, value: string)

  /** A legal field name: visible ASCII without a colon. */
  predicate ValidName(name: string) {
    name != "" && forall i :: 0 <= i < |name| ==> ' ' < name[i] < 0x7f as char && name[i] != ':'
  }

  predicate Printable(f: Field) {
    ValidName(f.name) && OneLine(f.value)
  }

  predicate AllPrintable(fs: seq<Field>) {
    forall i :: 0 <= i < |fs| ==> Printable(fs[i])
  }

  function Line(f: Field): string {
    f.name + (":" + (" " + f.value))
  }

  function FieldLines(fs: seq<Field>): (lines: seq<string>)
    ensures |lines| == |fs|
    ensures forall i :: 0 <= i < |fs| ==> lines[i] == Line(fs[i])
  {
    if fs == [] then [] else [Line(fs[0])] + FieldLines(fs[1..])
  }

  lemma {:induction false} FieldLinesConcat(a: seq<Field>, b: seq<Field>)
    ensures FieldLines(a + b) == FieldLines(a) + FieldLines(b)
    decreases |a|
  {
  }

  predicate IsBlank(c: char) {
    c == ' ' || c == '\t'
  }

  function TrimLeft(s: string): string {
    if s != "" && IsBlank(s[0]) then TrimLeft(s[1..]) else s
  }

  function TrimRight(s: string): string {
    if s != "" && IsBlank(s[|s| - 1]) then TrimRight(s[..|s| - 1]) else s
  }

  function Trim(s: string): string {
    TrimRight(TrimLeft(s))
  }

  lemma TrimBlank(s: string)
    ensures Trim(" " + s) == Trim(s)
  {
    assert (" " + s)[1..] == s;
  }

  /** A value with nothing to trim. */
  predicate Tight(s: string) {
    s != "" ==> !IsBlank(s[0]) && !IsBlank(s[|s| - 1])
  }

  lemma TrimTight(s: string)
    requires Tight(s)
    ensures Trim(s) == s
  {
  }

  /** The name stands before the first colon. */
  function ReadField(line: string): Option<Field> {
    var i := IndexByte(line, ':');
    if i <= 0 then None else Some(Field(line[..i], Trim(line[i + 1..])))
  }

  /** The fields up to the first empty line, and the lines after it. */
  function ReadFields(lines: seq<string>): (r: Option<(seq<Field>, seq<string>)>)
    ensures r.Some? ==> |r.value.1| < |lines|
    decreases |lines|
  {
    if lines == [] then None
    else if lines[0] == "" then Some(([], lines[1..]))
    else
      match ReadField(lines[0])
      case None => None
      case Some(f) =>
        match ReadFields(lines[1..])
        case None => None
        case Some((fs, rest)) => Some(([f] + fs, rest))
  }

  function Trimmed(fs: seq<Field>): (ts: seq<Field>)
    ensures |ts| == |fs|
    ensures forall i :: 0 <= i < |fs| ==> ts[i] == Field(fs[i].name, Trim(fs[i].value))
  {
    if fs == [] then [] else [Field(fs[0].name, Trim(fs[0].value))] + Trimmed(fs[1..])
  }

  lemma ReadPrintedField(f: Field)
    requires ValidName(f.name)
    ensures ReadField(Line(f)) == Some(Field(f.name, Trim(f.value)))
    ensures Line(f) != ""
  {
    var line := Line(f);
    assert line == f.name + [':'] + (" " + f.value);
    FirstByte(f.name, ':', " " + f.value);
    assert line[..|f.name|] == f.name;
    assert line[|f.name| + 1..] == " " + f.value;
    TrimBlank(f.value);
  }

  lemma ReadOneField(f: Field, fs: seq<Field>, lines: seq<string>, rest: seq<string>)
    requires ValidName(f.name) && lines != [] && lines[0] == Line(f) && ReadFields(lines[1..]) == Some((fs, rest))
    ensures ReadFields(lines) == Some(([Field(f.name, Trim(f.value))] + fs, rest))
  {
    ReadPrintedField(f);
  }

  lemma ReadNoField(rest: seq<string>)
    ensures ReadFields([""] + rest) == Some(([], rest))
  {
    assert ([""] + rest)[1..] == rest;
  }

  lemma FieldLinesUnfold(f: Field, more: seq<Field>, after: seq<string>)
    ensures FieldLines([f] + more) + after == [Line(f)] + (FieldLines(more) + after)
    ensures Trimmed([f] + more) == [Field(f.name, Trim(f.value))] + Trimmed(more)
  {
    assert ([f] + more)[1..] == more;
  }

  lemma ReadNextField(f: Field, fs: seq<Field>, after: seq<string>, rest: seq<string>)
    requires ValidName(f.name) && ReadFields(after) == Some((fs, rest))
    ensures ReadFields([Line(f)] + after) == Some(([Field(f.name, Trim(f.value))] + fs, rest))
  {
    var lines := [Line(f)] + after;
    assert lines[1..] == after;
    ReadOneField(f, fs, lines, rest);
  }

  /** A printed block ends at its first empty line and holds exactly the printed fields, in order. */
  lemma {:induction false} ReadPrintedFields(fs: seq<Field>, rest: seq<string>)
    requires AllPrintable(fs)
    ensures ReadFields(FieldLines(fs) + ([""] + rest)) == Some((Trimmed(fs), rest))
    decreases |fs|
  {
    if fs == [] {
      assert FieldLines(fs) + ([""] + rest) == [""] + rest;
      ReadNoField(rest);
    } else {
      var f, more := fs[0], fs[1..];
      assert fs == [f] + more;
      PrintableTail(f, more);
      ReadPrintedFields(more, rest);
      FieldLinesUnfold(f, more, [""] + rest);
      ReadNextField(f, Trimmed(more), FieldLines(more) + ([""] + rest), rest);
    }
  }

  lemma PrintableTail(f: Field, more: seq<Field>)
    requires AllPrintable([f] + more)
    ensures Printable(f) && AllPrintable(more)
  {
    var fs := [f] + more;
    assert fs[0] == f && forall i :: 0 <= i < |more| ==> more[i] == fs[i + 1];
  }

  lemma LineIsOneLine(f: Field)
    requires Printable(f)
    ensures OneLine(Line(f))
  {
  }

  lemma FieldLinesAreOneLine(fs: seq<Field>)
    requires AllPrintable(fs)
    ensures AllOneLine(FieldLines(fs))
  {
    forall i | 0 <= i < |fs| ensures OneLine(FieldLines(fs)[i]) {
      assert Printable(fs[i]);
      LineIsOneLine(fs[i]);
    }
  }

  function LowerChar(c: char): char {
    if 'A' <= c <= 'Z' then (c as int + 32) as char else c
  }

  function Lower(s: string): (l: string)
    ensures |l| == |s|
    ensures forall i :: 0 <= i < |s| ==> l[i] == LowerChar(s[i])
  {
    if s == "" then "" else [LowerChar(s[0])] + Lower(s[1..])
  }

  /** The first field of that name, however it is capitalised; "" when there is none. */
  function Get(fs: seq<Field>, key: string): string {
    if fs == [] then ""
    else if Lower(fs[0].name) == key then fs[0].value
    else Get(fs[1..], key)
  }

  lemma {:induction false} GetFirst(before: seq<Field>, f: Field, after: seq<Field>, key: string)
    requires forall i :: 0 <= i < |before| ==> Lower(before[i].name) != key
    requires Lower(f.name) == key
    ensures Get(before + ([f] + after), key) == f.value
    decreases |before|
  {
    var fs := before + ([f] + after);
    if before != [] {
      assert fs[1..] == before[1..] + ([f] + after);
      GetFirst(before[1..], f, after, key);
    }
  }
}
