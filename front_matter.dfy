/** The YAML-style front matter `exportMarkdown` puts before the editor text,
    and a reader for it that recovers the fields and the text. */
module FrontMatter {
  import opened Wrappers
  import opened Text
  import opened Metadata

  const Fence: string := "---\n"
  const Closing: string := "---\n\n"

  /** The line of a field, without its line break. Title and author are
      quoted; their quotes are not escaped. */
  function LineBody(f: Field): string {
    match f
    case TitleField(t) => "title: \"" + t + "\""
    case AuthorField(a) => "author: \"" + a + "\""
    case DateField(d) => "date: " + d
  }

  function Line(f: Field): string {
    LineBody(f) + "\n"
  }

  function Lines(fs: seq<Field>): string {
    if fs == [] then "" else Line(fs[0]) + Lines(fs[1..])
  }

  /** The front matter for the fields `fs`: nothing when there are none. */
  function FrontMatterOf(fs: seq<Field>): string {
    if fs == [] then "" else Fence + Lines(fs) + Closing
  }

  /** Present exactly when some field is included; then it opens with `---`
      on its own line and ends with `---` and a blank line. */
  lemma {:induction false} FrontMatterShape(fs: seq<Field>)
    ensures FrontMatterOf(fs) == "" <==> fs == []
    ensures fs != [] ==>
      && |FrontMatterOf(fs)| >= |Fence| + |Closing|
      && FrontMatterOf(fs)[..|Fence|] == Fence
      && FrontMatterOf(fs)[|FrontMatterOf(fs)| - |Closing|..] == Closing
  {
    if fs != [] {
      Fenced(Fence, Lines(fs), Closing);
    }
  }

  /** A string framed by an opening and a closing piece starts and ends with
      them. */
  lemma {:induction false} Fenced(open: string, inner: string, close: string)
    ensures var r := open + inner + close;
      && |r| >= |open| + |close| && r[..|open|] == open && r[|r| - |close|..] == close
  {
    var r := open + inner + close;
    assert r == open + (inner + close);
  }

  // Reading front matter back.

  /** Index of the first line feed of `s`, or `|s|`. */
  function IndexOfNewline(s: string): (i: nat)
    ensures i <= |s|
  {
    if s == [] || s[0] == '\n' then 0 else 1 + IndexOfNewline(s[1..])
  }

  /** The field a front-matter line holds, if any. */
  function ParseLine(line: string): Option<Field> {
    if HasPrefix(line, "title: \"") && |line| >= 9 && line[|line| - 1] == '"' then
      Some(TitleField(line[8..|line| - 1]))
    else if HasPrefix(line, "author: \"") && |line| >= 10 && line[|line| - 1] == '"' then
      Some(AuthorField(line[9..|line| - 1]))
    else if HasPrefix(line, "date: ") then
      Some(DateField(line[6..]))
    else None
  }

  /** Field lines up to the closing fence, and the text after it. */
  function ParseFields(s: string): Option<(seq<Field>, string)>
    decreases |s|
  {
    if HasPrefix(s, Closing) then Some(([], s[|Closing|..]))
    else
      var i := IndexOfNewline(s);
      if i == |s| then None
      else
        match ParseLine(s[..i])
        case None => None
        case Some(f) =>
          match ParseFields(s[i + 1..])
          case None => None
          case Some((fs, rest)) => Some(([f] + fs, rest))
  }

  /** The fields of a leading front matter and the text after it; a text
      without one has no fields. */
  function SplitFrontMatter(text: string): (seq<Field>, string) {
    if HasPrefix(text, Fence) then
      match ParseFields(text[|Fence|..])
      case Some(r) => r
      case None => ([], text)
    else ([], text)
  }

  /** A field whose text fits on one line. */
  predicate SingleLine(f: Field) {
    '\n' !in f.text
  }

  lemma {:induction false} IndexOfNewlineAppend(a: string, b: string)
    requires '\n' !in a
    ensures IndexOfNewline(a + b) == |a| + IndexOfNewline(b)
  {
    if a == [] {
      assert a + b == b;
    } else {
      assert (a + b)[1..] == a[1..] + b;
      assert a[0] in a;
      IndexOfNewlineAppend(a[1..], b);
    }
  }

  lemma {:induction false} ParseLineBody(f: Field)
    ensures ParseLine(LineBody(f)) == Some(f)
  {
    var l := LineBody(f);
    match f
    case TitleField(t) =>
      assert l[..8] == "title: \"";
      assert l[8..|l| - 1] == t;
    case AuthorField(a) =>
      assert l[..9] == "author: \"";
      assert l[..8] != "title: \"" by { assert l[0] == 'a'; }
      assert l[9..|l| - 1] == a;
    case DateField(d) =>
      assert l[..6] == "date: ";
      assert |l| < 8 || l[..8] != "title: \"" by { assert l[0] == 'd'; }
      assert |l| < 9 || l[..9] != "author: \"" by { assert l[0] == 'd'; }
      assert l[6..] == d;
  }

  lemma {:induction false} LineBodyHasNoNewline(f: Field)
    requires SingleLine(f)
    ensures '\n' !in LineBody(f)
  {
  }

  /** The reader stops at the closing fence. */
  lemma {:induction false} ParseFieldsAtClosing(body: string)
    ensures ParseFields(Closing + body) == Some(([], body))
  {
    var s := Closing + body;
    assert s[..|Closing|] == Closing;
    assert s[|Closing|..] == body;
  }

  /** No field line looks like the closing fence. */
  lemma {:induction false} FieldLineIsNotClosing(f: Field, rest: string)
    ensures !HasPrefix(LineBody(f) + rest, Closing)
  {
    var s := LineBody(f) + rest;
    assert s[0] == LineBody(f)[0];
  }

  /** One field line is read, then the reader goes on after its line break. */
  lemma {:induction false} ParseFieldsStep(f: Field, rest: string)
    requires SingleLine(f)
    ensures ParseFields(rest).Some? ==>
      ParseFields(LineBody(f) + "\n" + rest) ==
        Some(([f] + ParseFields(rest).value.0, ParseFields(rest).value.1))
  {
    var line := LineBody(f);
    var s := line + "\n" + rest;
    assert s == line + ("\n" + rest);
    FieldLineIsNotClosing(f, "\n" + rest);
    LineBodyHasNoNewline(f);
    IndexOfNewlineAppend(line, "\n" + rest);
    assert s[..|line|] == line;
    assert s[|line| + 1..] == rest;
    ParseLineBody(f);
  }

  /** The field lines parse back to their fields, and the reader stops at
      the closing fence. */
  lemma {:induction false} ParseFieldsRoundTrip(fs: seq<Field>, body: string)
    requires forall f | f in fs :: SingleLine(f)
    ensures ParseFields(Lines(fs) + Closing + body) == Some((fs, body))
  {
    if fs == [] {
      assert Lines(fs) + Closing + body == Closing + body;
      ParseFieldsAtClosing(body);
    } else {
      var f := fs[0];
      assert f in fs;
      forall g | g in fs[1..] ensures SingleLine(g) {
        assert g in fs;
      }
      ParseFieldsRoundTrip(fs[1..], body);
      var rest := Lines(fs[1..]) + Closing + body;
      ParseFieldsStep(f, rest);
      RegroupLine(LineBody(f), Lines(fs[1..]), Closing, body);
      assert [f] + fs[1..] == fs;
    }
  }

  /** Regrouping the first line of a front matter. */
  lemma {:induction false} RegroupLine(line: string, lines: string, closing: string, body: string)
    ensures line + "\n" + lines + closing + body == line + "\n" + (lines + closing + body)
  {
  }

  lemma {:induction false} SplitAfterFence(rest: string)
    ensures ParseFields(rest).Some? ==> SplitFrontMatter(Fence + rest) == ParseFields(rest).value
  {
    var text := Fence + rest;
    assert text[..|Fence|] == Fence;
    assert text[|Fence|..] == rest;
  }

  /** Front matter followed by a text reads back as its fields and that
      text, unchanged. */
  lemma {:induction false} SplitFrontMatterRoundTrip(fs: seq<Field>, body: string)
    requires fs != [] && forall f | f in fs :: SingleLine(f)
    ensures SplitFrontMatter(FrontMatterOf(fs) + body) == (fs, body)
  {
    ParseFieldsRoundTrip(fs, body);
    SplitAfterFence(Lines(fs) + Closing + body);
    RegroupFence(Fence, Lines(fs), Closing, body);
  }

  lemma {:induction false} RegroupFence(fence: string, lines: string, closing: string, body: string)
    ensures fence + lines + closing + body == fence + (lines + closing + body)
  {
  }
}
