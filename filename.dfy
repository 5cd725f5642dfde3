/** The download name of every export (`getFilename`): the trimmed title, or
    `untitled-document` when it is empty, lower-cased, with each run of
    characters outside `[a-z0-9]` replaced by one `-`, one leading and one
    trailing `-` removed, then `.` and the extension. */
module Filename {
  import opened Text

  const DefaultName: string := "untitled-document"

  /** A character that can survive `replace(/[^a-z0-9]+/g, '-')`. */
  predicate IsSlugChar(c: char) {
    IsLowerAlnum(c) || c == '-'
  }

  predicate NoDoubleDash(s: string) {
    forall k :: 0 <= k < |s| - 1 ==> !(s[k] == '-' && s[k + 1] == '-')
  }

  /** A slug: only `[a-z0-9-]`, no `--`, no `-` at either end. */
  predicate IsSlug(s: string) {
    && (forall k :: 0 <= k < |s| ==> IsSlugChar(s[k]))
    && NoDoubleDash(s)
    && (s != [] ==> s[0] != '-' && s[|s| - 1] != '-')
  }

  /** `String.prototype.toLowerCase` on one character, as far as it matters
      for the slug: A-Z become a-z; KELVIN SIGN (U+212A) becomes `k` and LATIN
      CAPITAL LETTER I WITH DOT ABOVE (U+0130) becomes `i` followed by
      COMBINING DOT ABOVE (U+0307). These are the only characters whose lower
      case contains an ASCII letter or digit; every other character
      lower-cases to characters outside `[a-z0-9]`, so it is kept as it is
      here and ends up inside a separator run either way. */
  function LowerChar(c: char): string {
    if 'A' <= c <= 'Z' then [(c as int + 32) as char]
    else if c == '\U{212A}' then "k"
    else if c == '\U{0130}' then "i\U{0307}"
    else [c]
  }

  lemma {:induction false} LowerCharKeepsSlugChar(c: char)
    requires IsSlugChar(c)
    ensures LowerChar(c) == [c]
  {
  }

  /** `s.toLowerCase()`, character by character. */
  function ToLower(s: string): string {
    if s == [] then [] else LowerChar(s[0]) + ToLower(s[1..])
  }

  /** Lower-casing leaves a string of slug characters unchanged. */
  lemma {:induction false} ToLowerKeepsSlugChars(s: string)
    requires forall k :: 0 <= k < |s| ==> IsSlugChar(s[k])
    ensures ToLower(s) == s
  {
    if s != [] {
      LowerCharKeepsSlugChar(s[0]);
      ToLowerKeepsSlugChars(s[1..]);
    }
  }

  /** `s.replace(/[^a-z0-9]+/g, '-')` read left to right: `inRun` says that
      the previous character was a separator already turned into `-`. Each
      maximal run outside `[a-z0-9]` becomes one `-`. */
  function Collapse(s: string, inRun: bool): string {
    if s == [] then []
    else if IsLowerAlnum(s[0]) then [s[0]] + Collapse(s[1..], false)
    else if inRun then Collapse(s[1..], true)
    else "-" + Collapse(s[1..], true)
  }

  function CollapseSeparators(s: string): string {
    Collapse(s, false)
  }

  /** After collapsing, only `[a-z0-9-]` is left and no two `-` are adjacent;
      inside a run no further `-` is written. */
  lemma {:induction false} CollapseShape(s: string, inRun: bool)
    ensures var r := Collapse(s, inRun);
      && (forall k :: 0 <= k < |r| ==> IsSlugChar(r[k]))
      && NoDoubleDash(r)
      && (inRun && r != [] ==> r[0] != '-')
  {
    if s != [] {
      CollapseShape(s[1..], !IsLowerAlnum(s[0]));
    }
  }

  /** `s.replace(/(^-|-$)/g, '')`: one `-` off the front, then one off the
      back of what is left. */
  function StripDashes(s: string): string {
    var a := if s != [] && s[0] == '-' then s[1..] else s;
    if a != [] && a[|a| - 1] == '-' then a[..|a| - 1] else a
  }

  /** The sanitised title. */
  function Slugify(title: string): string {
    StripDashes(CollapseSeparators(ToLower(title)))
  }

  /** `elements.docTitle.value.trim() || 'untitled-document'`. */
  function BaseName(title: string): string {
    var t := Trim(title);
    if t == [] then DefaultName else t
  }

  /** `getFilename(extension)`: a slug, a dot, the extension. */
  function GetFilename(title: string, extension: string): (r: string)
    ensures |r| > |extension| && r[|r| - |extension| - 1..] == "." + extension
    ensures IsSlug(r[..|r| - |extension| - 1])
  {
    var slug := Slugify(BaseName(title));
    SlugifyIsSlug(BaseName(title));
    NameParts(slug, extension);
    slug + "." + extension
  }

  /** A name joined from a stem, a dot and an extension splits back into
      them. */
  lemma {:induction false} NameParts(stem: string, extension: string)
    ensures var r := stem + "." + extension;
      && |r| > |extension| && r[|r| - |extension| - 1..] == "." + extension
      && r[..|r| - |extension| - 1] == stem
  {
    var r := stem + "." + extension;
    assert r == stem + ("." + extension);
  }

  /** Stripping one dash at each end of a string without `--` leaves no dash
      at either end. */
  lemma {:induction false} StripDashesShape(c: string)
    requires forall k :: 0 <= k < |c| ==> IsSlugChar(c[k])
    requires NoDoubleDash(c)
    ensures IsSlug(StripDashes(c))
  {
    var a := if c != [] && c[0] == '-' then c[1..] else c;
    assert NoDoubleDash(a);
    assert a != [] ==> a[0] != '-';
    if a != [] && a[|a| - 1] == '-' {
      var b := a[..|a| - 1];
      assert b != [] ==> b[|b| - 1] == a[|a| - 2];
      assert NoDoubleDash(b);
    }
  }

  /** Whatever the title, the sanitised form is a slug. */
  lemma {:induction false} SlugifyIsSlug(title: string)
    ensures IsSlug(Slugify(title))
  {
    CollapseShape(ToLower(title), false);
    StripDashesShape(CollapseSeparators(ToLower(title)));
  }

  /** A string of slug characters without `--` collapses to itself. */
  lemma {:induction false} CollapseKeepsSlugChars(s: string, inRun: bool)
    requires forall k :: 0 <= k < |s| ==> IsSlugChar(s[k])
    requires NoDoubleDash(s)
    requires inRun ==> s == [] || s[0] != '-'
    ensures Collapse(s, inRun) == s
  {
    if s != [] {
      assert |s| > 1 ==> s[1..][0] == s[1];
      CollapseKeepsSlugChars(s[1..], !IsLowerAlnum(s[0]));
    }
  }

  /** Slugging is idempotent: a slug is its own slug. */
  lemma {:induction false} SlugFixedPoint(s: string)
    requires IsSlug(s)
    ensures Slugify(s) == s
  {
    ToLowerKeepsSlugChars(s);
    CollapseKeepsSlugChars(s, false);
  }

  lemma {:induction false} SlugifyIdempotent(title: string)
    ensures Slugify(Slugify(title)) == Slugify(title)
  {
    SlugifyIsSlug(title);
    SlugFixedPoint(Slugify(title));
  }

  /** The letters and digits of a string, in order. */
  function Alnums(s: string): (r: string)
    ensures forall k :: 0 <= k < |r| ==> IsLowerAlnum(r[k])
  {
    if s == [] then [] else (if IsLowerAlnum(s[0]) then [s[0]] else []) + Alnums(s[1..])
  }

  lemma {:induction false} AlnumsAppend(a: string, b: string)
    ensures Alnums(a + b) == Alnums(a) + Alnums(b)
  {
    if a == [] {
      assert a + b == b;
    } else {
      assert (a + b)[1..] == a[1..] + b;
      AlnumsAppend(a[1..], b);
    }
  }

  /** Collapsing the separator runs keeps every letter and digit, in order. */
  lemma {:induction false} CollapseKeepsAlnums(s: string, inRun: bool)
    ensures Alnums(Collapse(s, inRun)) == Alnums(s)
  {
    if s != [] {
      var rest := Collapse(s[1..], !IsLowerAlnum(s[0]));
      CollapseKeepsAlnums(s[1..], !IsLowerAlnum(s[0]));
      if IsLowerAlnum(s[0]) {
        AlnumsAppend([s[0]], rest);
      } else if !inRun {
        AlnumsAppend("-", rest);
      }
    }
  }

  /** Stripping the end dashes keeps every letter and digit. */
  lemma {:induction false} StripKeepsAlnums(c: string)
    ensures Alnums(StripDashes(c)) == Alnums(c)
  {
    var a := if c != [] && c[0] == '-' then c[1..] else c;
    if c != [] && c[0] == '-' {
      assert c == "-" + c[1..];
      AlnumsAppend("-", c[1..]);
    }
    assert Alnums(a) == Alnums(c);
    if a != [] && a[|a| - 1] == '-' {
      assert a == a[..|a| - 1] + "-";
      AlnumsAppend(a[..|a| - 1], "-");
    }
  }

  /** The slug holds exactly the ASCII letters and digits of the lower-cased
      title, in their original order: only separators are lost. */
  lemma {:induction false} SlugKeepsAlnums(title: string)
    ensures Alnums(Slugify(title)) == Alnums(ToLower(title))
  {
    CollapseKeepsAlnums(ToLower(title), false);
    StripKeepsAlnums(CollapseSeparators(ToLower(title)));
  }

  lemma {:induction false} DefaultNameIsSlug()
    ensures IsSlug(DefaultName)
  {
    assert forall k :: 0 <= k < |DefaultName| ==> IsSlugChar(DefaultName[k]);
  }

  /** The fallback name is used only when the trimmed title is empty; a title
      made only of separators gives the empty slug instead. */
  lemma {:induction false} FallbackOnlyForBlankTitle(title: string, extension: string)
    ensures Trim(title) == [] ==> GetFilename(title, extension) == DefaultName + "." + extension
    ensures Trim(title) != [] ==> GetFilename(title, extension) == Slugify(Trim(title)) + "." + extension
  {
    if Trim(title) == [] {
      assert BaseName(title) == DefaultName;
      DefaultNameIsSlug();
      SlugFixedPoint(DefaultName);
    } else {
      assert BaseName(title) == Trim(title);
    }
  }

  lemma {:induction false} ToLowerAppend(a: string, b: string)
    ensures ToLower(a + b) == ToLower(a) + ToLower(b)
  {
    if a == [] {
      assert a + b == b;
    } else {
      assert (a + b)[1..] == a[1..] + b;
      ToLowerAppend(a[1..], b);
    }
  }

  /** A cut just after a letter or digit is not inside a separator run, so
      the two sides collapse independently. */
  lemma {:induction false} CollapseAppend(a: string, b: string, inRun: bool)
    requires a != [] && IsLowerAlnum(a[|a| - 1])
    ensures Collapse(a + b, inRun) == Collapse(a, inRun) + Collapse(b, false)
  {
    assert (a + b)[0] == a[0];
    assert (a + b)[1..] == a[1..] + b;
    if |a| == 1 {
      assert a[1..] + b == b;
    } else {
      CollapseAppend(a[1..], b, !IsLowerAlnum(a[0]));
    }
  }

  /** No character of `s` is an ASCII letter or digit. */
  predicate NoAlnum(s: string) {
    forall k :: 0 <= k < |s| ==> !IsLowerAlnum(s[k])
  }

  /** A run outside `[a-z0-9]` writes a single `-`, or nothing when it
      continues a run already written. */
  lemma {:induction false} CollapseSkipsRun(sep: string, b: string, inRun: bool)
    requires sep != [] && NoAlnum(sep)
    ensures Collapse(sep + b, inRun) == (if inRun then "" else "-") + Collapse(b, true)
  {
    assert (sep + b)[0] == sep[0];
    assert (sep + b)[1..] == sep[1..] + b;
    if |sep| == 1 {
      assert sep[1..] + b == b;
    } else {
      CollapseSkipsRun(sep[1..], b, true);
      assert "" + Collapse(b, true) == Collapse(b, true);
    }
  }

  /** Between two letters or digits, a whole run of other characters,
      however long, becomes exactly one `-`. */
  lemma {:induction false} CollapseRunToDash(a: string, sep: string, b: string, inRun: bool)
    requires a != [] && IsLowerAlnum(a[|a| - 1])
    requires sep != [] && NoAlnum(sep)
    requires b != [] && IsLowerAlnum(b[0])
    ensures Collapse(a + sep + b, inRun) == Collapse(a, inRun) + "-" + Collapse(b, false)
  {
    assert a + sep + b == a + (sep + b);
    CollapseAppend(a, sep + b, inRun);
    CollapseSkipsRun(sep, b, false);
    assert Collapse(b, true) == Collapse(b, false);
    AppendAssoc(Collapse(a, inRun), "-", Collapse(b, false));
  }

  /** A character that `toLowerCase` leaves alone and that is no letter or
      digit, so it lies inside a separator run before and after
      lower-casing. */
  predicate IsPlainSeparator(c: char) {
    !IsLowerAlnum(c) && !('A' <= c <= 'Z') && c != '\U{212A}' && c != '\U{0130}'
  }

  lemma {:induction false} ToLowerKeepsSeparators(s: string)
    requires forall k :: 0 <= k < |s| ==> IsPlainSeparator(s[k])
    ensures ToLower(s) == s
  {
    if s != [] {
      ToLowerKeepsSeparators(s[1..]);
    }
  }

  /** A string with no `-` at either end loses nothing to the strip. */
  lemma {:induction false} StripKeepsInner(s: string)
    requires s != [] && s[0] != '-' && s[|s| - 1] != '-'
    ensures StripDashes(s) == s
  {
  }

  /** Two lower-case words with a run of separators between them are saved
      as the words joined by one `-`: `my   report` and `my -- report` both
      give `my-report`. */
  lemma {:induction false} SlugJoinsWords(a: string, sep: string, b: string)
    requires a != [] && forall k :: 0 <= k < |a| ==> IsLowerAlnum(a[k])
    requires b != [] && forall k :: 0 <= k < |b| ==> IsLowerAlnum(b[k])
    requires sep != [] && forall k :: 0 <= k < |sep| ==> IsPlainSeparator(sep[k])
    ensures Slugify(a + sep + b) == a + "-" + b
  {
    var s := a + sep + b;
    assert ToLower(s) == s by {
      ToLowerAppend(a + sep, b);
      ToLowerAppend(a, sep);
      ToLowerKeepsSlugChars(a);
      ToLowerKeepsSlugChars(b);
      ToLowerKeepsSeparators(sep);
    }
    assert CollapseSeparators(s) == a + "-" + b by {
      CollapseRunToDash(a, sep, b, false);
      CollapseKeepsSlugChars(a, false);
      CollapseKeepsSlugChars(b, false);
    }
    var r := a + "-" + b;
    assert r[0] == a[0] && r[|r| - 1] == b[|b| - 1];
    StripKeepsInner(r);
  }

  /** The two steps of the `My Report!!` example. The title is taken in two
      halves, `My Re` and `port!!`, each lower-cased and collapsed on its own
      (a cut after a letter does not change the collapse). */
  lemma {:induction false} LowerMyReport(title: string)
    requires title == "My Report!!"
    ensures ToLower(title) == "my report!!"
  {
    assert title == "My Re" + "port!!";
    assert ToLower("My Re" + "port!!") == "my re" + "port!!" by {
      ToLowerAppend("My Re", "port!!");
      assert ToLower("My Re") == "my re";
      assert ToLower("port!!") == "port!!";
    }
    assert "my re" + "port!!" == "my report!!";
  }

  lemma {:induction false} CollapseMyReport(lower: string)
    requires lower == "my report!!"
    ensures CollapseSeparators(lower) == "my-report-"
  {
    assert lower == "my re" + "port!!";
    assert Collapse("my re" + "port!!", false) == "my-re" + "port-" by {
      CollapseAppend("my re", "port!!", false);
      assert Collapse("my re", false) == "my-re";
      assert Collapse("port!!", false) == "port-";
    }
    assert "my-re" + "port-" == "my-report-";
  }

  /** The title `My Report!!` is saved as `my-report.pdf`. */
  lemma {:induction false} ExampleMyReport(title: string)
    requires title == "My Report!!"
    ensures GetFilename(title, "pdf") == "my-report.pdf"
  {
    assert Trim(title) == title;
    LowerMyReport(title);
    CollapseMyReport(ToLower(title));
    assert StripDashes("my-report-") == "my-report";
  }

  /** A title of separators only is not blank, so the fallback does not
      apply and the name is just the extension. */
  lemma {:induction false} ExampleOnlyPunctuation()
    ensures GetFilename("!!!", "pdf") == ".pdf"
  {
  }

  lemma {:induction false} ExampleBlankTitle()
    ensures GetFilename("   ", "md") == "untitled-document.md"
  {
    assert Trim("   ") == [] by {
      assert AllWhitespace("   ");
      TrimEmptyIff("   ");
    }
    assert DefaultName + "." + "md" == "untitled-document.md";
    FallbackOnlyForBlankTitle("   ", "md");
  }
}
