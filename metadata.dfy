/** The document metadata shared by the three exports, and the metadata
    header placed above the rendered Markdown in the PDF
    (`buildMetadataHeader`) and HTML (`buildHtmlMetadataHeader`) exports. */
module Metadata {
  import opened Text

  /** The sidebar's metadata inputs and their "include" check boxes. */
  datatype Metadata = Metadata(
    title: string, author: string, date: string,
    includeTitle: bool, includeAuthor: bool, includeDate: bool)

  /** The inclusion tests: title and author are tested trimmed, the date as
      entered. */
  predicate TitleIncluded(m: Metadata) {
    m.includeTitle && Trim(m.title) != ""
  }

  predicate AuthorIncluded(m: Metadata) {
    m.includeAuthor && Trim(m.author) != ""
  }

  predicate DateIncluded(m: Metadata) {
    m.includeDate && m.date != ""
  }

  /** A metadata field with the text an export shows for it. */
  datatype Field = TitleField(text: string) | AuthorField(text: string) | DateField(text: string)

  /** Title before author before date. */
  function Rank(f: Field): nat {
    match f
    case TitleField(_) => 0
    case AuthorField(_) => 1
    case DateField(_) => 2
  }

  /** The fields that pass their inclusion test, in export order. */
  function Fields(m: Metadata): seq<Field> {
    (if TitleIncluded(m) then [TitleField(Trim(m.title))] else []) +
    (if AuthorIncluded(m) then [AuthorField(Trim(m.author))] else []) +
    (if DateIncluded(m) then [DateField(m.date)] else [])
  }

  /** Each field is listed exactly when it passes its inclusion test. */
  lemma {:induction false} FieldsIff(m: Metadata)
    ensures TitleField(Trim(m.title)) in Fields(m) <==> TitleIncluded(m)
    ensures AuthorField(Trim(m.author)) in Fields(m) <==> AuthorIncluded(m)
    ensures DateField(m.date) in Fields(m) <==> DateIncluded(m)
    ensures Fields(m) == [] <==> !TitleIncluded(m) && !AuthorIncluded(m) && !DateIncluded(m)
  {
  }

  /** The fields are listed title first, date last, each at most once. */
  lemma {:induction false} FieldsOrdered(m: Metadata)
    ensures forall i, j :: 0 <= i < j < |Fields(m)| ==> Rank(Fields(m)[i]) < Rank(Fields(m)[j])
  {
  }

  /** HTML escaping (`escapeHtml`) and date display (`formatDate`) are done
      by the browser; the model takes them as given functions. */
  type Escaper = string -> string
  type DateFormatter = string -> string

  /** The two header layouts: the PDF one and the standalone HTML one. */
  datatype HeaderStyle = PdfHeader | HtmlHeader

  function TitleMarkup(style: HeaderStyle, escaped: string): string {
    match style
    case PdfHeader => "<h1 class=\"pdf-title\">" + escaped + "</h1>"
    case HtmlHeader => "<h1>" + escaped + "</h1>"
  }

  function AuthorSpan(escaped: string): string {
    "<span><strong>Author:</strong> " + escaped + "</span>"
  }

  function DateSpan(formatted: string): string {
    "<span><strong>Date:</strong> " + formatted + "</span>"
  }

  /** The meta line around the author and date spans, absent when there are
      none. */
  function MetaBlock(style: HeaderStyle, metaInfo: seq<string>): string {
    if |metaInfo| == 0 then ""
    else
      match style
      case PdfHeader => "<div class=\"pdf-meta-info\">" + Concat(metaInfo) + "</div>"
      case HtmlHeader => "<div class=\"document-meta\">" + Concat(metaInfo) + "</div>"
  }

  function Spaces(n: nat): string {
    seq(n, _ => ' ')
  }

  /** The template literal around the title part and the meta line, with
      its line breaks and indentation. */
  function Wrap(style: HeaderStyle, titlePart: string, metaLine: string): (r: string)
    ensures |r| > 0
  {
    match style
    case PdfHeader =>
      "\n" + Spaces(16) + "<div class=\"pdf-metadata\">\n" +
      Spaces(20) + titlePart + "\n" +
      Spaces(20) + metaLine + "\n" +
      Spaces(16) + "</div>\n" + Spaces(12)
    case HtmlHeader =>
      "\n    <header class=\"document-header\">\n        " +
      titlePart + "\n        " + metaLine + "\n    </header>"
  }

  /** The markup of the title fields among `fs` (the `parts` array). */
  function TitleParts(style: HeaderStyle, fs: seq<Field>, esc: Escaper): seq<string> {
    if fs == [] then []
    else
      (if fs[0].TitleField? then [TitleMarkup(style, esc(fs[0].text))] else []) +
      TitleParts(style, fs[1..], esc)
  }

  /** The spans of the author and date fields among `fs` (the `metaInfo`
      array). */
  function MetaInfo(fs: seq<Field>, esc: Escaper, fmt: DateFormatter): seq<string> {
    if fs == [] then []
    else
      (match fs[0]
       case TitleField(_) => []
       case AuthorField(a) => [AuthorSpan(esc(a))]
       case DateField(d) => [DateSpan(fmt(d))]) +
      MetaInfo(fs[1..], esc, fmt)
  }

  /** The header that shows the fields `fs`: empty when no part is made. */
  function HeaderOf(style: HeaderStyle, fs: seq<Field>, esc: Escaper, fmt: DateFormatter): string {
    var parts := TitleParts(style, fs, esc);
    var metaInfo := MetaInfo(fs, esc, fmt);
    if |parts| > 0 || |metaInfo| > 0 then Wrap(style, Concat(parts), MetaBlock(style, metaInfo))
    else ""
  }

  /** Every field makes exactly one part: a title part or a meta span. */
  lemma {:induction false} PiecesPartitionFields(style: HeaderStyle, fs: seq<Field>, esc: Escaper, fmt: DateFormatter)
    ensures |TitleParts(style, fs, esc)| + |MetaInfo(fs, esc, fmt)| == |fs|
  {
    if fs != [] {
      PiecesPartitionFields(style, fs[1..], esc, fmt);
    }
  }

  /** The header is empty exactly when no field passes its test, in both
      layouts alike. */
  lemma {:induction false} HeaderEmptyIff(style: HeaderStyle, m: Metadata, esc: Escaper, fmt: DateFormatter)
    ensures HeaderOf(style, Fields(m), esc, fmt) == "" <==> Fields(m) == []
  {
    PiecesPartitionFields(style, Fields(m), esc, fmt);
  }

  function AuthorPart(m: Metadata, esc: Escaper): seq<string> {
    if AuthorIncluded(m) then [AuthorSpan(esc(Trim(m.author)))] else []
  }

  function DatePart(m: Metadata, fmt: DateFormatter): seq<string> {
    if DateIncluded(m) then [DateSpan(fmt(m.date))] else []
  }

  lemma {:induction false} TitlePartsAppend(style: HeaderStyle, a: seq<Field>, b: seq<Field>, esc: Escaper)
    ensures TitleParts(style, a + b, esc) == TitleParts(style, a, esc) + TitleParts(style, b, esc)
  {
    if a == [] {
      assert a + b == b;
    } else {
      assert (a + b)[1..] == a[1..] + b;
      TitlePartsAppend(style, a[1..], b, esc);
    }
  }

  lemma {:induction false} MetaInfoAppend(a: seq<Field>, b: seq<Field>, esc: Escaper, fmt: DateFormatter)
    ensures MetaInfo(a + b, esc, fmt) == MetaInfo(a, esc, fmt) + MetaInfo(b, esc, fmt)
  {
    if a == [] {
      assert a + b == b;
    } else {
      assert (a + b)[1..] == a[1..] + b;
      MetaInfoAppend(a[1..], b, esc, fmt);
    }
  }

  /** Splitting a field list made of title fields followed by author and
      date fields. */
  lemma {:induction false} PiecesOfSlots(style: HeaderStyle, t: seq<Field>, a: seq<Field>, d: seq<Field>, esc: Escaper, fmt: DateFormatter)
    requires forall f | f in t :: f.TitleField?
    requires forall f | f in a :: !f.TitleField?
    requires forall f | f in d :: !f.TitleField?
    ensures TitleParts(style, t + a + d, esc) == TitleParts(style, t, esc)
    ensures MetaInfo(t + a + d, esc, fmt) == MetaInfo(a, esc, fmt) + MetaInfo(d, esc, fmt)
  {
    var tt := TitleParts(style, t, esc);
    TitlePartsAppend(style, t, a, esc);
    NoTitleParts(style, a, esc);
    assert TitleParts(style, t + a, esc) == tt by {
      assert tt + [] == tt;
    }
    TitlePartsAppend(style, t + a, d, esc);
    NoTitleParts(style, d, esc);
    assert tt + [] == tt;
    var ma := MetaInfo(a, esc, fmt);
    MetaInfoAppend(t, a, esc, fmt);
    NoMetaInfo(t, esc, fmt);
    assert MetaInfo(t + a, esc, fmt) == ma by {
      assert [] + ma == ma;
    }
    MetaInfoAppend(t + a, d, esc, fmt);
  }

  lemma {:induction false} NoTitleParts(style: HeaderStyle, fs: seq<Field>, esc: Escaper)
    requires forall f | f in fs :: !f.TitleField?
    ensures TitleParts(style, fs, esc) == []
  {
    if fs != [] {
      assert fs[0] in fs;
      NoTitleParts(style, fs[1..], esc);
    }
  }

  lemma {:induction false} NoMetaInfo(fs: seq<Field>, esc: Escaper, fmt: DateFormatter)
    requires forall f | f in fs :: f.TitleField?
    ensures MetaInfo(fs, esc, fmt) == []
  {
    if fs != [] {
      assert fs[0] in fs;
      NoMetaInfo(fs[1..], esc, fmt);
    }
  }

  /** The parts and spans made from the fields of a record: the escaped
      trimmed title as the only part, then the author span before the date
      span, each present exactly when its field passes its test. */
  lemma {:induction false} PiecesOfFields(style: HeaderStyle, m: Metadata, esc: Escaper, fmt: DateFormatter)
    ensures TitleParts(style, Fields(m), esc) ==
      (if TitleIncluded(m) then [TitleMarkup(style, esc(Trim(m.title)))] else [])
    ensures MetaInfo(Fields(m), esc, fmt) == AuthorPart(m, esc) + DatePart(m, fmt)
  {
    PiecesOfChoices(style, TitleIncluded(m), AuthorIncluded(m), DateIncluded(m),
                    Trim(m.title), Trim(m.author), m.date, esc, fmt);
  }

  /** `PiecesOfSlots` for the three optional fields of a record. */
  lemma {:induction false} PiecesOfChoices(style: HeaderStyle, ti: bool, ai: bool, di: bool,
                                           title: string, author: string, date: string,
                                           esc: Escaper, fmt: DateFormatter)
    ensures var fs := (if ti then [TitleField(title)] else []) +
                      (if ai then [AuthorField(author)] else []) +
                      (if di then [DateField(date)] else []);
      && TitleParts(style, fs, esc) == (if ti then [TitleMarkup(style, esc(title))] else [])
      && MetaInfo(fs, esc, fmt) ==
           (if ai then [AuthorSpan(esc(author))] else []) + (if di then [DateSpan(fmt(date))] else [])
  {
    var t: seq<Field> := if ti then [TitleField(title)] else [];
    var a: seq<Field> := if ai then [AuthorField(author)] else [];
    var d: seq<Field> := if di then [DateField(date)] else [];
    PiecesOfSlots(style, t, a, d, esc, fmt);
    SinglePieces(style, t, esc, fmt);
    SinglePieces(style, a, esc, fmt);
    SinglePieces(style, d, esc, fmt);
  }

  /** The part or span made from a list of at most one field. */
  lemma {:induction false} SinglePieces(style: HeaderStyle, fs: seq<Field>, esc: Escaper, fmt: DateFormatter)
    requires |fs| <= 1
    ensures fs == [] ==> TitleParts(style, fs, esc) == [] && MetaInfo(fs, esc, fmt) == []
    ensures fs != [] && fs[0].TitleField? ==> TitleParts(style, fs, esc) == [TitleMarkup(style, esc(fs[0].text))]
    ensures fs != [] && fs[0].AuthorField? ==> MetaInfo(fs, esc, fmt) == [AuthorSpan(esc(fs[0].text))]
    ensures fs != [] && fs[0].DateField? ==> MetaInfo(fs, esc, fmt) == [DateSpan(fmt(fs[0].text))]
  {
    if fs != [] {
      assert fs[1..] == [];
    }
  }

  /** The header of a record, laid out: the title part, then the meta line. */
  lemma {:induction false} HeaderLayout(style: HeaderStyle, m: Metadata, esc: Escaper, fmt: DateFormatter)
    ensures Fields(m) != [] ==>
      HeaderOf(style, Fields(m), esc, fmt) ==
        Wrap(style,
             if TitleIncluded(m) then TitleMarkup(style, esc(Trim(m.title))) else "",
             MetaBlock(style, AuthorPart(m, esc) + DatePart(m, fmt)))
  {
    PiecesOfFields(style, m, esc, fmt);
    PiecesPartitionFields(style, Fields(m), esc, fmt);
    if TitleIncluded(m) {
      var title := TitleMarkup(style, esc(Trim(m.title)));
      assert Concat([title]) == title + "";
      assert title + "" == title;
    }
  }

  /** `buildMetadataHeader`: the header above the rendered Markdown in the
      PDF. */
  method BuildMetadataHeader(m: Metadata, esc: Escaper, fmt: DateFormatter) returns (html: string)
    ensures html == HeaderOf(PdfHeader, Fields(m), esc, fmt)
  {
    html := BuildHeader(PdfHeader, m, esc, fmt);
  }

  /** `buildHtmlMetadataHeader`: the header at the top of the exported HTML
      body. */
  method BuildHtmlMetadataHeader(m: Metadata, esc: Escaper, fmt: DateFormatter) returns (html: string)
    ensures html == HeaderOf(HtmlHeader, Fields(m), esc, fmt)
  {
    html := BuildHeader(HtmlHeader, m, esc, fmt);
  }

  /** The steps both header builders take: push the title part, push the
      author and date spans, and wrap them unless both lists are empty. */
  method BuildHeader(style: HeaderStyle, m: Metadata, esc: Escaper, fmt: DateFormatter) returns (html: string)
    ensures html == HeaderOf(style, Fields(m), esc, fmt)
  {
    var parts: seq<string> := [];
    if TitleIncluded(m) {
      parts := parts + [TitleMarkup(style, esc(Trim(m.title)))];
    }
    var metaInfo: seq<string> := [];
    if AuthorIncluded(m) {
      metaInfo := metaInfo + [AuthorSpan(esc(Trim(m.author)))];
    }
    assert metaInfo == AuthorPart(m, esc);
    if DateIncluded(m) {
      metaInfo := metaInfo + [DateSpan(fmt(m.date))];
    }
    assert metaInfo == AuthorPart(m, esc) + DatePart(m, fmt);
    if |parts| > 0 || |metaInfo| > 0 {
      html := Wrap(style, Concat(parts), MetaBlock(style, metaInfo));
    } else {
      html := "";
    }
    HeaderOfRecord(style, m, esc, fmt, parts, metaInfo);
  }

  /** The header of a record from its title part and its meta spans. */
  lemma {:induction false} HeaderOfRecord(style: HeaderStyle, m: Metadata, esc: Escaper, fmt: DateFormatter,
                                          parts: seq<string>, metaInfo: seq<string>)
    requires parts == if TitleIncluded(m) then [TitleMarkup(style, esc(Trim(m.title)))] else []
    requires metaInfo == AuthorPart(m, esc) + DatePart(m, fmt)
    ensures HeaderOf(style, Fields(m), esc, fmt) ==
      if |parts| > 0 || |metaInfo| > 0 then Wrap(style, Concat(parts), MetaBlock(style, metaInfo)) else ""
  {
    PiecesOfFields(style, m, esc, fmt);
  }

  /** The two layouts show the same fields: the same title part (up to the
      heading's class) and the same author and date spans. */
  lemma {:induction false} HeadersAgree(m: Metadata, esc: Escaper, fmt: DateFormatter)
    ensures (HeaderOf(PdfHeader, Fields(m), esc, fmt) == "") == (HeaderOf(HtmlHeader, Fields(m), esc, fmt) == "")
    ensures |TitleParts(PdfHeader, Fields(m), esc)| == |TitleParts(HtmlHeader, Fields(m), esc)|
    ensures MetaInfo(Fields(m), esc, fmt) == AuthorPart(m, esc) + DatePart(m, fmt)
  {
    HeaderEmptyIff(PdfHeader, m, esc, fmt);
    HeaderEmptyIff(HtmlHeader, m, esc, fmt);
    PiecesOfFields(PdfHeader, m, esc, fmt);
    PiecesOfFields(HtmlHeader, m, esc, fmt);
  }

  /** The `<meta name="author">` tag of the HTML export. Unlike the header,
      it tests the author untrimmed and shows it untrimmed. */
  function MetaAuthorTag(m: Metadata, esc: Escaper): string {
    if m.includeAuthor && m.author != "" then "<meta name=\"author\" content=\"" + esc(m.author) + "\">"
    else ""
  }

  /** Whenever the header shows an author the tag is there too; with the
      check box cleared both are absent. */
  lemma {:induction false} MetaAuthorTagFollowsHeader(m: Metadata, esc: Escaper)
    ensures AuthorIncluded(m) ==> MetaAuthorTag(m, esc) != ""
    ensures !m.includeAuthor ==> MetaAuthorTag(m, esc) == ""
  {
  }

  /** A blank author gets a `<meta name="author">` tag though the header
      leaves the author out. */
  lemma {:induction false} BlankAuthorStillTagged(m: Metadata, esc: Escaper)
    requires m.includeAuthor && m.author == " "
    ensures MetaAuthorTag(m, esc) != "" && !AuthorIncluded(m)
  {
    assert TrimStart(m.author) == "";
  }
}
