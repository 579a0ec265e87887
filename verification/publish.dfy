/** The publish route `POST /api/publish`: the hand-written front-matter
    serialiser, tag sanitising and the ordered sequence of gates (rate
    limit, API key, required fields, lengths) before the file is pushed to
    the remote repository.

    Headers and the parsed JSON body are plain values (`None` for a body
    that is not valid JSON), the secret `PUBLISH_SECRET` is the parameter
    `secret`, the clock gives `now` and `today`, and the remote file
    creation is the function parameter `push`. */
module Publish {
  import opened Js
  import Slug
  import PublishRateLimit
  import Posts

  const MaxTitleLength: nat := 200
  const MaxContentLength: nat := 100000
  const MaxTags: nat := 10
  const Author := "Yuval Avidani"

  // ---------------------------------------------------------------------
  // The escapes

  /** `s.replace(/"/g, '\\"')`, the escape the source applies to the title
      and the excerpt. It leaves backslashes as they are (see
      `BackslashTitleMisread`). */
  function EscapeQuotes(s: string): (r: string)
    ensures |r| >= |s|
    ensures r != [] ==> r[0] != '"'
  {
    if s == [] then []
    else (if s[0] == '"' then "\\\"" else [s[0]]) + EscapeQuotes(s[1..])
  }

  /** The quote escape works character by character: a quote becomes a
      backslash and a quote, every other character is kept. */
  lemma {:induction false} EscapeQuotesAppend(a: string, b: string)
    ensures EscapeQuotes(a + b) == EscapeQuotes(a) + EscapeQuotes(b)
    ensures EscapeQuotes("\"") == "\\\""
    ensures forall c: char :: c != '"' ==> EscapeQuotes([c]) == [c]
    decreases |a|
  {
    if a == [] {
      assert a + b == b;
    } else {
      assert (a + b)[0] == a[0] && (a + b)[1..] == a[1..] + b;
      EscapeQuotesAppend(a[1..], b);
    }
    forall c: char | c != '"' ensures EscapeQuotes([c]) == [c] {
      assert [c][1..] == [];
    }
    assert "\""[1..] == [];
  }

  /** Reads a quote-escaped text back: `\"` becomes `"`. */
  function UnescapeQuotes(s: string): string
    decreases |s|
  {
    if s == [] then []
    else if |s| >= 2 && s[0] == '\\' && s[1] == '"' then "\"" + UnescapeQuotes(s[2..])
    else [s[0]] + UnescapeQuotes(s[1..])
  }

  /** The quote escape loses nothing: undoing it gives the text back. */
  lemma {:induction false} EscapeQuotesRoundTrip(s: string)
    ensures UnescapeQuotes(EscapeQuotes(s)) == s
    decreases |s|
  {
    if s != [] {
      var t := EscapeQuotes(s[1..]);
      EscapeQuotesRoundTrip(s[1..]);
      if s[0] == '"' {
        var e := "\\\"" + t;
        assert EscapeQuotes(s) == e;
        assert e[2..] == t;
      } else {
        var e := [s[0]] + t;
        assert EscapeQuotes(s) == e;
        assert e[1..] == t;
        assert |e| >= 2 ==> e[1] == t[0];
      }
      assert s == [s[0]] + s[1..];
    }
  }

  /** A double-quoted YAML scalar read from just after its opening quote:
      its value and the text after its closing quote. */
  datatype Scalar = Scalar(value: string, rest: string)

  /** The escape sequences the reader below decodes: `\"`, `\\`, `\n` and
      `\r` (a subset of section 5.7 of the YAML 1.2 specification). */
  function Unescape(c: char): Option<char> {
    if c == '"' then Some('"')
    else if c == '\\' then Some('\\')
    else if c == 'n' then Some('\n')
    else if c == 'r' then Some('\r')
    else None
  }

  /** How the front matter's YAML reader takes a double-quoted scalar
      (section 7.3.1 of the YAML 1.2 specification): a backslash starts an
      escape, the first unescaped quote ends the value. `None` when no quote
      closes the value on its line, or for an escape outside `Unescape`. */
  function ReadQuoted(s: string): (r: Option<Scalar>)
    ensures r.Some? ==> |r.value.rest| < |s|
    decreases |s|
  {
    if s == [] || s[0] == '\n' || s[0] == '\r' then None
    else if s[0] == '"' then Some(Scalar([], s[1..]))
    else if s[0] == '\\' then
      if |s| < 2 || Unescape(s[1]).None? then None
      else
        match ReadQuoted(s[2..])
        case None => None
        case Some(t) => Some(Scalar([Unescape(s[1]).value] + t.value, t.rest))
    else
      match ReadQuoted(s[1..])
      case None => None
      case Some(t) => Some(Scalar([s[0]] + t.value, t.rest))
  }

  /** One character as the corrected escape writes it. */
  function EscapeChar(c: char): string {
    if c == '"' || c == '\\' then ['\\', c]
    else if c == '\n' then "\\n"
    else if c == '\r' then "\\r"
    else [c]
  }

  /** The escape a double-quoted YAML value needs: backslash, quote and the
      two line-break characters become escape sequences, so the escaped text
      stays on one line. */
  function EscapeYaml(s: string): (r: string)
    ensures |r| >= |s|
    ensures forall i :: 0 <= i < |r| ==> r[i] != '\n' && r[i] != '\r'
  {
    if s == [] then [] else EscapeChar(s[0]) + EscapeYaml(s[1..])
  }

  /** Reading one escaped character adds that character to the value read
      after it. */
  lemma ReadEscapeChar(c: char, tail: string)
    ensures ReadQuoted(EscapeChar(c) + tail) ==
      match ReadQuoted(tail)
      case None => None
      case Some(t) => Some(Scalar([c] + t.value, t.rest))
  {
    var x := EscapeChar(c) + tail;
    if c == '"' || c == '\\' || c == '\n' || c == '\r' {
      assert x[2..] == tail;
    } else {
      assert x[1..] == tail;
    }
  }

  /** `C:\` escaped by `EscapeQuotes` is `C:\` again. */
  lemma EscapeQuotesBackslashTitle()
    ensures EscapeQuotes("C:\\") == "C:\\"
  {
    EscapeQuotesAppend([':'], ['\\']);
    EscapeQuotesAppend(['C'], [':', '\\']);
    assert ['C'] + [':', '\\'] == "C:\\" && [':'] + ['\\'] == [':', '\\'];
  }

  /** Read after its opening quote, `C:\"` followed by more text is `C`,
      `:` and an escaped quote, and the value goes on into that text. */
  lemma ReadBackslashTitle(tail: string)
    ensures ReadQuoted("C:\\\"" + tail) ==
      match ReadQuoted(tail)
      case None => None
      case Some(t) => Some(Scalar("C:\"" + t.value, t.rest))
  {
    var q := "\\\"" + tail;
    var p := ":" + q;
    assert EscapeChar('"') == "\\\"" && EscapeChar(':') == ":" && EscapeChar('C') == "C";
    assert "C:\\\"" + tail == "C" + p;
    match ReadQuoted(tail)
    case None =>
      ReadEscapeChar('"', tail);
      ReadEscapeChar(':', q);
      ReadEscapeChar('C', p);
    case Some(t) =>
      assert ReadQuoted(q) == Some(Scalar("\"" + t.value, t.rest)) by {
        ReadEscapeChar('"', tail);
      }
      assert ReadQuoted(p) == Some(Scalar(":\"" + t.value, t.rest)) by {
        ReadEscapeChar(':', q);
        assert [':'] + ("\"" + t.value) == ":\"" + t.value;
      }
      ReadEscapeChar('C', p);
      assert ['C'] + (":\"" + t.value) == "C:\"" + t.value;
  }

  /** As written, a title ending in a backslash does not survive the front
      matter: its last backslash escapes the closing quote, so whatever the
      rest of the file is, the value read back is not the title. */
  lemma BackslashTitleMisread(rest: string)
    ensures EscapeQuotes("C:\\") == "C:\\"
    ensures var v := ReadQuoted(EscapeQuotes("C:\\") + ("\"" + rest));
      v.None? || v.value.value != "C:\\"
  {
    EscapeQuotesBackslashTitle();
    assert EscapeQuotes("C:\\") + ("\"" + rest) == "C:\\\"" + rest;
    ReadBackslashTitle(rest);
    match ReadQuoted(rest)
    case None =>
    case Some(t) =>
      assert ("C:\"" + t.value)[2] == '"';
  }

  /** Every text written with `EscapeYaml` between quotes reads back as
      itself, and the reader stops exactly at the closing quote. */
  lemma {:induction false} EscapeYamlReadsBack(s: string, rest: string)
    ensures ReadQuoted(EscapeYaml(s) + ("\"" + rest)) == Some(Scalar(s, rest))
    decreases |s|
  {
    if s == [] {
      assert EscapeYaml(s) + ("\"" + rest) == "\"" + rest;
    } else {
      var tail := EscapeYaml(s[1..]) + ("\"" + rest);
      assert EscapeYaml(s) + ("\"" + rest) == EscapeChar(s[0]) + tail by {
        assert EscapeYaml(s) == EscapeChar(s[0]) + EscapeYaml(s[1..]);
      }
      EscapeYamlReadsBack(s[1..], rest);
      ReadEscapeChar(s[0], tail);
      assert [s[0]] + s[1..] == s;
    }
  }

  /** No backslash and no line break. */
  predicate NoBackslashOrBreak(s: string) {
    forall i :: 0 <= i < |s| ==> s[i] != '\\' && s[i] != '\n' && s[i] != '\r'
  }

  /** Text that needs no escape at all: no quote, no backslash, no line
      break. */
  predicate Plain(s: string) {
    NoBackslashOrBreak(s) && forall i :: 0 <= i < |s| ==> s[i] != '"'
  }

  /** For text with no backslash and no line break, the corrected escape
      writes exactly what the source writes. */
  lemma {:induction false} EscapeYamlAgrees(s: string)
    requires NoBackslashOrBreak(s)
    ensures EscapeYaml(s) == EscapeQuotes(s)
    decreases |s|
  {
    if s != [] {
      EscapeYamlAgrees(s[1..]);
    }
  }

  /** Plain text is its own escape. */
  lemma {:induction false} PlainEscape(s: string)
    requires Plain(s)
    ensures EscapeYaml(s) == s
    decreases |s|
  {
    if s != [] {
      PlainEscape(s[1..]);
      assert s == [s[0]] + s[1..];
    }
  }

  /** `e`, written between quotes, reads back as `v` whatever follows the
      closing quote. */
  ghost predicate QuotesAs(e: string, v: string) {
    forall next: string :: ReadQuoted(e + ("\"" + next)) == Some(Scalar(v, next))
  }

  lemma QuotesAsEscapeYaml(s: string)
    ensures QuotesAs(EscapeYaml(s), s)
  {
    forall next: string ensures ReadQuoted(EscapeYaml(s) + ("\"" + next)) == Some(Scalar(s, next)) {
      EscapeYamlReadsBack(s, next);
    }
  }

  lemma QuotesAsEscapeQuotes(s: string)
    requires NoBackslashOrBreak(s)
    ensures QuotesAs(EscapeQuotes(s), s)
  {
    EscapeYamlAgrees(s);
    QuotesAsEscapeYaml(s);
  }

  // ---------------------------------------------------------------------
  // The tag list

  /** `"t"` for each tag. */
  function QuoteTags(tags: seq<string>): (r: seq<string>)
    ensures |r| == |tags|
    ensures forall i :: 0 <= i < |tags| ==> r[i] == "\"" + tags[i] + "\""
  {
    seq(|tags|, i requires 0 <= i < |tags| => "\"" + tags[i] + "\"")
  }

  /** `[${tags.map(t => `"${t}"`).join(', ')}]`: a YAML flow sequence, `[]`
      for no tags. */
  function TagList(tags: seq<string>): (r: string)
    ensures |r| >= 2 && r[0] == '[' && r[|r| - 1] == ']'
    ensures tags == [] <==> r == "[]"
  {
    var inner := Join(QuoteTags(tags), ", ");
    assert tags != [] ==> inner[0] == '"';
    "[" + (inner + "]")
  }

  /** A flow sequence read: its items and the text after its `]`. */
  datatype FlowRead = FlowRead(items: seq<string>, rest: string)

  /** The entries of a flow sequence of double-quoted scalars from just
      after its `[`: `"a", "b"]`. */
  function ReadFlowEntries(s: string): Option<FlowRead>
    decreases |s|
  {
    if s == [] || s[0] != '"' then None
    else
      match ReadQuoted(s[1..])
      case None => None
      case Some(item) =>
        if StartsWith(item.rest, "]") then Some(FlowRead([item.value], item.rest[1..]))
        else if StartsWith(item.rest, ", ") then
          match ReadFlowEntries(item.rest[2..])
          case None => None
          case Some(more) => Some(FlowRead([item.value] + more.items, more.rest))
        else None
  }

  /** How the reader takes a flow sequence of double-quoted scalars. */
  function ReadFlow(s: string): Option<FlowRead> {
    if StartsWith(s, "[]") then Some(FlowRead([], s[2..]))
    else if StartsWith(s, "[") then ReadFlowEntries(s[1..])
    else None
  }

  /** A tag needing no escape, written between quotes, reads back as itself. */
  lemma PlainReadsBack(t: string, next: string)
    requires Plain(t)
    ensures ReadQuoted(t + ("\"" + next)) == Some(Scalar(t, next))
  {
    PlainEscape(t);
    EscapeYamlReadsBack(t, next);
  }

  /** The last entry of a flow sequence. */
  lemma LastEntryReadsBack(t: string, rest: string)
    requires Plain(t)
    ensures ReadFlowEntries("\"" + (t + ("\"" + ("]" + rest)))) == Some(FlowRead([t], rest))
  {
    var s := "\"" + (t + ("\"" + ("]" + rest)));
    assert s[0] == '"' && s[1..] == t + ("\"" + ("]" + rest));
    PlainReadsBack(t, "]" + rest);
    assert ("]" + rest)[..1] == "]" && ("]" + rest)[1..] == rest;
  }

  /** An entry followed by `, ` and more entries. */
  lemma NextEntryReadsBack(t: string, more: string)
    requires Plain(t)
    ensures ReadFlowEntries("\"" + (t + ("\"" + (", " + more)))) ==
      match ReadFlowEntries(more)
      case None => None
      case Some(m) => Some(FlowRead([t] + m.items, m.rest))
  {
    var s := "\"" + (t + ("\"" + (", " + more)));
    assert s[0] == '"' && s[1..] == t + ("\"" + (", " + more));
    PlainReadsBack(t, ", " + more);
    var after := ", " + more;
    assert after[0] == ',' && after[..2] == ", " && after[2..] == more;
  }

  lemma {:induction false} JoinedTagsReadBack(tags: seq<string>, rest: string)
    requires tags != []
    requires forall i :: 0 <= i < |tags| ==> Plain(tags[i])
    ensures ReadFlowEntries(Join(QuoteTags(tags), ", ") + ("]" + rest)) == Some(FlowRead(tags, rest))
    decreases |tags|
  {
    var q := QuoteTags(tags);
    var t := tags[0];
    if |tags| == 1 {
      assert Join(q, ", ") + ("]" + rest) == "\"" + (t + ("\"" + ("]" + rest))) by {
        assert Join(q, ", ") == q[0] == "\"" + t + "\"";
      }
      LastEntryReadsBack(t, rest);
      assert tags == [t];
    } else {
      var more := Join(QuoteTags(tags[1..]), ", ") + ("]" + rest);
      assert Join(q, ", ") + ("]" + rest) == "\"" + (t + ("\"" + (", " + more))) by {
        assert q[1..] == QuoteTags(tags[1..]);
        assert Join(q, ", ") == q[0] + ", " + Join(q[1..], ", ");
      }
      NextEntryReadsBack(t, more);
      JoinedTagsReadBack(tags[1..], rest);
      assert [t] + tags[1..] == tags;
    }
  }

  /** The written tag list reads back as the tags, in order, and the reader
      stops just after its `]`, provided no tag holds a quote, a backslash
      or a line break (tags are written without escaping). */
  lemma TagListReadsBack(tags: seq<string>, rest: string)
    requires forall i :: 0 <= i < |tags| ==> Plain(tags[i])
    ensures ReadFlow(TagList(tags) + rest) == Some(FlowRead(tags, rest))
  {
    var s := TagList(tags) + rest;
    if tags == [] {
      assert s[..2] == "[]" && s[2..] == rest;
    } else {
      var inner := Join(QuoteTags(tags), ", ");
      assert s == "[" + (inner + ("]" + rest));
      assert s[1] == inner[0] == '"';
      assert s[1..] == inner + ("]" + rest);
      JoinedTagsReadBack(tags, rest);
    }
  }

  // ---------------------------------------------------------------------
  // createMarkdownContent

  /** One `key: "value"` field and everything after it: `open` holds the
      line break before the key, the key and the opening quote. */
  function Field(open: string, value: string, next: string): string {
    open + (value + ("\"" + next))
  }

  /** The front-matter template of `createMarkdownContent` with the title and
      the excerpt already escaped: title, date, excerpt, cover image, tag list
      and the fixed author between `---` lines, a blank line, then the body. */
  function FrontMatterFile(title: string, date: string, excerpt: string, coverImage: string,
                           tags: seq<string>, content: string): string
  {
    Field("---\ntitle: \"", title,
      Field("\ndate: \"", date,
        Field("\nexcerpt: \"", excerpt,
          Field("\ncoverImage: \"", coverImage,
            "\ntags: " + (TagList(tags) +
              Field("\nauthor: \"", Author, "\n---\n\n" + content))))))
  }

  /** `excerpt || content.slice(0, 160) + '...'`. */
  function ExcerptOf(content: string, excerpt: Option<string>): string {
    Or(excerpt, Posts.DefaultExcerpt(content))
  }

  /** `createMarkdownContent` as written: the title and the excerpt are
      escaped with `EscapeQuotes`, the date, cover image and tags are written
      as they are. */
  function CreateMarkdownContent(title: string, content: string, excerpt: Option<string>,
                                 coverImage: Option<string>, tags: seq<string>, date: string): string
  {
    FrontMatterFile(EscapeQuotes(title), date, EscapeQuotes(ExcerptOf(content, excerpt)),
                    Or(coverImage, ""), tags, content)
  }

  /** The same template with the escape a double-quoted value needs. */
  function CorrectedMarkdownContent(title: string, content: string, excerpt: Option<string>,
                                    coverImage: Option<string>, tags: seq<string>, date: string): string
  {
    FrontMatterFile(EscapeYaml(title), date, EscapeYaml(ExcerptOf(content, excerpt)),
                    Or(coverImage, ""), tags, content)
  }

  /** The front matter as the site's reader sees it. */
  datatype FrontMatter = FrontMatter(
    title: string, date: string, excerpt: string, coverImage: string,
    tags: seq<string>, author: string, body: string)

  /** `open` followed by a double-quoted value. */
  function ReadField(s: string, open: string): Option<Scalar> {
    if StartsWith(s, open) then ReadQuoted(s[|open|..]) else None
  }

  /** `tags: ` followed by a flow sequence. */
  function ReadTagsField(s: string): Option<FlowRead> {
    if StartsWith(s, "\ntags: ") then ReadFlow(s[7..]) else None
  }

  /** Reads a file laid out as the template lays it out: each field in its
      place, then the closing `---`, a blank line and the body. Each stage
      reads one field into `fm` and hands the rest of the text on. */
  function ReadFrontMatter(s: string): Option<FrontMatter> {
    match ReadField(s, "---\ntitle: \"")
    case None => None
    case Some(f) => ReadDate(f.rest, FrontMatter(f.value, "", "", "", [], "", ""))
  }

  function ReadDate(s: string, fm: FrontMatter): Option<FrontMatter> {
    match ReadField(s, "\ndate: \"")
    case None => None
    case Some(f) => ReadExcerpt(f.rest, fm.(date := f.value))
  }

  function ReadExcerpt(s: string, fm: FrontMatter): Option<FrontMatter> {
    match ReadField(s, "\nexcerpt: \"")
    case None => None
    case Some(f) => ReadCoverImage(f.rest, fm.(excerpt := f.value))
  }

  function ReadCoverImage(s: string, fm: FrontMatter): Option<FrontMatter> {
    match ReadField(s, "\ncoverImage: \"")
    case None => None
    case Some(f) => ReadTags(f.rest, fm.(coverImage := f.value))
  }

  function ReadTags(s: string, fm: FrontMatter): Option<FrontMatter> {
    match ReadTagsField(s)
    case None => None
    case Some(f) => ReadAuthor(f.rest, fm.(tags := f.items))
  }

  function ReadAuthor(s: string, fm: FrontMatter): Option<FrontMatter> {
    match ReadField(s, "\nauthor: \"")
    case None => None
    case Some(f) =>
      if StartsWith(f.rest, "\n---\n\n") then Some(fm.(author := f.value, body := f.rest[6..]))
      else None
  }

  lemma FieldReadsBack(open: string, e: string, v: string, next: string)
    requires QuotesAs(e, v)
    ensures ReadField(Field(open, e, next), open) == Some(Scalar(v, next))
  {
    var s := Field(open, e, next);
    assert s[..|open|] == open;
    assert s[|open|..] == e + ("\"" + next);
  }

  lemma PlainFieldReadsBack(open: string, v: string, next: string)
    requires Plain(v)
    ensures ReadField(Field(open, v, next), open) == Some(Scalar(v, next))
  {
    var s := Field(open, v, next);
    assert s[..|open|] == open;
    assert s[|open|..] == v + ("\"" + next);
    PlainReadsBack(v, next);
  }

  /** The template reads back field by field when the written title and
      excerpt read back as the given ones between quotes and the date, the
      cover image and the tags need no escape. */
  lemma FrontMatterFileReadsBack(title: string, date: string, excerpt: string, coverImage: string,
                                 tags: seq<string>, content: string, et: string, ee: string)
    requires QuotesAs(et, title) && QuotesAs(ee, excerpt)
    requires Plain(date) && Plain(coverImage)
    requires forall i :: 0 <= i < |tags| ==> Plain(tags[i])
    ensures ReadFrontMatter(FrontMatterFile(et, date, ee, coverImage, tags, content))
         == Some(FrontMatter(title, date, excerpt, coverImage, tags, Author, content))
  {
    var end := "\n---\n\n" + content;
    var f6 := Field("\nauthor: \"", Author, end);
    var f5 := "\ntags: " + (TagList(tags) + f6);
    var f4 := Field("\ncoverImage: \"", coverImage, f5);
    var f3 := Field("\nexcerpt: \"", ee, f4);
    var f2 := Field("\ndate: \"", date, f3);
    var fm := FrontMatter(title, date, excerpt, coverImage, tags, Author, content);
    assert ReadAuthor(f6, fm.(author := "", body := "")) == Some(fm) by {
      PlainAuthor();
      PlainFieldReadsBack("\nauthor: \"", Author, end);
      assert end[..6] == "\n---\n\n" && end[6..] == content;
    }
    assert ReadTags(f5, fm.(tags := [], author := "", body := "")) == Some(fm) by {
      TagsFieldReadsBack(tags, f6);
    }
    assert ReadCoverImage(f4, fm.(coverImage := "", tags := [], author := "", body := "")) == Some(fm) by {
      PlainFieldReadsBack("\ncoverImage: \"", coverImage, f5);
    }
    assert ReadExcerpt(f3, fm.(excerpt := "", coverImage := "", tags := [], author := "", body := ""))
        == Some(fm) by {
      FieldReadsBack("\nexcerpt: \"", ee, excerpt, f4);
    }
    assert ReadDate(f2, FrontMatter(title, "", "", "", [], "", "")) == Some(fm) by {
      PlainFieldReadsBack("\ndate: \"", date, f3);
    }
    FieldReadsBack("---\ntitle: \"", et, title, f2);
  }

  lemma TagsFieldReadsBack(tags: seq<string>, next: string)
    requires forall i :: 0 <= i < |tags| ==> Plain(tags[i])
    ensures ReadTagsField("\ntags: " + (TagList(tags) + next)) == Some(FlowRead(tags, next))
  {
    var f := "\ntags: " + (TagList(tags) + next);
    assert f[..7] == "\ntags: " && f[7..] == TagList(tags) + next;
    TagListReadsBack(tags, next);
  }

  lemma PlainAuthor()
    ensures Plain(Author)
  {
  }

  /** `createMarkdownContent` as written: a file whose title and excerpt have
      no backslash and no line break, and whose date, cover image and tags
      need no escape, reads back as the fields given, the fixed author and
      the body. */
  lemma CreateMarkdownContentReadsBack(title: string, content: string, excerpt: Option<string>,
                                       coverImage: Option<string>, tags: seq<string>, date: string)
    requires NoBackslashOrBreak(title) && NoBackslashOrBreak(ExcerptOf(content, excerpt))
    requires Plain(date) && Plain(Or(coverImage, ""))
    requires forall i :: 0 <= i < |tags| ==> Plain(tags[i])
    ensures ReadFrontMatter(CreateMarkdownContent(title, content, excerpt, coverImage, tags, date))
         == Some(FrontMatter(title, date, ExcerptOf(content, excerpt), Or(coverImage, ""),
                             tags, Author, content))
  {
    QuotesAsEscapeQuotes(title);
    QuotesAsEscapeQuotes(ExcerptOf(content, excerpt));
    FrontMatterFileReadsBack(title, date, ExcerptOf(content, excerpt), Or(coverImage, ""), tags,
                             content, EscapeQuotes(title), EscapeQuotes(ExcerptOf(content, excerpt)));
  }

  /** With the corrected escape, any title and any excerpt read back. */
  lemma CorrectedMarkdownContentReadsBack(title: string, content: string, excerpt: Option<string>,
                                          coverImage: Option<string>, tags: seq<string>, date: string)
    requires Plain(date) && Plain(Or(coverImage, ""))
    requires forall i :: 0 <= i < |tags| ==> Plain(tags[i])
    ensures ReadFrontMatter(CorrectedMarkdownContent(title, content, excerpt, coverImage, tags, date))
         == Some(FrontMatter(title, date, ExcerptOf(content, excerpt), Or(coverImage, ""),
                             tags, Author, content))
  {
    QuotesAsEscapeYaml(title);
    QuotesAsEscapeYaml(ExcerptOf(content, excerpt));
    FrontMatterFileReadsBack(title, date, ExcerptOf(content, excerpt), Or(coverImage, ""), tags,
                             content, EscapeYaml(title), EscapeYaml(ExcerptOf(content, excerpt)));
  }

  /** As written, the file of a post titled `C:\` does not read back: the
      title's value runs past its closing quote into the next line. */
  lemma BackslashTitleFileUnreadable(content: string, excerpt: Option<string>,
                                     coverImage: Option<string>, tags: seq<string>, date: string)
    ensures ReadFrontMatter(CreateMarkdownContent("C:\\", content, excerpt, coverImage, tags, date)) == None
  {
    var e := EscapeQuotes(ExcerptOf(content, excerpt));
    var f2 := Field("\ndate: \"", date, Field("\nexcerpt: \"", e, Field("\ncoverImage: \"", Or(coverImage, ""),
      "\ntags: " + (TagList(tags) + Field("\nauthor: \"", Author, "\n---\n\n" + content)))));
    var open := "---\ntitle: \"";
    EscapeQuotesBackslashTitle();
    var f := Field(open, "C:\\", f2);
    assert CreateMarkdownContent("C:\\", content, excerpt, coverImage, tags, date) == f;
    assert f[..|open|] == open && f[|open|..] == "C:\\\"" + f2;
    assert f2[0] == '\n';
    ReadBackslashTitle(f2);
  }


  // ---------------------------------------------------------------------
  // Request, response and the gate sequence of POST

  datatype JsonValue = JString(s: string) | JOther

  /** `body.tags`: an array of JSON values, or anything else. */
  datatype TagsField = TagsArray(items: seq<JsonValue>) | NotAnArray

  datatype Body = Body(
    title: Option<string>,
    content: Option<string>,
    excerpt: Option<string>,
    coverImage: Option<string>,
    tags: TagsField,
    date: Option<string>)

  datatype Request = Request(
    forwardedFor: Option<string>,
    realIp: Option<string>,
    apiKey: Option<string>,
    body: Option<Body>)

  datatype PushResult = Pushed | PushFailed(error: Option<string>)

  datatype Response =
    | Failed(status: int, error: string)
    | Published(slug: string, message: string, url: string)

  function Status(r: Response): int {
    if r.Published? then 200 else r.status
  }

  /** `x-forwarded-for || x-real-ip || 'unknown'`: the first header that is
      present and non-empty, never an empty key. */
  function ClientKey(req: Request): (r: string)
    ensures r != []
    ensures Truthy(req.forwardedFor) ==> r == req.forwardedFor.value
    ensures !Truthy(req.forwardedFor) && Truthy(req.realIp) ==> r == req.realIp.value
    ensures !Truthy(req.forwardedFor) && !Truthy(req.realIp) ==> r == "unknown"
  {
    Or(req.forwardedFor, Or(req.realIp, "unknown"))
  }

  /** The string entries of a JSON array, in order: exactly the strings the
      array holds. */
  function StringEntries(items: seq<JsonValue>): (r: seq<string>)
    ensures |r| <= |items|
    ensures forall x :: x in r <==> JString(x) in items
  {
    if items == [] then []
    else
      var rest := StringEntries(items[1..]);
      assert forall x :: JString(x) in items <==> items[0] == JString(x) || JString(x) in items[1..] by {
        assert items == [items[0]] + items[1..];
      }
      (if items[0].JString? then [items[0].s] else []) + rest
  }

  /** Keeping the string entries commutes with concatenation, so their order
      is the array's order. */
  lemma {:induction false} StringEntriesAppend(a: seq<JsonValue>, b: seq<JsonValue>)
    ensures StringEntries(a + b) == StringEntries(a) + StringEntries(b)
    decreases |a|
  {
    if a == [] {
      assert a + b == b;
    } else {
      assert (a + b)[0] == a[0] && (a + b)[1..] == a[1..] + b;
      StringEntriesAppend(a[1..], b);
    }
  }

  /** `Array.isArray(body.tags) ? body.tags.filter(isString).slice(0, 10) : []`:
      the first ten string entries, in order. */
  function SanitizeTags(tags: TagsField): (r: seq<string>)
    ensures tags.NotAnArray? ==> r == []
    ensures tags.TagsArray? ==>
      && r <= StringEntries(tags.items)
      && |r| == (if |StringEntries(tags.items)| < MaxTags then |StringEntries(tags.items)| else MaxTags)
  {
    match tags
    case NotAnArray => []
    case TagsArray(items) => Take(StringEntries(items), MaxTags)
  }

  predicate Authorised(req: Request, secret: Option<string>) {
    Truthy(req.apiKey) && secret == Some(req.apiKey.value)
  }

  const PublishedMessage := "Post published successfully! Site will redeploy shortly."
  const PushFailedMessage := "Failed to create post in repository."

  /** The early-return gates of `POST` in their order, given the answer of
      the rate check: the first failing gate's response, or `None` exactly
      when every gate passes. */
  function Check(rateOk: bool, req: Request, secret: Option<string>): (r: Option<Response>)
    ensures r.None? <==>
      && rateOk && Authorised(req, secret) && req.body.Some?
      && Truthy(req.body.value.title) && Truthy(req.body.value.content)
      && |req.body.value.title.value| <= MaxTitleLength
      && |req.body.value.content.value| <= MaxContentLength
    ensures r.Some? ==> r.value.Failed?
  {
    if !rateOk then Some(Failed(429, "Rate limit exceeded. Maximum 10 posts per hour."))
    else if !Authorised(req, secret) then Some(Failed(401, "Unauthorized. Invalid API key."))
    else if req.body.None? then Some(Failed(500, "Internal server error. Failed to publish post."))
    else
      var body := req.body.value;
      if !Truthy(body.title) || !Truthy(body.content) then
        Some(Failed(400, "Missing required fields: title and content are required."))
      else if |body.title.value| > MaxTitleLength then Some(Failed(400, "Title too long. Maximum 200 characters."))
      else if |body.content.value| > MaxContentLength then Some(Failed(400, "Content too long. Maximum 100KB."))
      else None
  }

  /** The file pushed for a request that passed the gates: its name
      `{date}-{slug}.md` and the front matter built from the sanitised
      tags. */
  function FileName(body: Body, today: string): string
    requires Truthy(body.title)
  {
    Or(body.date, today) + "-" + Slug.Slugify(body.title.value) + ".md"
  }

  function Markdown(body: Body, today: string): string
    requires Truthy(body.title) && Truthy(body.content)
  {
    CreateMarkdownContent(body.title.value, body.content.value, body.excerpt, body.coverImage,
                          SanitizeTags(body.tags), Or(body.date, today))
  }

  /** The push and the reply: published exactly when the push of that file
      succeeds, then with the post's slug and `/posts/{date}-{slug}`;
      otherwise a 500 carrying the push's error, or a fixed message when it
      has none. */
  function PublishBody(body: Body, today: string, push: (string, string) -> PushResult): (r: Response)
    requires Truthy(body.title) && Truthy(body.content)
    ensures var pushed := push(FileName(body, today), Markdown(body, today));
      && (r.Published? <==> pushed.Pushed?)
      && (pushed.PushFailed? ==> r == Failed(500, Or(pushed.error, PushFailedMessage)))
    ensures r.Published? ==>
      && Slug.IsSlug(r.slug) && r.slug == Slug.Slugify(body.title.value)
      && r.message == PublishedMessage
      && r.url == "/posts/" + Or(body.date, today) + "-" + r.slug
  {
    var slug := Slug.Slugify(body.title.value);
    var date := Or(body.date, today);
    match push(FileName(body, today), Markdown(body, today))
    case PushFailed(err) => Failed(500, Or(err, PushFailedMessage))
    case Pushed => Published(slug, PublishedMessage, "/posts/" + date + "-" + slug)
  }

  /** Everything `POST` does after the rate check, given its answer. The
      gates run in a fixed order: 429 exactly when the rate check refuses;
      401 exactly when it accepts and the key is missing or wrong; then 500
      for a body that is not JSON; then 400 for a missing title or content
      or a field over its limit. */
  function Gate(rateOk: bool, req: Request, secret: Option<string>, today: string,
                push: (string, string) -> PushResult): (r: Response)
    ensures Status(r) == 429 <==> !rateOk
    ensures Status(r) == 401 <==> rateOk && !Authorised(req, secret)
    ensures rateOk && Authorised(req, secret) && req.body.None? ==> Status(r) == 500
    ensures (rateOk && Authorised(req, secret) && req.body.Some?
             && (!Truthy(req.body.value.title) || !Truthy(req.body.value.content))) ==> Status(r) == 400
    ensures Status(r) == 400 ==>
      && rateOk && Authorised(req, secret) && req.body.Some?
      && (!Truthy(req.body.value.title) || !Truthy(req.body.value.content)
          || |req.body.value.title.value| > MaxTitleLength
          || |req.body.value.content.value| > MaxContentLength)
  {
    match Check(rateOk, req, secret)
    case Some(resp) => resp
    case None => PublishBody(req.body.value, today, push)
  }

  /** A publication passed every gate: the title is at most 200 and the
      content at most 100000 characters, the slug has the slug shape, and the
      URL is `/posts/{date}-{slug}`. */
  lemma PublishedPassedGates(rateOk: bool, req: Request, secret: Option<string>, today: string,
                             push: (string, string) -> PushResult)
    requires Gate(rateOk, req, secret, today, push).Published?
    ensures rateOk && Authorised(req, secret) && req.body.Some?
    ensures var b := req.body.value; var r := Gate(rateOk, req, secret, today, push);
      && Truthy(b.title) && Truthy(b.content)
      && |b.title.value| <= MaxTitleLength && |b.content.value| <= MaxContentLength
      && Slug.IsSlug(r.slug) && r.slug == Slug.Slugify(b.title.value)
      && r.url == "/posts/" + Or(b.date, today) + "-" + r.slug
  {
    assert Check(rateOk, req, secret).None?;
  }

  /** The length limits are inclusive: with the rate check and key passing,
      a title of exactly 200 and content of exactly 100000 characters reach
      the remote push, one more character in either is a 400. */
  lemma LengthLimits(req: Request, secret: Option<string>, today: string,
                     push: (string, string) -> PushResult)
    requires Authorised(req, secret) && req.body.Some?
    requires Truthy(req.body.value.title) && Truthy(req.body.value.content)
    ensures var b := req.body.value; var r := Gate(true, req, secret, today, push);
      ((|b.title.value| <= MaxTitleLength && |b.content.value| <= MaxContentLength)
         <==> Status(r) != 400)
  {
  }

  /** `POST`: the rate check (which records the request, whatever a later
      gate decides) and then the gates. */
  method HandlePublish(log: PublishRateLimit.RequestLog, req: Request, now: int,
                       secret: Option<string>, today: string,
                       push: (string, string) -> PushResult) returns (resp: Response)
    requires log.Valid()
    modifies log
    ensures log.Valid()
    ensures var d := PublishRateLimit.Step(old(log.entries), ClientKey(req), now);
      && log.entries == d.entries
      && resp == Gate(d.allowed, req, secret, today, push)
  {
    var ip := ClientKey(req);
    var allowed := log.CheckRateLimit(ip, now);
    resp := Gate(allowed, req, secret, today, push);
  }
}
