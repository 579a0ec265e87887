/** The post repository of `lib/posts.ts`: recognising date-prefixed file
    names, resolving a slug to a file, building post records with their
    defaults and reading time, ordering the listing, and deriving the slug
    and file name of a new post.

    The posts directory is a listing `names: seq<string>`; the parsed
    contents of the files are `files: map<string, Document>`, where a name
    missing from the map stands for a file that cannot be read or parsed
    (the `catch` paths). Today's date is the parameter `today`; the
    markdown-to-HTML renderer is the parameter `render`. */
module Posts {
  import opened Js
  import Sorting
  import Slug

  const DefaultTitle := "Untitled"
  const DefaultAuthor := "Yuval Avidani"
  const ExcerptLength: nat := 160
  const WordsPerMinute: nat := 200
  const Ellipsis := "..."

  /** Front matter as parsed from a file: each field may be absent. */
  datatype FrontMatter = FrontMatter(
    title: Option<string>,
    date: Option<string>,
    excerpt: Option<string>,
    coverImage: Option<string>,
    tags: Option<seq<string>>,
    author: Option<string>)

  /** A parsed file: front matter and the markdown body. */
  datatype Document = Document(data: FrontMatter, content: string)

  datatype Post = Post(
    slug: string,
    title: string,
    date: string,
    excerpt: string,
    content: string,
    coverImage: Option<string>,
    tags: seq<string>,
    author: string,
    readingTime: nat)

  /** A listed post with the internal `_hasDatePrefix` flag used for sorting. */
  datatype Listed = Listed(post: Post, hasDatePrefix: bool)

  datatype Stripped = Stripped(slug: string, hasDatePrefix: bool)

  // ---------------------------------------------------------------------
  // stripDatePrefix: /^(\d{4}-\d{2}-\d{2})-(.+)$/

  predicate IsDigit(c: char) { '0' <= c <= '9' }

  /** `\d{4}-\d{2}-\d{2}`: digit-shaped only, not a calendar check. */
  predicate DateShaped(d: string) {
    && |d| == 10
    && IsDigit(d[0]) && IsDigit(d[1]) && IsDigit(d[2]) && IsDigit(d[3])
    && d[4] == '-'
    && IsDigit(d[5]) && IsDigit(d[6])
    && d[7] == '-'
    && IsDigit(d[8]) && IsDigit(d[9])
  }

  /** The characters a regular-expression `.` does not match. */
  predicate IsLineTerminator(c: char) {
    c == '\n' || c == '\r' || c == '\U{2028}' || c == '\U{2029}'
  }

  /** `.+`: at least one character, none of them a line terminator. */
  predicate AnyLine(s: string) {
    s != [] && forall i :: 0 <= i < |s| ==> !IsLineTerminator(s[i])
  }

  function StripDatePrefix(name: string): (r: Stripped)
    ensures r.hasDatePrefix <==> |name| > 11 && DateShaped(name[..10]) && name[10] == '-' && AnyLine(name[11..])
    ensures r.hasDatePrefix ==> name == name[..11] + r.slug
    ensures !r.hasDatePrefix ==> r.slug == name
  {
    if |name| > 11 && DateShaped(name[..10]) && name[10] == '-' && AnyLine(name[11..])
    then Stripped(name[11..], true)
    else Stripped(name, false)
  }

  /** A date-shaped prefix, a hyphen and a non-empty single-line rest is
      recognised and removed, whatever the calendar values are. */
  lemma StripDatePrefixOfDated(date: string, rest: string)
    requires DateShaped(date) && AnyLine(rest)
    ensures StripDatePrefix(date + "-" + rest) == Stripped(rest, true)
  {
    var name := date + "-" + rest;
    assert name[..10] == date;
    assert name[11..] == rest;
  }

  /** `2026-13-99-x` strips to `x`, and `2026-01-05-` (nothing after the
      hyphen) is left as it is. */
  lemma StripDatePrefixExamples()
    ensures StripDatePrefix("2026-13-99-x") == Stripped("x", true)
    ensures StripDatePrefix("2026-01-05-") == Stripped("2026-01-05-", false)
    ensures StripDatePrefix("my-post") == Stripped("my-post", false)
  {
    StripDatePrefixOfDated("2026-13-99", "x");
    assert "2026-13-99" + "-" + "x" == "2026-13-99-x";
  }

  // ---------------------------------------------------------------------
  // findPostFile

  /** The base name of a `.md` file: the name without its `.md` suffix. */
  function BaseName(fileName: string): string
    requires EndsWith(fileName, ".md")
  {
    DropSuffix(fileName, ".md")
  }

  /** A listing entry that the date-prefix scan accepts for `slug`. */
  predicate MatchesSlug(fileName: string, slug: string) {
    EndsWith(fileName, ".md") && StripDatePrefix(BaseName(fileName)).slug == slug
  }

  /** The first entry of `names` that matches `slug`, if any. */
  function FirstMatch(names: seq<string>, slug: string): Option<string> {
    if names == [] then None
    else if MatchesSlug(names[0], slug) then Some(names[0])
    else FirstMatch(names[1..], slug)
  }

  /** What `findPostFile` returns for a listing. */
  function ResolvePostFile(names: seq<string>, slug: string): (r: Option<string>)
    ensures slug + ".md" in names ==> r == Some(slug + ".md")
    ensures r.Some? ==> r.value in names && EndsWith(r.value, ".md")
    ensures r.Some? && r.value != slug + ".md" ==> MatchesSlug(r.value, slug)
    ensures r.None? <==> slug + ".md" !in names && forall f :: f in names ==> !MatchesSlug(f, slug)
  {
    FirstMatchSpec(names, slug);
    if slug + ".md" in names then Some(slug + ".md") else FirstMatch(names, slug)
  }

  /** The first-match scan: the result is a listing entry that matches, and
      no earlier entry matches; there is no result exactly when no entry
      matches. */
  lemma FirstMatchSpec(names: seq<string>, slug: string)
    ensures FirstMatch(names, slug).None? <==> forall i :: 0 <= i < |names| ==> !MatchesSlug(names[i], slug)
    ensures FirstMatch(names, slug).Some? ==>
      exists k :: 0 <= k < |names| && names[k] == FirstMatch(names, slug).value
        && MatchesSlug(names[k], slug)
        && forall i :: 0 <= i < k ==> !MatchesSlug(names[i], slug)
  {
    FirstMatchNone(names, slug);
    if FirstMatch(names, slug).Some? {
      var k := FirstMatchIndex(names, slug);
    }
  }

  lemma {:induction false} FirstMatchNone(names: seq<string>, slug: string)
    ensures FirstMatch(names, slug).None? <==> forall i :: 0 <= i < |names| ==> !MatchesSlug(names[i], slug)
    decreases |names|
  {
    if names != [] && !MatchesSlug(names[0], slug) {
      FirstMatchNone(names[1..], slug);
      assert forall i :: 1 <= i < |names| ==> names[i] == names[1..][i - 1];
    }
  }

  /** The position of the first match. */
  lemma {:induction false} FirstMatchIndex(names: seq<string>, slug: string) returns (k: nat)
    requires FirstMatch(names, slug).Some?
    ensures k < |names| && names[k] == FirstMatch(names, slug).value && MatchesSlug(names[k], slug)
    ensures forall i :: 0 <= i < k ==> !MatchesSlug(names[i], slug)
    decreases |names|
  {
    if MatchesSlug(names[0], slug) {
      k := 0;
    } else {
      var j := FirstMatchIndex(names[1..], slug);
      k := j + 1;
      assert names[k] == names[1..][j];
      assert forall i :: 1 <= i < k ==> names[i] == names[1..][i - 1];
    }
  }

  /** `findPostFile`: an exact `{slug}.md` wins even over an earlier
      date-prefixed match; otherwise the first `.md` entry whose
      prefix-stripped base name is `slug`; `None` when there is none. A
      result is always a listing entry ending in `.md`. */
  method FindPostFile(names: seq<string>, slug: string) returns (r: Option<string>)
    ensures r == ResolvePostFile(names, slug)
    ensures slug + ".md" in names ==> r == Some(slug + ".md")
    ensures slug + ".md" !in names ==>
      (r.None? <==> forall i :: 0 <= i < |names| ==> !MatchesSlug(names[i], slug))
    ensures slug + ".md" !in names && r.Some? ==>
      exists k :: 0 <= k < |names| && names[k] == r.value && MatchesSlug(names[k], slug)
        && forall i :: 0 <= i < k ==> !MatchesSlug(names[i], slug)
    ensures r.Some? ==> r.value in names && EndsWith(r.value, ".md")
  {
    FirstMatchSpec(names, slug);
    var exact := slug + ".md";
    if exact in names {
      return Some(exact);
    }
    var i := 0;
    while i < |names|
      invariant 0 <= i <= |names|
      invariant forall j :: 0 <= j < i ==> !MatchesSlug(names[j], slug)
      invariant FirstMatch(names, slug) == FirstMatch(names[i..], slug)
    {
      var fileName := names[i];
      if EndsWith(fileName, ".md") {
        var baseName := DropSuffix(fileName, ".md");
        var stripped := StripDatePrefix(baseName);
        if stripped.slug == slug {
          return Some(fileName);
        }
      }
      assert names[i..][1..] == names[i + 1..];
      i := i + 1;
    }
    return None;
  }

  // ---------------------------------------------------------------------
  // Reading time: Math.ceil(content.trim().split(/\s+/).length / 200)

  /** `\s`, restricted to ASCII: space, tab, line feed, vertical tab, form
      feed and carriage return. */
  predicate IsSpace(c: char) {
    c == ' ' || c == '\t' || c == '\n' || c == '\U{B}' || c == '\U{C}' || c == '\r'
  }

  function SkipSpaces(s: string): (r: string)
    ensures |r| <= |s|
    ensures r != [] ==> !IsSpace(r[0])
  {
    if s != [] && IsSpace(s[0]) then SkipSpaces(s[1..]) else s
  }

  function DropTrailingSpaces(s: string): (r: string)
    ensures |r| <= |s|
    ensures r != [] ==> !IsSpace(r[|r| - 1])
  {
    if s != [] && IsSpace(s[|s| - 1]) then DropTrailingSpaces(s[..|s| - 1]) else s
  }

  /** `s.trim()`. */
  function Trim(s: string): string {
    DropTrailingSpaces(SkipSpaces(s))
  }

  /** The length of the leading run of non-space characters. */
  function WordLength(s: string): (n: nat)
    ensures n <= |s|
    ensures n < |s| ==> IsSpace(s[n])
    ensures forall i :: 0 <= i < n ==> !IsSpace(s[i])
  {
    if s == [] || IsSpace(s[0]) then 0 else 1 + WordLength(s[1..])
  }

  /** `s.split(/\s+/)`. */
  function SplitOnSpaces(s: string): (r: seq<string>)
    ensures |r| >= 1
    decreases |s|
  {
    var n := WordLength(s);
    if n == |s| then [s] else [s[..n]] + SplitOnSpaces(SkipSpaces(s[n..]))
  }

  function WordCount(content: string): (n: nat)
    ensures n >= 1
  {
    |SplitOnSpaces(Trim(content))|
  }

  /** `Math.ceil(words / 200)`: the least number of whole minutes in which
      the words are read at 200 words a minute; at least one, since empty
      content splits into one empty token. */
  function ReadingTime(content: string): (r: nat)
    ensures r >= 1
    ensures (r - 1) * WordsPerMinute < WordCount(content) <= r * WordsPerMinute
  {
    (WordCount(content) + WordsPerMinute - 1) / WordsPerMinute
  }

  /** The number of maximal runs of non-space characters: the words. */
  function CountWords(s: string): nat
    decreases |s|
  {
    if s == [] then 0
    else if IsSpace(s[0]) then CountWords(s[1..])
    else 1 + CountWords(s[WordLength(s)..])
  }

  lemma {:induction false} CountWordsSkipSpaces(s: string)
    ensures CountWords(SkipSpaces(s)) == CountWords(s)
    decreases |s|
  {
    if s != [] && IsSpace(s[0]) { CountWordsSkipSpaces(s[1..]); }
  }

  lemma {:induction false} CountWordsTrailingSpace(s: string)
    requires s != [] && IsSpace(s[|s| - 1])
    ensures CountWords(s[..|s| - 1]) == CountWords(s)
    decreases |s|
  {
    var t := s[..|s| - 1];
    if t == [] {
      assert CountWords(s) == CountWords(s[1..]);
    } else if IsSpace(s[0]) {
      assert t[0] == s[0];
      assert CountWords(t) == CountWords(t[1..]);
      assert CountWords(s) == CountWords(s[1..]);
      DropLastAfter(s, 1);
      CountWordsTrailingSpace(s[1..]);
    } else {
      assert t[0] == s[0];
      var n := WordLength(s);
      WordLengthDropLast(s);
      assert CountWords(t) == 1 + CountWords(t[n..]);
      assert CountWords(s) == 1 + CountWords(s[n..]);
      if n < |t| {
        DropLastAfter(s, n);
        CountWordsTrailingSpace(s[n..]);
      } else {
        assert t[n..] == [];
        assert CountWords(s[n..]) == CountWords(s[n..][1..]);
        assert s[n..][1..] == [];
      }
    }
  }

  /** Dropping the last character commutes with dropping the first `k`. */
  lemma DropLastAfter(s: string, k: nat)
    requires k < |s|
    ensures s[..|s| - 1][k..] == s[k..][..|s[k..]| - 1]
  {
  }

  /** Removing a trailing space does not shorten the first word. */
  lemma {:induction false} WordLengthDropLast(s: string)
    requires s != [] && IsSpace(s[|s| - 1])
    ensures WordLength(s[..|s| - 1]) == WordLength(s)
    decreases |s|
  {
    var t := s[..|s| - 1];
    if t != [] && !IsSpace(s[0]) {
      assert t[0] == s[0];
      DropLastAfter(s, 1);
      WordLengthDropLast(s[1..]);
    }
  }

  lemma {:induction false} CountWordsDropTrailingSpaces(s: string)
    ensures CountWords(DropTrailingSpaces(s)) == CountWords(s)
    decreases |s|
  {
    if s != [] && IsSpace(s[|s| - 1]) {
      CountWordsTrailingSpace(s);
      CountWordsDropTrailingSpaces(s[..|s| - 1]);
    }
  }

  /** On a trimmed non-empty string the pieces of the split are its words. */
  lemma {:induction false} SplitTrimmed(s: string)
    requires s != [] && !IsSpace(s[0]) && !IsSpace(s[|s| - 1])
    ensures |SplitOnSpaces(s)| == CountWords(s)
    decreases |s|
  {
    var n := WordLength(s);
    if n < |s| {
      var rest := SkipSpaces(s[n..]);
      CountWordsSkipSpaces(s[n..]);
      SkipSpacesSuffix(s[n..]);
      SplitTrimmed(rest);
    } else {
      assert s[n..] == [];
    }
  }

  lemma {:induction false} SkipSpacesSuffix(s: string)
    requires s != [] && !IsSpace(s[|s| - 1])
    ensures SkipSpaces(s) != [] && SkipSpaces(s)[|SkipSpaces(s)| - 1] == s[|s| - 1]
    decreases |s|
  {
    if IsSpace(s[0]) { SkipSpacesSuffix(s[1..]); }
  }

  /** The token count is the number of words, except that content without
      any word still counts as one token. */
  lemma WordCountIsWords(content: string)
    ensures WordCount(content) == if CountWords(content) == 0 then 1 else CountWords(content)
  {
    var t := Trim(content);
    CountWordsSkipSpaces(content);
    CountWordsDropTrailingSpaces(SkipSpaces(content));
    if t != [] {
      assert t[0] == SkipSpaces(content)[0] by { DropTrailingSpacesPrefix(SkipSpaces(content)); }
      SplitTrimmed(t);
    } else {
      assert CountWords(t) == 0;
    }
  }

  lemma {:induction false} DropTrailingSpacesPrefix(s: string)
    ensures DropTrailingSpaces(s) == s[..|DropTrailingSpaces(s)|]
    decreases |s|
  {
    if s != [] && IsSpace(s[|s| - 1]) { DropTrailingSpacesPrefix(s[..|s| - 1]); }
  }

  // ---------------------------------------------------------------------
  // Post records

  /** `content.slice(0, 160) + '...'`. */
  function DefaultExcerpt(content: string): (r: string)
    ensures |r| <= ExcerptLength + 3
    ensures r == Take(content, ExcerptLength) + Ellipsis
  {
    Take(content, ExcerptLength) + Ellipsis
  }

  /** The record built for a parsed file in `getAllPosts` (and, with the
      body rendered, in `getPostBySlug`): each missing or empty field takes
      its default, and a present one is kept. */
  function BuildPost(slug: string, doc: Document, today: string): (p: Post)
    ensures p.slug == slug && p.content == doc.content
    ensures Truthy(doc.data.title) ==> p.title == doc.data.title.value
    ensures !Truthy(doc.data.title) ==> p.title == DefaultTitle
    ensures Truthy(doc.data.date) ==> p.date == doc.data.date.value
    ensures !Truthy(doc.data.date) ==> p.date == today
    ensures Truthy(doc.data.excerpt) ==> p.excerpt == doc.data.excerpt.value
    ensures !Truthy(doc.data.excerpt) ==> p.excerpt == Take(doc.content, ExcerptLength) + Ellipsis
    ensures p.coverImage == doc.data.coverImage
    ensures p.tags == if doc.data.tags.Some? then doc.data.tags.value else []
    ensures Truthy(doc.data.author) ==> p.author == doc.data.author.value
    ensures !Truthy(doc.data.author) ==> p.author == DefaultAuthor
    ensures p.title != [] && p.excerpt != [] && p.author != []
    ensures p.readingTime >= 1
  {
    Post(
      slug,
      Or(doc.data.title, DefaultTitle),
      Or(doc.data.date, today),
      Or(doc.data.excerpt, DefaultExcerpt(doc.content)),
      doc.content,
      doc.data.coverImage,
      if doc.data.tags.Some? then doc.data.tags.value else [],
      Or(doc.data.author, DefaultAuthor),
      ReadingTime(doc.content))
  }

  // ---------------------------------------------------------------------
  // getAllPosts

  /** `a.date > b.date` etc.: the comparator of `getAllPosts`. */
  function Compare(a: Listed, b: Listed): (r: int)
    ensures r == -1 || r == 1
  {
    if a.post.date != b.post.date then (if Less(b.post.date, a.post.date) then -1 else 1)
    else if a.hasDatePrefix && !b.hasDatePrefix then -1
    else if !a.hasDatePrefix && b.hasDatePrefix then 1
    else if Less(b.post.slug, a.post.slug) then -1 else 1
  }

  /** `a` may be listed before `b`: a later date, or the same date and a
      date-prefixed file before a plain one, or otherwise a slug that is not
      smaller. */
  predicate ListedBefore(a: Listed, b: Listed) {
    || Less(b.post.date, a.post.date)
    || (a.post.date == b.post.date && a.hasDatePrefix && !b.hasDatePrefix)
    || (a.post.date == b.post.date && a.hasDatePrefix == b.hasDatePrefix && !Less(a.post.slug, b.post.slug))
  }

  /** The comparator puts `a` first exactly when `a` is strictly before `b`
      in the three-key order; it never answers 0, and for two records with
      the same date, flag and slug it answers 1 both ways. */
  lemma CompareIsListedBefore(a: Listed, b: Listed)
    ensures Compare(a, b) == -1 <==> ListedBefore(a, b) && !ListedBefore(b, a)
    ensures Compare(a, b) != 0
  {
    LessTrichotomy(a.post.date, b.post.date);
    LessTrichotomy(a.post.slug, b.post.slug);
  }

  lemma ListedBeforeTotalPreorder()
    ensures Sorting.Total(ListedBefore)
    ensures Sorting.Transitive(ListedBefore)
  {
    forall a, b ensures ListedBefore(a, b) || ListedBefore(b, a) {
      LessTrichotomy(a.post.date, b.post.date);
      LessTrichotomy(a.post.slug, b.post.slug);
    }
    forall a, b, c | ListedBefore(a, b) && ListedBefore(b, c) ensures ListedBefore(a, c) {
      LessTrichotomy(a.post.date, b.post.date);
      LessTrichotomy(b.post.date, c.post.date);
      LessTrichotomy(a.post.date, c.post.date);
      LessTrichotomy(a.post.slug, b.post.slug);
      LessTrichotomy(b.post.slug, c.post.slug);
      LessTrichotomy(a.post.slug, c.post.slug);
      if Less(c.post.date, b.post.date) && Less(b.post.date, a.post.date) {
        LessTransitive(c.post.date, b.post.date, a.post.date);
      }
      if Less(b.post.slug, a.post.slug) && Less(c.post.slug, b.post.slug) {
        LessTransitive(c.post.slug, b.post.slug, a.post.slug);
      }
    }
  }

  predicate IsMarkdown(fileName: string) { EndsWith(fileName, ".md") }

  /** The `.md` entries of a listing, in listing order. */
  function MarkdownFiles(names: seq<string>): seq<string> {
    Filter(names, IsMarkdown)
  }

  /** The record `getAllPosts` builds for one readable `.md` file. */
  function ListedFor(fileName: string, doc: Document, today: string): Listed
    requires EndsWith(fileName, ".md")
  {
    var stripped := StripDatePrefix(BaseName(fileName));
    Listed(BuildPost(stripped.slug, doc, today), stripped.hasDatePrefix)
  }

  function ListedAll(md: seq<string>, files: map<string, Document>, today: string): (r: seq<Listed>)
    requires forall f :: f in md ==> f in files && EndsWith(f, ".md")
    ensures |r| == |md|
    ensures forall i :: 0 <= i < |md| ==> r[i] == ListedFor(md[i], files[md[i]], today)
  {
    seq(|md|, i requires 0 <= i < |md| => ListedFor(md[i], files[md[i]], today))
  }

  /** `getAllPosts`: every `.md` file as a record, newest first. A file that
      cannot be read makes the whole listing empty. */
  function GetAllPosts(names: seq<string>, files: map<string, Document>, today: string): (r: seq<Listed>)
    ensures (exists f :: f in MarkdownFiles(names) && f !in files) ==> r == []
    ensures (forall f :: f in MarkdownFiles(names) ==> f in files) ==>
      multiset(r) == multiset(ListedAll(MarkdownFiles(names), files, today))
    ensures Sorting.SortedBy(r, ListedBefore)
  {
    var md := MarkdownFiles(names);
    if exists f :: f in md && f !in files then []
    else
      ListedBeforeTotalPreorder();
      Sorting.SortBy(ListedAll(md, files, today), ListedBefore)
  }

  /** Listing order: for any two listed posts, the earlier one has a date
      that is not smaller; on equal dates a plain file never precedes a
      date-prefixed one; and on equal dates and flags the slug of the
      earlier one is not smaller. */
  lemma GetAllPostsOrder(names: seq<string>, files: map<string, Document>, today: string, i: nat, j: nat)
    requires i < j < |GetAllPosts(names, files, today)|
    ensures var r := GetAllPosts(names, files, today);
      && !Less(r[i].post.date, r[j].post.date)
      && (r[i].post.date == r[j].post.date ==> r[i].hasDatePrefix || !r[j].hasDatePrefix)
      && (r[i].post.date == r[j].post.date && r[i].hasDatePrefix == r[j].hasDatePrefix ==>
            !Less(r[i].post.slug, r[j].post.slug))
  {
    var r := GetAllPosts(names, files, today);
    LessTrichotomy(r[i].post.date, r[j].post.date);
  }

  /** Every listed post comes from a `.md` file of the listing: its slug is
      that file's prefix-stripped base name, and its flag says whether the
      prefix was there. */
  lemma GetAllPostsSources(names: seq<string>, files: map<string, Document>, today: string, e: Listed)
    requires e in GetAllPosts(names, files, today)
    ensures exists f :: (f in names && EndsWith(f, ".md") && f in files
      && e == ListedFor(f, files[f], today)
      && e.post.slug == StripDatePrefix(BaseName(f)).slug)
  {
    var md := MarkdownFiles(names);
    var all := ListedAll(md, files, today);
    assert e in multiset(all);
    var k :| 0 <= k < |all| && all[k] == e;
    assert md[k] in md;
  }

  // ---------------------------------------------------------------------
  // getPostBySlug

  /** `getPostBySlug`: the resolved file's record, with the body rendered
      to HTML and the requested slug; `None` when nothing resolves or the
      file cannot be read. */
  function GetPostBySlug(names: seq<string>, files: map<string, Document>, slug: string,
                         today: string, render: string -> string): (r: Option<Post>)
    ensures ResolvePostFile(names, slug).None? ==> r.None?
    ensures r.Some? <==> ResolvePostFile(names, slug).Some? && ResolvePostFile(names, slug).value in files
    ensures r.Some? ==>
      var doc := files[ResolvePostFile(names, slug).value];
      && r.value.slug == slug
      && r.value.content == render(doc.content)
      && r.value.readingTime == ReadingTime(doc.content)
      && r.value == BuildPost(slug, doc, today).(content := render(doc.content))
  {
    match ResolvePostFile(names, slug)
    case None => None
    case Some(fileName) =>
      if fileName !in files then None
      else
        var doc := files[fileName];
        Some(BuildPost(slug, doc, today).(content := render(doc.content)))
  }

  // ---------------------------------------------------------------------
  // createPost

  datatype NewPost = NewPost(
    title: string,
    content: string,
    excerpt: Option<string>,
    coverImage: Option<string>,
    tags: Option<seq<string>>,
    date: Option<string>)

  /** The front matter `createPost` hands to the serialiser. */
  datatype WrittenFrontMatter = WrittenFrontMatter(
    title: string,
    date: string,
    excerpt: string,
    coverImage: string,
    tags: seq<string>,
    author: string)

  datatype Created = Created(slug: string, fileName: string, frontMatter: WrittenFrontMatter, body: string)

  /** `createPost` without the write: the slug, the `{date}-{slug}.md` file
      name, and the front matter with its defaults. */
  function CreatePost(input: NewPost, today: string): (c: Created)
    ensures c.slug == Slug.Slugify(input.title) && Slug.IsSlug(c.slug)
    ensures c.fileName == c.frontMatter.date + "-" + c.slug + ".md"
    ensures Truthy(input.date) ==> c.frontMatter.date == input.date.value
    ensures !Truthy(input.date) ==> c.frontMatter.date == today
    ensures c.frontMatter.title == input.title && c.body == input.content
    ensures Truthy(input.excerpt) ==> c.frontMatter.excerpt == input.excerpt.value
    ensures !Truthy(input.excerpt) ==> c.frontMatter.excerpt == DefaultExcerpt(input.content)
    ensures c.frontMatter.coverImage == Or(input.coverImage, "")
    ensures input.tags.Some? ==> c.frontMatter.tags == input.tags.value
    ensures input.tags.None? ==> c.frontMatter.tags == []
    ensures c.frontMatter.author == DefaultAuthor
  {
    var slug := Slug.Slugify(input.title);
    var date := Or(input.date, today);
    Created(
      slug,
      date + "-" + slug + ".md",
      WrittenFrontMatter(
        input.title,
        date,
        Or(input.excerpt, DefaultExcerpt(input.content)),
        Or(input.coverImage, ""),
        if input.tags.Some? then input.tags.value else [],
        DefaultAuthor),
      input.content)
  }

  /** With a date of the form dddd-dd-dd and a non-empty slug, the file
      name `createPost` writes strips back to the slug it returned. */
  lemma CreatePostFileNameStrips(input: NewPost, today: string)
    requires DateShaped(CreatePost(input, today).frontMatter.date)
    requires CreatePost(input, today).slug != []
    ensures EndsWith(CreatePost(input, today).fileName, ".md")
    ensures StripDatePrefix(BaseName(CreatePost(input, today).fileName))
         == Stripped(CreatePost(input, today).slug, true)
  {
    var c := CreatePost(input, today);
    var base := c.frontMatter.date + "-" + c.slug;
    assert c.fileName == base + ".md";
    assert BaseName(c.fileName) == base;
    assert AnyLine(c.slug);
    StripDatePrefixOfDated(c.frontMatter.date, c.slug);
  }

  /** A created post is found again by its slug: once its file is added to a
      listing where nothing resolved that slug before, `findPostFile`
      returns the new file. */
  lemma CreatedPostResolves(names: seq<string>, input: NewPost, today: string)
    requires DateShaped(CreatePost(input, today).frontMatter.date)
    requires CreatePost(input, today).slug != []
    requires ResolvePostFile(names, CreatePost(input, today).slug).None?
    ensures ResolvePostFile(names + [CreatePost(input, today).fileName], CreatePost(input, today).slug)
         == Some(CreatePost(input, today).fileName)
  {
    var c := CreatePost(input, today);
    CreatePostFileNameStrips(input, today);
    assert c.slug + ".md" != c.fileName by {
      assert |c.fileName| == |c.slug + ".md"| + 11;
    }
    FirstMatchAppend(names, c.fileName, c.slug);
  }

  lemma {:induction false} FirstMatchAppend(names: seq<string>, f: string, slug: string)
    requires FirstMatch(names, slug).None? && MatchesSlug(f, slug)
    ensures FirstMatch(names + [f], slug) == Some(f)
    decreases |names|
  {
    if names == [] {
      assert names + [f] == [f];
    } else {
      assert (names + [f])[1..] == names[1..] + [f];
      FirstMatchAppend(names[1..], f, slug);
    }
  }
}
