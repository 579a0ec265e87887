/** The profile README updater: it maps the posts of the English and the
    Hebrew blog to a common record, renders each list as an HTML table of
    two posts per row, and splices the result between the
    `<!-- BLOG:START -->` and `<!-- BLOG:END -->` markers of the README.

    The fetched post lists are values (`None` for a failed fetch), the
    README text is a string, the current ISO time is `nowIso`, and the
    locale date formatting `toLocaleDateString('en-US', …)` is the function
    parameter `formatDate`. */
module BlogSection {
  import opened Js

  const MaxDescription: nat := 150
  const StartMarker := "<!-- BLOG:START -->"
  const EndMarker := "<!-- BLOG:END -->"
  const NoPosts := "<!-- No posts found -->\n"

  /** The flags and section titles: U+1F1FA U+1F1F8, U+1F1EE U+1F1F1, and
      the Hebrew word for Hebrew. */
  const EnglishFlag := "\U{1F1FA}\U{1F1F8}"
  const HebrewFlag := "\U{1F1EE}\U{1F1F1}"
  const EnglishTitle := "English Posts"
  const HebrewTitle := "Hebrew Posts (\U{5E2}\U{5D1}\U{5E8}\U{5D9}\U{5EA})"

  datatype BlogPost = BlogPost(
    title: string,
    url: string,
    description: string,
    pubDate: string,
    imageUrl: Option<string>)

  /** A post as a remote API returns it: for the English blog the fields
      `title`, `url`, `excerpt`, `date`, `coverImage`; for the Ghost blog
      `title`, `url`, `excerpt`, `published_at`, `feature_image`. */
  datatype RemotePost = RemotePost(
    title: Option<string>,
    url: Option<string>,
    excerpt: Option<string>,
    date: Option<string>,
    image: Option<string>)

  /** The record mapping of both fetchers: empty or missing fields take their
      defaults, and an empty image becomes absent. */
  function ToBlogPost(p: RemotePost, nowIso: string): (b: BlogPost)
    ensures b.title == Or(p.title, "Untitled") && b.title != []
    ensures b.url == Or(p.url, "") && b.description == Or(p.excerpt, "")
    ensures b.pubDate == Or(p.date, nowIso)
    ensures b.imageUrl.Some? <==> Truthy(p.image)
    ensures b.imageUrl.Some? ==> b.imageUrl == p.image && b.imageUrl.value != []
  {
    BlogPost(Or(p.title, "Untitled"), Or(p.url, ""), Or(p.excerpt, ""), Or(p.date, nowIso), OrAbsent(p.image))
  }

  function ToBlogPosts(ps: seq<RemotePost>, nowIso: string): (r: seq<BlogPost>)
    ensures |r| == |ps|
    ensures forall i :: 0 <= i < |ps| ==> r[i] == ToBlogPost(ps[i], nowIso)
  {
    seq(|ps|, i requires 0 <= i < |ps| => ToBlogPost(ps[i], nowIso))
  }

  // ---------------------------------------------------------------------
  // One table cell

  /** A description over 150 characters is cut to its first 150 and gets
      `...`; a shorter one is kept. */
  function ShortDesc(d: string): (r: string)
    ensures |r| <= MaxDescription + 3
    ensures Take(d, MaxDescription) <= r
    ensures |d| <= MaxDescription ==> r == d
    ensures |d| > MaxDescription ==> EndsWith(r, "...") && |r| == MaxDescription + 3
  {
    if |d| > MaxDescription then d[..MaxDescription] + "..." else d
  }

  const TrOpen := "<tr>\n"
  const TrClose := "</tr>\n"
  const TableClose := "</table>\n"
  const TdOpen := "<td width=\"50%\" valign=\"top\">\n"
  const TdClose := "</td>\n"
  const LinkClose := "  </a>\n"

  function LinkOpen(url: string): string {
    "  <a href=\"" + url + "\">\n"
  }

  function ImageTag(image: string, title: string): string {
    "    <img src=\"" + image + "\" alt=\"" + title + "\" style=\"width:100%; border-radius:8px;\">\n"
  }

  function HeadingLine(url: string, title: string): string {
    "  <h3><a href=\"" + url + "\">" + title + "</a></h3>\n"
  }

  function DescriptionLine(description: string): string {
    "  <p>" + ShortDesc(description) + "</p>\n"
  }

  /** The date line; the calendar emoji is U+1F4C5. */
  function DateLine(date: string): string {
    "  <sub>\U{1F4C5} " + date + "</sub>\n"
  }

  /** The linked image emitted above the heading. */
  function ImageBlock(url: string, image: string, title: string): string {
    LinkOpen(url) + ImageTag(image, title) + LinkClose
  }

  /** The heading, description and date lines and the closing tag. */
  function CellText(p: BlogPost, formatDate: string -> string): string {
    HeadingLine(p.url, p.title) + DescriptionLine(p.description) + DateLine(formatDate(p.pubDate)) + TdClose
  }

  /** The `<td>` of one post: the image block appears exactly when the post
      has a non-empty image URL, and the rest does not depend on the image. */
  function Cell(p: BlogPost, formatDate: string -> string): (r: string)
    ensures StartsWith(r, TdOpen) && EndsWith(r, CellText(p, formatDate))
    ensures Truthy(p.imageUrl) <==> |r| > |TdOpen| + |CellText(p, formatDate)|
  {
    TdOpen + (if Truthy(p.imageUrl) then ImageBlock(p.url, p.imageUrl.value, p.title) else "") + CellText(p, formatDate)
  }

  /** Regrouping a concatenation of three strings. */
  lemma Regroup3(a: string, b: string, c: string)
    ensures a + b + c == a + (b + c)
  {
  }

  /** Regrouping a concatenation of four strings. */
  lemma Regroup4(a: string, b: string, c: string, d: string)
    ensures a + b + c + d == a + (b + c + d)
  {
  }

  /** Regrouping a concatenation of five strings. */
  lemma Regroup(a: string, b: string, c: string, d: string, e: string)
    ensures a + b + c + d + e == a + (b + c + d + e)
  {
  }

  /** The body of the inner loop: the lines of one cell appended in order. */
  method AppendCell(markdown: string, post: BlogPost, formatDate: string -> string) returns (m: string)
    ensures m == markdown + Cell(post, formatDate)
  {
    ghost var img := if Truthy(post.imageUrl) then ImageBlock(post.url, post.imageUrl.value, post.title) else "";
    var date := formatDate(post.pubDate);
    m := markdown + TdOpen;
    if Truthy(post.imageUrl) {
      m := m + LinkOpen(post.url);
      m := m + ImageTag(post.imageUrl.value, post.title);
      m := m + LinkClose;
      assert m == markdown + TdOpen + img by {
        Regroup4(markdown + TdOpen, LinkOpen(post.url), ImageTag(post.imageUrl.value, post.title), LinkClose);
      }
    }
    ghost var start := m;
    m := m + HeadingLine(post.url, post.title);
    m := m + DescriptionLine(post.description);
    m := m + DateLine(date);
    m := m + TdClose;
    assert m == start + CellText(post, formatDate) by {
      Regroup(start, HeadingLine(post.url, post.title), DescriptionLine(post.description), DateLine(date), TdClose);
    }
    assert m == markdown + Cell(post, formatDate) by {
      Regroup4(markdown, TdOpen, img, CellText(post, formatDate));
    }
  }

  /** Leaving the image out changes a cell exactly by dropping the image
      block, so a post with an image has the longer cell. */
  lemma CellImage(p: BlogPost, formatDate: string -> string)
    ensures Truthy(p.imageUrl) <==>
      |Cell(p, formatDate)| > |Cell(p.(imageUrl := None), formatDate)|
    ensures Truthy(p.imageUrl) ==>
      Cell(p, formatDate)[|TdOpen|..|TdOpen| + |ImageBlock(p.url, p.imageUrl.value, p.title)|]
        == ImageBlock(p.url, p.imageUrl.value, p.title)
  {
    if Truthy(p.imageUrl) {
      var img := ImageBlock(p.url, p.imageUrl.value, p.title);
      var r := TdOpen + img + CellText(p, formatDate);
      assert r[|TdOpen|..|TdOpen| + |img|] == img;
    }
  }

  // ---------------------------------------------------------------------
  // Rows of two

  /** The posts in consecutive groups of two; the last group holds one post
      when the count is odd. */
  function Chunks(posts: seq<BlogPost>): seq<seq<BlogPost>>
    decreases |posts|
  {
    if posts == [] then []
    else if |posts| <= 2 then [posts]
    else [posts[..2]] + Chunks(posts[2..])
  }

  function Flatten(cs: seq<seq<BlogPost>>): seq<BlogPost> {
    if cs == [] then [] else cs[0] + Flatten(cs[1..])
  }

  /** There are ceil(n/2) groups of one or two posts, and together they are
      the posts in their order: each post is in exactly one group. */
  lemma {:induction false} ChunksShape(posts: seq<BlogPost>)
    ensures |Chunks(posts)| == (|posts| + 1) / 2
    ensures forall k :: 0 <= k < |Chunks(posts)| ==> 1 <= |Chunks(posts)[k]| <= 2
    ensures Flatten(Chunks(posts)) == posts
    decreases |posts|
  {
    if |posts| > 2 {
      ChunksShape(posts[2..]);
      var cs := Chunks(posts);
      assert cs[1..] == Chunks(posts[2..]);
      assert forall k :: 1 <= k < |cs| ==> cs[k] == Chunks(posts[2..])[k - 1];
      assert posts == posts[..2] + posts[2..];
    } else if posts != [] {
      assert Flatten([posts]) == posts + Flatten([]);
    }
  }

  /** Group `m` starts at post `2m` and stops at the end or two posts on. */
  lemma {:induction false} ChunkAt(posts: seq<BlogPost>, m: nat)
    requires 2 * m < |posts|
    ensures m < |Chunks(posts)|
    ensures Chunks(posts)[m] == posts[2 * m..if 2 * m + 2 < |posts| then 2 * m + 2 else |posts|]
    decreases m
  {
    ChunksShape(posts);
    if m > 0 {
      ChunkAt(posts[2..], m - 1);
      assert Chunks(posts)[m] == Chunks(posts[2..])[m - 1];
      assert posts[2..][2 * (m - 1)..] == posts[2 * m..];
    }
  }

  /** The cells of the posts, in order. */
  function CellsOf(ps: seq<BlogPost>, formatDate: string -> string): string {
    if ps == [] then "" else CellsOf(ps[..|ps| - 1], formatDate) + Cell(ps[|ps| - 1], formatDate)
  }

  function Row(c: seq<BlogPost>, formatDate: string -> string): string {
    TrOpen + CellsOf(c, formatDate) + TrClose
  }

  function RowsOf(cs: seq<seq<BlogPost>>, formatDate: string -> string): string {
    if cs == [] then "" else RowsOf(cs[..|cs| - 1], formatDate) + Row(cs[|cs| - 1], formatDate)
  }

  function Header(sectionTitle: string, emoji: string): string {
    "\n### " + emoji + " " + sectionTitle + "\n\n<table>\n"
  }

  /** What `formatPostsSection` produces: nothing for no posts, otherwise
      the heading, one `<tr>` per group of two and the closing tag. */
  function Section(posts: seq<BlogPost>, sectionTitle: string, emoji: string,
                   formatDate: string -> string): (r: string)
    ensures posts == [] <==> r == []
  {
    if posts == [] then ""
    else Header(sectionTitle, emoji) + RowsOf(Chunks(posts), formatDate) + TableClose
  }

  /** The rows of the first `m + 1` groups are those of the first `m`
      followed by the row of group `m`. */
  lemma RowsOfSnoc(cs: seq<seq<BlogPost>>, m: nat, formatDate: string -> string)
    requires m < |cs|
    ensures RowsOf(cs[..m + 1], formatDate) == RowsOf(cs[..m], formatDate) + Row(cs[m], formatDate)
  {
    assert cs[..m + 1][..m] == cs[..m];
  }

  /** Appending the cell of post `j` extends the cells of posts `i` to `j`. */
  lemma CellStep(prefix: string, posts: seq<BlogPost>, i: nat, j: nat, formatDate: string -> string)
    requires i <= j < |posts|
    ensures prefix + CellsOf(posts[i..j], formatDate) + Cell(posts[j], formatDate)
         == prefix + CellsOf(posts[i..j + 1], formatDate)
  {
    var a := posts[i..j];
    var b := posts[i..j + 1];
    assert b[..|b| - 1] == a && b[|b| - 1] == posts[j];
    assert CellsOf(b, formatDate) == CellsOf(a, formatDate) + Cell(posts[j], formatDate);
    Regroup3(prefix, CellsOf(a, formatDate), Cell(posts[j], formatDate));
  }

  /** The row of group `m` follows the rows of the groups before it. */
  lemma RowStep(prefix: string, posts: seq<BlogPost>, m: nat, i: nat, end: nat, formatDate: string -> string)
    requires i == 2 * m && i < |posts|
    requires end == if i + 2 < |posts| then i + 2 else |posts|
    ensures m < |Chunks(posts)|
    ensures prefix + RowsOf(Chunks(posts)[..m], formatDate) + TrOpen + CellsOf(posts[i..end], formatDate) + TrClose
         == prefix + RowsOf(Chunks(posts)[..m + 1], formatDate)
  {
    var cs := Chunks(posts);
    var c := posts[i..end];
    assert m < |cs| && cs[m] == c by {
      ChunkAt(posts, m);
    }
    var rows := RowsOf(cs[..m], formatDate);
    assert RowsOf(cs[..m + 1], formatDate) == rows + Row(c, formatDate) by {
      RowsOfSnoc(cs, m, formatDate);
    }
    assert prefix + rows + TrOpen + CellsOf(c, formatDate) + TrClose == prefix + (rows + Row(c, formatDate)) by {
      Regroup(prefix, rows, TrOpen, CellsOf(c, formatDate), TrClose);
      Regroup4(rows, TrOpen, CellsOf(c, formatDate), TrClose);
    }
  }

  /** One pass of the outer loop: the row of posts `i` up to `end`, its
      cells appended by the inner loop. */
  method AppendRow(markdown: string, posts: seq<BlogPost>, i: nat, end: nat,
                   formatDate: string -> string) returns (m: string)
    requires i <= end <= |posts|
    ensures m == markdown + TrOpen + CellsOf(posts[i..end], formatDate) + TrClose
  {
    m := markdown + TrOpen;
    var j := i;
    while j < end
      invariant i <= j <= end
      invariant m == markdown + TrOpen + CellsOf(posts[i..j], formatDate)
    {
      m := AppendCell(m, posts[j], formatDate);
      CellStep(markdown + TrOpen, posts, i, j, formatDate);
      j := j + 1;
    }
    m := m + TrClose;
  }

  /** `formatPostsSection`: the nested loops over rows of two and their
      cells build exactly `Section`. */
  method FormatPostsSection(posts: seq<BlogPost>, sectionTitle: string, emoji: string,
                            formatDate: string -> string) returns (markdown: string)
    ensures markdown == Section(posts, sectionTitle, emoji, formatDate)
  {
    if |posts| == 0 {
      return "";
    }
    ChunksShape(posts);
    markdown := Header(sectionTitle, emoji);
    var i := 0;
    ghost var row := 0;
    while i < |posts|
      invariant i == 2 * row && row <= |Chunks(posts)|
      invariant row < |Chunks(posts)| <==> i < |posts|
      invariant markdown == Header(sectionTitle, emoji) + RowsOf(Chunks(posts)[..row], formatDate)
    {
      var end := if i + 2 < |posts| then i + 2 else |posts|;
      markdown := AppendRow(markdown, posts, i, end, formatDate);
      RowStep(Header(sectionTitle, emoji), posts, row, i, end, formatDate);
      row := row + 1;
      i := i + 2;
    }
    assert Chunks(posts)[..row] == Chunks(posts);
    markdown := markdown + TableClose;
  }

  // ---------------------------------------------------------------------
  // Both sections

  /** What `formatAllPostsAsMarkdown` produces. The placeholder comment is
      produced exactly when both lists are empty; otherwise the English
      section comes first and the Hebrew one second, between two line
      breaks, and an empty list contributes nothing. */
  function AllSections(english: seq<BlogPost>, hebrew: seq<BlogPost>, formatDate: string -> string): (r: string)
    ensures r == NoPosts <==> english == [] && hebrew == []
    ensures english != [] || hebrew != [] ==>
      var en := Section(english, EnglishTitle, EnglishFlag, formatDate);
      && StartsWith(r, "\n" + en)
      && EndsWith(r, Section(hebrew, HebrewTitle, HebrewFlag, formatDate) + "\n")
      && (hebrew == [] ==> r == "\n" + en + "\n")
  {
    if english == [] && hebrew == [] then NoPosts
    else
      var en := Section(english, EnglishTitle, EnglishFlag, formatDate);
      var he := Section(hebrew, HebrewTitle, HebrewFlag, formatDate);
      Enclosed(en, he);
      assert NoPosts[0] == '<';
      "\n" + en + he + "\n"
  }

  /** Two sections between line breaks: the text opens with the first and
      closes with the second. */
  lemma Enclosed(en: string, he: string)
    ensures var r := "\n" + en + he + "\n";
      r[0] == '\n' && StartsWith(r, "\n" + en) && EndsWith(r, he + "\n")
  {
    var r := "\n" + en + he + "\n";
    assert r == ("\n" + en) + (he + "\n");
  }

  /** `formatAllPostsAsMarkdown`: accumulates the sections of the non-empty
      lists after a line break and closes with another. */
  method FormatAllPostsAsMarkdown(english: seq<BlogPost>, hebrew: seq<BlogPost>,
                                  formatDate: string -> string) returns (markdown: string)
    ensures markdown == AllSections(english, hebrew, formatDate)
  {
    markdown := "\n";
    if |english| > 0 {
      var section := FormatPostsSection(english, EnglishTitle, EnglishFlag, formatDate);
      markdown := markdown + section;
    }
    assert markdown == "\n" + Section(english, EnglishTitle, EnglishFlag, formatDate);
    if |hebrew| > 0 {
      var section := FormatPostsSection(hebrew, HebrewTitle, HebrewFlag, formatDate);
      markdown := markdown + section;
    }
    assert markdown == "\n" + Section(english, EnglishTitle, EnglishFlag, formatDate)
                      + Section(hebrew, HebrewTitle, HebrewFlag, formatDate);
    if |english| == 0 && |hebrew| == 0 {
      return NoPosts;
    }
    markdown := markdown + "\n";
  }

  // ---------------------------------------------------------------------
  // The marker splice

  /** The README with `section` between the markers: everything up to the
      end of the first start marker, then the section, then everything from
      the first end marker on. `None` when either marker is missing (the
      script stops without writing). */
  function Splice(readme: string, section: string): (r: Option<string>)
    ensures r.None? <==> !Includes(readme, StartMarker) || !Includes(readme, EndMarker)
    ensures r.Some? ==>
      var s := IndexOf(readme, StartMarker).value + |StartMarker|;
      var e := IndexOf(readme, EndMarker).value;
      s <= |readme| && e <= |readme| && r.value == readme[..s] + section + readme[e..]
  {
    if !Includes(readme, StartMarker) || !Includes(readme, EndMarker) then None
    else
      var s := IndexOf(readme, StartMarker).value + |StartMarker|;
      var e := IndexOf(readme, EndMarker).value;
      Some(readme[..s] + section + readme[e..])
  }

  /** Splicing in the text that already sits between the markers gives the
      README back unchanged. */
  lemma SpliceCurrentSection(readme: string)
    requires Includes(readme, StartMarker) && Includes(readme, EndMarker)
    requires IndexOf(readme, StartMarker).value + |StartMarker| <= IndexOf(readme, EndMarker).value
    ensures Splice(readme, readme[IndexOf(readme, StartMarker).value + |StartMarker|..IndexOf(readme, EndMarker).value])
      == Some(readme)
  {
    var s := IndexOf(readme, StartMarker).value + |StartMarker|;
    var e := IndexOf(readme, EndMarker).value;
    assert readme[..s] + readme[s..e] + readme[e..] == readme;
  }

  /** The whole run of `updateReadme`: the English list is empty when its
      fetch failed, a failed Hebrew fetch stops the run, and so does a
      README without both markers. */
  function UpdateReadme(readme: string, english: Option<seq<RemotePost>>, hebrew: Option<seq<RemotePost>>,
                        nowIso: string, formatDate: string -> string): (r: Option<string>)
    ensures hebrew.None? ==> r.None?
    ensures hebrew.Some? ==>
      r == Splice(readme, AllSections(if english.Some? then ToBlogPosts(english.value, nowIso) else [],
                                      ToBlogPosts(hebrew.value, nowIso), formatDate))
  {
    if hebrew.None? then None
    else
      var en := if english.Some? then ToBlogPosts(english.value, nowIso) else [];
      Splice(readme, AllSections(en, ToBlogPosts(hebrew.value, nowIso), formatDate))
  }
}
