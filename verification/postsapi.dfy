/** The JSON listing route `GET /api/posts?limit=N`: every `.md` file of
    the posts directory as a record with defaults and an absolute URL,
    newest date first, cut to the requested limit.

    The listing and the parsed files are values as in the `Posts` module;
    `NEXT_PUBLIC_SITE_URL` is the parameter `siteUrl`, and the clock gives
    `today` (the date part of the ISO time) and `nowIso`. */
module PostsApi {
  import opened Js
  import Sorting
  import Posts

  const DefaultBaseUrl := "https://eng.yuv.ai"
  const DefaultLimit := "5"

  // ---------------------------------------------------------------------
  // parseInt(s, 10)

  /** The white space `parseInt` skips before the number (WhiteSpace and
      LineTerminator of section 12.2 and 12.3 of ECMA-262): the ASCII white
      space characters, the byte order mark, the space separators of Unicode
      category Zs and the two Unicode line terminators. */
  predicate IsJsSpace(c: char) {
    || Posts.IsSpace(c) || c == '\U{FEFF}' || c == '\U{2028}' || c == '\U{2029}'
    || c == '\U{A0}' || c == '\U{1680}' || ('\U{2000}' <= c <= '\U{200A}')
    || c == '\U{202F}' || c == '\U{205F}' || c == '\U{3000}'
  }

  function SkipJsSpaces(s: string): (r: string)
    ensures |r| <= |s|
    ensures r != [] ==> !IsJsSpace(r[0])
  {
    if s != [] && IsJsSpace(s[0]) then SkipJsSpaces(s[1..]) else s
  }

  /** The longest prefix of decimal digits. */
  function DigitPrefix(s: string): (r: string)
    ensures r <= s
    ensures forall i :: 0 <= i < |r| ==> Posts.IsDigit(r[i])
    ensures |r| < |s| ==> !Posts.IsDigit(s[|r|])
  {
    if s != [] && Posts.IsDigit(s[0]) then [s[0]] + DigitPrefix(s[1..]) else []
  }

  /** The value of a string of decimal digits. */
  function DigitsValue(d: string): nat
    requires forall i :: 0 <= i < |d| ==> Posts.IsDigit(d[i])
  {
    if d == [] then 0
    else
      assert Posts.IsDigit(d[|d| - 1]);
      DigitsValue(d[..|d| - 1]) * 10 + (d[|d| - 1] as int - '0' as int)
  }

  /** The number the leading digits of `u` spell, `None` when `u` does
      not start with a digit. */
  function ParseDigits(u: string): Option<nat> {
    var d := DigitPrefix(u);
    if d == [] then None else Some(DigitsValue(d))
  }

  /** `parseInt(s, 10)`: skip white space, read an optional sign and the
      longest run of digits after it; `None` stands for `NaN` (no digit). */
  function ParseInt(s: string): (r: Option<int>)
    ensures var t := SkipJsSpaces(s);
      var signed := t != [] && (t[0] == '-' || t[0] == '+');
      var u := if signed then t[1..] else t;
      && (r.None? <==> DigitPrefix(u) == [])
      && (r.Some? && signed && t[0] == '-' ==> r.value <= 0)
      && (r.Some? && !(signed && t[0] == '-') ==> r.value >= 0)
  {
    var t := SkipJsSpaces(s);
    if t != [] && t[0] == '-' then
      match ParseDigits(t[1..])
      case None => None
      case Some(v) => Some(-(v as int))
    else if t != [] && t[0] == '+' then
      match ParseDigits(t[1..])
      case None => None
      case Some(v) => Some(v as int)
    else
      match ParseDigits(t)
      case None => None
      case Some(v) => Some(v as int)
  }

  /** The decimal numeral of `n`, without sign or leading zeros. */
  function Decimal(n: nat): (r: string)
    ensures r != []
    ensures forall i :: 0 <= i < |r| ==> Posts.IsDigit(r[i])
  {
    var digit := ('0' as int + n % 10) as char;
    if n < 10 then [digit] else Decimal(n / 10) + [digit]
  }

  lemma {:induction false} DigitsValueOfDecimal(n: nat)
    ensures DigitsValue(Decimal(n)) == n
  {
    var digit := ('0' as int + n % 10) as char;
    if n >= 10 {
      DigitsValueOfDecimal(n / 10);
      assert (Decimal(n / 10) + [digit])[..|Decimal(n / 10) + [digit]| - 1] == Decimal(n / 10);
    } else {
      assert [digit][..0] == [];
    }
  }

  lemma {:induction false} DigitPrefixOfDigits(d: string, rest: string)
    requires forall i :: 0 <= i < |d| ==> Posts.IsDigit(d[i])
    requires rest != [] ==> !Posts.IsDigit(rest[0])
    ensures DigitPrefix(d + rest) == d
    decreases |d|
  {
    if d != [] {
      assert (d + rest)[1..] == d[1..] + rest;
      DigitPrefixOfDigits(d[1..], rest);
    } else {
      assert d + rest == rest;
    }
  }

  /** `parseInt` reads back the numeral of any integer, with or without a
      sign, and ignores whatever follows the digits. */
  lemma ParseIntOfDecimal(n: nat, rest: string)
    requires rest != [] ==> !Posts.IsDigit(rest[0])
    ensures ParseInt(Decimal(n) + rest) == Some(n)
    ensures ParseInt("-" + Decimal(n) + rest) == Some(-(n as int))
  {
    ParseIntOfPositive(n, rest);
    ParseIntOfNegative(n, rest);
  }

  lemma ParseDigitsOfDecimal(n: nat, rest: string)
    requires rest != [] ==> !Posts.IsDigit(rest[0])
    ensures ParseDigits(Decimal(n) + rest) == Some(n)
  {
    DigitPrefixOfDigits(Decimal(n), rest);
    DigitsValueOfDecimal(n);
  }

  lemma ParseIntOfPositive(n: nat, rest: string)
    requires rest != [] ==> !Posts.IsDigit(rest[0])
    ensures ParseInt(Decimal(n) + rest) == Some(n)
  {
    var s := Decimal(n) + rest;
    ParseDigitsOfDecimal(n, rest);
    assert s[0] == Decimal(n)[0];
    assert SkipJsSpaces(s) == s;
  }

  lemma ParseIntOfNegative(n: nat, rest: string)
    requires rest != [] ==> !Posts.IsDigit(rest[0])
    ensures ParseInt("-" + Decimal(n) + rest) == Some(-(n as int))
  {
    var s := Decimal(n) + rest;
    ParseDigitsOfDecimal(n, rest);
    var m := "-" + s;
    assert "-" + Decimal(n) + rest == m;
    assert m[1..] == s;
    assert SkipJsSpaces(m) == m;
  }

  /** Leading white space does not change what `parseInt` reads. */
  lemma ParseIntSkipsSpace(c: char, s: string)
    requires IsJsSpace(c)
    ensures ParseInt([c] + s) == ParseInt(s)
  {
    assert ([c] + s)[1..] == s;
  }

  /** An ideographic space before the digits is skipped: `parseInt("\u30005")`
      is 5. */
  lemma ParseIntAfterIdeographicSpace()
    ensures ParseInt("\U{3000}5") == Some(5)
  {
    ParseIntSkipsSpace('\U{3000}', "5");
    assert ['\U{3000}'] + "5" == "\U{3000}5";
    ParseIntFive();
  }

  /** The default `'5'` reads as 5. */
  lemma ParseIntFive()
    ensures ParseInt(DefaultLimit) == Some(5)
  {
    assert SkipJsSpaces("5") == "5";
    assert DigitPrefix("5") == "5" by {
      assert DigitPrefix("5"[1..]) == [];
    }
    assert DigitsValue("5") == 5 by {
      assert "5"[..0] == [];
    }
  }

  /** The end `slice(0, end)` uses for a list of length `len`: `NaN` is 0,
      a negative end counts from the back, and an end past the list is its
      length. */
  function SliceEnd(len: nat, end: Option<int>): (k: nat)
    ensures k <= len
    ensures end.Some? && end.value >= 0 ==> k == if end.value < len then end.value else len
    ensures end.Some? && end.value < 0 ==> k == if len + end.value > 0 then len + end.value else 0
    ensures end.None? ==> k == 0
  {
    match end
    case None => 0
    case Some(n) =>
      if n >= 0 then (if n < len then n else len)
      else if len + n > 0 then len + n else 0
  }

  // ---------------------------------------------------------------------
  // Records

  datatype ApiPost = ApiPost(
    slug: string,
    title: string,
    date: string,
    excerpt: string,
    coverImage: Option<string>,
    tags: seq<string>,
    author: string,
    url: string)

  /** `content.slice(0, 160).replace(/\n/g, ' ') + '...'`. */
  function ApiExcerpt(content: string): (r: string)
    ensures |r| == |Take(content, Posts.ExcerptLength)| + 3
    ensures EndsWith(r, Posts.Ellipsis)
    ensures forall i :: 0 <= i < |r| ==> r[i] != '\n'
    ensures forall i :: 0 <= i < |Take(content, Posts.ExcerptLength)| ==>
      r[i] == if content[i] == '\n' then ' ' else content[i]
  {
    ReplaceChar(Take(content, Posts.ExcerptLength), '\n', ' ') + Posts.Ellipsis
  }

  /** The record for one `.md` file: its slug is the file name without
      `.md` (the date prefix is kept), empty or missing fields take their
      defaults, and the URL points at the post page of that slug. */
  function ApiPostFor(fileName: string, doc: Posts.Document, baseUrl: string, today: string): (p: ApiPost)
    requires EndsWith(fileName, ".md")
    ensures p.slug + ".md" == fileName
    ensures p.url == baseUrl + "/posts/" + p.slug
    ensures p.title == Or(doc.data.title, Posts.DefaultTitle) && p.title != []
    ensures p.date == Or(doc.data.date, today)
    ensures Truthy(doc.data.excerpt) ==> p.excerpt == doc.data.excerpt.value
    ensures !Truthy(doc.data.excerpt) ==> p.excerpt == ApiExcerpt(doc.content)
    ensures p.coverImage.Some? <==> Truthy(doc.data.coverImage)
    ensures p.coverImage.Some? ==> p.coverImage == doc.data.coverImage
    ensures doc.data.tags.Some? ==> p.tags == doc.data.tags.value
    ensures doc.data.tags.None? ==> p.tags == []
    ensures p.author == Or(doc.data.author, Posts.DefaultAuthor) && p.author != []
  {
    var slug := Posts.BaseName(fileName);
    ApiPost(
      slug,
      Or(doc.data.title, Posts.DefaultTitle),
      Or(doc.data.date, today),
      Or(doc.data.excerpt, ApiExcerpt(doc.content)),
      OrAbsent(doc.data.coverImage),
      if doc.data.tags.Some? then doc.data.tags.value else [],
      Or(doc.data.author, Posts.DefaultAuthor),
      baseUrl + "/posts/" + slug)
  }

  function ApiPostsFor(md: seq<string>, files: map<string, Posts.Document>, baseUrl: string,
                       today: string): (r: seq<ApiPost>)
    requires forall f :: f in md ==> f in files && EndsWith(f, ".md")
    ensures |r| == |md|
    ensures forall i :: 0 <= i < |md| ==> r[i] == ApiPostFor(md[i], files[md[i]], baseUrl, today)
  {
    seq(|md|, i requires 0 <= i < |md| => ApiPostFor(md[i], files[md[i]], baseUrl, today))
  }

  // ---------------------------------------------------------------------
  // Ordering: (a, b) => (a.date > b.date ? -1 : 1)

  function Compare(a: ApiPost, b: ApiPost): (r: int)
    ensures r == -1 || r == 1
  {
    if Less(b.date, a.date) then -1 else 1
  }

  /** `a` may come before `b`: its date is not smaller. */
  predicate NewerOrSame(a: ApiPost, b: ApiPost) {
    !Less(a.date, b.date)
  }

  /** The comparator puts `a` first exactly when its date is strictly
      greater; for equal dates it answers 1 both ways. */
  lemma CompareIsNewer(a: ApiPost, b: ApiPost)
    ensures Compare(a, b) == -1 <==> NewerOrSame(a, b) && !NewerOrSame(b, a)
  {
    LessTrichotomy(a.date, b.date);
  }

  lemma NewerOrSameTotalPreorder()
    ensures Sorting.Total(NewerOrSame)
    ensures Sorting.Transitive(NewerOrSame)
  {
    forall a, b ensures NewerOrSame(a, b) || NewerOrSame(b, a) {
      LessTrichotomy(a.date, b.date);
    }
    forall a, b, c | NewerOrSame(a, b) && NewerOrSame(b, c) ensures NewerOrSame(a, c) {
      LessTrichotomy(a.date, b.date);
      LessTrichotomy(b.date, c.date);
      LessTrichotomy(a.date, c.date);
      if Less(c.date, b.date) && Less(b.date, a.date) {
        LessTransitive(c.date, b.date, a.date);
      }
      if Less(a.date, c.date) && Less(c.date, b.date) {
        LessTransitive(a.date, c.date, b.date);
      }
      if Less(b.date, a.date) && Less(a.date, c.date) {
        LessTransitive(b.date, a.date, c.date);
      }
    }
  }

  // ---------------------------------------------------------------------
  // GET

  datatype ApiResponse =
    | Listing(posts: seq<ApiPost>, total: nat, timestamp: string)
    | ApiFailed(status: int, error: string)

  /** The first `k` of a list sorted newest first are sorted too, and none
      of them is older than any of the rest. */
  lemma SortedPrefix(sorted: seq<ApiPost>, k: nat)
    requires k <= |sorted|
    requires Sorting.SortedBy(sorted, NewerOrSame)
    ensures Sorting.SortedBy(sorted[..k], NewerOrSame)
    ensures multiset(sorted[..k]) <= multiset(sorted)
    ensures forall p, q :: p in sorted[..k] && q in multiset(sorted) - multiset(sorted[..k]) ==> !Less(p.date, q.date)
  {
    assert multiset(sorted) == multiset(sorted[..k]) + multiset(sorted[k..]) by {
      assert sorted == sorted[..k] + sorted[k..];
    }
    PrefixNotOlder(sorted, k);
  }

  lemma PrefixNotOlder(sorted: seq<ApiPost>, k: nat)
    requires k <= |sorted|
    requires Sorting.SortedBy(sorted, NewerOrSame)
    ensures forall p, q :: p in sorted[..k] && q in multiset(sorted[k..]) ==> !Less(p.date, q.date)
  {
    forall p, q | p in sorted[..k] && q in multiset(sorted[k..]) ensures !Less(p.date, q.date) {
      var i :| 0 <= i < k && sorted[..k][i] == p;
      var j :| 0 <= j < |sorted[k..]| && sorted[k..][j] == q;
      assert sorted[i] == p && sorted[k + j] == q;
    }
  }

  /** `GET`: the records of all `.md` files, sorted newest first, cut at
      `slice(0, parseInt(limit || '5', 10))`; `total` is the number
      returned. A file that cannot be read is a 500. Of the records, the
      returned ones are never older than the ones left out. */
  function Get(names: seq<string>, files: map<string, Posts.Document>, limit: Option<string>,
               siteUrl: Option<string>, today: string, nowIso: string): (r: ApiResponse)
    ensures (exists f :: f in Posts.MarkdownFiles(names) && f !in files) <==> r.ApiFailed?
    ensures r.ApiFailed? ==> r.status == 500
    ensures r.Listing? ==>
      var all := ApiPostsFor(Posts.MarkdownFiles(names), files, Or(siteUrl, DefaultBaseUrl), today);
      && |r.posts| == SliceEnd(|all|, ParseInt(Or(limit, DefaultLimit)))
      && r.total == |r.posts|
      && multiset(r.posts) <= multiset(all)
      && Sorting.SortedBy(r.posts, NewerOrSame)
      && (forall p, q :: p in r.posts && q in multiset(all) - multiset(r.posts) ==> !Less(p.date, q.date))
  {
    var md := Posts.MarkdownFiles(names);
    if exists f :: f in md && f !in files then ApiFailed(500, "Failed to fetch posts")
    else
      var all := ApiPostsFor(md, files, Or(siteUrl, DefaultBaseUrl), today);
      NewerOrSameTotalPreorder();
      var sorted := Sorting.SortBy(all, NewerOrSame);
      var k := SliceEnd(|sorted|, ParseInt(Or(limit, DefaultLimit)));
      var posts := sorted[..k];
      SortedPrefix(sorted, k);
      Listing(posts, |posts|, nowIso)
  }

  /** Every record built for the listing (and `Get` returns some of these)
      has a URL naming a slug whose page resolves to the file the record was
      built from: the exact `{slug}.md` is in the listing. */
  lemma ListedUrlsResolve(names: seq<string>, files: map<string, Posts.Document>, baseUrl: string,
                          today: string, p: ApiPost)
    requires forall f :: f in Posts.MarkdownFiles(names) ==> f in files
    requires p in ApiPostsFor(Posts.MarkdownFiles(names), files, baseUrl, today)
    ensures p.url == baseUrl + "/posts/" + p.slug
    ensures Posts.ResolvePostFile(names, p.slug) == Some(p.slug + ".md")
  {
    var md := Posts.MarkdownFiles(names);
    var all := ApiPostsFor(md, files, baseUrl, today);
    var k :| 0 <= k < |all| && all[k] == p;
    assert md[k] in md;
  }

  /** Without a `limit` parameter at most five posts come back, and with
      five or fewer files all of them do. */
  lemma DefaultLimitIsFive(names: seq<string>, files: map<string, Posts.Document>,
                           siteUrl: Option<string>, today: string, nowIso: string)
    requires Get(names, files, None, siteUrl, today, nowIso).Listing?
    ensures var r := Get(names, files, None, siteUrl, today, nowIso);
      r.total == if |Posts.MarkdownFiles(names)| < 5 then |Posts.MarkdownFiles(names)| else 5
  {
    ParseIntFive();
  }

}
