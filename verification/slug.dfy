/** The title-to-slug rule shared by `createSlug` in the publish route and
    the slug derivation in `createPost`:
      title.toLowerCase().replace(/[^a-z0-9]+/g, '-').replace(/(^-|-$)/g, '')
    Lower-casing is ASCII only. */
module Slug {
  import opened Js

  predicate IsSlugChar(c: char) {
    ('a' <= c <= 'z') || ('0' <= c <= '9')
  }

  /** Every character is in [a-z0-9-] and no two hyphens are adjacent. */
  ghost predicate Collapsed(s: string) {
    && (forall i :: 0 <= i < |s| ==> IsSlugChar(s[i]) || s[i] == '-')
    && (forall i, j :: 0 <= i < j < |s| && j == i + 1 ==> !(s[i] == '-' && s[j] == '-'))
  }

  /** The shape every slug has: collapsed, and no leading or trailing hyphen. */
  ghost predicate IsSlug(s: string) {
    Collapsed(s) && (s != [] ==> s[0] != '-' && s[|s| - 1] != '-')
  }

  /** The letters and digits of `s`, in order: what a slug keeps of a title. */
  function Alnums(s: string): string {
    if s == [] then [] else (if IsSlugChar(s[0]) then [s[0]] else []) + Alnums(s[1..])
  }

  lemma {:induction false} AlnumsAppend(a: string, b: string)
    ensures Alnums(a + b) == Alnums(a) + Alnums(b)
    decreases |a|
  {
    if a != [] {
      assert (a + b)[1..] == a[1..] + b;
      AlnumsAppend(a[1..], b);
    } else {
      assert a + b == b;
    }
  }

  /** Drops the leading characters outside [a-z0-9]. */
  function SkipSeparators(s: string): (r: string)
    ensures |r| <= |s|
    ensures r != [] ==> IsSlugChar(r[0])
    ensures Alnums(r) == Alnums(s)
    ensures s != [] && IsSlugChar(s[0]) ==> r == s
  {
    if s == [] || IsSlugChar(s[0]) then s else SkipSeparators(s[1..])
  }

  /** `.replace(/[^a-z0-9]+/g, '-')`: every maximal run of characters outside
      [a-z0-9] becomes one hyphen. */
  function CollapseRuns(s: string): string
    decreases |s|
  {
    if s == [] then []
    else if IsSlugChar(s[0]) then [s[0]] + CollapseRuns(s[1..])
    else ['-'] + CollapseRuns(SkipSeparators(s[1..]))
  }

  /** The collapsed text has no character outside [a-z0-9-], no doubled
      hyphen, and the same letters and digits in the same order. */
  lemma {:induction false} CollapseRunsShape(s: string)
    ensures Collapsed(CollapseRuns(s))
    ensures Alnums(CollapseRuns(s)) == Alnums(s)
    ensures CollapseRuns(s) == [] <==> s == []
    ensures s != [] && CollapseRuns(s)[0] == '-' ==> !IsSlugChar(s[0])
    decreases |s|
  {
    if s != [] {
      assert s == [s[0]] + s[1..];
      AlnumsAppend([s[0]], s[1..]);
      if IsSlugChar(s[0]) {
        var tail := CollapseRuns(s[1..]);
        CollapseRunsShape(s[1..]);
        AlnumsAppend([s[0]], tail);
      } else {
        var tail := CollapseRuns(SkipSeparators(s[1..]));
        CollapseRunsShape(SkipSeparators(s[1..]));
        AlnumsAppend(['-'], tail);
      }
    }
  }

  /** `.replace(/(^-|-$)/g, '')`: one leading and one trailing hyphen removed. */
  function TrimHyphens(s: string): string {
    var t := if s != [] && s[0] == '-' then s[1..] else s;
    if t != [] && t[|t| - 1] == '-' then t[..|t| - 1] else t
  }

  /** A slug consists of [a-z0-9-], has no doubled hyphen, does not begin or
      end with a hyphen, and keeps exactly the letters and digits of the
      lower-cased title, in order. */
  function Slugify(title: string): (r: string)
    ensures IsSlug(r)
    ensures Alnums(r) == Alnums(Lower(title))
  {
    CollapseRunsShape(Lower(title));
    TrimHyphensKeepsShape(CollapseRuns(Lower(title)));
    TrimHyphens(CollapseRuns(Lower(title)))
  }

  lemma TrimHyphensKeepsShape(s: string)
    requires Collapsed(s)
    ensures IsSlug(TrimHyphens(s))
    ensures Alnums(TrimHyphens(s)) == Alnums(s)
  {
    var t := if s != [] && s[0] == '-' then s[1..] else s;
    DropLeadingHyphen(s);
    DropTrailingHyphen(t);
  }

  /** Dropping a leading hyphen keeps a collapsed text collapsed, and the
      text then no longer starts with a hyphen. */
  lemma DropLeadingHyphen(s: string)
    requires Collapsed(s)
    ensures var t := if s != [] && s[0] == '-' then s[1..] else s;
      Collapsed(t) && (t != [] ==> t[0] != '-') && Alnums(t) == Alnums(s)
  {
    if s != [] && s[0] == '-' {
      var t := s[1..];
      assert forall i :: 0 <= i < |t| ==> t[i] == s[i + 1];
      assert s == ['-'] + t;
      AlnumsAppend(['-'], t);
      if t != [] {
        assert s[0] == '-' && s[1] == t[0];
      }
    }
  }

  /** Dropping a trailing hyphen from a collapsed text that does not start
      with a hyphen gives a slug. */
  lemma DropTrailingHyphen(t: string)
    requires Collapsed(t) && (t != [] ==> t[0] != '-')
    ensures var u := if t != [] && t[|t| - 1] == '-' then t[..|t| - 1] else t;
      IsSlug(u) && Alnums(u) == Alnums(t)
  {
    if t != [] && t[|t| - 1] == '-' {
      var u := t[..|t| - 1];
      assert forall i :: 0 <= i < |u| ==> u[i] == t[i];
      assert t == u + ['-'];
      AlnumsAppend(u, ['-']);
      if u != [] {
        assert u[|u| - 1] == t[|t| - 2] && t[|t| - 1] == '-';
      }
    } else if t != [] {
      assert t[|t| - 1] != '-';
    }
  }

  /** A word of [a-z0-9] passes through the collapsing unchanged. */
  lemma {:induction false} CollapseRunsWord(w: string, rest: string)
    requires forall i :: 0 <= i < |w| ==> IsSlugChar(w[i])
    ensures CollapseRuns(w + rest) == w + CollapseRuns(rest)
    decreases |w|
  {
    if w == [] {
      assert w + rest == rest;
    } else {
      assert (w + rest)[0] == w[0] && (w + rest)[1..] == w[1..] + rest;
      CollapseRunsWord(w[1..], rest);
      assert w == [w[0]] + w[1..];
    }
  }

  /** A run of separators is skipped up to the next letter or digit. */
  lemma {:induction false} SkipSeparatorRun(sep: string, rest: string)
    requires forall i :: 0 <= i < |sep| ==> !IsSlugChar(sep[i])
    requires rest == [] || IsSlugChar(rest[0])
    ensures SkipSeparators(sep + rest) == rest
    decreases |sep|
  {
    if sep == [] {
      assert sep + rest == rest;
    } else {
      assert (sep + rest)[0] == sep[0] && (sep + rest)[1..] == sep[1..] + rest;
      SkipSeparatorRun(sep[1..], rest);
    }
  }

  /** A whole run of separators becomes one hyphen, and the collapsing goes
      on after the run. */
  lemma CollapseRunsSep(sep: string, rest: string)
    requires sep != [] && forall i :: 0 <= i < |sep| ==> !IsSlugChar(sep[i])
    requires rest == [] || IsSlugChar(rest[0])
    ensures CollapseRuns(sep + rest) == "-" + CollapseRuns(rest)
  {
    var x := sep + rest;
    assert x[0] == sep[0] && x[1..] == sep[1..] + rest;
    SkipSeparatorRun(sep[1..], rest);
  }

  /** Where the hyphens go: a word followed by a whole run of separators
      becomes the word and one hyphen, and the collapsing goes on after the
      run. */
  lemma CollapseRunsWordSep(w: string, sep: string, rest: string)
    requires forall i :: 0 <= i < |w| ==> IsSlugChar(w[i])
    requires sep != [] && forall i :: 0 <= i < |sep| ==> !IsSlugChar(sep[i])
    requires rest == [] || IsSlugChar(rest[0])
    ensures CollapseRuns(w + sep + rest) == w + "-" + CollapseRuns(rest)
  {
    CollapseRunsWord(w, sep + rest);
    assert w + sep + rest == w + (sep + rest);
    CollapseRunsSep(sep, rest);
    assert w + ("-" + CollapseRuns(rest)) == w + "-" + CollapseRuns(rest);
  }

  /** A text that starts and ends with a letter or digit loses nothing to
      the hyphen trimming. */
  lemma TrimHyphensOfWordEnds(s: string)
    requires s != [] && IsSlugChar(s[0]) && IsSlugChar(s[|s| - 1])
    ensures TrimHyphens(s) == s
  {
  }

  /** Two words whose lower-case forms are in [a-z0-9], separated by a run
      that has no letter or digit, give the two lower-case words joined by
      one hyphen. */
  lemma SlugifyTwoWords(w1: string, sep: string, w2: string)
    requires w1 != [] && forall i :: 0 <= i < |w1| ==> IsSlugChar(LowerChar(w1[i]))
    requires sep != [] && forall i :: 0 <= i < |sep| ==> !IsSlugChar(LowerChar(sep[i]))
    requires w2 != [] && forall i :: 0 <= i < |w2| ==> IsSlugChar(LowerChar(w2[i]))
    ensures Slugify(w1 + sep + w2) == Lower(w1) + "-" + Lower(w2)
  {
    var l1, ls, l2 := Lower(w1), Lower(sep), Lower(w2);
    LowerAppend3(w1, sep, w2);
    CollapseRunsWordSep(l1, ls, l2);
    CollapseRunsWord(l2, []);
    assert l2 + [] == l2;
    var c := l1 + "-" + l2;
    assert CollapseRuns(l1 + ls + l2) == c;
    assert c[0] == l1[0] && c[|c| - 1] == l2[|l2| - 1];
    TrimHyphensOfWordEnds(c);
  }

  lemma LowerAppend(a: string, b: string)
    ensures Lower(a + b) == Lower(a) + Lower(b)
  {
    var l, r := Lower(a + b), Lower(a) + Lower(b);
    forall i | 0 <= i < |l| ensures l[i] == r[i] {
      if i < |a| {
        assert (a + b)[i] == a[i];
      } else {
        assert (a + b)[i] == b[i - |a|];
      }
    }
  }

  lemma LowerAppend3(a: string, b: string, c: string)
    ensures Lower(a + b + c) == Lower(a) + Lower(b) + Lower(c)
  {
    LowerAppend(a + b, c);
    LowerAppend(a, b);
  }

  /** `"A, b"` becomes `"a-b"`. */
  lemma SlugifyExample()
    ensures Slugify("A, b") == "a-b"
  {
    SlugifyTwoWords("A", ", ", "b");
    assert "A" + ", " + "b" == "A, b";
    assert Lower("A") == "a" && Lower("b") == "b";
  }

  lemma {:induction false} CollapseRunsOfCollapsed(s: string)
    requires Collapsed(s)
    requires s != [] ==> s[0] != '-'
    ensures CollapseRuns(s) == s
    decreases |s|
  {
    if s != [] {
      assert Collapsed(s[1..]);
      if |s| > 1 && s[1] == '-' {
        assert |s| > 2 ==> s[2] != '-';
        assert Collapsed(s[2..]);
        CollapseRunsOfCollapsed(s[2..]);
        assert SkipSeparators(s[2..]) == s[2..];
        assert s == [s[0]] + (['-'] + s[2..]);
      } else {
        CollapseRunsOfCollapsed(s[1..]);
      }
    }
  }

  /** A slug is its own slug. */
  lemma SlugifyOfSlug(s: string)
    requires IsSlug(s)
    ensures Slugify(s) == s
  {
    assert Lower(s) == s;
    CollapseRunsOfCollapsed(s);
  }

  /** Applying the rule twice gives the same slug as applying it once. */
  lemma SlugifyIdempotent(title: string)
    ensures Slugify(Slugify(title)) == Slugify(title)
  {
    SlugifyOfSlug(Slugify(title));
  }
}
