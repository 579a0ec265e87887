/** The tag filter of the post grid: the `All` button shows every post,
    any other button shows the posts whose tag list contains the button's
    label lower-cased (ASCII). The selected tag is a parameter; which
    button is selected is UI state. */
module PostGrid {
  import opened Js
  import Posts

  const AllTag := "All"

  predicate HasTag(p: Posts.Post, tag: string) {
    tag in p.tags
  }

  /** `filteredPosts`. */
  function FilteredPosts(posts: seq<Posts.Post>, selectedTag: string): (r: seq<Posts.Post>)
    ensures selectedTag == AllTag ==> r == posts
    ensures selectedTag != AllTag ==>
      forall p :: p in r <==> p in posts && HasTag(p, Lower(selectedTag))
    ensures |r| <= |posts|
  {
    if selectedTag == AllTag then posts
    else Filter(posts, (p: Posts.Post) => HasTag(p, Lower(selectedTag)))
  }

  /** The filtered list keeps the posts in their order, leaving some out. */
  lemma FilteredIsSubsequence(posts: seq<Posts.Post>, selectedTag: string)
    ensures Subsequence(FilteredPosts(posts, selectedTag), posts)
  {
    if selectedTag == AllTag {
      SubsequenceRefl(posts);
    } else {
      FilterSubsequence(posts, (p: Posts.Post) => HasTag(p, Lower(selectedTag)));
    }
  }

  lemma {:induction false} SubsequenceRefl(s: seq<Posts.Post>)
    ensures Subsequence(s, s)
    decreases |s|
  {
    if s != [] {
      SubsequenceRefl(s[1..]);
    }
  }

  /** A post without tags appears only under `All`. */
  lemma UntaggedOnlyUnderAll(posts: seq<Posts.Post>, selectedTag: string, p: Posts.Post)
    requires p.tags == [] && p in posts
    ensures p in FilteredPosts(posts, selectedTag) <==> selectedTag == AllTag
  {
  }

  /** The match is on the lower-cased label, so a post tagged with the
      button's own label in capitals does not show under that button. */
  lemma CapitalisedTagNotMatched(p: Posts.Post)
    requires p.tags == ["AI"]
    ensures FilteredPosts([p], "AI") == []
    ensures FilteredPosts([p.(tags := ["ai"])], "AI") == [p.(tags := ["ai"])]
  {
    assert Lower("AI") == "ai";
    assert "ai" !in p.tags;
  }
}
