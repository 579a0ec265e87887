/** The home page layout: the newest post is featured, the next four are
    shown "In the Loop", and the grid below shows the rest, with a fallback
    expression for short lists. */
module HomePage {
  import opened Js
  import Posts

  const LoopEnd: nat := 5

  datatype Layout<T> = Layout(featured: Option<T>, loop: seq<T>, grid: seq<T>)

  /** `posts.slice(a, b)` for `0 <= a <= b`. */
  function Slice<T>(s: seq<T>, a: nat, b: nat): seq<T>
    requires a <= b
  {
    Take(Drop(s, a), b - a)
  }

  /** `Home`: `posts[0]`, `posts.slice(1, 5)`, `posts.slice(5)`, and the grid
      input `remaining.length > 0 ? remaining : (loop.length === 0 ?
      posts.slice(1) : [])`. */
  function Home<T>(posts: seq<T>): (h: Layout<T>)
    ensures h.featured.Some? <==> posts != []
    ensures |h.loop| <= 4
    ensures h.grid == Drop(posts, LoopEnd)
  {
    var featured := if |posts| > 0 then Some(posts[0]) else None;
    var loop := Slice(posts, 1, LoopEnd);
    var remaining := Drop(posts, LoopEnd);
    var grid := if |remaining| > 0 then remaining else if |loop| == 0 then Drop(posts, 1) else [];
    Layout(featured, loop, grid)
  }

  /** The featured post is the first one, the loop holds at most four posts,
      the fallback never changes the grid (it is always the posts from the
      sixth on), and featured, loop and grid together are all the posts in
      order, each shown once. */
  lemma HomePartition<T>(posts: seq<T>)
    ensures var h := Home(posts);
      && (h.featured.Some? <==> posts != [])
      && (posts != [] ==> h.featured.value == posts[0])
      && |h.loop| <= 4
      && h.loop == posts[if |posts| < 1 then |posts| else 1..if |posts| < LoopEnd then |posts| else LoopEnd]
      && h.grid == Drop(posts, LoopEnd)
      && (if h.featured.Some? then [h.featured.value] else []) + h.loop + h.grid == posts
  {
    var h := Home(posts);
    if |posts| > LoopEnd {
      assert posts == [posts[0]] + posts[1..LoopEnd] + posts[LoopEnd..];
    } else if |posts| > 0 {
      assert posts == [posts[0]] + posts[1..];
    }
  }

  /** On the home page built from `getAllPosts`, no post has a later date
      than the featured one. */
  lemma FeaturedIsNewest(names: seq<string>, files: map<string, Posts.Document>, today: string)
    ensures var posts := Posts.GetAllPosts(names, files, today);
      var h := Home(posts);
      h.featured.Some? ==> forall e :: e in posts ==> !Less(h.featured.value.post.date, e.post.date)
  {
    var posts := Posts.GetAllPosts(names, files, today);
    forall e | e in posts ensures !Less(posts[0].post.date, e.post.date) {
      var j :| 0 <= j < |posts| && posts[j] == e;
      if j > 0 {
        Posts.GetAllPostsOrder(names, files, today, 0, j);
      } else {
        LessIrreflexive(e.post.date);
      }
    }
  }
}
