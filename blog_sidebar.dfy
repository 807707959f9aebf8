/**
 * The "recent posts" list of the blog sidebar: every post except the one being
 * read, in the order given, cut to the first five.
 */
module BlogSidebar {
  import opened Wrappers
  import opened Blog

  /** How many recent posts the sidebar shows. */
  const RecentLimit: nat := 5

  /** `posts.filter((post) => post.slug !== currentSlug)`. */
  function OtherPosts(posts: seq<Post>, currentSlug: string): (r: seq<Post>)
    ensures |r| <= |posts|
    ensures forall k | 0 <= k < |r| :: r[k].slug != currentSlug
    ensures forall p :: p in r <==> p in posts && p.slug != currentSlug
    decreases |posts|
  {
    if posts == [] then []
    else
      var rest := OtherPosts(posts[1..], currentSlug);
      assert forall p :: p in posts <==> p == posts[0] || p in posts[1..];
      if posts[0].slug != currentSlug then [posts[0]] + rest else rest
  }

  /** `.slice(0, 5)` of the posts that are not the current one. */
  function RecentPosts(posts: seq<Post>, currentSlug: string): (r: seq<Post>)
    ensures |r| <= RecentLimit
    ensures forall k | 0 <= k < |r| :: r[k].slug != currentSlug
  {
    var others := OtherPosts(posts, currentSlug);
    others[..Min(RecentLimit, |others|)]
  }

  /** `xs` is `ys` with some elements left out, the rest in their order. */
  predicate IsSubsequence(xs: seq<Post>, ys: seq<Post>)
    decreases |ys|
  {
    xs == [] || (ys != [] && ((xs[0] == ys[0] && IsSubsequence(xs[1..], ys[1..])) || IsSubsequence(xs, ys[1..])))
  }

  lemma {:induction false} PrefixSubsequence(xs: seq<Post>, ys: seq<Post>, n: nat)
    requires n <= |xs| && IsSubsequence(xs, ys)
    ensures IsSubsequence(xs[..n], ys)
    decreases |ys|
  {
    if n > 0 {
      if xs[0] == ys[0] && IsSubsequence(xs[1..], ys[1..]) {
        PrefixSubsequence(xs[1..], ys[1..], n - 1);
        assert xs[..n][1..] == xs[1..][..n - 1];
      } else {
        PrefixSubsequence(xs, ys[1..], n);
      }
    }
  }

  /** Filtering keeps the relative order of the posts it keeps. */
  lemma {:induction false} OtherPostsSubsequence(posts: seq<Post>, currentSlug: string)
    ensures IsSubsequence(OtherPosts(posts, currentSlug), posts)
    decreases |posts|
  {
    if posts != [] {
      var r := OtherPosts(posts, currentSlug);
      OtherPostsSubsequence(posts[1..], currentSlug);
      if posts[0].slug != currentSlug {
        assert r[1..] == OtherPosts(posts[1..], currentSlug);
      }
    }
  }

  /** Filtering a concatenation filters each part. */
  lemma {:induction false} OtherPostsAppend(a: seq<Post>, b: seq<Post>, currentSlug: string)
    ensures OtherPosts(a + b, currentSlug) == OtherPosts(a, currentSlug) + OtherPosts(b, currentSlug)
    decreases |a|
  {
    if a == [] {
      assert a + b == b;
    } else {
      assert (a + b)[1..] == a[1..] + b;
      OtherPostsAppend(a[1..], b, currentSlug);
    }
  }

  /** The sidebar keeps the order of the listing and only leaves posts out. */
  lemma RecentPostsSubsequence(posts: seq<Post>, currentSlug: string)
    ensures IsSubsequence(RecentPosts(posts, currentSlug), posts)
  {
    var others := OtherPosts(posts, currentSlug);
    OtherPostsSubsequence(posts, currentSlug);
    PrefixSubsequence(others, posts, Min(RecentLimit, |others|));
  }

  /** No eligible post is skipped: a post other than the current one that has
      fewer than five eligible posts before it appears in the sidebar, at the
      position given by the number of those posts. */
  lemma RecentPostsSkipNothing(posts: seq<Post>, currentSlug: string, i: nat)
    requires i < |posts| && posts[i].slug != currentSlug
    requires |OtherPosts(posts[..i], currentSlug)| < RecentLimit
    ensures var m := |OtherPosts(posts[..i], currentSlug)|;
      m < |RecentPosts(posts, currentSlug)| && RecentPosts(posts, currentSlug)[m] == posts[i]
  {
    var before := OtherPosts(posts[..i], currentSlug);
    assert posts == posts[..i] + posts[i..];
    OtherPostsAppend(posts[..i], posts[i..], currentSlug);
    var after := OtherPosts(posts[i..], currentSlug);
    assert posts[i..][0] == posts[i];
    assert after[0] == posts[i];
    var others := OtherPosts(posts, currentSlug);
    assert others == before + after;
    assert others[|before|] == posts[i];
  }

  /** Fewer than five shown means every post other than the current one is shown. */
  lemma RecentPostsShort(posts: seq<Post>, currentSlug: string)
    requires |RecentPosts(posts, currentSlug)| < RecentLimit
    ensures RecentPosts(posts, currentSlug) == OtherPosts(posts, currentSlug)
  {
  }

  /** When the current slug is not in the listing, the sidebar is the first five posts. */
  lemma RecentPostsWithoutCurrent(posts: seq<Post>, currentSlug: string)
    requires forall k | 0 <= k < |posts| :: posts[k].slug != currentSlug
    ensures RecentPosts(posts, currentSlug) == posts[..Min(RecentLimit, |posts|)]
  {
    OtherPostsAll(posts, currentSlug);
  }

  lemma {:induction false} OtherPostsAll(posts: seq<Post>, currentSlug: string)
    requires forall k | 0 <= k < |posts| :: posts[k].slug != currentSlug
    ensures OtherPosts(posts, currentSlug) == posts
    decreases |posts|
  {
    if posts != [] {
      OtherPostsAll(posts[1..], currentSlug);
      assert posts == [posts[0]] + posts[1..];
    }
  }
}
