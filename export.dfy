/**
 * The popup's JSON export of the saved posts and the list of images its
 * "Download Images" button fetches. The export is the dataset object before
 * `JSON.stringify`; its two clock fields and the text format are left out.
 */
module Export {
  import opened Wrappers
  import opened Text
  import opened Post

  // ---------------------------------------------------------------- parseInt

  predicate IsHexDigit(c: char) {
    IsDigit(c) || ('a' <= c <= 'f') || ('A' <= c <= 'F')
  }

  function HexDigitValue(c: char): (d: nat)
    requires IsHexDigit(c)
    ensures d < 16
  {
    if IsDigit(c) then DigitValue(c)
    else if 'a' <= c <= 'f' then c as int - 'a' as int + 10
    else c as int - 'A' as int + 10
  }

  /** The longest run of hexadecimal digits at the start of `s`. */
  function HexPrefix(s: string): (r: string)
    ensures r <= s && forall i :: 0 <= i < |r| ==> IsHexDigit(r[i])
  {
    if s != [] && IsHexDigit(s[0]) then [s[0]] + HexPrefix(s[1..]) else []
  }

  function HexValue(s: string): nat
    requires forall i :: 0 <= i < |s| ==> IsHexDigit(s[i])
  {
    if s == [] then 0 else 16 * HexValue(s[..|s| - 1]) + HexDigitValue(s[|s| - 1])
  }

  /**
   * JavaScript's `parseInt(s)` without a radix: leading white space and a
   * sign are skipped, a `0x` or `0X` prefix selects base 16, and the longest
   * run of digits is read; `None` is `NaN`, when there is no digit at all.
   */
  function ParseInt(s: string): (r: Option<int>)
    ensures r.Some? ==> exists i :: 0 <= i < |s| && IsHexDigit(s[i])
  {
    var t := TrimStart(s);
    TrimStartShape(s);
    var negative := t != [] && t[0] == '-';
    var u := if t != [] && (t[0] == '-' || t[0] == '+') then t[1..] else t;
    var sign := if negative then -1 else 1;
    if |u| >= 2 && u[0] == '0' && (u[1] == 'x' || u[1] == 'X') then
      var h := HexPrefix(u[2..]);
      if h == [] then None
      else
        assert h[0] == s[|s| - |u| + 2];
        Some(sign * HexValue(h))
    else
      var d := DigitPrefix(u);
      if d == [] then None
      else
        assert d[0] == s[|s| - |u|];
        Some(sign * DigitsValue(d))
  }

  /** `parseInt(x) || 0` for a stored count, `null` reading as `NaN`. */
  function CountValue(count: Option<string>): int {
    if count.None? then 0
    else match ParseInt(count.value)
      case None => 0
      case Some(n) => n
  }

  lemma {:induction false} DigitPrefixOfDigits(s: string)
    requires AllDigits(s)
    ensures DigitPrefix(s) == s
    decreases |s|
  {
    if s != [] {
      DigitPrefixOfDigits(s[1..]);
    }
  }

  /**
   * A count `normalizeCount` stored, a non-empty digit string, exports as
   * the number it spells.
   */
  lemma StoredCountRoundTrip(digits: string)
    requires digits != [] && AllDigits(digits)
    ensures CountValue(Some(digits)) == DigitsValue(digits)
  {
    TrimStartKeeps(digits);
    DigitPrefixOfDigits(digits);
    assert |digits| >= 2 ==> IsDigit(digits[1]);
  }

  // ---------------------------------------------------------------- dataset

  /** One element of `dataset.posts`, without `extracted_at`. */
  datatype ExportEntry = ExportEntry(
    id: string,
    text: string,
    author: string,
    authorProfileUrl: Option<string>,
    url: string,
    timestamp: int,
    images: seq<ImageRef>,
    videos: seq<VideoRef>,
    postType: string,
    likes: int,
    comments: int,
    shares: int,
    imageCount: nat,
    videoCount: nat)

  /** `dataset` without `created_at`; the fixed name, description, version and source strings are left out. */
  datatype Dataset = Dataset(totalPosts: nat, posts: seq<ExportEntry>)

  const NoPostsMessage: string := "No posts to export!"

  /** `x || fallback` for a string that may be `null`. */
  function OrDefault(o: Option<string>, fallback: string): (r: string)
    ensures Truthy(o) ==> r == o.value
    ensures !Truthy(o) ==> r == fallback
  {
    if Truthy(o) then o.value else fallback
  }

  /** The entry for the post at `index`, every missing field defaulted. */
  function EntryOf(post: PostRecord, index: nat): ExportEntry {
    var images := post.images.GetOr([]);
    var videos := post.videos.GetOr([]);
    ExportEntry(
      "post_" + NatToString(index + 1),
      OrDefault(post.caption, ""),
      OrDefault(post.author, "Unknown"),
      if Truthy(post.authorProfileUrl) then post.authorProfileUrl else None,
      post.url, post.timestamp, images, videos,
      if post.postType.Some? then PostTypeName(post.postType.value) else "text",
      CountValue(post.likes), CountValue(post.comments), CountValue(post.shares),
      |images|, |videos|)
  }

  /** The export: refused without posts, otherwise one entry per saved post in stored order. */
  function ExportDataset(savedPosts: seq<PostRecord>): (r: Result<Dataset>)
    ensures r.Failure? <==> savedPosts == []
    ensures r.Failure? ==> r.error == NoPostsMessage
    ensures r.Success? ==> r.value.totalPosts == |r.value.posts| == |savedPosts|
    ensures r.Success? ==> forall i :: 0 <= i < |savedPosts| ==> r.value.posts[i] == EntryOf(savedPosts[i], i)
  {
    if savedPosts == [] then Failure(NoPostsMessage)
    else Success(Dataset(|savedPosts|, seq(|savedPosts|, i requires 0 <= i < |savedPosts| => EntryOf(savedPosts[i], i))))
  }

  /**
   * What every exported entry satisfies: it carries the post's URL and
   * timestamp, a non-empty author, a known post type name, counts that
   * are the stored digit strings' values, and image and video counts that
   * match its lists, which are the stored ones or empty.
   */
  lemma EntryShape(post: PostRecord, index: nat)
    requires post.likes.Some? ==> post.likes.value != [] && AllDigits(post.likes.value)
    requires post.comments.Some? ==> post.comments.value != [] && AllDigits(post.comments.value)
    requires post.shares.Some? ==> post.shares.value != [] && AllDigits(post.shares.value)
    ensures var e := EntryOf(post, index);
            && e.url == post.url && e.timestamp == post.timestamp
            && e.author != [] && (Truthy(post.author) ==> e.author == post.author.value)
            && (e.text == [] <==> !Truthy(post.caption))
            && e.postType in {"video", "facebook-video", "external-video", "video-link", "image", "text"}
            && e.likes == (if post.likes.Some? then DigitsValue(post.likes.value) else 0)
            && e.comments == (if post.comments.Some? then DigitsValue(post.comments.value) else 0)
            && e.shares == (if post.shares.Some? then DigitsValue(post.shares.value) else 0)
            && e.imageCount == |e.images| && e.videoCount == |e.videos|
            && (post.images.Some? ==> e.images == post.images.value) && (post.images.None? ==> e.images == [])
            && (post.videos.Some? ==> e.videos == post.videos.value) && (post.videos.None? ==> e.videos == [])
  {
    if post.likes.Some? { StoredCountRoundTrip(post.likes.value); }
    if post.comments.Some? { StoredCountRoundTrip(post.comments.value); }
    if post.shares.Some? { StoredCountRoundTrip(post.shares.value); }
  }

  /** The ids `post_1`, `post_2`, … of an export are distinct. */
  lemma EntryIdsDistinct(savedPosts: seq<PostRecord>, i: nat, j: nat)
    requires i < j < |savedPosts|
    ensures var r := ExportDataset(savedPosts);
            r.Success? && r.value.posts[i].id != r.value.posts[j].id
  {
    var a, b := NatToString(i + 1), NatToString(j + 1);
    assert ("post_" + a)[5..] == a && ("post_" + b)[5..] == b;
  }

  // ---------------------------------------------------------------- image download list

  /** One element of `allImages`. */
  datatype DownloadItem = DownloadItem(url: string, filename: string)

  /** `fb-post-<author or unknown>-<time>-<k>.jpg`. */
  function FileName(author: Option<string>, timestamp: int, k: nat): string {
    Concat(["fb-post-", OrDefault(author, "unknown"), "-", IntToString(timestamp), "-", NatToString(k), ".jpg"])
  }

  /** A file name starts `fb-post-` and the author (or `unknown`), and ends in `.jpg`. */
  lemma FileNameShape(author: Option<string>, timestamp: int, k: nat)
    ensures var f := FileName(author, timestamp, k);
            var a := OrDefault(author, "unknown");
            && |f| > 12 + |a| && f[..8] == "fb-post-" && f[8..8 + |a|] == a && f[8 + |a|] == '-'
            && f[|f| - 4..] == ".jpg"
  {
    var a := OrDefault(author, "unknown");
    var t, n := IntToString(timestamp), NatToString(k);
    var parts := ["fb-post-", a, "-", t, "-", n, ".jpg"];
    var mid := "-" + t + "-" + n;
    assert Concat(parts[6..]) == ".jpg";
    assert Concat(parts[2..]) == mid + ".jpg" by {
      assert Concat(parts[5..]) == n + ".jpg";
      assert Concat(parts[4..]) == "-" + n + ".jpg";
      assert Concat(parts[3..]) == t + "-" + n + ".jpg";
    }
    var tail := mid + ".jpg";
    assert Concat(parts[1..]) == a + tail;
    assert FileName(author, timestamp, k) == "fb-post-" + (a + tail);
    assert ("fb-post-" + (a + tail))[8..8 + |a|] == a;
  }

  /** The strings of `parts` one after the other. */
  function Concat(parts: seq<string>): string {
    if parts == [] then [] else parts[0] + Concat(parts[1..])
  }

  /** The items one post adds when `start` items precede it: each image with a non-empty URL, numbered on. */
  function PostItems(author: Option<string>, timestamp: int, images: seq<ImageRef>, start: nat): seq<DownloadItem>
  {
    if images == [] then []
    else if images[0].url != [] then
      [DownloadItem(images[0].url, FileName(author, timestamp, start + 1))] + PostItems(author, timestamp, images[1..], start + 1)
    else PostItems(author, timestamp, images[1..], start)
  }

  /** The items of one post when `start` items precede it. */
  function ItemsOf(post: PostRecord, start: nat): seq<DownloadItem> {
    PostItems(post.author, post.timestamp, post.images.GetOr([]), start)
  }

  /** `allImages` after the outer loop has gone through `posts`. */
  function Downloads(posts: seq<PostRecord>): seq<DownloadItem>
  {
    if posts == [] then []
    else
      var before := Downloads(posts[..|posts| - 1]);
      before + ItemsOf(posts[|posts| - 1], |before|)
  }

  /** The nested `forEach` loops that fill `allImages`. */
  method BuildDownloadList(savedPosts: seq<PostRecord>) returns (allImages: seq<DownloadItem>)
    ensures allImages == Downloads(savedPosts)
  {
    allImages := [];
    for i := 0 to |savedPosts|
      invariant allImages == Downloads(savedPosts[..i])
    {
      var post := savedPosts[i];
      assert savedPosts[..i + 1][..i] == savedPosts[..i];
      if post.images.Some? && |post.images.value| > 0 {
        allImages := AddPostImages(allImages, post.author, post.timestamp, post.images.value);
      } else {
        assert allImages + ItemsOf(post, |allImages|) == allImages;
      }
    }
    assert savedPosts[..|savedPosts|] == savedPosts;
  }

  /** The inner `forEach` over one post's images. */
  method AddPostImages(init: seq<DownloadItem>, author: Option<string>, timestamp: int, images: seq<ImageRef>)
    returns (allImages: seq<DownloadItem>)
    ensures allImages == init + PostItems(author, timestamp, images, |init|)
  {
    allImages := init;
    assert images[0..] == images;
    for j := 0 to |images|
      invariant allImages + PostItems(author, timestamp, images[j..], |allImages|)
                == init + PostItems(author, timestamp, images, |init|)
    {
      var img := images[j];
      PostItemsStep(author, timestamp, images, j, |allImages|);
      if img.url != [] {
        var item := DownloadItem(img.url, FileName(author, timestamp, |allImages| + 1));
        ghost var tail := PostItems(author, timestamp, images[j + 1..], |allImages| + 1);
        AppendAssociates(allImages, [item], tail);
        allImages := allImages + [item];
      }
    }
    assert images[|images|..] == [];
  }

  lemma AppendAssociates<T>(a: seq<T>, b: seq<T>, c: seq<T>)
    ensures (a + b) + c == a + (b + c)
  {
  }

  lemma PostItemsStep(author: Option<string>, timestamp: int, images: seq<ImageRef>, j: nat, n: nat)
    requires j < |images|
    ensures PostItems(author, timestamp, images[j..], n) ==
            if images[j].url != [] then
              [DownloadItem(images[j].url, FileName(author, timestamp, n + 1))] + PostItems(author, timestamp, images[j + 1..], n + 1)
            else PostItems(author, timestamp, images[j + 1..], n)
  {
    assert images[j..][0] == images[j] && images[j..][1..] == images[j + 1..];
  }

  /** The non-empty image URLs of the posts, post by post and image by image. */
  function NonEmptyUrls(posts: seq<PostRecord>): seq<string> {
    if posts == [] then []
    else NonEmptyUrls(posts[..|posts| - 1]) + ImageUrlList(posts[|posts| - 1].images.GetOr([]))
  }

  function ImageUrlList(images: seq<ImageRef>): seq<string> {
    if images == [] then []
    else if images[0].url != [] then [images[0].url] + ImageUrlList(images[1..])
    else ImageUrlList(images[1..])
  }

  function ItemUrls(items: seq<DownloadItem>): seq<string> {
    if items == [] then [] else [items[0].url] + ItemUrls(items[1..])
  }

  lemma {:induction false} ItemUrlsAppend(a: seq<DownloadItem>, b: seq<DownloadItem>)
    ensures ItemUrls(a + b) == ItemUrls(a) + ItemUrls(b)
  {
    if a != [] {
      assert (a + b)[1..] == a[1..] + b;
      ItemUrlsAppend(a[1..], b);
    } else {
      assert a + b == b;
    }
  }

  lemma {:induction false} PostItemsUrls(author: Option<string>, timestamp: int, images: seq<ImageRef>, start: nat)
    ensures ItemUrls(PostItems(author, timestamp, images, start)) == ImageUrlList(images)
  {
    if images != [] {
      if images[0].url != [] {
        PostItemsUrls(author, timestamp, images[1..], start + 1);
      } else {
        PostItemsUrls(author, timestamp, images[1..], start);
      }
    }
  }

  /** The items of one post are named after it and numbered on from `start`. */
  lemma {:induction false} PostItemsNames(author: Option<string>, timestamp: int, images: seq<ImageRef>, start: nat)
    ensures forall k :: 0 <= k < |PostItems(author, timestamp, images, start)| ==>
              PostItems(author, timestamp, images, start)[k].filename == FileName(author, timestamp, start + k + 1)
  {
    if images != [] {
      if images[0].url != [] {
        var tail := PostItems(author, timestamp, images[1..], start + 1);
        PostItemsNames(author, timestamp, images[1..], start + 1);
        var items := [DownloadItem(images[0].url, FileName(author, timestamp, start + 1))] + tail;
        forall k | 1 <= k < |items|
          ensures items[k].filename == FileName(author, timestamp, start + k + 1)
        {
          assert items[k] == tail[k - 1];
          assert tail[k - 1].filename == FileName(author, timestamp, (start + 1) + (k - 1) + 1);
          assert (start + 1) + (k - 1) + 1 == start + k + 1;
        }
      } else {
        PostItemsNames(author, timestamp, images[1..], start);
      }
    }
  }

  /** The download list holds exactly the non-empty image URLs, in post-then-image order. */
  lemma {:induction false} DownloadsUrls(posts: seq<PostRecord>)
    ensures ItemUrls(Downloads(posts)) == NonEmptyUrls(posts)
    decreases |posts|
  {
    if posts != [] {
      var init, last := posts[..|posts| - 1], posts[|posts| - 1];
      var before := Downloads(init);
      DownloadsUrls(init);
      PostItemsUrls(last.author, last.timestamp, last.images.GetOr([]), |before|);
      ItemUrlsAppend(before, ItemsOf(last, |before|));
    }
  }

  /**
   * The k-th item of the download list (from 1) is named after the author
   * and time of one of the posts, with the number k.
   */
  lemma {:induction false} DownloadsNames(posts: seq<PostRecord>)
    ensures forall k :: 0 <= k < |Downloads(posts)| ==>
              exists p :: 0 <= p < |posts| && Downloads(posts)[k].filename == FileName(posts[p].author, posts[p].timestamp, k + 1)
    decreases |posts|
  {
    if posts != [] {
      var init, last := posts[..|posts| - 1], posts[|posts| - 1];
      var before := Downloads(init);
      var items := ItemsOf(last, |before|);
      DownloadsNames(init);
      PostItemsNames(last.author, last.timestamp, last.images.GetOr([]), |before|);
      var all := before + items;
      assert Downloads(posts) == all;
      forall k | 0 <= k < |Downloads(posts)|
        ensures exists p :: 0 <= p < |posts| && Downloads(posts)[k].filename == FileName(posts[p].author, posts[p].timestamp, k + 1)
      {
        if k < |before| {
          assert all[k] == before[k];
          var p :| 0 <= p < |init| && before[k].filename == FileName(init[p].author, init[p].timestamp, k + 1);
          assert init[p] == posts[p];
          assert all[k].filename == FileName(posts[p].author, posts[p].timestamp, k + 1);
        } else {
          assert all[k] == items[k - |before|];
          assert all[k].filename == FileName(last.author, last.timestamp, |before| + (k - |before|) + 1);
          assert all[k].filename == FileName(posts[|posts| - 1].author, posts[|posts| - 1].timestamp, k + 1);
        }
      }
    } else {
      assert Downloads(posts) == [];
    }
  }
}
