/**
 * Images, videos and the post type in `extractPostData`. Each DOM element
 * the post's selectors return becomes a record of the attributes the code
 * reads; `JSON.parse` of a `data-store` attribute is a parameter, `None`
 * standing for a parse that throws or yields something without fields.
 */
module Media {
  import opened Wrappers
  import opened Text
  import opened Post

  // ---------------------------------------------------------------- images

  /** An `img` of the post: its `src`, `alt`, and rendered `width` and `height`. */
  datatype ImgEl = ImgEl(src: string, alt: string, width: int, height: int)

  /** `img[src*="scontent"], img[src*="fbcdn"]`. */
  predicate ImageSelected(img: ImgEl) {
    Contains(img.src, "scontent") || Contains(img.src, "fbcdn")
  }

  /** An image the post keeps unless its URL was kept already: no emoji, static or `safe_image` resource, both sides above 100. */
  predicate ImageAcceptable(img: ImgEl) {
    && ImageSelected(img)
    && img.src != []
    && !Contains(img.src, "emoji") && !Contains(img.src, "static") && !Contains(img.src, "safe_image")
    && img.width > 100 && img.height > 100
  }

  /** The entry pushed for an image; an empty `alt` is stored as `null`. */
  function ImageOf(img: ImgEl): ImageRef {
    ImageRef(img.src, if img.alt == [] then None else Some(img.alt), img.width, img.height)
  }

  function ImageUrls(images: seq<ImageRef>): set<string> {
    set x | x in images :: x.url
  }

  /** The images kept from `imgs`, in document order, when the URLs in `seen` are taken already. */
  function KeepImages(imgs: seq<ImgEl>, seen: set<string>): seq<ImageRef>
  {
    if imgs == [] then []
    else if ImageAcceptable(imgs[0]) && imgs[0].src !in seen then
      [ImageOf(imgs[0])] + KeepImages(imgs[1..], seen + {imgs[0].src})
    else KeepImages(imgs[1..], seen)
  }

  /** The `forEach` over the post's images with its `seenUrls` set. */
  method CollectImages(imgs: seq<ImgEl>) returns (images: seq<ImageRef>)
    ensures images == KeepImages(imgs, {})
  {
    images := [];
    var seenUrls: set<string> := {};
    for i := 0 to |imgs|
      invariant images + KeepImages(imgs[i..], seenUrls) == KeepImages(imgs, {})
      invariant seenUrls == ImageUrls(images)
    {
      var img := imgs[i];
      assert imgs[i..][1..] == imgs[i + 1..];
      if ImageAcceptable(img) && img.src !in seenUrls {
        assert ImageUrls(images + [ImageOf(img)]) == ImageUrls(images) + {img.src};
        seenUrls := seenUrls + {img.src};
        images := images + [ImageOf(img)];
      }
    }
  }

  /** No two kept images share a URL, and none has a URL that was taken already. */
  lemma {:induction false} KeptImagesDistinct(imgs: seq<ImgEl>, seen: set<string>)
    ensures var r := KeepImages(imgs, seen);
            && ImageUrls(r) !! seen
            && (forall p, q :: 0 <= p < q < |r| ==> r[p].url != r[q].url)
  {
    if imgs != [] {
      if ImageAcceptable(imgs[0]) && imgs[0].src !in seen {
        var seen' := seen + {imgs[0].src};
        KeptImagesDistinct(imgs[1..], seen');
        var t := KeepImages(imgs[1..], seen');
        var r := [ImageOf(imgs[0])] + t;
        assert ImageUrls(r) == {imgs[0].src} + ImageUrls(t);
        forall p, q | 0 <= p < q < |r|
          ensures r[p].url != r[q].url
        {
          assert r[q] == t[q - 1] && r[q] in t;
          if p > 0 {
            assert r[p] == t[p - 1];
          }
        }
      } else {
        KeptImagesDistinct(imgs[1..], seen);
      }
    }
  }

  /** A URL is kept exactly when it is new and some acceptable image has it. */
  lemma {:induction false} KeptImageUrls(imgs: seq<ImgEl>, seen: set<string>, u: string)
    ensures u in ImageUrls(KeepImages(imgs, seen)) <==>
              u !in seen && exists img :: img in imgs && ImageAcceptable(img) && img.src == u
  {
    if imgs != [] {
      assert forall img :: img in imgs <==> img == imgs[0] || img in imgs[1..];
      if ImageAcceptable(imgs[0]) && imgs[0].src !in seen {
        var t := KeepImages(imgs[1..], seen + {imgs[0].src});
        KeptImageUrls(imgs[1..], seen + {imgs[0].src}, u);
        assert ImageUrls([ImageOf(imgs[0])] + t) == {imgs[0].src} + ImageUrls(t);
      } else {
        KeptImageUrls(imgs[1..], seen, u);
      }
    }
  }

  /** Every kept entry is the entry of an acceptable image. */
  lemma {:induction false} KeptImagesAcceptable(imgs: seq<ImgEl>, seen: set<string>)
    ensures forall x :: x in KeepImages(imgs, seen) ==> exists img :: img in imgs && ImageAcceptable(img) && x == ImageOf(img)
  {
    if imgs != [] {
      assert forall img :: img in imgs[1..] ==> img in imgs;
      if ImageAcceptable(imgs[0]) && imgs[0].src !in seen {
        KeptImagesAcceptable(imgs[1..], seen + {imgs[0].src});
      } else {
        KeptImagesAcceptable(imgs[1..], seen);
      }
    }
  }

  /** `i` is the first acceptable image with its URL. */
  predicate FirstOccurrence(imgs: seq<ImgEl>, i: int)
    requires 0 <= i < |imgs|
  {
    ImageAcceptable(imgs[i]) && forall j :: 0 <= j < i ==> !(ImageAcceptable(imgs[j]) && imgs[j].src == imgs[i].src)
  }

  /**
   * The entry kept for a URL is the one of the first acceptable image with
   * that URL (later images with the same URL may differ in `alt` or size).
   */
  lemma {:induction false} FirstOccurrenceWins(imgs: seq<ImgEl>, seen: set<string>, i: int)
    requires 0 <= i < |imgs| && FirstOccurrence(imgs, i) && imgs[i].src !in seen
    ensures ImageOf(imgs[i]) in KeepImages(imgs, seen)
  {
    if i == 0 {
      assert KeepImages(imgs, seen)[0] == ImageOf(imgs[0]);
    } else {
      var seen' := if ImageAcceptable(imgs[0]) && imgs[0].src !in seen then seen + {imgs[0].src} else seen;
      assert imgs[1..][i - 1] == imgs[i];
      assert imgs[i].src != imgs[0].src || !ImageAcceptable(imgs[0]);
      assert FirstOccurrence(imgs[1..], i - 1) by {
        forall j | 0 <= j < i - 1
          ensures !(ImageAcceptable(imgs[1..][j]) && imgs[1..][j].src == imgs[1..][i - 1].src)
        {
          assert imgs[1..][j] == imgs[j + 1];
        }
      }
      FirstOccurrenceWins(imgs[1..], seen', i - 1);
    }
  }

  /** Document order: the images of a later part of the post come after those of an earlier part. */
  lemma {:induction false} KeepImagesSplit(a: seq<ImgEl>, b: seq<ImgEl>, seen: set<string>)
    ensures KeepImages(a + b, seen) == KeepImages(a, seen) + KeepImages(b, seen + ImageUrls(KeepImages(a, seen)))
  {
    if a == [] {
      assert a + b == b;
      assert seen + ImageUrls([]) == seen;
    } else {
      assert (a + b)[0] == a[0] && (a + b)[1..] == a[1..] + b;
      if ImageAcceptable(a[0]) && a[0].src !in seen {
        var seen' := seen + {a[0].src};
        KeepImagesSplit(a[1..], b, seen');
        var t := KeepImages(a[1..], seen');
        assert ImageUrls([ImageOf(a[0])] + t) == {a[0].src} + ImageUrls(t);
        assert seen' + ImageUrls(t) == seen + ImageUrls([ImageOf(a[0])] + t);
        var rest := KeepImages(b, seen' + ImageUrls(t));
        assert KeepImages(a + b, seen) == [ImageOf(a[0])] + (t + rest);
        assert [ImageOf(a[0])] + (t + rest) == ([ImageOf(a[0])] + t) + rest;
      } else {
        KeepImagesSplit(a[1..], b, seen);
      }
    }
  }

  // ---------------------------------------------------------------- videos

  /** A `video` element: `src`, `poster`, and `duration` (`None` for `NaN`, the value before metadata loads). */
  datatype VideoEl = VideoEl(src: string, poster: string, duration: Option<real>)

  /** A link the video selector returns: its `href` and the `src` of its first `img`, if it has one. */
  datatype LinkEl = LinkEl(href: string, img: Option<string>)

  /** An element with `data-store`, `data-video-id` or `data-sigil` attributes; `None` when it lacks one. */
  datatype ContainerEl = ContainerEl(dataStore: Option<string>, videoId: Option<string>, sigil: Option<string>)

  /** The fields of a parsed `data-store` the code reads, each already rendered as the string a template literal would produce. */
  datatype StoreData = StoreData(videoID: Option<string>, video_id: Option<string>, thumbnailImage: Option<string>, duration: Option<real>)

  /** `x || null` for a string. */
  function OrNull(s: string): (r: Option<string>)
    ensures Truthy(r) <==> r.Some?
    ensures r.Some? <==> s != []
    ensures r.Some? ==> r.value == s
  {
    if s == [] then None else Some(s)
  }

  /** `duration || null`: zero and `NaN` are falsy. */
  function DurationOrNull(d: Option<real>): (r: Option<real>)
    ensures r.Some? ==> r == d && r.value != 0.0
    ensures d.Some? && d.value != 0.0 ==> r == d
  {
    if d.Some? && d.value != 0.0 then d else None
  }

  /** The entry pushed for a `video` element. */
  function DirectEntry(v: VideoEl): VideoRef {
    VideoRef(v.src, OrNull(v.poster), Direct, DurationOrNull(v.duration))
  }

  /**
   * Method 1: `data.videos` after the `forEach` over `vs`, which pushes the
   * entry of every `video` with a truthy `src`, duplicates included.
   */
  function DirectVideos(vs: seq<VideoEl>): (r: seq<VideoRef>)
    ensures |r| <= |vs|
    ensures forall k :: 0 <= k < |r| ==> r[k].kind == Direct && r[k].url != []
  {
    if vs == [] then []
    else DirectVideos(vs[..|vs| - 1]) + if vs[|vs| - 1].src != [] then [DirectEntry(vs[|vs| - 1])] else []
  }

  /**
   * Every `video` with a truthy `src` has its entry among the direct videos,
   * and every direct video is the entry of such an element.
   */
  lemma {:induction false} DirectVideosMembers(vs: seq<VideoEl>)
    ensures forall v :: v in vs && v.src != [] ==> DirectEntry(v) in DirectVideos(vs)
    ensures forall x :: x in DirectVideos(vs) ==> exists v :: v in vs && v.src != [] && x == DirectEntry(v)
    decreases |vs|
  {
    if vs != [] {
      var init := vs[..|vs| - 1];
      var last := vs[|vs| - 1];
      assert vs == init + [last];
      DirectVideosMembers(init);
      forall x | x in DirectVideos(vs)
        ensures exists v :: v in vs && v.src != [] && x == DirectEntry(v)
      {
        if x in DirectVideos(init) {
          var v :| v in init && v.src != [] && x == DirectEntry(v);
          assert v in vs;
        } else {
          assert last in vs;
        }
      }
    }
  }

  /** Document order: the videos of a later part of the post follow those of an earlier part. */
  lemma {:induction false} DirectVideosSplit(a: seq<VideoEl>, b: seq<VideoEl>)
    ensures DirectVideos(a + b) == DirectVideos(a) + DirectVideos(b)
    decreases |b|
  {
    if b == [] {
      assert a + b == a;
    } else {
      var b' := b[..|b| - 1];
      assert (a + b)[..|a + b| - 1] == a + b' && (a + b)[|a + b| - 1] == b[|b| - 1];
      DirectVideosSplit(a, b');
      var tail := if b[|b| - 1].src != [] then [DirectEntry(b[|b| - 1])] else [];
      assert DirectVideos(a + b) == (DirectVideos(a) + DirectVideos(b')) + tail;
      assert DirectVideos(b) == DirectVideos(b') + tail;
    }
  }

  /** The selector `a[href*="/video"], a[href*="/watch"], a[href*="youtube.com"], a[href*="youtu.be"], a[href*="vimeo.com"], a[href*="tiktok.com"]`. */
  predicate LinkSelected(l: LinkEl) {
    || Contains(l.href, "/video") || Contains(l.href, "/watch")
    || Contains(l.href, "youtube.com") || Contains(l.href, "youtu.be")
    || Contains(l.href, "vimeo.com") || Contains(l.href, "tiktok.com")
  }

  /** A selected link the code looks at: non-empty, no fragment, not a comment link. */
  predicate LinkUsable(l: LinkEl) {
    LinkSelected(l) && l.href != [] && !Contains(l.href, "#") && !Contains(l.href, "?comment_id=")
  }

  /** The video type of a link, the hosts checked in the code's order. */
  function LinkKind(href: string): VideoKind {
    if Contains(href, "youtube.com") || Contains(href, "youtu.be") then YouTube
    else if Contains(href, "vimeo.com") then Vimeo
    else if Contains(href, "tiktok.com") then TikTok
    else if Contains(href, "/video") then Facebook
    else Link
  }

  /** The entry a link adds: its thumbnail is the first image's `src` when that is truthy. */
  function LinkVideo(l: LinkEl): VideoRef {
    VideoRef(l.href, if l.img.Some? then OrNull(l.img.value) else None, LinkKind(l.href), None)
  }

  /** `videos.some(v => v.url === u)`. */
  predicate HasUrl(videos: seq<VideoRef>, u: string) {
    exists k :: 0 <= k < |videos| && videos[k].url == u
  }

  /** Method 2, starting from the videos found so far. */
  function AddLinks(acc: seq<VideoRef>, links: seq<LinkEl>): seq<VideoRef>
    decreases |links|
  {
    if links == [] then acc
    else
      var l := links[0];
      AddLinks(if LinkUsable(l) && !HasUrl(acc, l.href) then acc + [LinkVideo(l)] else acc, links[1..])
  }

  /** The selector `[data-store*="video"], [data-video-id], [data-sigil*="video"]`. */
  predicate ContainerSelected(c: ContainerEl) {
    || (c.dataStore.Some? && Contains(c.dataStore.value, "video"))
    || c.videoId.Some?
    || (c.sigil.Some? && Contains(c.sigil.value, "video"))
  }

  const FacebookVideoPrefix: string := "https://www.facebook.com/video/"

  /**
   * Method 3 for one container: a truthy `data-store` is parsed and yields
   * a video when it names an id (`videoID` before `video_id`); only without
   * a truthy `data-store` does `data-video-id` count.
   */
  function ContainerVideo(c: ContainerEl, parseJson: string -> Option<StoreData>): (r: Option<VideoRef>)
    ensures r.Some? ==> exists id :: id != [] && r.value.url == FacebookVideoPrefix + id
    ensures r.Some? ==> (r.value.kind == FacebookData <==> Truthy(c.dataStore))
    ensures r.Some? ==> (r.value.kind == FacebookId <==> !Truthy(c.dataStore))
    ensures Truthy(c.dataStore) && parseJson(c.dataStore.value).None? ==> r.None?
    ensures Truthy(c.dataStore) && parseJson(c.dataStore.value).Some? ==>
              && (r.Some? <==> Truthy(parseJson(c.dataStore.value).value.videoID) || Truthy(parseJson(c.dataStore.value).value.video_id))
              && (Truthy(parseJson(c.dataStore.value).value.videoID) ==>
                    r.value.url == FacebookVideoPrefix + parseJson(c.dataStore.value).value.videoID.value)
              && (!Truthy(parseJson(c.dataStore.value).value.videoID) && Truthy(parseJson(c.dataStore.value).value.video_id) ==>
                    r.value.url == FacebookVideoPrefix + parseJson(c.dataStore.value).value.video_id.value)
              && (r.Some? ==> r.value.duration == DurationOrNull(parseJson(c.dataStore.value).value.duration))
    ensures !Truthy(c.dataStore) ==> (r.Some? <==> Truthy(c.videoId))
    ensures !Truthy(c.dataStore) && Truthy(c.videoId) ==>
              r == Some(VideoRef(FacebookVideoPrefix + c.videoId.value, None, FacebookId, None))
  {
    if Truthy(c.dataStore) then
      match parseJson(c.dataStore.value)
      case None => None
      case Some(d) =>
        if Truthy(d.videoID) || Truthy(d.video_id) then
          var id := if Truthy(d.videoID) then d.videoID.value else d.video_id.value;
          var poster := if d.thumbnailImage.Some? then OrNull(d.thumbnailImage.value) else None;
          Some(VideoRef(FacebookVideoPrefix + id, poster, FacebookData, DurationOrNull(d.duration)))
        else None
    else if Truthy(c.videoId) then
      Some(VideoRef(FacebookVideoPrefix + c.videoId.value, None, FacebookId, None))
    else None
  }

  /** Method 3, starting from the videos found so far. */
  function AddContainers(acc: seq<VideoRef>, cs: seq<ContainerEl>, parseJson: string -> Option<StoreData>): seq<VideoRef>
    decreases |cs|
  {
    if cs == [] then acc
    else
      var v := if ContainerSelected(cs[0]) then ContainerVideo(cs[0], parseJson) else None;
      AddContainers(if v.Some? && !HasUrl(acc, v.value.url) then acc + [v.value] else acc, cs[1..], parseJson)
  }

  /** All of `data.videos`: the three methods in order. */
  function AllVideos(vs: seq<VideoEl>, links: seq<LinkEl>, cs: seq<ContainerEl>,
                     parseJson: string -> Option<StoreData>): seq<VideoRef>
  {
    AddContainers(AddLinks(DirectVideos(vs), links), cs, parseJson)
  }

  /** The three `forEach` loops that fill `data.videos`. */
  method CollectVideos(vs: seq<VideoEl>, links: seq<LinkEl>, cs: seq<ContainerEl>,
                       parseJson: string -> Option<StoreData>) returns (videos: seq<VideoRef>)
    ensures videos == AllVideos(vs, links, cs, parseJson)
  {
    videos := [];
    for i := 0 to |vs|
      invariant videos == DirectVideos(vs[..i])
    {
      assert vs[..i + 1][..i] == vs[..i];
      var video := vs[i];
      if video.src != [] {
        videos := videos + [DirectEntry(video)];
      }
    }
    assert vs[..|vs|] == vs;
    for j := 0 to |links|
      invariant AddLinks(videos, links[j..]) == AddLinks(DirectVideos(vs), links)
    {
      var link := links[j];
      assert links[j..][1..] == links[j + 1..];
      if LinkUsable(link) && !HasUrl(videos, link.href) {
        videos := videos + [LinkVideo(link)];
      }
    }
    for j := 0 to |cs|
      invariant AddContainers(videos, cs[j..], parseJson) == AllVideos(vs, links, cs, parseJson)
    {
      var container := cs[j];
      assert cs[j..][1..] == cs[j + 1..];
      if ContainerSelected(container) {
        var v := ContainerVideo(container, parseJson);
        if v.Some? && !HasUrl(videos, v.value.url) {
          videos := videos + [v.value];
        }
      }
    }
  }

  /**
   * Methods 2 and 3 only append, and an appended entry never repeats a URL
   * that was present before it.
   */
  predicate AppendsNewUrls(acc: seq<VideoRef>, r: seq<VideoRef>) {
    && |acc| <= |r| && r[..|acc|] == acc
    && forall p :: |acc| <= p < |r| ==> !HasUrl(r[..p], r[p].url)
  }

  lemma AppendsNewUrlsTrans(a: seq<VideoRef>, b: seq<VideoRef>, c: seq<VideoRef>)
    requires AppendsNewUrls(a, b) && AppendsNewUrls(b, c)
    ensures AppendsNewUrls(a, c)
  {
    assert c[..|a|] == c[..|b|][..|a|];
    forall p | |a| <= p < |b|
      ensures !HasUrl(c[..p], c[p].url)
    {
      assert c[..p] == b[..p] && c[p] == b[p] by {
        assert c[..p] == c[..|b|][..p];
        assert c[p] == c[..|b|][p];
      }
    }
  }

  /** A URL present in a prefix is present in the whole. */
  lemma HasUrlExtends(a: seq<VideoRef>, r: seq<VideoRef>, u: string)
    requires |a| <= |r| && r[..|a|] == a && HasUrl(a, u)
    ensures HasUrl(r, u)
  {
    var k :| 0 <= k < |a| && a[k].url == u;
    assert r[k] == r[..|a|][k];
  }

  /** `v` is the entry of a usable link among `links`. */
  ghost predicate FromLink(links: seq<LinkEl>, v: VideoRef) {
    exists l :: l in links && LinkUsable(l) && v == LinkVideo(l)
  }

  /** `v` is the video of a selected container among `cs`. */
  ghost predicate FromContainer(cs: seq<ContainerEl>, parseJson: string -> Option<StoreData>, v: VideoRef) {
    exists c :: c in cs && ContainerSelected(c) && ContainerVideo(c, parseJson) == Some(v)
  }

  /** The entries method 2 appends have new URLs, no fragment and no comment id, and are not `direct`. */
  lemma {:induction false} AddLinksNewUrls(acc: seq<VideoRef>, links: seq<LinkEl>)
    ensures AppendsNewUrls(acc, AddLinks(acc, links))
    ensures forall p :: |acc| <= p < |AddLinks(acc, links)| ==>
              var v := AddLinks(acc, links)[p]; !Contains(v.url, "#") && !Contains(v.url, "?comment_id=") && v.kind != Direct
    decreases |links|
  {
    if links != [] {
      var l := links[0];
      var acc' := if LinkUsable(l) && !HasUrl(acc, l.href) then acc + [LinkVideo(l)] else acc;
      AddLinksNewUrls(acc', links[1..]);
      if acc' != acc {
        assert acc'[..|acc|] == acc;
        AppendsNewUrlsTrans(acc, acc', AddLinks(acc', links[1..]));
        assert AddLinks(acc, links)[|acc|] == acc'[|acc|] by {
          assert AddLinks(acc, links)[..|acc'|] == acc';
        }
      } else {
        assert acc[..|acc|] == acc;
      }
    }
  }

  /** After method 2 the URL of every usable link is present. */
  lemma {:induction false} AddLinksComplete(acc: seq<VideoRef>, links: seq<LinkEl>)
    ensures forall l :: l in links && LinkUsable(l) ==> HasUrl(AddLinks(acc, links), l.href)
    decreases |links|
  {
    if links != [] {
      var l := links[0];
      var acc' := if LinkUsable(l) && !HasUrl(acc, l.href) then acc + [LinkVideo(l)] else acc;
      var r := AddLinks(acc', links[1..]);
      assert AddLinks(acc, links) == r;
      AddLinksComplete(acc', links[1..]);
      if LinkUsable(l) {
        if HasUrl(acc, l.href) {
          HasUrlExtends(acc, acc', l.href);
        } else {
          assert acc'[|acc|].url == l.href;
        }
        AddLinksKeepsPrefix(acc', links[1..]);
        HasUrlExtends(acc', r, l.href);
      }
      assert forall l' :: l' in links ==> l' == l || l' in links[1..];
    }
  }

  /** Every entry method 2 appends is the entry of a usable link. */
  lemma AddLinksSources(acc: seq<VideoRef>, links: seq<LinkEl>)
    ensures forall p :: |acc| <= p < |AddLinks(acc, links)| ==>
              FromLink(links, AddLinks(acc, links)[p])
  {
    forall p | |acc| <= p < |AddLinks(acc, links)|
      ensures FromLink(links, AddLinks(acc, links)[p])
    {
      AddLinksSourceAt(acc, links, p);
    }
  }

  lemma {:induction false} AddLinksSourceAt(acc: seq<VideoRef>, links: seq<LinkEl>, p: int)
    requires |acc| <= p < |AddLinks(acc, links)|
    ensures FromLink(links, AddLinks(acc, links)[p])
    decreases |links|
  {
    assert links != [];
    var l := links[0];
    var acc' := if LinkUsable(l) && !HasUrl(acc, l.href) then acc + [LinkVideo(l)] else acc;
    var r := AddLinks(acc', links[1..]);
    assert AddLinks(acc, links) == r;
    AddLinksKeepsPrefix(acc', links[1..]);
    if p < |acc'| {
      assert acc' == acc + [LinkVideo(l)] && LinkUsable(l);
      assert r[p] == r[..|acc'|][p] == LinkVideo(l);
      assert l in links;
    } else {
      AddLinksSourceAt(acc', links[1..], p);
      assert FromLink(links[1..], r[p]);
      var l' :| l' in links[1..] && LinkUsable(l') && r[p] == LinkVideo(l');
      assert l' in links;
    }
  }

  lemma {:induction false} AddLinksKeepsPrefix(acc: seq<VideoRef>, links: seq<LinkEl>)
    ensures |acc| <= |AddLinks(acc, links)| && AddLinks(acc, links)[..|acc|] == acc
    decreases |links|
  {
    if links != [] {
      var l := links[0];
      var acc' := if LinkUsable(l) && !HasUrl(acc, l.href) then acc + [LinkVideo(l)] else acc;
      AddLinksKeepsPrefix(acc', links[1..]);
      assert acc'[..|acc|] == acc;
      assert AddLinks(acc, links)[..|acc|] == AddLinks(acc, links)[..|acc'|][..|acc|];
    }
  }

  /**
   * Method 2 appends, in link order, the entry of each usable link whose
   * URL is not present yet: every usable link's URL ends up present, and
   * every appended entry is the entry of a usable link.
   */
  lemma AddLinksAppendsNew(acc: seq<VideoRef>, links: seq<LinkEl>)
    ensures AppendsNewUrls(acc, AddLinks(acc, links))
    ensures forall p :: |acc| <= p < |AddLinks(acc, links)| ==>
              var v := AddLinks(acc, links)[p]; !Contains(v.url, "#") && !Contains(v.url, "?comment_id=") && v.kind != Direct
    ensures forall l :: l in links && LinkUsable(l) ==> HasUrl(AddLinks(acc, links), l.href)
    ensures forall p :: |acc| <= p < |AddLinks(acc, links)| ==>
              FromLink(links, AddLinks(acc, links)[p])
  {
    AddLinksNewUrls(acc, links);
    AddLinksComplete(acc, links);
    AddLinksSources(acc, links);
  }

  /** The entries method 3 appends have new Facebook video URLs. */
  lemma {:induction false} AddContainersNewUrls(acc: seq<VideoRef>, cs: seq<ContainerEl>, parseJson: string -> Option<StoreData>)
    ensures AppendsNewUrls(acc, AddContainers(acc, cs, parseJson))
    ensures forall p :: |acc| <= p < |AddContainers(acc, cs, parseJson)| ==>
              var v := AddContainers(acc, cs, parseJson)[p];
              FacebookVideoPrefix <= v.url && v.kind in {FacebookData, FacebookId}
    decreases |cs|
  {
    if cs != [] {
      var v := if ContainerSelected(cs[0]) then ContainerVideo(cs[0], parseJson) else None;
      var acc' := if v.Some? && !HasUrl(acc, v.value.url) then acc + [v.value] else acc;
      AddContainersNewUrls(acc', cs[1..], parseJson);
      if acc' != acc {
        assert acc'[..|acc|] == acc;
        AppendsNewUrlsTrans(acc, acc', AddContainers(acc', cs[1..], parseJson));
        assert AddContainers(acc, cs, parseJson)[|acc|] == acc'[|acc|] by {
          assert AddContainers(acc, cs, parseJson)[..|acc'|] == acc';
        }
      } else {
        assert acc[..|acc|] == acc;
      }
    }
  }

  lemma {:induction false} AddContainersKeepsPrefix(acc: seq<VideoRef>, cs: seq<ContainerEl>, parseJson: string -> Option<StoreData>)
    ensures |acc| <= |AddContainers(acc, cs, parseJson)| && AddContainers(acc, cs, parseJson)[..|acc|] == acc
    decreases |cs|
  {
    if cs != [] {
      var v := if ContainerSelected(cs[0]) then ContainerVideo(cs[0], parseJson) else None;
      var acc' := if v.Some? && !HasUrl(acc, v.value.url) then acc + [v.value] else acc;
      AddContainersKeepsPrefix(acc', cs[1..], parseJson);
      assert acc'[..|acc|] == acc;
      assert AddContainers(acc, cs, parseJson)[..|acc|] == AddContainers(acc, cs, parseJson)[..|acc'|][..|acc|];
    }
  }

  /** After method 3 the URL of every selected container's video is present. */
  lemma {:induction false} AddContainersComplete(acc: seq<VideoRef>, cs: seq<ContainerEl>, parseJson: string -> Option<StoreData>)
    ensures forall c :: c in cs && ContainerSelected(c) && ContainerVideo(c, parseJson).Some? ==>
              HasUrl(AddContainers(acc, cs, parseJson), ContainerVideo(c, parseJson).value.url)
    decreases |cs|
  {
    if cs != [] {
      var c := cs[0];
      var v := if ContainerSelected(c) then ContainerVideo(c, parseJson) else None;
      var acc' := if v.Some? && !HasUrl(acc, v.value.url) then acc + [v.value] else acc;
      var r := AddContainers(acc', cs[1..], parseJson);
      assert AddContainers(acc, cs, parseJson) == r;
      AddContainersComplete(acc', cs[1..], parseJson);
      if v.Some? {
        if HasUrl(acc, v.value.url) {
          HasUrlExtends(acc, acc', v.value.url);
        } else {
          assert acc'[|acc|].url == v.value.url;
        }
        AddContainersKeepsPrefix(acc', cs[1..], parseJson);
        HasUrlExtends(acc', r, v.value.url);
      }
      assert forall c' :: c' in cs ==> c' == c || c' in cs[1..];
    }
  }

  /** Every entry method 3 appends is the video of a selected container. */
  lemma AddContainersSources(acc: seq<VideoRef>, cs: seq<ContainerEl>, parseJson: string -> Option<StoreData>)
    ensures forall p :: |acc| <= p < |AddContainers(acc, cs, parseJson)| ==>
              FromContainer(cs, parseJson, AddContainers(acc, cs, parseJson)[p])
  {
    forall p | |acc| <= p < |AddContainers(acc, cs, parseJson)|
      ensures FromContainer(cs, parseJson, AddContainers(acc, cs, parseJson)[p])
    {
      AddContainersSourceAt(acc, cs, parseJson, p);
    }
  }

  lemma {:induction false} AddContainersSourceAt(acc: seq<VideoRef>, cs: seq<ContainerEl>, parseJson: string -> Option<StoreData>, p: int)
    requires |acc| <= p < |AddContainers(acc, cs, parseJson)|
    ensures FromContainer(cs, parseJson, AddContainers(acc, cs, parseJson)[p])
    decreases |cs|
  {
    assert cs != [];
    var c := cs[0];
    var v := if ContainerSelected(c) then ContainerVideo(c, parseJson) else None;
    var acc' := if v.Some? && !HasUrl(acc, v.value.url) then acc + [v.value] else acc;
    var r := AddContainers(acc', cs[1..], parseJson);
    assert AddContainers(acc, cs, parseJson) == r;
    AddContainersKeepsPrefix(acc', cs[1..], parseJson);
    if p < |acc'| {
      assert acc' == acc + [v.value] && ContainerSelected(c) && v == ContainerVideo(c, parseJson);
      assert r[p] == r[..|acc'|][p] == v.value;
      assert c in cs;
    } else {
      AddContainersSourceAt(acc', cs[1..], parseJson, p);
      assert FromContainer(cs[1..], parseJson, r[p]);
      var c' :| c' in cs[1..] && ContainerSelected(c') && ContainerVideo(c', parseJson) == Some(r[p]);
      assert c' in cs;
    }
  }

  /**
   * Method 3 appends, in container order, the video of each selected
   * container that yields one whose URL is not present yet: every such URL
   * ends up present, and every appended entry is the video of a selected
   * container.
   */
  lemma AddContainersAppendsNew(acc: seq<VideoRef>, cs: seq<ContainerEl>, parseJson: string -> Option<StoreData>)
    ensures AppendsNewUrls(acc, AddContainers(acc, cs, parseJson))
    ensures forall p :: |acc| <= p < |AddContainers(acc, cs, parseJson)| ==>
              var v := AddContainers(acc, cs, parseJson)[p];
              FacebookVideoPrefix <= v.url && v.kind in {FacebookData, FacebookId}
    ensures forall c :: c in cs && ContainerSelected(c) && ContainerVideo(c, parseJson).Some? ==>
              HasUrl(AddContainers(acc, cs, parseJson), ContainerVideo(c, parseJson).value.url)
    ensures forall p :: |acc| <= p < |AddContainers(acc, cs, parseJson)| ==>
              FromContainer(cs, parseJson, AddContainers(acc, cs, parseJson)[p])
  {
    AddContainersNewUrls(acc, cs, parseJson);
    AddContainersComplete(acc, cs, parseJson);
    AddContainersSources(acc, cs, parseJson);
  }

  /**
   * The direct videos come first; link and data-attribute videos follow and
   * never repeat a URL already present. Every usable link and every selected
   * container that yields a video has its URL in the result, and every entry
   * after the direct ones is the entry of one of them.
   */
  lemma VideosShape(vs: seq<VideoEl>, links: seq<LinkEl>, cs: seq<ContainerEl>, parseJson: string -> Option<StoreData>)
    ensures AppendsNewUrls(DirectVideos(vs), AllVideos(vs, links, cs, parseJson))
    ensures forall p :: |DirectVideos(vs)| <= p < |AllVideos(vs, links, cs, parseJson)| ==>
              AllVideos(vs, links, cs, parseJson)[p].kind != Direct
    ensures forall l :: l in links && LinkUsable(l) ==> HasUrl(AllVideos(vs, links, cs, parseJson), l.href)
    ensures forall c :: c in cs && ContainerSelected(c) && ContainerVideo(c, parseJson).Some? ==>
              HasUrl(AllVideos(vs, links, cs, parseJson), ContainerVideo(c, parseJson).value.url)
    ensures forall p :: |DirectVideos(vs)| <= p < |AllVideos(vs, links, cs, parseJson)| ==>
              || FromLink(links, AllVideos(vs, links, cs, parseJson)[p])
              || FromContainer(cs, parseJson, AllVideos(vs, links, cs, parseJson)[p])
  {
    var d := DirectVideos(vs);
    var l := AddLinks(d, links);
    var r := AllVideos(vs, links, cs, parseJson);
    AddLinksAppendsNew(d, links);
    AddContainersAppendsNew(l, cs, parseJson);
    AppendsNewUrlsTrans(d, l, r);
    forall link | link in links && LinkUsable(link)
      ensures HasUrl(r, link.href)
    {
      HasUrlExtends(l, r, link.href);
    }
    forall p | |d| <= p < |l|
      ensures r[p] == l[p]
    {
      assert r[p] == r[..|l|][p];
    }
  }

  /**
   * A usable link is typed `link` exactly when it was selected by `/watch`
   * alone, none of the video hosts or `/video` occurring in it.
   */
  lemma LinkTypeOnlyForWatch(l: LinkEl)
    requires LinkUsable(l)
    ensures LinkKind(l.href) == Link <==>
              && Contains(l.href, "/watch")
              && !Contains(l.href, "/video") && !Contains(l.href, "youtube.com") && !Contains(l.href, "youtu.be")
              && !Contains(l.href, "vimeo.com") && !Contains(l.href, "tiktok.com")
  {
  }

  /** A truthy `data-store` decides alone: `data-video-id` is then never read. */
  lemma DataStoreTakesPrecedence(c: ContainerEl, videoId: Option<string>, parseJson: string -> Option<StoreData>)
    requires Truthy(c.dataStore)
    ensures ContainerVideo(c, parseJson) == ContainerVideo(c.(videoId := videoId), parseJson)
  {
  }

  // ---------------------------------------------------------------- post type

  predicate AnyKind(videos: seq<VideoRef>, kinds: set<VideoKind>) {
    exists k :: 0 <= k < |videos| && videos[k].kind in kinds
  }

  /** `data.postType` once images and videos are collected; `None` when it stays `null`. */
  function ClassifyPostType(videos: seq<VideoRef>, images: seq<ImageRef>, caption: Option<string>): Option<PostType> {
    if |videos| > 0 then
      if AnyKind(videos, {Direct}) then Some(Video)
      else if AnyKind(videos, {Facebook, FacebookData, FacebookId}) then Some(FacebookVideo)
      else if AnyKind(videos, {YouTube, Vimeo, TikTok}) then Some(ExternalVideo)
      else Some(VideoLink)
    else if |images| > 0 then Some(Image)
    else if Truthy(caption) then Some(PostType.Text)
    else None
  }

  /**
   * Each post type in both directions; in particular `video-link` means
   * that every video is a plain link, and the type stays `null` only for a
   * post with no media and no caption.
   */
  lemma PostTypeCases(videos: seq<VideoRef>, images: seq<ImageRef>, caption: Option<string>)
    ensures var t := ClassifyPostType(videos, images, caption);
            && (t == Some(Video) <==> exists k :: 0 <= k < |videos| && videos[k].kind == Direct)
            && (t == Some(FacebookVideo) <==>
                  && (forall k :: 0 <= k < |videos| ==> videos[k].kind != Direct)
                  && exists k :: 0 <= k < |videos| && videos[k].kind in {Facebook, FacebookData, FacebookId})
            && (t == Some(ExternalVideo) <==>
                  && (forall k :: 0 <= k < |videos| ==> videos[k].kind !in {Direct, Facebook, FacebookData, FacebookId})
                  && exists k :: 0 <= k < |videos| && videos[k].kind in {YouTube, Vimeo, TikTok})
            && (t == Some(VideoLink) <==> videos != [] && forall k :: 0 <= k < |videos| ==> videos[k].kind == Link)
            && (t == Some(Image) <==> videos == [] && images != [])
            && (t == Some(PostType.Text) <==> videos == [] && images == [] && Truthy(caption))
            && (t.None? <==> videos == [] && images == [] && !Truthy(caption))
            && (t.Some? && t.value in {Video, FacebookVideo, ExternalVideo, VideoLink} <==> videos != [])
  {
    var t := ClassifyPostType(videos, images, caption);
    if videos != [] && forall k :: 0 <= k < |videos| ==> videos[k].kind == Link {
      assert !AnyKind(videos, {Direct});
      assert !AnyKind(videos, {Facebook, FacebookData, FacebookId});
      assert !AnyKind(videos, {YouTube, Vimeo, TikTok});
    }
    if t == Some(VideoLink) {
      forall k | 0 <= k < |videos| ensures videos[k].kind == Link {
        assert videos[k].kind !in {Direct, Facebook, FacebookData, FacebookId, YouTube, Vimeo, TikTok};
      }
    }
    if t == Some(Video) {
      assert AnyKind(videos, {Direct});
    }
  }
}
