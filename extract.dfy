/**
 * `extractPostData`: the record filled field by field from a post element,
 * and the engagement counts, each taken from the first of its patterns
 * that matches the post's text.
 */
module Extract {
  import opened Wrappers
  import opened Text
  import opened Search
  import opened Post
  import opened Counts
  import opened Author
  import opened Caption
  import opened Media

  /**
   * What the rules read of one post element. The engagement patterns are
   * not matched here: each field lists, in the order the code tries them,
   * the capture of each pattern or `None` where it does not match; for
   * likes the "All reactions:" pattern comes first.
   */
  datatype PostElement = PostElement(
    labelledBy: Option<string>,
    top: real,
    links: seq<Anchor>,
    messageTexts: seq<Option<string>>,
    textBlocks: seq<TextBlock>,
    autoTexts: seq<string>,
    imgs: seq<ImgEl>,
    videoEls: seq<VideoEl>,
    videoLinks: seq<LinkEl>,
    containers: seq<ContainerEl>,
    likesMatches: seq<Option<string>>,
    commentsMatches: seq<Option<string>>,
    sharesMatches: seq<Option<string>>)

  /** The page around the post: URL, clock, elements by id, the selection and the number of `[role="article"]` elements. */
  datatype Page = Page(url: string, nowMs: int, labels: map<string, Label>, selection: Selection, articleCount: nat)

  /** Every capture is a count token, as the patterns guarantee. */
  predicate CountTokens(matches: seq<Option<string>>) {
    forall k :: 0 <= k < |matches| && matches[k].Some? ==> IsCountToken(matches[k].value)
  }

  predicate WellFormed(e: PostElement) {
    CountTokens(e.likesMatches) && CountTokens(e.commentsMatches) && CountTokens(e.sharesMatches)
  }

  /** The count from the first pattern that matches, or `null` when none does. */
  function FirstCount(matches: seq<Option<string>>): (r: Option<string>)
    requires CountTokens(matches)
    ensures r.None? <==> forall k :: 0 <= k < |matches| ==> matches[k].None?
    ensures r.Some? ==> AllDigits(r.value) && r.value != []
    ensures r.Some? ==> exists k :: && 0 <= k < |matches| && matches[k].Some?
                                    && (forall j :: 0 <= j < k ==> matches[j].None?)
                                    && IsCountToken(matches[k].value) && IsRoundedCount(matches[k].value, DigitsValue(r.value))
  {
    var k := FirstWhere(matches, (m: Option<string>) => m.Some?);
    if k < |matches| then NormalizeCount(matches[k]) else None
  }

  /** The loop over one field's patterns, stopping at the first match. */
  method MatchCount(matches: seq<Option<string>>) returns (count: Option<string>)
    requires CountTokens(matches)
    ensures count == FirstCount(matches)
  {
    count := None;
    for k := 0 to |matches|
      invariant forall j :: 0 <= j < k ==> matches[j].None?
    {
      var match_ := matches[k];
      if match_.Some? {
        count := NormalizeCount(match_);
        FirstWhereIs(matches, (m: Option<string>) => m.Some?, k);
        return;
      }
    }
  }

  /** The record `extractPostData` returns for `e`. */
  function ExtractedPost(page: Page, e: PostElement, parseJson: string -> Option<StoreData>): PostRecord
    requires WellFormed(e)
  {
    var author := PostAuthor(e.labelledBy, page.labels, e.links, e.top);
    var caption := FinalCaption(RawCaption(page.selection, FullPostView(page.url, page.articleCount),
                                           e.messageTexts, e.textBlocks, e.autoTexts));
    var images := KeepImages(e.imgs, {});
    var videos := AllVideos(e.videoEls, e.videoLinks, e.containers, parseJson);
    PostRecord(
      page.url, page.nowMs,
      if author.Some? then Some(author.value.name) else None,
      if author.Some? then Some(author.value.profileUrl) else None,
      caption, Some(images), Some(videos),
      FirstCount(e.likesMatches), FirstCount(e.commentsMatches), FirstCount(e.sharesMatches),
      ClassifyPostType(videos, images, caption))
  }

  /** `extractPostData`, filling `data` step by step. */
  method ExtractPostData(page: Page, e: PostElement, parseJson: string -> Option<StoreData>) returns (data: PostRecord)
    requires WellFormed(e)
    ensures data == ExtractedPost(page, e, parseJson)
  {
    data := PostRecord(page.url, page.nowMs, None, None, None, Some([]), Some([]), None, None, None, None);

    var byLabel := AuthorFromLabels(e.labelledBy, page.labels);
    if byLabel.Some? {
      data := data.(author := Some(byLabel.value.name), authorProfileUrl := Some(byLabel.value.profileUrl));
    }
    if !Truthy(data.author) {
      var byLink := AuthorFromLinks(e.links, e.top);
      if byLink.Some? {
        data := data.(author := Some(byLink.value.name), authorProfileUrl := Some(byLink.value.profileUrl));
      }
    }
    if Truthy(data.author) {
      data := data.(author := Some(CleanAuthor(data.author.value)));
    }

    var captionText := SelectCaption(page.selection, page.url, page.articleCount, e.messageTexts, e.textBlocks, e.autoTexts);
    data := data.(caption := FinalCaption(captionText));

    var images := CollectImages(e.imgs);
    var videos := CollectVideos(e.videoEls, e.videoLinks, e.containers, parseJson);
    data := data.(images := Some(images), videos := Some(videos));
    data := data.(postType := ClassifyPostType(videos, images, data.caption));

    var likes := MatchCount(e.likesMatches);
    var comments := MatchCount(e.commentsMatches);
    var shares := MatchCount(e.sharesMatches);
    data := data.(likes := likes, comments := comments, shares := shares);
  }

  /**
   * What every extracted record satisfies: trimmed author and caption,
   * a profile URL without query string exactly when there is an author,
   * distinct image URLs, a post type that is `null` only for a post
   * without media and caption, and counts written as plain digits.
   */
  lemma ExtractedPostShape(page: Page, e: PostElement, parseJson: string -> Option<StoreData>)
    requires WellFormed(e)
    ensures var d := ExtractedPost(page, e, parseJson);
            && d.url == page.url && d.timestamp == page.nowMs
            && (d.author.Some? <==> d.authorProfileUrl.Some?)
            && (d.author.Some? ==> Trimmed(d.author.value) && '?' !in d.authorProfileUrl.value)
            && (d.caption.Some? ==> d.caption.value != [] && Trimmed(d.caption.value))
            && d.images.Some? && d.videos.Some?
            && (forall p, q :: 0 <= p < q < |d.images.value| ==> d.images.value[p].url != d.images.value[q].url)
            && (d.postType.None? <==> d.images.value == [] && d.videos.value == [] && d.caption.None?)
            && (d.likes.Some? ==> AllDigits(d.likes.value) && d.likes.value != [])
            && (d.comments.Some? ==> AllDigits(d.comments.value) && d.comments.value != [])
            && (d.shares.Some? ==> AllDigits(d.shares.value) && d.shares.value != [])
  {
    var d := ExtractedPost(page, e, parseJson);
    KeptImagesDistinct(e.imgs, {});
    PostTypeCases(d.videos.value, d.images.value, d.caption);
  }
}
