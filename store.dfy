/**
 * The `extractAndSave` handler's saving step: the list of saved posts read
 * from local storage, the duplicate check, and the append that keeps only
 * the last 100 posts. The storage area is an object whose `savedPosts`
 * field the handler replaces; reading and writing it is a single step here.
 */
module Store {
  import opened Wrappers
  import opened Post
  import opened Locator
  import opened Media
  import opened Extract

  const MaxSavedPosts: nat := 100

  /** Five minutes in milliseconds. */
  const DuplicateWindowMs: int := 5 * 60 * 1000

  const AlreadySavedMessage: string := "Post already saved"
  const PhotoViewerMessage: string := "📸 You're viewing a photo. Please close the photo viewer or click \"See post\" to view the full post, then right-click to extract.\n\nTip: You can also highlight the caption text and right-click for 100% accurate extraction."
  const NotFoundMessage: string := "Could not find post. Please try right-clicking on the post text or image."

  function Abs(x: int): (r: nat)
    ensures r == x || r == -x
  {
    if x < 0 then -x else x
  }

  /**
   * `existing` already holds `data`: the same page URL, or the same author
   * (`null` matching `null`) with timestamps less than five minutes apart.
   */
  predicate SamePost(existing: PostRecord, data: PostRecord) {
    || existing.url == data.url
    || (existing.author == data.author && Abs(existing.timestamp - data.timestamp) < DuplicateWindowMs)
  }

  predicate HasDuplicate(savedPosts: seq<PostRecord>, data: PostRecord) {
    exists k :: 0 <= k < |savedPosts| && SamePost(savedPosts[k], data)
  }

  /** The `savedPosts.some(...)` check. */
  method IsDuplicate(savedPosts: seq<PostRecord>, data: PostRecord) returns (isDuplicate: bool)
    ensures isDuplicate <==> HasDuplicate(savedPosts, data)
  {
    for k := 0 to |savedPosts|
      invariant forall j :: 0 <= j < k ==> !SamePost(savedPosts[j], data)
    {
      var existingPost := savedPosts[k];
      if existingPost.url == data.url {
        return true;
      }
      if existingPost.author == data.author && Abs(existingPost.timestamp - data.timestamp) < DuplicateWindowMs {
        return true;
      }
    }
    return false;
  }

  /** `push` followed by `shift` when the list grew beyond 100. */
  function Appended(savedPosts: seq<PostRecord>, data: PostRecord): seq<PostRecord> {
    var pushed := savedPosts + [data];
    if |pushed| > MaxSavedPosts then pushed[1..] else pushed
  }

  /**
   * The new post ends up last, behind the saved posts minus at most the
   * oldest one, and a list of at most 100 stays within 100: it grows by
   * one until it holds 100 posts and then keeps that length.
   */
  lemma AppendedShape(savedPosts: seq<PostRecord>, data: PostRecord)
    ensures var r := Appended(savedPosts, data);
            && r != [] && r[|r| - 1] == data
            && (r[..|r| - 1] == savedPosts || r[..|r| - 1] == savedPosts[1..])
            && (r[..|r| - 1] == savedPosts <==> |savedPosts| < MaxSavedPosts)
            && (|savedPosts| <= MaxSavedPosts ==> |r| <= MaxSavedPosts)
            && (|savedPosts| < MaxSavedPosts ==> |r| == |savedPosts| + 1)
  {
    var r := Appended(savedPosts, data);
    if |savedPosts| >= MaxSavedPosts {
      assert r[..|r| - 1] == savedPosts[1..];
      assert |r[..|r| - 1]| != |savedPosts|;
    } else {
      assert r[..|r| - 1] == savedPosts;
    }
  }

  /** No saved post duplicates an earlier one. */
  predicate NoDuplicates(posts: seq<PostRecord>) {
    forall p, q :: 0 <= p < q < |posts| ==> !SamePost(posts[p], posts[q])
  }

  /** Saving only what the duplicate check lets through keeps the list free of duplicates. */
  lemma AppendKeepsNoDuplicates(savedPosts: seq<PostRecord>, data: PostRecord)
    requires NoDuplicates(savedPosts) && !HasDuplicate(savedPosts, data)
    ensures NoDuplicates(Appended(savedPosts, data))
  {
    var pushed := savedPosts + [data];
    assert NoDuplicates(pushed) by {
      forall p, q | 0 <= p < q < |pushed|
        ensures !SamePost(pushed[p], pushed[q])
      {
        if q == |savedPosts| {
          assert pushed[p] == savedPosts[p];
        } else {
          assert pushed[p] == savedPosts[p] && pushed[q] == savedPosts[q];
        }
      }
    }
    if |pushed| > MaxSavedPosts {
      forall p, q | 0 <= p < q < |pushed[1..]|
        ensures !SamePost(pushed[1..][p], pushed[1..][q])
      {
        assert pushed[1..][p] == pushed[p + 1] && pushed[1..][q] == pushed[q + 1];
      }
    }
  }

  /** What the handler sends back; the notification shown alongside is left out. */
  datatype Response = Saved(data: PostRecord, total: nat) | Refused(error: string)

  /** The extension's local storage, holding `savedPosts`. */
  class PostStore {
    var savedPosts: seq<PostRecord>

    /** At most 100 posts, none a duplicate of an earlier one. */
    ghost predicate Valid()
      reads this
    {
      |savedPosts| <= MaxSavedPosts && NoDuplicates(savedPosts)
    }

    /** Nothing saved yet (`storageResult.savedPosts || []`). */
    constructor()
      ensures Valid() && savedPosts == []
    {
      savedPosts := [];
    }

    /** The duplicate check, then `push` and `shift`. */
    method Save(data: PostRecord) returns (response: Response)
      requires Valid()
      modifies this
      ensures Valid()
      ensures HasDuplicate(old(savedPosts), data) ==> savedPosts == old(savedPosts) && response == Refused(AlreadySavedMessage)
      ensures !HasDuplicate(old(savedPosts), data) ==>
                savedPosts == Appended(old(savedPosts), data) && response == Saved(data, |savedPosts|)
    {
      var isDuplicate := IsDuplicate(savedPosts, data);
      if isDuplicate {
        return Refused(AlreadySavedMessage);
      }
      AppendKeepsNoDuplicates(savedPosts, data);
      AppendedShape(savedPosts, data);
      savedPosts := savedPosts + [data];
      if |savedPosts| > MaxSavedPosts {
        savedPosts := savedPosts[1..];
      }
      response := Saved(data, |savedPosts|);
    }

    /**
     * The `extractAndSave` handler: locate the post, extract it, save it.
     * `elementOf` gives what the extraction reads of the located element;
     * `None` is the case where the handler throws and sends no response.
     * `located` is where the handler found the post, or why it stopped.
     */
    method ExtractAndSave(page: Page, chain: seq<Node>, cands: seq<Candidate>, clickTop: real, clickHeight: real,
                          elementOf: Located -> PostElement, parseJson: string -> Option<StoreData>)
      returns (response: Option<Response>, ghost located: Located)
      requires Valid()
      requires forall l :: WellFormed(elementOf(l))
      modifies this
      ensures Valid()
      ensures LocatedBy(chain, page.url, cands, clickTop + clickHeight / 2.0, located)
      ensures located == InPhotoViewer <==> response == Some(Refused(PhotoViewerMessage))
      ensures located == NotFound <==> response == Some(Refused(NotFoundMessage))
      ensures located == NoClickedElement <==> response.None?
      ensures !(located.AncestorPost? || located.NearestPost?) ==> savedPosts == old(savedPosts)
      ensures (located.AncestorPost? || located.NearestPost?) &&
              HasDuplicate(old(savedPosts), ExtractedPost(page, elementOf(located), parseJson)) ==>
                response == Some(Refused(AlreadySavedMessage)) && savedPosts == old(savedPosts)
      ensures (located.AncestorPost? || located.NearestPost?) &&
              !HasDuplicate(old(savedPosts), ExtractedPost(page, elementOf(located), parseJson)) ==>
                && savedPosts == Appended(old(savedPosts), ExtractedPost(page, elementOf(located), parseJson))
                && response == Some(Saved(ExtractedPost(page, elementOf(located), parseJson), |savedPosts|))
      ensures IsPhotoUrl(page.url) && (exists k :: DialogBeforeBody(chain, k)) ==>
                response == Some(Refused(PhotoViewerMessage)) && savedPosts == old(savedPosts)
      ensures response.None? <==> !(IsPhotoUrl(page.url) && (exists k :: DialogBeforeBody(chain, k))) && chain == []
      ensures response.Some? && response.value.Saved? ==>
                && response.value.data.url == page.url && response.value.data.timestamp == page.nowMs
                && savedPosts == Appended(old(savedPosts), response.value.data)
      ensures response.Some? && response.value.Refused? ==> savedPosts == old(savedPosts)
    {
      var where := LocatePost(chain, page.url, cands, clickTop, clickHeight);
      located := where;
      match where
      case InPhotoViewer =>
        response := Some(Refused(PhotoViewerMessage));
      case NotFound =>
        response := Some(Refused(NotFoundMessage));
      case NoClickedElement =>
        response := None;
      case _ =>
        var data := ExtractPostData(page, elementOf(where), parseJson);
        var r := Save(data);
        response := Some(r);
    }
  }
}
