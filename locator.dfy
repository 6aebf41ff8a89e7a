/**
 * Locating the post a right-click belongs to, in the `extractAndSave`
 * message handler: a photo-viewer check over the clicked element's
 * ancestors, a bounded walk up the ancestors to the first post container,
 * and, when that fails, the `[aria-labelledby]` element of the page whose
 * vertical extent holds the click and whose top is closest to it.
 *
 * The clicked element and its ancestors are a sequence of node records,
 * index 0 the clicked element and each next one its `parentElement`;
 * the sequence ends where `parentElement` is `null`.
 */
module Locator {
  import opened Wrappers
  import opened Text
  import opened Search

  /**
   * What the walks read of an element: its `role`, `data-store` and
   * `aria-labelledby` attributes, whether it contains an `img[src*="scontent"]`
   * or a `[dir="auto"]` element, its class list as a string, and whether it
   * is `document.body`.
   */
  datatype Node = Node(role: Option<string>, dataStore: Option<string>, labelledBy: Option<string>,
                       hasScontentImage: bool, hasDirAuto: bool, className: string, isBody: bool)

  /** A page URL that names a photo. */
  predicate IsPhotoUrl(url: string) {
    Contains(url, "/photo/") || Contains(url, "/photo.php") || Contains(url, "photo_id=")
  }

  /** The ancestor `k` is a dialog reached before `document.body`. */
  predicate DialogBeforeBody(chain: seq<Node>, k: int) {
    && 0 <= k < |chain| && chain[k].role == Some("dialog")
    && forall j :: 0 <= j <= k ==> !chain[j].isBody
  }

  /**
   * Phase 1: the click is in the photo viewer exactly when a dialog lies
   * among the ancestors below `document.body` and the page URL names a photo.
   */
  method DetectPhotoModal(chain: seq<Node>, url: string) returns (inPhotoModal: bool)
    ensures inPhotoModal <==> IsPhotoUrl(url) && exists k :: DialogBeforeBody(chain, k)
  {
    inPhotoModal := false;
    var i := 0;
    while i < |chain| && !chain[i].isBody
      invariant 0 <= i <= |chain|
      invariant forall j :: 0 <= j < i ==> !chain[j].isBody && chain[j].role != Some("dialog")
    {
      if chain[i].role == Some("dialog") {
        if IsPhotoUrl(url) {
          inPhotoModal := true;
        }
        assert DialogBeforeBody(chain, i);
        return;
      }
      i := i + 1;
    }
    assert forall k :: DialogBeforeBody(chain, k) ==> k < i;
  }

  const MaxAttempts: nat := 50

  /**
   * An element the walk accepts as the post: `role="article"`, a non-empty
   * `data-store`, a non-empty `aria-labelledby` together with an image or
   * text element inside, or a `userContentWrapper` / `_5pcr` class.
   */
  predicate IsPostMarker(n: Node) {
    || n.role == Some("article")
    || Truthy(n.dataStore)
    || (Truthy(n.labelledBy) && (n.hasScontentImage || n.hasDirAuto))
    || Contains(n.className, "userContentWrapper")
    || Contains(n.className, "_5pcr")
  }

  predicate StopsWalk(n: Node) {
    n.isBody || IsPostMarker(n)
  }

  /**
   * The post container the walk is meant to find: the first marker among
   * the clicked element and its first 49 ancestors, provided
   * `document.body` is not reached first.
   */
  function PostAncestor(chain: seq<Node>): (r: Option<nat>)
    ensures r.Some? ==> && r.value < MaxAttempts && r.value < |chain|
                        && IsPostMarker(chain[r.value]) && !chain[r.value].isBody
                        && forall j :: 0 <= j < r.value ==> !chain[j].isBody && !IsPostMarker(chain[j])
    ensures r.None? <==> forall k :: (0 <= k < |chain| && k < MaxAttempts && IsPostMarker(chain[k])) ==>
                                      exists j :: 0 <= j <= k && chain[j].isBody
  {
    var k := FirstWhere(chain, StopsWalk);
    if k < |chain| && k < MaxAttempts && !chain[k].isBody then Some(k) else None
  }

  /**
   * Phase 3 as written: the loop breaks at a marker, but the check after it
   * also fails whenever 50 attempts were made, so a marker found at the
   * 50th attempt (the 49th ancestor) is thrown away.
   */
  method WalkAncestorsAsWritten(chain: seq<Node>) returns (found: Option<nat>)
    ensures found == if PostAncestor(chain).Some? && PostAncestor(chain).value < MaxAttempts - 1
                     then PostAncestor(chain) else None
  {
    var i := 0;
    var attempts := 0;
    while i < |chain| && !chain[i].isBody && attempts < MaxAttempts
      invariant 0 <= i <= |chain| && attempts == i <= MaxAttempts
      invariant forall j :: 0 <= j < i ==> !StopsWalk(chain[j])
    {
      attempts := attempts + 1;
      if IsPostMarker(chain[i]) {
        break;
      }
      i := i + 1;
    }
    if i == |chain| || chain[i].isBody || attempts >= MaxAttempts {
      found := None;
    } else {
      found := Some(i);
    }
    if i == |chain| || StopsWalk(chain[i]) {
      FirstWhereIs(chain, StopsWalk, i);
    }
  }

  /** Phase 3 with the exit test the walk intends: it fails only when no marker was found. */
  method WalkAncestors(chain: seq<Node>) returns (found: Option<nat>)
    ensures found == PostAncestor(chain)
  {
    var i := 0;
    var attempts := 0;
    var isPost := false;
    while i < |chain| && !chain[i].isBody && attempts < MaxAttempts
      invariant 0 <= i <= |chain| && attempts == i <= MaxAttempts
      invariant forall j :: 0 <= j < i ==> !StopsWalk(chain[j])
    {
      attempts := attempts + 1;
      if IsPostMarker(chain[i]) {
        isPost := true;
        break;
      }
      i := i + 1;
    }
    if isPost {
      found := Some(i);
      FirstWhereIs(chain, StopsWalk, i);
    } else {
      found := None;
      if i < |chain| && chain[i].isBody {
        FirstWhereIs(chain, StopsWalk, i);
      }
    }
  }

  /**
   * A chain of fifty elements: the clicked element and its first 48
   * ancestors are no post containers, its 49th ancestor (index 49, the
   * fiftieth element the walk tests) has `role="article"`.
   */
  function MarkerAtFiftieth(): (chain: seq<Node>)
    ensures |chain| == MaxAttempts
  {
    var plain := Node(None, None, None, false, false, "", false);
    var article := Node(Some("article"), None, None, false, false, "", false);
    seq(MaxAttempts - 1, _ => plain) + [article]
  }

  /**
   * The walk does test the 49th ancestor, its fiftieth attempt, and finds
   * the container there, yet the written exit test discards it; the
   * intended walk keeps it.
   */
  lemma FiftiethMarkerDiscarded()
    ensures PostAncestor(MarkerAtFiftieth()) == Some(MaxAttempts - 1)
  {
    var chain := MarkerAtFiftieth();
    assert forall j :: 0 <= j < MaxAttempts - 1 ==> !StopsWalk(chain[j]);
    assert StopsWalk(chain[MaxAttempts - 1]);
    FirstWhereIs(chain, StopsWalk, MaxAttempts - 1);
  }

  /**
   * A `[aria-labelledby]` element of the page: whether it contains an
   * `img[src*="scontent"]` or a `[dir="auto"]` element, and the top and
   * bottom of its bounding rectangle.
   */
  datatype Candidate = Candidate(hasScontentImage: bool, hasDirAuto: bool, top: real, bottom: real)

  /** A candidate with content whose vertical extent holds the click. */
  predicate Eligible(c: Candidate, clickY: real) {
    (c.hasScontentImage || c.hasDirAuto) && c.top <= clickY <= c.bottom
  }

  /** `Math.abs(clickY - candidateY)`. */
  function Distance(c: Candidate, clickY: real): (d: real)
    ensures d >= 0.0 && (d == clickY - c.top || d == c.top - clickY)
  {
    if clickY >= c.top then clickY - c.top else c.top - clickY
  }

  /**
   * The fallback loop: an eligible candidate closest to the click, the
   * earliest one among equally close candidates since only a strictly
   * smaller distance replaces the current choice.
   */
  method ClosestCandidate(cands: seq<Candidate>, clickY: real) returns (closest: Option<nat>)
    ensures closest.None? <==> forall k :: 0 <= k < |cands| ==> !Eligible(cands[k], clickY)
    ensures closest.Some? ==> closest.value < |cands| && Eligible(cands[closest.value], clickY)
    ensures closest.Some? ==> forall k :: 0 <= k < |cands| && Eligible(cands[k], clickY) ==>
                                Distance(cands[closest.value], clickY) <= Distance(cands[k], clickY)
    ensures closest.Some? ==> forall k :: 0 <= k < closest.value && Eligible(cands[k], clickY) ==>
                                Distance(cands[closest.value], clickY) < Distance(cands[k], clickY)
  {
    closest := None;
    var closestDistance: real := 0.0;
    for i := 0 to |cands|
      invariant closest.None? <==> forall k :: 0 <= k < i ==> !Eligible(cands[k], clickY)
      invariant closest.Some? ==> && closest.value < i && Eligible(cands[closest.value], clickY)
                                  && closestDistance == Distance(cands[closest.value], clickY)
      invariant closest.Some? ==> forall k :: 0 <= k < i && Eligible(cands[k], clickY) ==>
                                    closestDistance <= Distance(cands[k], clickY)
      invariant closest.Some? ==> forall k :: 0 <= k < closest.value && Eligible(cands[k], clickY) ==>
                                    closestDistance < Distance(cands[k], clickY)
    {
      var candidate := cands[i];
      if !candidate.hasScontentImage && !candidate.hasDirAuto {
        continue;
      }
      if clickY >= candidate.top && clickY <= candidate.bottom {
        var distance := Distance(candidate, clickY);
        if closest.None? || distance < closestDistance {
          closestDistance := distance;
          closest := Some(i);
        }
      }
    }
  }

  /** Where the handler takes the post from, or why it stops. */
  datatype Located =
    | InPhotoViewer
    | AncestorPost(index: nat)
    | NearestPost(index: nat)
    | NotFound
    | NoClickedElement

  /**
   * What phases 1 to 3 and the fallback decide for a click at height
   * `clickY`: the photo viewer exactly when a dialog lies below
   * `document.body` on a photo URL; otherwise the post ancestor when there
   * is one; otherwise nothing without a clicked element; otherwise the
   * eligible candidate closest to the click, the earliest among equally
   * close ones, or not found when no candidate is eligible.
   */
  ghost predicate LocatedBy(chain: seq<Node>, url: string, cands: seq<Candidate>, clickY: real, r: Located) {
    && (r == InPhotoViewer <==> IsPhotoUrl(url) && exists k :: DialogBeforeBody(chain, k))
    && (r.AncestorPost? ==> PostAncestor(chain) == Some(r.index))
    && (r != InPhotoViewer ==> (r.AncestorPost? <==> PostAncestor(chain).Some?))
    && (r == NoClickedElement <==> r != InPhotoViewer && chain == [])
    && (r.NearestPost? ==>
          && chain != [] && PostAncestor(chain).None?
          && r.index < |cands| && Eligible(cands[r.index], clickY)
          && (forall k :: 0 <= k < |cands| && Eligible(cands[k], clickY) ==>
                Distance(cands[r.index], clickY) <= Distance(cands[k], clickY))
          && (forall k :: 0 <= k < r.index && Eligible(cands[k], clickY) ==>
                Distance(cands[r.index], clickY) < Distance(cands[k], clickY)))
    && (r == NotFound ==> && chain != [] && PostAncestor(chain).None?
                          && forall k :: 0 <= k < |cands| ==> !Eligible(cands[k], clickY))
  }

  /** `LocatedBy` leaves no choice: it determines the outcome of every click. */
  lemma LocatedByUnique(chain: seq<Node>, url: string, cands: seq<Candidate>, clickY: real, r1: Located, r2: Located)
    requires LocatedBy(chain, url, cands, clickY, r1) && LocatedBy(chain, url, cands, clickY, r2)
    ensures r1 == r2
  {
    if r1.NearestPost? && r2.NearestPost? {
      assert !(r1.index < r2.index) && !(r2.index < r1.index);
    }
  }

  /**
   * Phases 1 to 3 and the fallback. The click position is the vertical
   * middle of the clicked element's bounding rectangle; with no clicked
   * element at all the fallback dereferences `null` and the handler stops.
   */
  method LocatePost(chain: seq<Node>, url: string, cands: seq<Candidate>,
                    clickTop: real, clickHeight: real) returns (r: Located)
    ensures LocatedBy(chain, url, cands, clickTop + clickHeight / 2.0, r)
  {
    var inPhotoModal := DetectPhotoModal(chain, url);
    if inPhotoModal {
      return InPhotoViewer;
    }
    var found := WalkAncestors(chain);
    if found.Some? {
      return AncestorPost(found.value);
    }
    if chain == [] {
      return NoClickedElement;
    }
    var clickY := clickTop + clickHeight / 2.0;
    var closest := ClosestCandidate(cands, clickY);
    if closest.Some? {
      r := NearestPost(closest.value);
    } else {
      r := NotFound;
    }
  }
}
