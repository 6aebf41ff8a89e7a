/**
 * Author extraction in `extractPostData`: strategy 1 reads the elements the
 * post's `aria-labelledby` names, strategy 2 scans the post's facebook.com
 * links near its top, and the chosen name is then cleaned of the "· Follow"
 * button text. The DOM is replaced by records: a label element is its text
 * and the `href` of its link, a link is its `href`, its text and its top
 * offset on screen.
 */
module Author {
  import opened Wrappers
  import opened Text
  import opened Search

  /**
   * An element `getElementById` finds: its `textContent`, and the `href` of
   * `querySelector('a') || closest('a')` (`None` when neither exists).
   */
  datatype Label = Label(textContent: string, link: Option<string>)

  /** An `<a>` inside the post, in document order. */
  datatype Anchor = Anchor(href: string, textContent: string, top: real)

  /** What a strategy settles on: the author name and the profile URL. */
  datatype AuthorFound = AuthorFound(name: string, profileUrl: string)

  /** `href.split('?')[0]`: the profile URL without its query string. */
  function ProfileUrl(href: string): (r: string)
    ensures r <= href && '?' !in r
  {
    BeforeFirst(href, '?')
  }

  // ---------------------------------------------------------------- strategy 1

  /** Strategy 1 accepts the label `id` names when its trimmed text has 1 to 149 characters and it has a link with an `href`. */
  predicate LabelAccepts(id: string, labels: map<string, Label>) {
    && id != [] && id in labels
    && var text := Trim(labels[id].textContent);
    && text != [] && |text| < 150
    && labels[id].link.Some? && labels[id].link.value != []
  }

  function LabelFound(id: string, labels: map<string, Label>): AuthorFound
    requires LabelAccepts(id, labels)
  {
    AuthorFound(Trim(labels[id].textContent), ProfileUrl(labels[id].link.value))
  }

  /** The first of `ids` whose label strategy 1 accepts. */
  function FirstLabel(ids: seq<string>, labels: map<string, Label>): (r: Option<AuthorFound>)
    ensures r.None? <==> forall i :: 0 <= i < |ids| ==> !LabelAccepts(ids[i], labels)
    ensures r.Some? ==> exists i :: && 0 <= i < |ids| && LabelAccepts(ids[i], labels)
                                    && r.value == LabelFound(ids[i], labels)
                                    && forall j :: 0 <= j < i ==> !LabelAccepts(ids[j], labels)
  {
    var k := FirstWhere(ids, id => LabelAccepts(id, labels));
    if k < |ids| then Some(LabelFound(ids[k], labels)) else None
  }

  /** Strategy 1 as a whole: nothing without an `aria-labelledby` value, else the first accepted id of its space-separated list. */
  function LabelAuthor(labelledBy: Option<string>, labels: map<string, Label>): Option<AuthorFound> {
    if labelledBy.None? || labelledBy.value == [] then None
    else FirstLabel(Split(labelledBy.value, ' '), labels)
  }

  /** Strategy 1's loop over the label ids, stopping at the first accepted one. */
  method AuthorFromLabels(labelledBy: Option<string>, labels: map<string, Label>) returns (found: Option<AuthorFound>)
    ensures found == LabelAuthor(labelledBy, labels)
    ensures found.Some? ==> found.value.name != [] && |found.value.name| < 150 && Trimmed(found.value.name)
  {
    found := None;
    if labelledBy.None? || labelledBy.value == [] {
      return;
    }
    var ids := Split(labelledBy.value, ' ');
    var i := 0;
    while i < |ids|
      invariant 0 <= i <= |ids|
      invariant forall j :: 0 <= j < i ==> !LabelAccepts(ids[j], labels)
    {
      if LabelAccepts(ids[i], labels) {
        found := Some(LabelFound(ids[i], labels));
        FirstWhereIs(ids, id => LabelAccepts(id, labels), i);
        return;
      }
      i := i + 1;
    }
  }

  // ---------------------------------------------------------------- strategy 2

  /** The texts that mark a link as a button or a counter rather than a name. */
  predicate IsChromeText(text: string) {
    || Contains(text, "Like") || Contains(text, "ถูกใจ")
    || Contains(text, "Comment") || Contains(text, "ความคิดเห็น")
    || Contains(text, "Share") || Contains(text, "แชร์")
    || Contains(text, "See more") || Contains(text, "ดูเพิ่มเติม")
  }

  /** Strategy 2 skips a link whose trimmed text is empty, longer than 150 characters or chrome, or which leads to a photo or a video. */
  predicate Skipped(text: string, href: string) {
    || text == [] || |text| > 150
    || IsChromeText(text)
    || Contains(href, "/photo") || Contains(href, "/video")
  }

  /** A link `a[href*="facebook.com"]` that strategy 2 does not skip. */
  predicate LinkQualifies(a: Anchor) {
    Contains(a.href, "facebook.com") && !Skipped(Trim(a.textContent), a.href)
  }

  /** Strategy 2 accepts a qualifying link less than 150 pixels below the post's top. */
  predicate LinkAccepts(a: Anchor, postTop: real) {
    LinkQualifies(a) && a.top - postTop < 150.0
  }

  /** The first link strategy 2 accepts. */
  function FirstLink(links: seq<Anchor>, postTop: real): (r: Option<AuthorFound>)
    ensures r.None? <==> forall i :: 0 <= i < |links| ==> !LinkAccepts(links[i], postTop)
    ensures r.Some? ==> exists i :: && 0 <= i < |links| && LinkAccepts(links[i], postTop)
                                    && r.value == AuthorFound(Trim(links[i].textContent), ProfileUrl(links[i].href))
                                    && forall j :: 0 <= j < i ==> !LinkAccepts(links[j], postTop)
  {
    var k := FirstWhere(links, a => LinkAccepts(a, postTop));
    if k < |links| then Some(AuthorFound(Trim(links[k].textContent), ProfileUrl(links[k].href))) else None
  }

  /** Strategy 2's loop over the post's links, skipping chrome and media links. */
  method AuthorFromLinks(links: seq<Anchor>, postTop: real) returns (found: Option<AuthorFound>)
    ensures found == FirstLink(links, postTop)
    ensures found.Some? ==> found.value.name != [] && |found.value.name| <= 150 && !IsChromeText(found.value.name)
  {
    found := None;
    var i := 0;
    while i < |links|
      invariant 0 <= i <= |links|
      invariant forall j :: 0 <= j < i ==> !LinkAccepts(links[j], postTop)
    {
      var link := links[i];
      if LinkQualifies(link) && link.top - postTop < 150.0 {
        found := Some(AuthorFound(Trim(link.textContent), ProfileUrl(link.href)));
        FirstWhereIs(links, a => LinkAccepts(a, postTop), i);
        return;
      }
      i := i + 1;
    }
  }

  // ---------------------------------------------------------------- clean-up

  /**
   * `s.replace(/\s*·\s*w$/i, '')`: a trailing `w` preceded by a middle dot,
   * with any white space around the dot, is cut off together with that space.
   */
  function StripMarker(s: string, w: string): (r: string)
    ensures r <= s
  {
    if !EndsWithIgnoreCase(s, w) then s
    else
      var p := TrimEnd(s[..|s| - |w|]);
      TrimEndShape(s[..|s| - |w|]);
      if p != [] && p[|p| - 1] == '·' then
        TrimEndShape(p[..|p| - 1]);
        assert TrimEnd(p[..|p| - 1]) <= p[..|p| - 1] <= p <= s;
        TrimEnd(p[..|p| - 1])
      else s
  }

  /** The regular expression `\s*·\s*w$` matches `s` from index `i` on. */
  predicate MarkerMatchesAt(s: string, w: string, i: int) {
    && 0 <= i && |w| <= |s| && EndsWithIgnoreCase(s, w)
    && exists j :: i <= j < |s| - |w| && AllSpace(s[i..j]) && s[j] == '·' && AllSpace(s[j + 1..|s| - |w|])
  }

  /**
   * `StripMarker` replaces the leftmost match of the pattern by nothing:
   * it changes `s` exactly when the pattern matches somewhere, and then
   * keeps the text before the earliest index the pattern matches from.
   */
  lemma StripMarkerIsLeftmostMatch(s: string, w: string)
    ensures StripMarker(s, w) == s <==> forall i :: !MarkerMatchesAt(s, w, i)
    ensures StripMarker(s, w) != s ==>
              && MarkerMatchesAt(s, w, |StripMarker(s, w)|)
              && forall i :: MarkerMatchesAt(s, w, i) ==> |StripMarker(s, w)| <= i
  {
    if EndsWithIgnoreCase(s, w) {
      forall i | MarkerMatchesAt(s, w, i)
        ensures StripMarker(s, w) != s && |StripMarker(s, w)| <= i
      {
        MatchBoundsStrip(s, w, i);
      }
      StripMarkerMatches(s, w);
    }
  }

  /** Where the pattern matches, `StripMarker` cuts at or before the match. */
  lemma MatchBoundsStrip(s: string, w: string, i: int)
    requires MarkerMatchesAt(s, w, i)
    ensures StripMarker(s, w) != s && |StripMarker(s, w)| <= i
  {
    var k := |s| - |w|;
    var j :| i <= j < k && AllSpace(s[i..j]) && s[j] == '·' && AllSpace(s[j + 1..k]);
    DotMatchBoundsStrip(s, w, i, j);
  }

  lemma DotMatchBoundsStrip(s: string, w: string, i: int, j: int)
    requires EndsWithIgnoreCase(s, w) && 0 <= i <= j < |s| - |w|
    requires AllSpace(s[i..j]) && s[j] == '·' && AllSpace(s[j + 1..|s| - |w|])
    ensures StripMarker(s, w) != s && |StripMarker(s, w)| <= i
  {
    var k := |s| - |w|;
    var p := TrimEnd(s[..k]);
    DotIsLastNonSpace(s, j, k);
    assert p[..|p| - 1] == s[..j];
    SpaceRunStart(s, i, j);
  }

  /** When `StripMarker` cuts, the pattern matches from the cut on. */
  lemma StripMarkerMatches(s: string, w: string)
    requires EndsWithIgnoreCase(s, w)
    ensures StripMarker(s, w) != s ==> MarkerMatchesAt(s, w, |StripMarker(s, w)|)
  {
    var k := |s| - |w|;
    var p := TrimEnd(s[..k]);
    TrimEndShape(s[..k]);
    if p != [] && p[|p| - 1] == '·' {
      var j := |p| - 1;
      assert p == s[..|p|];
      assert s[..k][|p|..] == s[j + 1..k];
      var q := TrimEnd(p[..j]);
      TrimEndShape(p[..j]);
      assert p[..j] == s[..j];
      assert s[..j][|q|..] == s[|q|..j];
      assert MarkerMatchesAt(s, w, |q|);
    }
  }

  /** The last non-space character before `k` is the middle dot at `j` when only space follows it. */
  lemma DotIsLastNonSpace(s: string, j: int, k: int)
    requires 0 <= j < k <= |s| && s[j] == '·' && AllSpace(s[j + 1..k])
    ensures TrimEnd(s[..k]) == s[..j + 1]
  {
    assert s[..k] == s[..j + 1] + s[j + 1..k];
    TrimEndDropsSpace(s[..j + 1], s[j + 1..k]);
    TrimEndKeeps(s[..j + 1]);
  }

  /** Trimming the end of `s[..j]` reaches back at least to where a space run `s[i..j]` starts. */
  lemma SpaceRunStart(s: string, i: int, j: int)
    requires 0 <= i <= j <= |s| && AllSpace(s[i..j])
    ensures |TrimEnd(s[..j])| <= i
  {
    assert s[..j] == s[..i] + s[i..j];
    TrimEndDropsSpace(s[..i], s[i..j]);
  }

  /**
   * The length of a match of `\s+·\s+` at the start of `s` (greedy on both
   * sides), or 0 when there is none.
   */
  function DotRun(s: string): (n: nat)
    ensures n == 0 || 3 <= n <= |s|
  {
    var w := |s| - |TrimStart(s)|;
    if w == 0 || w >= |s| || s[w] != '·' then 0
    else
      var rest := s[w + 1..];
      var v := |rest| - |TrimStart(rest)|;
      if v == 0 then 0 else w + 1 + v
  }

  /** `s.replace(/\s+·\s+/g, ' : ')`: a left-to-right scan replacing each match. */
  function ReplaceDots(s: string): (r: string)
    ensures |r| <= |s|
    decreases |s|
  {
    if s == [] then []
    else
      var n := DotRun(s);
      if n > 0 then " : " + ReplaceDots(s[n..]) else [s[0]] + ReplaceDots(s[1..])
  }

  /** The author clean-up chain: the four suffix strips in source order, the dot replacement, then `trim`. */
  function CleanAuthor(s: string): (r: string)
    ensures Trimmed(r) && |r| <= |s|
  {
    var a := StripMarker(s, "Follow");
    var b := StripMarker(a, "ติดตาม");
    var c := StripMarker(b, "Follow");
    var d := StripMarker(c, "ติดตาม");
    Trim(ReplaceDots(d))
  }

  /**
   * `data.author` and `data.authorProfileUrl`: strategy 2 runs only when
   * strategy 1 found nothing, and the name found is then cleaned.
   */
  function PostAuthor(labelledBy: Option<string>, labels: map<string, Label>,
                      links: seq<Anchor>, postTop: real): (r: Option<AuthorFound>)
    ensures r.None? <==> LabelAuthor(labelledBy, labels).None? && FirstLink(links, postTop).None?
    ensures LabelAuthor(labelledBy, labels).Some? ==>
              r == Some(AuthorFound(CleanAuthor(LabelAuthor(labelledBy, labels).value.name),
                                    LabelAuthor(labelledBy, labels).value.profileUrl))
    ensures LabelAuthor(labelledBy, labels).None? && FirstLink(links, postTop).Some? ==>
              r == Some(AuthorFound(CleanAuthor(FirstLink(links, postTop).value.name),
                                    FirstLink(links, postTop).value.profileUrl))
    ensures r.Some? ==> Trimmed(r.value.name) && '?' !in r.value.profileUrl
  {
    var found := if LabelAuthor(labelledBy, labels).Some? then LabelAuthor(labelledBy, labels) else FirstLink(links, postTop);
    if found.Some? then Some(AuthorFound(CleanAuthor(found.value.name), found.value.profileUrl)) else None
  }

  /** Without a middle dot there is nothing for a marker strip to cut. */
  lemma StripMarkerNoDot(s: string, w: string)
    requires '·' !in s
    ensures StripMarker(s, w) == s
  {
    if EndsWithIgnoreCase(s, w) {
      var p := TrimEnd(s[..|s| - |w|]);
      if p != [] {
        TrimEndShape(s[..|s| - |w|]);
        assert p[|p| - 1] == s[|p| - 1];
      }
    }
  }

  /** Without a middle dot the dot replacement changes nothing. */
  lemma {:induction false} ReplaceDotsNoDot(s: string)
    requires '·' !in s
    ensures ReplaceDots(s) == s
    decreases |s|
  {
    if s != [] {
      var w := |s| - |TrimStart(s)|;
      if w < |s| {
        TrimStartShape(s);
        assert s[w] == TrimStart(s)[0];
      }
      assert DotRun(s) == 0;
      ReplaceDotsNoDot(s[1..]);
    }
  }

  /** A name followed by the "· Follow" button text cleans to the bare name. */
  lemma FollowButtonRemoved(name: string)
    requires Trimmed(name) && '·' !in name
    ensures CleanAuthor(name + " · Follow") == name
    ensures CleanAuthor(name) == name
  {
    FollowStripped(name);
    PlainNameKept(name);
  }

  lemma FollowStripped(name: string)
    requires Trimmed(name)
    ensures StripMarker(name + " · Follow", "Follow") == name
  {
    var s, w := name + " · Follow", "Follow";
    var x := name + " ·";
    assert s == x + " " + w;
    EndsWithSelf(x + " ", w);
    assert s[..|s| - |w|] == x + " ";
    TrimEndDropsSpace(x, " ");
    TrimEndKeeps(x);
    var p := TrimEnd(s[..|s| - |w|]);
    assert p == x;
    assert p[..|p| - 1] == name + " ";
    TrimEndDropsSpace(name, " ");
    TrimEndKeeps(name);
  }

  lemma EndsWithSelf(x: string, w: string)
    ensures EndsWithIgnoreCase(x + w, w)
  {
    assert (x + w)[|x + w| - |w|..] == w;
  }

  /** A trimmed name without a middle dot passes the clean-up steps unchanged. */
  lemma PlainNameKept(name: string)
    requires Trimmed(name) && '·' !in name
    ensures StripMarker(name, "ติดตาม") == name
    ensures StripMarker(name, "Follow") == name
    ensures Trim(ReplaceDots(name)) == name
  {
    StripMarkerNoDot(name, "ติดตาม");
    StripMarkerNoDot(name, "Follow");
    ReplaceDotsNoDot(name);
    TrimmedKeeps(name);
  }

  /** A single ` · ` between two dot-free parts becomes ` : `. */
  lemma {:induction false} DotBecomesColon(a: string, b: string)
    requires '·' !in a && '·' !in b
    requires a == [] || !IsSpace(a[|a| - 1])
    requires b == [] || !IsSpace(b[0])
    ensures ReplaceDots(a + " · " + b) == a + " : " + b
    decreases |a|
  {
    if a == [] {
      ColonAtStart(a, b);
    } else {
      ColonAfterWord(a, b);
      DotBecomesColon(a[1..], b);
      Regroup(a, " : ", b);
    }
  }

  lemma Regroup(a: string, m: string, b: string)
    requires a != []
    ensures [a[0]] + (a[1..] + m + b) == a + m + b
  {
    assert a == [a[0]] + a[1..];
  }

  /** One scan step over the first character of a dot-free word. */
  lemma ColonAfterWord(a: string, b: string)
    requires a != [] && '·' !in a && !IsSpace(a[|a| - 1])
    ensures ReplaceDots(a + " · " + b) == [a[0]] + ReplaceDots(a[1..] + " · " + b)
  {
    var s, t := a + " · " + b, a[1..] + " · " + b;
    assert s == [a[0]] + t && s == a + (" · " + b);
    NoDotRunBeforeWord(a, " · " + b);
    ScanStep(a[0], t);
  }

  lemma ColonAtStart(a: string, b: string)
    requires a == [] && '·' !in b && (b == [] || !IsSpace(b[0]))
    ensures ReplaceDots(a + " · " + b) == a + " : " + b
  {
    assert a + " · " + b == " · " + b;
    assert a + " : " + b == " : " + b;
    LeadingDot(b);
  }

  lemma LeadingDot(b: string)
    requires '·' !in b && (b == [] || !IsSpace(b[0]))
    ensures ReplaceDots(" · " + b) == " : " + b
  {
    var s := " · " + b;
    assert s[1..] == "· " + b;
    TrimStartKeeps(s[1..]);
    assert s[2..] == " " + b;
    TrimStartKeeps(b);
    assert DotRun(s) == 3;
    assert s[3..] == b;
    ReplaceDotsNoDot(b);
  }

  /** Where no match starts, the scan copies one character and moves on. */
  lemma ScanStep(c: char, t: string)
    requires DotRun([c] + t) == 0
    ensures ReplaceDots([c] + t) == [c] + ReplaceDots(t)
  {
    assert ([c] + t)[1..] == t;
  }

  /** A scan position inside a dot-free part ending in a non-space character never starts a match. */
  lemma NoDotRunBeforeWord(a: string, rest: string)
    requires a != [] && '·' !in a && !IsSpace(a[|a| - 1])
    ensures DotRun(a + rest) == 0
  {
    var s := a + rest;
    TrimStartStops(s, |a| - 1);
    var w := |s| - |TrimStart(s)|;
    if 0 < w {
      assert s[w] == a[w];
    }
  }
}
