/**
 * Caption extraction in `extractPostData`: a highlighted selection inside
 * the post wins; otherwise the caption is auto-detected in three stages
 * (Facebook's message attributes, then structural `div[dir="auto"]` text,
 * then any substantial `[dir="auto"]` text), and whatever was found is
 * cleaned of "See more" links, trailing ellipses and a leading button word.
 * The DOM is replaced by records: what each selector finds, and for each
 * text element its text, whether it sits in a comments region and how many
 * `div`s it contains.
 */
module Caption {
  import opened Wrappers
  import opened Text
  import opened Search

  /** `window.getSelection()`: its text, and whether the post contains the element holding it. */
  datatype Selection = Selection(text: string, insidePost: bool)

  /**
   * A `div[dir="auto"]` of the post: its `textContent`, whether it has an
   * ancestor whose `aria-label` mentions comments (English or Thai), and the
   * number of `div`s below it.
   */
  datatype TextBlock = TextBlock(textContent: string, inComments: bool, childDivs: nat)

  /** The button words `Like|Comment|Share|ถูกใจ|ความคิดเห็น|แชร์`. */
  const ButtonWords: seq<string> := ["Like", "Comment", "Share", "ถูกใจ", "ความคิดเห็น", "แชร์"]

  /** `likes?|reactions?|comments?|shares?|ถูกใจ|ความคิดเห็น|แชร์`; an optional plural `s` cannot change whether a prefix matches. */
  const CounterWords: seq<string> := ["like", "reaction", "comment", "share", "ถูกใจ", "ความคิดเห็น", "แชร์"]

  /** The English part of `CounterWords`, which the fallback stage checks. */
  const EnglishCounterWords: seq<string> := ["like", "reaction", "comment", "share"]

  /** `See translation|Write a comment|View more comments`. */
  const PromptWords: seq<string> := ["See translation", "Write a comment", "View more comments"]

  const SeeMore: string := "See more"
  const SeeMoreThai: string := "ดูเพิ่มเติม"

  /** The page shows a single post: a post, permalink or photo URL, or exactly one `[role="article"]`. */
  predicate FullPostView(url: string, articleCount: nat) {
    Contains(url, "/posts/") || Contains(url, "/permalink/") || Contains(url, "/photo/") || articleCount == 1
  }

  /** `/^(w1|w2|…)/i`. */
  predicate StartsWithAny(s: string, words: seq<string>) {
    exists k :: 0 <= k < |words| && StartsWithIgnoreCase(s, words[k])
  }

  /** `/^(Like|Comment|Share|ถูกใจ|ความคิดเห็น|แชร์)\s*$/i`: a button word and nothing else. */
  predicate IsButtonText(text: string) {
    exists k :: 0 <= k < |ButtonWords| && StartsWithIgnoreCase(text, ButtonWords[k]) && AllSpace(text[|ButtonWords[k]|..])
  }

  /** `/^\d+\s*(words)/i`: a number, optional white space, then one of `words`. */
  predicate IsCounterText(text: string, words: seq<string>) {
    var d := DigitPrefix(text);
    d != [] && StartsWithAny(TrimStart(text[|d|..]), words)
  }

  // ---------------------------------------------------------------- the three stages

  /** Stage 1: the first selector that finds an element decides, even when its trimmed text is empty. */
  function SelectorCaption(found: seq<Option<string>>): (r: Option<string>)
    ensures r.None? <==> forall i :: 0 <= i < |found| ==> found[i].None?
    ensures r.Some? ==> exists i :: && 0 <= i < |found| && found[i].Some?
                                    && r.value == Trim(found[i].value)
                                    && forall j :: 0 <= j < i ==> found[j].None?
  {
    var k := FirstWhere(found, (o: Option<string>) => o.Some?);
    if k < |found| then Some(Trim(found[k].value)) else None
  }

  /**
   * Stage 2 accepts a text element whose trimmed text is at least 10 (full
   * post view) or 20 (feed) characters long, is not a button, counter or
   * prompt, lies outside the comments, and contains fewer than 8 (full view)
   * or 5 (feed) `div`s.
   */
  predicate StructuralAccepts(b: TextBlock, full: bool) {
    var text := Trim(b.textContent);
    var minLength := if full then 10 else 20;
    var maxNesting := if full then 8 else 5;
    && |text| >= minLength
    && !IsButtonText(text) && !IsCounterText(text, CounterWords) && !StartsWithAny(text, PromptWords)
    && !b.inComments
    && b.childDivs < maxNesting
  }

  function StructuralCaption(blocks: seq<TextBlock>, full: bool): (r: Option<string>)
    ensures r.None? <==> forall i :: 0 <= i < |blocks| ==> !StructuralAccepts(blocks[i], full)
    ensures r.Some? ==> exists i :: && 0 <= i < |blocks| && StructuralAccepts(blocks[i], full)
                                    && r.value == Trim(blocks[i].textContent)
                                    && forall j :: 0 <= j < i ==> !StructuralAccepts(blocks[j], full)
    ensures r.Some? ==> |r.value| >= 10 && Trimmed(r.value)
  {
    var k := FirstWhere(blocks, b => StructuralAccepts(b, full));
    if k < |blocks| then Some(Trim(blocks[k].textContent)) else None
  }

  /** Stage 3 accepts a trimmed text longer than 30 characters that does not start with a button word or an English counter. */
  predicate FallbackAccepts(textContent: string) {
    var text := Trim(textContent);
    |text| > 30 && !StartsWithAny(text, ButtonWords) && !IsCounterText(text, EnglishCounterWords)
  }

  function FallbackCaption(texts: seq<string>): (r: Option<string>)
    ensures r.None? <==> forall i :: 0 <= i < |texts| ==> !FallbackAccepts(texts[i])
    ensures r.Some? ==> exists i :: && 0 <= i < |texts| && FallbackAccepts(texts[i])
                                    && r.value == Trim(texts[i])
                                    && forall j :: 0 <= j < i ==> !FallbackAccepts(texts[j])
    ensures r.Some? ==> |r.value| > 30 && Trimmed(r.value)
  {
    var k := FirstWhere(texts, FallbackAccepts);
    if k < |texts| then Some(Trim(texts[k])) else None
  }

  /**
   * The value of `captionText` before clean-up: each stage runs only while
   * the value so far is falsy, and a stage that finds nothing leaves the
   * value as it was.
   */
  function RawCaption(sel: Selection, full: bool, found: seq<Option<string>>,
                      blocks: seq<TextBlock>, texts: seq<string>): Option<string>
  {
    var selected := Trim(sel.text);
    var c0 := if selected != [] && sel.insidePost then Some(selected) else None;
    if Truthy(c0) then c0
    else
      var p1 := SelectorCaption(found);
      var c1 := if p1.Some? then p1 else c0;
      if Truthy(c1) then c1
      else
        var p2 := StructuralCaption(blocks, full);
        var c2 := if p2.Some? then p2 else c1;
        if Truthy(c2) then c2
        else
          var p3 := FallbackCaption(texts);
          if p3.Some? then p3 else c2
  }

  /** Stage 1's loop over the four selectors. */
  method FindBySelectors(found: seq<Option<string>>) returns (r: Option<string>)
    ensures r == SelectorCaption(found)
  {
    r := None;
    var i := 0;
    while i < |found|
      invariant 0 <= i <= |found|
      invariant forall j :: 0 <= j < i ==> found[j].None?
    {
      if found[i].Some? {
        r := Some(Trim(found[i].value));
        FirstWhereIs(found, (o: Option<string>) => o.Some?, i);
        return;
      }
      i := i + 1;
    }
  }

  /** Stage 2's loop over the post's `div[dir="auto"]` elements. */
  method FindStructural(blocks: seq<TextBlock>, full: bool) returns (r: Option<string>)
    ensures r == StructuralCaption(blocks, full)
  {
    r := None;
    var i := 0;
    while i < |blocks|
      invariant 0 <= i <= |blocks|
      invariant forall j :: 0 <= j < i ==> !StructuralAccepts(blocks[j], full)
    {
      if StructuralAccepts(blocks[i], full) {
        r := Some(Trim(blocks[i].textContent));
        FirstWhereIs(blocks, b => StructuralAccepts(b, full), i);
        return;
      }
      i := i + 1;
    }
  }

  /** Stage 3's loop over all the post's `[dir="auto"]` elements. */
  method FindFallback(texts: seq<string>) returns (r: Option<string>)
    ensures r == FallbackCaption(texts)
  {
    r := None;
    var i := 0;
    while i < |texts|
      invariant 0 <= i <= |texts|
      invariant forall j :: 0 <= j < i ==> !FallbackAccepts(texts[j])
    {
      if FallbackAccepts(texts[i]) {
        r := Some(Trim(texts[i]));
        FirstWhereIs(texts, FallbackAccepts, i);
        return;
      }
      i := i + 1;
    }
  }

  /** The selection check followed by the three stages, each run only while `captionText` is falsy. */
  method SelectCaption(sel: Selection, url: string, articleCount: nat, found: seq<Option<string>>,
                       blocks: seq<TextBlock>, texts: seq<string>) returns (captionText: Option<string>)
    ensures captionText == RawCaption(sel, FullPostView(url, articleCount), found, blocks, texts)
  {
    captionText := None;
    var selected := Trim(sel.text);
    if selected != [] && sel.insidePost {
      captionText := Some(selected);
    }
    if !Truthy(captionText) {
      var full := FullPostView(url, articleCount);
      var p1 := FindBySelectors(found);
      if p1.Some? {
        captionText := p1;
      }
      if !Truthy(captionText) {
        var p2 := FindStructural(blocks, full);
        if p2.Some? {
          captionText := p2;
        }
      }
      if !Truthy(captionText) {
        var p3 := FindFallback(texts);
        if p3.Some? {
          captionText := p3;
        }
      }
    }
  }

  /** A non-empty selection inside the post is the caption, whatever the page holds. */
  lemma SelectionOverrides(sel: Selection, full: bool)
    requires Trim(sel.text) != [] && sel.insidePost
    ensures forall found, blocks, texts :: RawCaption(sel, full, found, blocks, texts) == Some(Trim(sel.text))
  {
  }

  /**
   * Without a selection and without any message element, an auto-detected
   * caption has at least 10 characters: stage 2 demands 10 or 20, stage 3
   * more than 30.
   */
  lemma AutoDetectedIsSubstantial(sel: Selection, full: bool, found: seq<Option<string>>,
                                  blocks: seq<TextBlock>, texts: seq<string>)
    requires !(Trim(sel.text) != [] && sel.insidePost)
    requires forall i :: 0 <= i < |found| ==> found[i].None?
    ensures var c := RawCaption(sel, full, found, blocks, texts);
            c.Some? ==> |c.value| >= 10
  {
    assert SelectorCaption(found).None?;
  }

  // ---------------------------------------------------------------- clean-up

  /**
   * `s` begins with `lead`, then `g` white-space characters, then `p` (case
   * ignored), `p` being one of the two alternatives: a match of
   * `lead\s*(See more|ดูเพิ่มเติม)` of length `|lead| + g + |p|`.
   */
  predicate SeeMoreAt(s: string, lead: string, g: nat, p: string) {
    && (p == SeeMore || p == SeeMoreThai)
    && |lead| + g + |p| <= |s|
    && s[..|lead|] == lead
    && AllSpace(s[|lead|..|lead| + g])
    && StartsWithIgnoreCase(s[|lead| + g..], p)
  }

  /**
   * The length of a match of `lead\s*(See more|ดูเพิ่มเติม)` (case ignored)
   * at the start of `s`, or 0 when there is none.
   */
  function SeeMoreMatch(s: string, lead: string): (n: nat)
    requires lead != []
    ensures n == 0 || |lead| < n <= |s|
  {
    if !(lead <= s) then 0
    else
      var rest := s[|lead|..];
      var t := TrimStart(rest);
      var gap := |rest| - |t|;
      if StartsWithIgnoreCase(t, SeeMore) then |lead| + gap + |SeeMore|
      else if StartsWithIgnoreCase(t, SeeMoreThai) then |lead| + gap + |SeeMoreThai|
      else 0
  }

  /**
   * `SeeMoreMatch` finds exactly the matches there are: it is positive only
   * at a match, and at a match it is that match's length (the alternatives
   * and the white space before them leave no choice).
   */
  lemma SeeMoreMatchExact(s: string, lead: string)
    requires lead != []
    ensures SeeMoreMatch(s, lead) > 0 ==>
              exists g: nat, p :: SeeMoreAt(s, lead, g, p) && SeeMoreMatch(s, lead) == |lead| + g + |p|
    ensures forall g: nat, p :: SeeMoreAt(s, lead, g, p) ==> SeeMoreMatch(s, lead) == |lead| + g + |p|
  {
    if SeeMoreMatch(s, lead) > 0 {
      SeeMoreMatchSound(s, lead);
    }
    forall g: nat, p | SeeMoreAt(s, lead, g, p)
      ensures SeeMoreMatch(s, lead) == |lead| + g + |p|
    {
      SeeMoreAtExact(s, lead, g, p);
    }
  }

  lemma SeeMoreMatchSound(s: string, lead: string)
    requires lead != [] && SeeMoreMatch(s, lead) > 0
    ensures exists g: nat, p :: SeeMoreAt(s, lead, g, p) && SeeMoreMatch(s, lead) == |lead| + g + |p|
  {
    var rest := s[|lead|..];
    TrimStartShape(rest);
    var gap := |rest| - |TrimStart(rest)|;
    if StartsWithIgnoreCase(TrimStart(rest), SeeMore) {
      SeeMoreAtIntro(s, lead, gap, SeeMore);
    } else {
      SeeMoreAtIntro(s, lead, gap, SeeMoreThai);
    }
  }

  /** A match stated on the text after the lead. */
  lemma SeeMoreAtIntro(s: string, lead: string, g: nat, p: string)
    requires lead <= s && g <= |s| - |lead|
    requires p == SeeMore || p == SeeMoreThai
    requires AllSpace(s[|lead|..][..g]) && StartsWithIgnoreCase(s[|lead|..][g..], p)
    ensures SeeMoreAt(s, lead, g, p)
  {
    assert s[|lead|..][..g] == s[|lead|..|lead| + g];
    assert s[|lead|..][g..] == s[|lead| + g..];
  }

  lemma SeeMoreAtExact(s: string, lead: string, g: nat, p: string)
    requires lead != [] && SeeMoreAt(s, lead, g, p)
    ensures SeeMoreMatch(s, lead) == |lead| + g + |p|
  {
    assert lead <= s;
    var rest := s[|lead|..];
    var b := s[|lead| + g..];
    assert rest == s[|lead|..|lead| + g] + b;
    TrimStartDropsSpace(s[|lead|..|lead| + g], b);
    assert Fold(b[0]) == Fold(p[0]);
    TrimStartKeeps(b);
  }

  /** `s.replace(/lead\s*(See more|ดูเพิ่มเติม)/gi, '')`: a left-to-right scan deleting each match. */
  function RemoveSeeMore(s: string, lead: string): (r: string)
    requires lead != []
    ensures |r| <= |s|
    decreases |s|
  {
    if s == [] then []
    else
      var n := SeeMoreMatch(s, lead);
      if n > 0 then RemoveSeeMore(s[n..], lead) else [s[0]] + RemoveSeeMore(s[1..], lead)
  }

  /** `s.replace(/\s*(See more|ดูเพิ่มเติม)\s*$/gi, '')`: a final "See more" and the space around it go. */
  function StripSeeMoreEnd(s: string): (r: string)
    ensures |r| <= |s|
  {
    var e := TrimEnd(s);
    if EndsWithIgnoreCase(e, SeeMore) then TrimEnd(e[..|e| - |SeeMore|])
    else if EndsWithIgnoreCase(e, SeeMoreThai) then TrimEnd(e[..|e| - |SeeMoreThai|])
    else s
  }

  /** `s.replace(/c+$/g, '')`: the trailing run of `c` goes. */
  function StripTrailing(s: string, c: char): (r: string)
    ensures r <= s && (r == [] || r[|r| - 1] != c)
    ensures forall i :: |r| <= i < |s| ==> s[i] == c
  {
    if s != [] && s[|s| - 1] == c then StripTrailing(s[..|s| - 1], c) else s
  }

  /** `s.replace(/\.\.\.+$/g, '')`: a trailing run of at least three dots goes. */
  function StripTrailingDots(s: string): (r: string)
    ensures r <= s
    ensures r != s <==> EndsWith(s, "...")
    ensures r != s ==> (r == [] || r[|r| - 1] != '.') && forall i :: |r| <= i < |s| ==> s[i] == '.'
  {
    var r := StripTrailing(s, '.');
    if |s| - |r| >= 3 then
      assert s[|s| - 3..] == "...";
      r
    else
      assert |s| >= 3 ==> s[|s| - 3..][|r| - |s| + 3 - 1] == s[|r| - 1];
      s
  }

  /** The replacement of `^(Like|Comment|Share|ถูกใจ|ความคิดเห็น|แชร์)\s*` by nothing (flags `gi`): a leading button word and the space after it go. */
  function StripButtonWord(s: string): (r: string)
    ensures |r| <= |s|
  {
    var k := FirstWhere(ButtonWords, w => StartsWithIgnoreCase(s, w));
    if k < |ButtonWords| then TrimStart(s[|ButtonWords[k]|..]) else s
  }

  /** The clean-up steps after the first one, in source order. */
  function CleanAfterEllipsisLink(s: string): (r: string)
    ensures Trimmed(r)
  {
    var b := RemoveSeeMore(s, "...");
    var c := StripSeeMoreEnd(b);
    var d := StripTrailing(c, '…');
    var e := StripTrailingDots(d);
    Trim(StripButtonWord(e))
  }

  /** The whole caption clean-up chain. */
  function CleanCaption(s: string): (r: string)
    ensures Trimmed(r)
  {
    CleanAfterEllipsisLink(RemoveSeeMore(s, "…"))
  }

  /** `data.caption`: the cleaned `captionText`, or `null` when there was none or nothing is left after clean-up. */
  function FinalCaption(captionText: Option<string>): (r: Option<string>)
    ensures r.None? <==> !Truthy(captionText) || CleanCaption(captionText.value) == []
    ensures r.Some? ==> r.value == CleanCaption(captionText.value) && r.value != [] && Trimmed(r.value)
  {
    if Truthy(captionText) then
      var cleaned := CleanCaption(captionText.value);
      if |cleaned| > 0 then Some(cleaned) else None
    else None
  }

  // ---------------------------------------------------------------- clean-up lemmas

  /** A caption the clean-up has nothing to remove from. */
  predicate PlainCaption(s: string) {
    && Trimmed(s)
    && !Contains(s, "…") && !Contains(s, "...")
    && !EndsWithIgnoreCase(s, SeeMore) && !EndsWithIgnoreCase(s, SeeMoreThai)
    && !StartsWithAny(s, ButtonWords)
  }

  /** A plain caption comes through the clean-up unchanged. */
  lemma PlainCaptionKept(s: string)
    requires PlainCaption(s)
    ensures CleanCaption(s) == s
  {
    NoLeadKept(s, "…");
    PlainAfterEllipsisLink(s);
  }

  lemma PlainAfterEllipsisLink(s: string)
    requires PlainCaption(s)
    ensures CleanAfterEllipsisLink(s) == s
  {
    NoLeadKept(s, "...");
    TrimEndKeeps(s);
    assert StripSeeMoreEnd(s) == s;
    ContainsChar(s, '…');
    if s != [] {
      assert s[|s| - 1] in s;
    }
    assert StripTrailing(s, '…') == s;
    NoTrailingDots(s);
    FirstWhereIs(ButtonWords, w => StartsWithIgnoreCase(s, w), |ButtonWords|);
    TrimmedKeeps(s);
  }

  lemma NoTrailingDots(s: string)
    requires !Contains(s, "...")
    ensures StripTrailingDots(s) == s
  {
    var r := StripTrailing(s, '.');
    if |s| - |r| >= 3 {
      var i := |s| - 3;
      assert s[i..][..3] == "...";
      ContainsAt(s, i, "...");
    }
  }

  /** An occurrence at index `i` makes `includes` true. */
  lemma {:induction false} ContainsAt(s: string, i: nat, sub: string)
    requires i <= |s| && sub <= s[i..]
    ensures Contains(s, sub)
    decreases i
  {
    if i > 0 {
      assert s[1..][i - 1..] == s[i..];
      ContainsAt(s[1..], i - 1, sub);
    }
  }

  /** Where `lead` never occurs the scan deletes nothing. */
  lemma {:induction false} NoLeadKept(s: string, lead: string)
    requires lead != [] && !Contains(s, lead)
    ensures RemoveSeeMore(s, lead) == s
    decreases |s|
  {
    if s != [] {
      assert SeeMoreMatch(s, lead) == 0;
      NoLeadKept(s[1..], lead);
    }
  }

  /** Text without the first character of `lead` is copied through by the scan. */
  lemma {:induction false} ScanCopiesPrefix(x: string, y: string, lead: string)
    requires lead != [] && lead[0] !in x
    ensures RemoveSeeMore(x + y, lead) == x + RemoveSeeMore(y, lead)
    decreases |x|
  {
    if x != [] {
      var s := x + y;
      assert s[0] == x[0];
      assert SeeMoreMatch(s, lead) == 0;
      assert s[1..] == x[1..] + y;
      ScanCopiesPrefix(x[1..], y, lead);
      assert x == [x[0]] + x[1..];
    } else {
      assert x + y == y;
    }
  }

  /** `…`, any white space, then a "See more" phrase: the whole is one match. */
  lemma EllipsisLinkMatches(gap: string, p: string)
    requires AllSpace(gap) && (p == SeeMore || p == SeeMoreThai)
    ensures RemoveSeeMore("…" + gap + p, "…") == []
  {
    var y := "…" + gap + p;
    assert y[1..] == gap + p;
    TrimStartDropsSpace(gap, p);
    TrimStartKeeps(p);
    assert SeeMoreMatch(y, "…") == |y|;
    assert y[|y|..] == [];
  }

  /** A plain caption followed by a truncation link (`…`, optional space, "See more" or "ดูเพิ่มเติม") cleans to the caption. */
  lemma SeeMoreLinkRemoved(s: string, gap: string, p: string)
    requires PlainCaption(s) && AllSpace(gap) && (p == SeeMore || p == SeeMoreThai)
    ensures CleanCaption(s + "…" + gap + p) == s
  {
    ContainsChar(s, '…');
    assert s + "…" + gap + p == s + ("…" + gap + p);
    ScanCopiesPrefix(s, "…" + gap + p, "…");
    EllipsisLinkMatches(gap, p);
    assert s + [] == s;
    PlainAfterEllipsisLink(s);
  }
}
