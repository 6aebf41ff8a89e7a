/** "First match wins": the search every `for … break` loop of the extension performs. */
module Search {

  /** The index of the first element of `s` satisfying `p`, or `|s|` when none does. */
  function FirstWhere<T>(s: seq<T>, p: T -> bool): (k: nat)
    ensures k <= |s|
    ensures forall j :: 0 <= j < k ==> !p(s[j])
    ensures k < |s| ==> p(s[k])
  {
    if s == [] then 0
    else if p(s[0]) then 0
    else 1 + FirstWhere(s[1..], p)
  }

  /** The two properties above pin the index down. */
  lemma FirstWhereIs<T>(s: seq<T>, p: T -> bool, i: nat)
    requires i <= |s|
    requires forall j :: 0 <= j < i ==> !p(s[j])
    requires i < |s| ==> p(s[i])
    ensures FirstWhere(s, p) == i
  {
  }
}
