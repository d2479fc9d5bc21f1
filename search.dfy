/** first(where:) over a sequence: the position of the first element satisfying a test. */
module Search {
  import opened Wrappers

  function FirstWhere<T>(s: seq<T>, p: T -> bool): (r: Option<nat>)
    ensures r.Some? ==> r.value < |s|
  {
    if s == [] then None
    else if p(s[0]) then Some(0)
    else match FirstWhere(s[1..], p)
      case Some(k) => Some(k + 1)
      case None => None
  }

  /** FirstWhere finds the first position that satisfies the test, and finds none only when no position does. */
  lemma {:induction false} FirstWhereIsFirst<T>(s: seq<T>, p: T -> bool)
    ensures var r := FirstWhere(s, p);
            && (r.Some? ==> r.value < |s| && p(s[r.value]) && forall j :: 0 <= j < r.value ==> !p(s[j]))
            && (r.None? ==> forall j :: 0 <= j < |s| ==> !p(s[j]))
    decreases |s|
  {
    if s != [] && !p(s[0]) {
      FirstWhereIsFirst(s[1..], p);
      assert forall j :: 1 <= j < |s| ==> s[j] == s[1..][j - 1];
    }
  }

  /** A position that satisfies the test, with none before it, is the one found. */
  lemma FirstWhereFinds<T>(s: seq<T>, p: T -> bool, i: nat)
    requires i < |s| && p(s[i])
    requires forall j :: 0 <= j < i ==> !p(s[j])
    ensures FirstWhere(s, p) == Some(i)
  {
    FirstWhereIsFirst(s, p);
  }
}
