/** How often a number occurs in a list. */
module Counting {

  function Times(s: seq<nat>, j: nat): nat { multiset(s)[j] }

  lemma TimesSnoc(s: seq<nat>, x: nat, j: nat)
    ensures Times(s + [x], j) == Times(s, j) + if x == j then 1 else 0
  {
  }

  lemma TimesHead(s: seq<nat>, j: nat)
    requires s != []
    ensures Times(s[1..], j) == Times(s, j) - if s[0] == j then 1 else 0
  {
    assert s == [s[0]] + s[1..];
  }
}
