/** Small facts about sequences and sets that several models need. */
module Sequences {

  function Front<T>(s: seq<T>): seq<T>
    requires s != []
  {
    s[..|s| - 1]
  }

  function Last<T>(s: seq<T>): T
    requires s != []
  {
    s[|s| - 1]
  }

  function Joined<T>(parts: seq<seq<T>>): seq<T> {
    if parts == [] then [] else Joined(Front(parts)) + Last(parts)
  }

  function Elements<T(==)>(s: seq<T>): set<T> {
    set x | x in s
  }

  lemma SeqAssociative<T>(a: seq<T>, b: seq<T>, c: seq<T>)
    ensures (a + b) + c == a + (b + c)
  {
  }

  lemma CountsWith<T>(keys: set<T>, x: T)
    requires x !in keys
    ensures multiset(keys + {x}) == multiset(keys) + multiset{x}
  {
  }

  lemma CountsLess<T>(keys: set<T>, x: T)
    ensures multiset(keys)[x := 0] == multiset(keys - {x})
  {
  }
}
