/** The order of stacked things, top first, as kept by the window manager's Stacker and by the X
    server for its windows. */
module Stackers {

  /** An X window's id. */
  type XWindow = nat

  /** s without x. */
  function Without(s: seq<XWindow>, x: XWindow): seq<XWindow> {
    if s == [] then [] else (if s[0] == x then [] else [s[0]]) + Without(s[1..], x)
  }

  lemma {:induction false} WithoutHas(s: seq<XWindow>, x: XWindow, y: XWindow)
    ensures y in Without(s, x) <==> y in s && y != x
  {
    if s != [] {
      WithoutHas(s[1..], x, y);
      assert y in s <==> y == s[0] || y in s[1..];
    }
  }

  /** s without any item of xs. */
  function Minus(s: seq<XWindow>, xs: seq<XWindow>): seq<XWindow> {
    if xs == [] then s else Without(Minus(s, xs[1..]), xs[0])
  }

  lemma {:induction false} MinusHas(s: seq<XWindow>, xs: seq<XWindow>, y: XWindow)
    ensures y in Minus(s, xs) <==> y in s && y !in xs
  {
    if xs != [] {
      MinusHas(s, xs[1..], y);
      WithoutHas(Minus(s, xs[1..]), xs[0], y);
      assert y in xs <==> y == xs[0] || y in xs[1..];
    }
  }

  function IndexOf(s: seq<XWindow>, x: XWindow): (i: nat)
    requires x in s
    ensures i < |s| && s[i] == x && x !in s[..i]
  {
    if s[0] == x then 0 else
      var i := IndexOf(s[1..], x);
      assert s[..i + 1] == [s[0]] + s[1..][..i];
      i + 1
  }

  /** The order after the item x, which is new, is added just above the item other. */
  function InsertedAbove(s: seq<XWindow>, x: XWindow, other: XWindow): seq<XWindow>
    requires other in s
  {
    var i := IndexOf(s, other);
    s[..i] + [x] + s[i..]
  }

  function InsertedBelow(s: seq<XWindow>, x: XWindow, other: XWindow): seq<XWindow>
    requires other in s
  {
    var i := IndexOf(s, other) + 1;
    s[..i] + [x] + s[i..]
  }

  // ----- The Stacker's methods, which ignore impossible requests

  function AddOnTop(s: seq<XWindow>, x: XWindow): seq<XWindow> {
    if x in s then s else [x] + s
  }

  function AddOnBottom(s: seq<XWindow>, x: XWindow): seq<XWindow> {
    if x in s then s else s + [x]
  }

  function AddAbove(s: seq<XWindow>, x: XWindow, other: XWindow): seq<XWindow> {
    if x in s || other !in s then s else InsertedAbove(s, x, other)
  }

  // ----- The X server's restacking of a window that it already has

  function MovedAbove(z: seq<XWindow>, x: XWindow, other: XWindow): seq<XWindow>
    requires other in z && x != other
  {
    WithoutHas(z, x, other);
    InsertedAbove(Without(z, x), x, other)
  }

  function MovedBelow(z: seq<XWindow>, x: XWindow, other: XWindow): seq<XWindow>
    requires other in z && x != other
  {
    WithoutHas(z, x, other);
    InsertedBelow(Without(z, x), x, other)
  }

  // ----- What is known about them

  lemma {:induction false} WithoutConcat(a: seq<XWindow>, b: seq<XWindow>, x: XWindow)
    ensures Without(a + b, x) == Without(a, x) + Without(b, x)
  {
    if a == [] {
      assert a + b == b;
    } else {
      assert (a + b)[1..] == a[1..] + b;
      WithoutConcat(a[1..], b, x);
    }
  }

  lemma {:induction false} WithoutAbsent(s: seq<XWindow>, x: XWindow)
    requires x !in s
    ensures Without(s, x) == s
  {
    if s != [] {
      WithoutAbsent(s[1..], x);
    }
  }

  /** Without a window that is listed once, the others are left as they are. */
  lemma WithoutOnce(s: seq<XWindow>, i: nat)
    requires i < |s| && forall j | 0 <= j < |s| && j != i :: s[j] != s[i]
    ensures Without(s, s[i]) == s[..i] + s[i + 1..]
  {
    hide Without;
    var a, x, b := s[..i], s[i], s[i + 1..];
    assert s == a + [x] + b;
    assert x !in a;
    assert x !in b;
    WithoutConcat(a + [x], b, x);
    WithoutConcat(a, [x], x);
    WithoutAbsent(a, x);
    WithoutAbsent(b, x);
    WithoutOnly(x);
  }

  lemma WithoutOnly(x: XWindow)
    ensures Without([x], x) == []
  {
    assert [x][1..] == [];
  }

  lemma WithoutSplit(a: seq<XWindow>, m: seq<XWindow>, b: seq<XWindow>, x: XWindow)
    requires x !in m
    ensures Without(a + m + b, x) == Without(a, x) + m + Without(b, x)
  {
    WithoutConcat(a + m, b, x);
    WithoutConcat(a, m, x);
    WithoutAbsent(m, x);
  }

  lemma {:induction false} MinusSplit(a: seq<XWindow>, m: XWindow, b: seq<XWindow>, xs: seq<XWindow>)
    requires m !in xs
    ensures Minus(a + [m] + b, xs) == Minus(a, xs) + [m] + Minus(b, xs)
  {
    if xs != [] {
      MinusSplit(a, m, b, xs[1..]);
      WithoutSplit(Minus(a, xs[1..]), [m], Minus(b, xs[1..]), xs[0]);
    }
  }

  lemma {:induction false} MinusConcat(a: seq<XWindow>, b: seq<XWindow>, xs: seq<XWindow>)
    ensures Minus(a + b, xs) == Minus(a, xs) + Minus(b, xs)
  {
    if xs != [] {
      MinusConcat(a, b, xs[1..]);
      WithoutConcat(Minus(a, xs[1..]), Minus(b, xs[1..]), xs[0]);
    }
  }

  lemma MinusOne(s: seq<XWindow>, x: XWindow)
    ensures Minus(s, [x]) == Without(s, x)
  {
    assert [x][1..] == [] && Minus(s, []) == s;
  }

  lemma MinusAll(s: seq<XWindow>, xs: seq<XWindow>)
    requires forall x :: x in s ==> x in xs
    ensures Minus(s, xs) == []
  {
    if Minus(s, xs) != [] {
      MinusHas(s, xs, Minus(s, xs)[0]);
    }
  }

  lemma {:induction false} MinusNone(s: seq<XWindow>, xs: seq<XWindow>)
    requires forall x :: x in xs ==> x !in s
    ensures Minus(s, xs) == s
  {
    if xs != [] {
      MinusNone(s, xs[1..]);
      WithoutAbsent(s, xs[0]);
    }
  }

  lemma {:induction false} IndexOfSplit(a: seq<XWindow>, m: XWindow, b: seq<XWindow>)
    requires m !in a
    ensures IndexOf(a + [m] + b, m) == |a|
  {
    if a != [] {
      assert a[0] in a;
      assert (a + [m] + b)[1..] == a[1..] + [m] + b;
      IndexOfSplit(a[1..], m, b);
    }
  }

  lemma InsertedAboveIs(a: seq<XWindow>, m: XWindow, b: seq<XWindow>, x: XWindow)
    requires m !in a
    ensures InsertedAbove(a + [m] + b, x, m) == a + [x] + [m] + b
    ensures InsertedBelow(a + [m] + b, x, m) == a + [m] + [x] + b
  {
    IndexOfSplit(a, m, b);
  }

  lemma SplitAt(s: seq<XWindow>, x: XWindow)
    requires x in s
    ensures s == s[..IndexOf(s, x)] + [x] + s[IndexOf(s, x) + 1..]
  {
  }

  /** Moving x leaves the order of everything else as it was. */
  lemma MoveKeepsOthers(z: seq<XWindow>, x: XWindow, other: XWindow)
    requires other in z && x != other
    ensures Without(MovedAbove(z, x, other), x) == Without(z, x) == Without(MovedBelow(z, x, other), x)
  {
    var s := Without(z, x);
    WithoutHas(z, x, x);
    WithoutHas(z, x, other);
    InsertKeepsOthers(s, x, IndexOf(s, other));
    InsertKeepsOthers(s, x, IndexOf(s, other) + 1);
  }

  lemma {:induction false} InsertKeepsOthers(s: seq<XWindow>, x: XWindow, i: nat)
    requires x !in s && i <= |s|
    ensures Without(s[..i] + [x] + s[i..], x) == s
  {
    var t := s[..i] + [x] + s[i..];
    if i == 0 {
      assert t[1..] == s;
      WithoutAbsent(s, x);
    } else {
      assert s[0] in s && t[1..] == s[1..][..i - 1] + [x] + s[1..][i - 1..];
      InsertKeepsOthers(s[1..], x, i - 1);
    }
  }

  lemma {:induction false} WithoutCounts(s: seq<XWindow>, x: XWindow)
    ensures multiset(Without(s, x)) == multiset(s)[x := 0]
  {
    if s != [] {
      WithoutCounts(s[1..], x);
      assert s == [s[0]] + s[1..];
    }
  }

  lemma InsertCounts(s: seq<XWindow>, x: XWindow, i: nat)
    requires i <= |s|
    ensures multiset(s[..i] + [x] + s[i..]) == multiset(s) + multiset{x}
  {
    assert s == s[..i] + s[i..];
  }

  lemma CountsTwice(s: seq<XWindow>, i: nat, j: nat)
    requires i < |s| && j < |s|
    ensures i != j && s[i] == s[j] ==> multiset(s)[s[i]] >= 2
  {
    var lo, hi := if i < j then i else j, if i < j then j else i;
    var top, bottom := s[..hi], s[hi..];
    assert s == top + bottom;
    assert lo < hi ==> s[lo] in top;
    assert s[hi] in bottom;
    assert multiset(s)[s[hi]] == multiset(top)[s[hi]] + multiset(bottom)[s[hi]];
  }

  // ----- Some items above all others

  /** No item of m is below an item that is not in m. */
  ghost predicate OnTop(s: seq<XWindow>, m: set<XWindow>) {
    s == [] || (OnTop(s[1..], m) && (s[0] in m || forall x | x in s[1..] :: x !in m))
  }

  lemma {:induction false} OnTopMeaning(s: seq<XWindow>, m: set<XWindow>, i: nat, j: nat)
    requires OnTop(s, m) && i < j < |s|
    ensures s[j] in m ==> s[i] in m
  {
    if i == 0 {
      assert s[j] in s[1..];
    } else {
      OnTopMeaning(s[1..], m, i - 1, j - 1);
    }
  }

  lemma {:induction false} WithoutOnTop(s: seq<XWindow>, m: set<XWindow>, x: XWindow)
    requires OnTop(s, m)
    ensures OnTop(Without(s, x), m)
  {
    if s != [] {
      WithoutOnTop(s[1..], m, x);
      var rest := Without(s[1..], x);
      assert Without(s, x) == if s[0] == x then rest else [s[0]] + rest;
      assert s[0] != x ==> Without(s, x)[1..] == rest;
      forall y | y in rest
        ensures y in s[1..]
      {
        WithoutHas(s[1..], x, y);
      }
    }
  }

  lemma {:induction false} OnTopSame(s: seq<XWindow>, m: set<XWindow>, n: set<XWindow>)
    requires OnTop(s, m) && forall x | x in s :: x in m <==> x in n
    ensures OnTop(s, n)
  {
    if s != [] {
      OnTopSame(s[1..], m, n);
    }
  }

  /** An item of m may go on top, and one that is not in m below the items of m. */
  lemma {:induction false} InsertOnTop(s: seq<XWindow>, m: set<XWindow>, x: XWindow, i: nat)
    requires OnTop(s, m) && i <= |s|
    requires if x in m then i == 0 else (forall k | 0 <= k < i :: s[k] in m) && (i < |s| ==> s[i] !in m)
    ensures OnTop(s[..i] + [x] + s[i..], m)
  {
    var t := s[..i] + [x] + s[i..];
    if i == 0 {
      assert t[1..] == s;
    } else {
      assert t[1..] == s[1..][..i - 1] + [x] + s[1..][i - 1..];
      InsertOnTop(s[1..], m, x, i - 1);
    }
  }

  // ----- Part of an order

  /** The items of s that are in keep, in their order. */
  function Restrict(s: seq<XWindow>, keep: seq<XWindow>): seq<XWindow> {
    if s == [] then [] else (if s[0] in keep then [s[0]] else []) + Restrict(s[1..], keep)
  }

  lemma {:induction false} RestrictHas(s: seq<XWindow>, keep: seq<XWindow>, y: XWindow)
    ensures y in Restrict(s, keep) <==> y in s && y in keep
  {
    if s != [] {
      RestrictHas(s[1..], keep, y);
      assert y in s <==> y == s[0] || y in s[1..];
    }
  }

  lemma {:induction false} RestrictConcat(a: seq<XWindow>, b: seq<XWindow>, keep: seq<XWindow>)
    ensures Restrict(a + b, keep) == Restrict(a, keep) + Restrict(b, keep)
  {
    if a == [] {
      assert a + b == b;
    } else {
      assert (a + b)[1..] == a[1..] + b;
      RestrictConcat(a[1..], b, keep);
      RestrictFirst(a, keep);
      RestrictFirst(a + b, keep);
      hide Restrict;
      var first := if a[0] in keep then [a[0]] else [];
      assert first + (Restrict(a[1..], keep) + Restrict(b, keep)) == first + Restrict(a[1..], keep) + Restrict(b, keep);
    }
  }

  lemma {:induction false} RestrictAll(s: seq<XWindow>, keep: seq<XWindow>)
    requires forall x :: x in s ==> x in keep
    ensures Restrict(s, keep) == s
  {
    if s != [] {
      assert s[0] in s;
      RestrictAll(s[1..], keep);
    }
  }

  /** Restricting depends only on which items are kept. */
  lemma {:induction false} RestrictSame(s: seq<XWindow>, keep: seq<XWindow>, other: seq<XWindow>)
    requires forall x :: x in s ==> (x in keep <==> x in other)
    ensures Restrict(s, keep) == Restrict(s, other)
  {
    if s != [] {
      RestrictSame(s[1..], keep, other);
    }
  }

  lemma {:induction false} RestrictWithout(s: seq<XWindow>, keep: seq<XWindow>, x: XWindow)
    ensures Restrict(Without(s, x), keep) == Without(Restrict(s, keep), x)
  {
    if s != [] {
      RestrictWithout(s[1..], keep, x);
      var first := if s[0] in keep then [s[0]] else [];
      WithoutConcat(first, Restrict(s[1..], keep), x);
      RestrictConcat(if s[0] == x then [] else [s[0]], Without(s[1..], x), keep);
    }
  }

  lemma {:induction false} RestrictLess(s: seq<XWindow>, keep: seq<XWindow>, x: XWindow)
    ensures Restrict(s, Without(keep, x)) == Without(Restrict(s, keep), x)
  {
    if s != [] {
      RestrictLess(s[1..], keep, x);
      WithoutHas(keep, x, s[0]);
      WithoutConcat(if s[0] in keep then [s[0]] else [], Restrict(s[1..], keep), x);
      hide Restrict;
      RestrictFirst(s, keep);
      RestrictFirst(s, Without(keep, x));
    }
  }

  /** The order of what is kept does not depend on what is not. */
  lemma RestrictOthers(s: seq<XWindow>, keep: seq<XWindow>, x: XWindow)
    requires x !in keep
    ensures Restrict(Without(s, x), keep) == Restrict(s, keep)
  {
    RestrictWithout(s, keep, x);
    RestrictHas(s, keep, x);
    WithoutAbsent(Restrict(s, keep), x);
  }

  lemma {:induction false} RestrictMinus(s: seq<XWindow>, keep: seq<XWindow>, xs: seq<XWindow>)
    requires forall x | x in xs :: x !in keep
    ensures Restrict(Minus(s, xs), keep) == Restrict(s, keep)
  {
    if xs != [] {
      RestrictMinus(s, keep, xs[1..]);
      RestrictOthers(Minus(s, xs[1..]), keep, xs[0]);
    }
  }

  lemma MovedKeepsOthers(z: seq<XWindow>, x: XWindow, other: XWindow, keep: seq<XWindow>)
    requires other in z && x != other && x !in keep
    ensures Restrict(MovedAbove(z, x, other), keep) == Restrict(z, keep) == Restrict(MovedBelow(z, x, other), keep)
  {
    MoveKeepsOthers(z, x, other);
    RestrictOthers(z, keep, x);
    RestrictOthers(MovedAbove(z, x, other), keep, x);
    RestrictOthers(MovedBelow(z, x, other), keep, x);
  }

  lemma RestrictFirst(s: seq<XWindow>, keep: seq<XWindow>)
    requires s != []
    ensures Restrict(s, keep) == (if s[0] in keep then [s[0]] else []) + Restrict(s[1..], keep)
  {
  }

  ghost predicate OnlyAt(s: seq<XWindow>, i: nat)
    requires i < |s|
  {
    forall j | 0 <= j < |s| :: s[j] == s[i] ==> j == i
  }

  /** If z agrees with the order s, and x is put just above s[i] in both, they still agree. */
  lemma InsertAgrees(z: seq<XWindow>, s: seq<XWindow>, x: XWindow, i: nat)
    requires Restrict(z, s) == s && x !in z && x !in s && i < |s|
    requires OnlyAt(s, i)
    ensures s[i] in z
    ensures var t := s[..i] + [x] + s[i..]; Restrict(InsertedAbove(z, x, s[i]), t) == t
  {
    hide *;
    var m := s[i];
    RestrictHas(z, s, m);
    var k := IndexOf(z, m);
    var a, b := z[..k], z[k..];
    assert z == a + b && b[0] == m;
    InsertedAboveAt(z, x, m);
    RestrictConcat(a, b, s);
    RestrictFirst(b, s);
    SplitIsAt(Restrict(a, s), Restrict(b, s), s, i);
    assert x !in a && x !in b;
    RestrictInsertedAt(a, x, b, s, i);
  }

  lemma RestrictInsertedAt(a: seq<XWindow>, x: XWindow, b: seq<XWindow>, s: seq<XWindow>, i: nat)
    requires i <= |s| && x !in a && x !in b
    ensures Restrict(a + [x] + b, s[..i] + [x] + s[i..]) == Restrict(a, s) + [x] + Restrict(b, s)
  {
    KeepOneMore(s, x, i);
    RestrictInserted(a, x, b, s, s[..i] + [x] + s[i..]);
  }

  lemma InsertedAboveAt(z: seq<XWindow>, x: XWindow, m: XWindow)
    requires m in z
    ensures InsertedAbove(z, x, m) == z[..IndexOf(z, m)] + [x] + z[IndexOf(z, m)..]
  {
  }

  lemma SplitIsAt(a: seq<XWindow>, b: seq<XWindow>, s: seq<XWindow>, i: nat)
    requires a + b == s && i < |s| && b != [] && b[0] == s[i]
    requires OnlyAt(s, i)
    ensures a == s[..i] && b == s[i..]
  {
    assert s[|a|] == b[0];
  }

  lemma KeepOneMore(s: seq<XWindow>, x: XWindow, i: nat)
    requires i <= |s|
    ensures forall y :: y in s[..i] + [x] + s[i..] <==> y in s || y == x
  {
    assert s == s[..i] + s[i..];
  }

  lemma RestrictInserted(a: seq<XWindow>, x: XWindow, b: seq<XWindow>, s: seq<XWindow>, t: seq<XWindow>)
    requires x in t
    requires forall y | y in a || y in b :: y in s <==> y in t
    ensures Restrict(a + [x] + b, t) == Restrict(a, s) + [x] + Restrict(b, s)
  {
    RestrictConcat(a + [x], b, t);
    RestrictConcat(a, [x], t);
    RestrictSame(a, s, t);
    RestrictSame(b, s, t);
    assert Restrict([x], t) == [x];
  }

  /** If z agrees with the order s, and x is put somewhere into z and at the bottom of s, they
      still agree exactly if no item of s is below x in z. */
  lemma InsertAtBottomAgrees(a: seq<XWindow>, x: XWindow, b: seq<XWindow>, s: seq<XWindow>)
    requires Restrict(a + b, s) == s && x !in a && x !in b && x !in s
    ensures Restrict(a + [x] + b, s + [x]) == s + [x] <==> forall y | y in b :: y !in s
  {
    RestrictConcat(a, b, s);
    RestrictInserted(a, x, b, s, s + [x]);
    RestrictEmpty(b, s);
    var ra, rb := Restrict(a, s), Restrict(b, s);
    hide *;
    BottomOrNot(ra, rb, s, x);
  }

  lemma BottomOrNot(ra: seq<XWindow>, rb: seq<XWindow>, s: seq<XWindow>, x: XWindow)
    requires ra + rb == s && x !in s
    ensures ra + [x] + rb == s + [x] <==> rb == []
  {
    if rb != [] {
      assert s[|ra|] == rb[0];
      assert (ra + [x] + rb)[|ra|] == x && (s + [x])[|ra|] == rb[0] && rb[0] in s;
    }
  }

  lemma {:induction false} RestrictEmpty(s: seq<XWindow>, keep: seq<XWindow>)
    ensures Restrict(s, keep) == [] <==> forall y | y in s :: y !in keep
  {
    if s != [] {
      RestrictEmpty(s[1..], keep);
      assert s[0] in s;
      assert forall y | y in s :: y == s[0] || y in s[1..];
    }
  }

  /** A block of windows directly above m: x is taken from wherever it is, and put on the block. */
  lemma GrowBlock(a: seq<XWindow>, block: seq<XWindow>, c: seq<XWindow>, x: XWindow)
    requires block != [] && x !in block && block[0] !in a
    ensures var z := a + block + c;
            block[0] in z && MovedAbove(z, x, block[0]) == Without(a, x) + ([x] + block) + Without(c, x)
  {
    var z := a + block + c;
    assert z[|a|] == block[0];
    WithoutSplit(a, block, c, x);
    WithoutHas(a, x, block[0]);
    hide *;
    var rest := block[1..] + Without(c, x);
    Regroup(Without(a, x), block, Without(c, x), x);
    InsertedAboveIs(Without(a, x), block[0], rest, x);
    MovedAboveIs(z, x, block[0]);
  }

  /** The first window of a block directly above or below m. */
  lemma StartBlock(a: seq<XWindow>, m: XWindow, c: seq<XWindow>, x: XWindow)
    requires x != m && m !in a
    ensures var z := a + [m] + c;
            && m in z
            && MovedAbove(z, x, m) == Without(a, x) + [x] + ([m] + Without(c, x))
            && MovedBelow(z, x, m) == (Without(a, x) + [m]) + [x] + Without(c, x)
  {
    var z := a + [m] + c;
    assert z[|a|] == m;
    WithoutSplit(a, [m], c, x);
    WithoutHas(a, x, m);
    MovedAboveIs(z, x, m);
    var before, after := Without(a, x), Without(c, x);
    hide *;
    InsertedAboveIs(before, m, after, x);
    Associate(before, [x], [m], after);
  }

  lemma Associate(a: seq<XWindow>, b: seq<XWindow>, c: seq<XWindow>, d: seq<XWindow>)
    ensures a + b + c + d == a + b + (c + d)
  {
  }

  /** The windows of a block, and those around it. */
  lemma BlockParts(a: seq<XWindow>, block: seq<XWindow>, c: seq<XWindow>)
    requires forall x | x in block :: x !in a && x !in c
    ensures Restrict(a + block + c, block) == block
    ensures Minus(a + block + c, block) == a + c
  {
    RestrictConcat(a + block, c, block);
    RestrictConcat(a, block, block);
    RestrictAll(block, block);
    RestrictEmpty(a, block);
    RestrictEmpty(c, block);
    MinusConcat(a + block, c, block);
    MinusConcat(a, block, block);
    MinusAll(block, block);
    MinusNone(a, block);
    MinusNone(c, block);
  }

  // ----- Windows that are stacked directly above one another

  ghost predicate Contiguous(z: seq<XWindow>, part: seq<XWindow>) {
    exists a, c :: z == a + part + c
  }

  lemma MinusAround(a: seq<XWindow>, part: seq<XWindow>, c: seq<XWindow>, xs: seq<XWindow>)
    requires forall x | x in xs :: x !in part
    ensures Minus(a + part + c, xs) == Minus(a, xs) + part + Minus(c, xs)
  {
    MinusConcat(a + part, c, xs);
    MinusConcat(a, part, xs);
    MinusNone(part, xs);
  }

  /** Collecting a block directly above m does not come between windows that have nothing to do
      with it. */
  lemma BlockKeepsContiguous(a: seq<XWindow>, m: XWindow, c: seq<XWindow>, block: seq<XWindow>, part: seq<XWindow>)
    requires Contiguous(a + [m] + c, part) && m !in part && forall x | x in block :: x !in part
    ensures Contiguous(Minus(a, block) + block + ([m] + Minus(c, block)), part)
  {
    hide *;
    var z, after := a + [m] + c, Minus(a, block) + block + ([m] + Minus(c, block));
    var b, d := ContiguousParts(z, part);
    assert z[|a|] == m;
    if |b| <= |a| < |b| + |part| {
      InPart(b, part, d, |a|);
      assert false;
    } else if |a| < |b| {
      var e := b[|a| + 1..];
      assert c == z[|a| + 1..] == e + part + d;
      MinusAround(e, part, d, block);
      assert after == (Minus(a, block) + block + [m] + Minus(e, block)) + part + Minus(d, block);
      ContiguousIs(Minus(a, block) + block + [m] + Minus(e, block), part, Minus(d, block));
    } else {
      var e := a[|b| + |part|..];
      assert a == z[..|a|] == b + part + e;
      MinusAround(b, part, e, block);
      assert after == Minus(b, block) + part + (Minus(e, block) + block + ([m] + Minus(c, block)));
      ContiguousIs(Minus(b, block), part, Minus(e, block) + block + ([m] + Minus(c, block)));
    }
  }

  /** A window that is moved is directly above, or below, the other. */
  lemma MovedIsNext(z: seq<XWindow>, x: XWindow, other: XWindow)
    requires other in z && x != other
    ensures Contiguous(MovedAbove(z, x, other), [x, other]) && Contiguous(MovedBelow(z, x, other), [other, x])
  {
    hide Contiguous, Without, MovedAbove, MovedBelow;
    MovedAboveIs(z, x, other);
    var s := Without(z, x);
    var a, c := s[..IndexOf(s, other)], s[IndexOf(s, other) + 1..];
    SplitAt(s, other);
    InsertedAboveIs(a, other, c, x);
    ContiguousIs(a, [x, other], c);
    ContiguousIs(a, [other, x], c);
    assert a + [x] + [other] + c == a + [x, other] + c && a + [other] + [x] + c == a + [other, x] + c;
  }

  lemma InPart(b: seq<XWindow>, part: seq<XWindow>, d: seq<XWindow>, i: int)
    requires |b| <= i < |b| + |part|
    ensures (b + part + d)[i] in part
  {
    assert (b + part + d)[i] == part[i - |b|];
  }

  lemma ContiguousParts(z: seq<XWindow>, part: seq<XWindow>) returns (a: seq<XWindow>, c: seq<XWindow>)
    requires Contiguous(z, part)
    ensures z == a + part + c
  {
    a, c :| z == a + part + c;
  }

  lemma ContiguousIs(a: seq<XWindow>, part: seq<XWindow>, c: seq<XWindow>)
    ensures Contiguous(a + part + c, part)
  {
  }

  lemma Regroup(a: seq<XWindow>, block: seq<XWindow>, c: seq<XWindow>, x: XWindow)
    requires block != []
    ensures a + block + c == a + [block[0]] + (block[1..] + c)
    ensures a + ([x] + block) + c == a + [x] + [block[0]] + (block[1..] + c)
  {
    assert block == [block[0]] + block[1..];
  }

  lemma MovedAboveIs(z: seq<XWindow>, x: XWindow, other: XWindow)
    requires other in z && x != other
    ensures other in Without(z, x) && MovedAbove(z, x, other) == InsertedAbove(Without(z, x), x, other)
    ensures MovedBelow(z, x, other) == InsertedBelow(Without(z, x), x, other)
  {
    WithoutHas(z, x, other);
  }

  /** A move changes no more than the order. */
  lemma MovedHas(z: seq<XWindow>, x: XWindow, other: XWindow, y: XWindow)
    requires other in z && x != other
    ensures y in MovedAbove(z, x, other) <==> y in z || y == x
    ensures y in MovedBelow(z, x, other) <==> y in z || y == x
  {
    WithoutHas(z, x, other);
    WithoutHas(z, x, y);
    var s := Without(z, x);
    var i := IndexOf(s, other);
    KeepOneMore(s, x, i);
    KeepOneMore(s, x, i + 1);
    hide Without, IndexOf;
  }
}
