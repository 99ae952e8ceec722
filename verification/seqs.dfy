/** Sequence helpers: duplicate-free lists, positional masks, counting,
    order-preserving filtering and first-occurrence de-duplication. */
module Seqs {
  import opened Wrappers


  ghost predicate NoDup<T>(s: seq<T>) {
    forall a, b :: 0 <= a < b < |s| ==> s[a] != s[b]
  }

  /** A duplicate-free sequence holding a single value has at most one element. */
  lemma NoDupConstant<T>(s: seq<T>, x: T)
    requires NoDup(s)
    requires forall j :: 0 <= j < |s| ==> s[j] == x
    ensures |s| <= 1
  {
    NoDupCard(s);
    var vs := set v | v in s;
    assert vs <= {x};
    assert vs == {} || vs == {x} by {
      if x in vs { assert vs == {x}; } else { assert vs == {}; }
    }
  }

  /** A duplicate-free sequence has as many distinct values as elements. */
  lemma {:induction false} NoDupCard<T>(s: seq<T>)
    requires NoDup(s)
    ensures |(set v | v in s)| == |s|
    decreases |s|
  {
    if |s| > 0 {
      var t := s[1..];
      assert NoDup(t) by {
        forall a, b | 0 <= a < b < |t| ensures t[a] != t[b] {
          assert t[a] == s[a + 1] && t[b] == s[b + 1];
        }
      }
      NoDupCard(t);
      assert s[0] !in t by {
        forall j | 0 <= j < |t| ensures t[j] != s[0] {
          assert t[j] == s[j + 1];
        }
      }
      assert (set v | v in s) == {s[0]} + (set v | v in t) by {
        assert s == [s[0]] + t;
      }
    }
  }

  /** `s` is an order-preserving selection of the elements of `t`. */
  ghost predicate IsSubsequence<T>(s: seq<T>, t: seq<T>)
    decreases |t|
  {
    if s == [] then true
    else if t == [] then false
    else if s[0] == t[0] then IsSubsequence(s[1..], t[1..])
    else IsSubsequence(s, t[1..])
  }

  lemma {:induction false} EmptyIsSubsequence<T>(t: seq<T>)
    ensures IsSubsequence([], t)
  {
  }

  /** The positions `i` with `mask[i]` set, in ascending order: what
      `df[mask].index.tolist()` returns on a frame indexed 0..n-1. */
  function Positions(mask: seq<bool>): (r: seq<nat>)
    ensures forall i: nat :: i in r <==> i < |mask| && mask[i]
    ensures forall a, b :: 0 <= a < b < |r| ==> r[a] < r[b]
    ensures |r| <= |mask|
  {
    if mask == [] then []
    else
      var last := |mask| - 1;
      var init := Positions(mask[..last]);
      assert forall j :: 0 <= j < |init| ==> init[j] < last by {
        forall j | 0 <= j < |init| ensures init[j] < last {
          assert init[j] in init;
        }
      }
      if mask[last] then init + [last] else init
  }

  lemma StrictlyIncreasingNoDup(s: seq<nat>)
    requires forall a, b :: 0 <= a < b < |s| ==> s[a] < s[b]
    ensures NoDup(s)
  {
  }

  /** Number of elements of `s` satisfying `p`. */
  function Count<T>(s: seq<T>, p: T -> bool): (r: nat)
    ensures r <= |s|
    ensures r == 0 <==> forall i :: 0 <= i < |s| ==> !p(s[i])
  {
    if s == [] then 0
    else (if p(s[0]) then 1 else 0) + Count(s[1..], p)
  }

  lemma {:induction false} CountComplement<T>(s: seq<T>, p: T -> bool, q: T -> bool)
    requires forall x :: q(x) == !p(x)
    ensures Count(s, p) + Count(s, q) == |s|
  {
    if s != [] {
      CountComplement(s[1..], p, q);
    }
  }

  lemma {:induction false} CountConcat<T>(a: seq<T>, b: seq<T>, p: T -> bool)
    ensures Count(a + b, p) == Count(a, p) + Count(b, p)
  {
    if a == [] {
      assert a + b == b;
    } else {
      assert (a + b)[0] == a[0];
      assert (a + b)[1..] == a[1..] + b;
      CountConcat(a[1..], b, p);
    }
  }

  /** Two predicates that never hold together count at most one per element. */
  lemma {:induction false} CountDisjoint<T>(s: seq<T>, p: T -> bool, q: T -> bool)
    requires forall x :: !(p(x) && q(x))
    ensures Count(s, p) + Count(s, q) <= |s|
  {
    if s != [] {
      CountDisjoint(s[1..], p, q);
    }
  }

  /** The elements of `s` satisfying `p`, in their original order. */
  function Filter<T(!new)>(s: seq<T>, p: T -> bool): (r: seq<T>)
    ensures |r| == Count(s, p)
    ensures forall x :: x in r <==> x in s && p(x)
    ensures multiset(r) <= multiset(s)
    ensures forall x :: multiset(r)[x] == if p(x) then multiset(s)[x] else 0
  {
    if s == [] then []
    else
      var rest := Filter(s[1..], p);
      assert s == [s[0]] + s[1..];
      if p(s[0]) then [s[0]] + rest else rest
  }

  lemma {:induction false} FilterIsSubsequence<T(!new)>(s: seq<T>, p: T -> bool)
    ensures IsSubsequence(Filter(s, p), s)
  {
    if s == [] {
    } else if p(s[0]) {
      FilterIsSubsequence(s[1..], p);
      assert Filter(s, p)[1..] == Filter(s[1..], p);
    } else {
      FilterIsSubsequence(s[1..], p);
      SubsequenceOfTail(Filter(s, p), s);
    }
  }

  lemma {:induction false} SubsequenceOfTail<T>(r: seq<T>, s: seq<T>)
    requires s != []
    requires IsSubsequence(r, s[1..])
    ensures IsSubsequence(r, s)
    decreases |s|, 0
  {
    if r != [] && r[0] == s[0] {
      SubsequenceDropHead(r, s[1..]);
    }
  }

  lemma {:induction false} SubsequenceDropHead<T>(r: seq<T>, s: seq<T>)
    requires r != []
    requires IsSubsequence(r, s)
    ensures IsSubsequence(r[1..], s)
    decreases |s|, 1
  {
    if s == [] {
    } else if r[0] == s[0] {
      SubsequenceOfTail(r[1..], s);
    } else {
      SubsequenceDropHead(r, s[1..]);
      SubsequenceOfTail(r[1..], s);
    }
  }

  /** The defined results of `f` over `s`, in order: a filter and a map in one pass. */
  function Choose<T, U(!new)>(s: seq<T>, f: T -> Option<U>): (r: seq<U>)
    ensures |r| <= |s|
    ensures forall i :: 0 <= i < |s| && f(s[i]).Some? ==> f(s[i]).value in r
    ensures forall y :: y in r ==> exists i :: 0 <= i < |s| && f(s[i]) == Some(y)
  {
    if s == [] then []
    else
      var rest := Choose(s[1..], f);
      assert forall i :: 1 <= i < |s| ==> s[i] == s[1..][i - 1];
      match f(s[0])
      case Some(y) => [y] + rest
      case None => rest
  }

  /** A property of every chosen value holds of every element of the result. */
  lemma ChooseAll<T, U(!new)>(s: seq<T>, f: T -> Option<U>, P: U -> bool)
    requires forall i :: 0 <= i < |s| && f(s[i]).Some? ==> P(f(s[i]).value)
    ensures forall k :: 0 <= k < |Choose(s, f)| ==> P(Choose(s, f)[k])
  {
    var r := Choose(s, f);
    forall k | 0 <= k < |r| ensures P(r[k]) {
      assert r[k] in r;
    }
  }

  /** The positions of `s` whose element satisfies `p`, in ascending order. */
  function Where<T>(s: seq<T>, p: T -> bool): (r: seq<nat>)
    ensures |r| == Count(s, p)
    ensures forall i: nat :: i in r <==> i < |s| && p(s[i])
    ensures forall a, b :: 0 <= a < b < |r| ==> r[a] < r[b]
  {
    if s == [] then []
    else
      var rest := Where(s[1..], p);
      WhereStep(s, p, rest);
      (if p(s[0]) then [0] else []) + Shift(rest)
  }

  function Shift(r: seq<nat>): (t: seq<nat>)
    ensures |t| == |r| && forall k :: 0 <= k < |r| ==> t[k] == r[k] + 1
  {
    seq(|r|, k requires 0 <= k < |r| => r[k] + 1)
  }

  lemma WhereStep<T>(s: seq<T>, p: T -> bool, rest: seq<nat>)
    requires s != []
    requires forall i: nat :: i in rest <==> i < |s| - 1 && p(s[1..][i])
    requires forall a, b :: 0 <= a < b < |rest| ==> rest[a] < rest[b]
    ensures var r := (if p(s[0]) then [0] else []) + Shift(rest);
      && (forall i: nat :: i in r <==> i < |s| && p(s[i]))
      && (forall a, b :: 0 <= a < b < |r| ==> r[a] < r[b])
  {
    var t := Shift(rest);
    forall i: nat | i in t ensures 1 <= i < |s| && p(s[i]) {
      var k :| 0 <= k < |t| && t[k] == i;
      assert rest[k] in rest;
      assert s[i] == s[1..][i - 1];
    }
    forall i: nat | 1 <= i < |s| && p(s[i]) ensures i in t {
      assert s[1..][i - 1] == s[i];
      var k :| 0 <= k < |rest| && rest[k] == i - 1;
      assert t[k] == i;
    }
  }

  /** `Choose` lists the values of `f` at exactly the positions where it is
      defined, in the order of `s`. */
  lemma ChooseWhere<T, U(!new)>(s: seq<T>, f: T -> Option<U>, p: T -> bool)
    requires forall x :: p(x) == f(x).Some?
    ensures |Choose(s, f)| == |Where(s, p)|
    ensures forall k :: 0 <= k < |Where(s, p)| ==> Where(s, p)[k] < |s| && f(s[Where(s, p)[k]]) == Some(Choose(s, f)[k])
  {
    ChooseCount(s, f, p);
    forall k | 0 <= k < |Where(s, p)| ensures Where(s, p)[k] < |s| && f(s[Where(s, p)[k]]) == Some(Choose(s, f)[k]) {
      ChooseWhereAt(s, f, p, k);
    }
  }

  lemma {:induction false} ChooseWhereAt<T, U(!new)>(s: seq<T>, f: T -> Option<U>, p: T -> bool, k: nat)
    requires forall x :: p(x) == f(x).Some?
    requires k < |Where(s, p)|
    ensures k < |Choose(s, f)|
    ensures Where(s, p)[k] < |s| && f(s[Where(s, p)[k]]) == Some(Choose(s, f)[k])
    decreases |s|
  {
    if p(s[0]) && k == 0 {
      ChooseWhereHead(s, f, p);
    } else {
      var j := if p(s[0]) then k - 1 else k;
      ChooseWhereShift(s, f, p, k, j);
      ChooseWhereAt(s[1..], f, p, j);
      var i := Where(s[1..], p)[j];
      TailIndex(s, i);
      assert Where(s, p)[k] == i + 1;
      assert f(s[i + 1]) == Some(Choose(s[1..], f)[j]);
    }
  }

  lemma ChooseWhereHead<T, U(!new)>(s: seq<T>, f: T -> Option<U>, p: T -> bool)
    requires s != [] && p(s[0]) == f(s[0]).Some? && p(s[0])
    ensures 0 < |Where(s, p)| && Where(s, p)[0] == 0
    ensures 0 < |Choose(s, f)| && f(s[0]) == Some(Choose(s, f)[0])
  {
    assert Where(s, p)[0] == ([0] + Shift(Where(s[1..], p)))[0];
    assert Choose(s, f)[0] == ([f(s[0]).value] + Choose(s[1..], f))[0];
  }

  lemma TailIndex<T>(s: seq<T>, i: nat)
    requires i < |s| - 1
    ensures s[1..][i] == s[i + 1]
  {}

  /** Past the head, the `k`th chosen position and value are the `j`th of the tail's, shifted. */
  lemma ChooseWhereShift<T, U(!new)>(s: seq<T>, f: T -> Option<U>, p: T -> bool, k: nat, j: nat)
    requires forall x :: p(x) == f(x).Some?
    requires s != [] && k < |Where(s, p)|
    requires j == (if p(s[0]) then k - 1 else k) && (p(s[0]) ==> k > 0)
    ensures j < |Where(s[1..], p)| && j < |Choose(s[1..], f)| && k < |Choose(s, f)|
    ensures Where(s, p)[k] == Where(s[1..], p)[j] + 1 && Choose(s, f)[k] == Choose(s[1..], f)[j]
  {
    WhereShift(s, p, k, j);
    ChooseCount(s[1..], f, p);
    ChooseShift(s, f, f(s[0]).Some?, k, j);
  }

  lemma WhereShift<T>(s: seq<T>, p: T -> bool, k: nat, j: nat)
    requires s != [] && k < |Where(s, p)|
    requires j == (if p(s[0]) then k - 1 else k) && (p(s[0]) ==> k > 0)
    ensures j < |Where(s[1..], p)| && Where(s, p)[k] == Where(s[1..], p)[j] + 1
  {
    var w' := Where(s[1..], p);
    if p(s[0]) {
      assert |Where(s, p)| == 1 + |w'|;
      assert Where(s, p)[k] == Shift(w')[j];
    } else {
      assert |Where(s, p)| == |w'|;
      assert Where(s, p)[k] == Shift(w')[j];
    }
  }

  lemma ChooseShift<T, U(!new)>(s: seq<T>, f: T -> Option<U>, hit: bool, k: nat, j: nat)
    requires s != [] && hit == f(s[0]).Some?
    requires j == (if hit then k - 1 else k) && (hit ==> k > 0) && j < |Choose(s[1..], f)|
    ensures k < |Choose(s, f)| && Choose(s, f)[k] == Choose(s[1..], f)[j]
  {
    var c' := Choose(s[1..], f);
    assert Choose(s, f) == (if hit then [f(s[0]).value] else []) + c';
  }

  /** The first `n` chosen values come from the first `n` positions where `f` is defined. */
  lemma TakeChooseWhere<T, U(!new)>(s: seq<T>, f: T -> Option<U>, p: T -> bool, n: nat)
    requires forall x :: p(x) == f(x).Some?
    ensures |Take(Choose(s, f), n)| == if |Where(s, p)| < n then |Where(s, p)| else n
    ensures forall k :: 0 <= k < |Take(Choose(s, f), n)| ==>
      Where(s, p)[k] < |s| && f(s[Where(s, p)[k]]) == Some(Take(Choose(s, f), n)[k])
  {
    ChooseWhere(s, f, p);
    var r := Take(Choose(s, f), n);
    assert forall k :: 0 <= k < |r| ==> r[k] == Choose(s, f)[k];
  }

  lemma {:induction false} ChooseCount<T, U(!new)>(s: seq<T>, f: T -> Option<U>, p: T -> bool)
    requires forall x :: p(x) == f(x).Some?
    ensures |Choose(s, f)| == Count(s, p)
  {
    if s != [] {
      ChooseCount(s[1..], f, p);
    }
  }

  /** Putting the same head before an insertion keeps what the insertion promised. */
  lemma ConsInsert<T>(h: T, x: T, tail: seq<T>, rest: seq<T>)
    requires multiset(rest) == multiset(tail) + multiset{x}
    requires forall i :: 0 <= i < |rest| ==> rest[i] == x || rest[i] in tail
    ensures multiset([h] + rest) == multiset([h] + tail) + multiset{x}
    ensures forall i :: 0 <= i < |[h] + rest| ==> ([h] + rest)[i] == x || ([h] + rest)[i] in [h] + tail
  {
    var r := [h] + rest;
    forall i | 0 <= i < |r| ensures r[i] == x || r[i] in [h] + tail {
      if i > 0 {
        assert r[i] == rest[i - 1];
      }
    }
  }

  /** The first `n` elements (all of them when there are fewer): Python's `s[:n]`. */
  function Take<T>(s: seq<T>, n: nat): (r: seq<T>)
    ensures |r| == if n < |s| then n else |s|
    ensures r <= s
  {
    if n < |s| then s[..n] else s
  }

  /** Keys of a list of key/value pairs. */
  function Keys<K, V>(xs: seq<(K, V)>): (r: seq<K>)
    ensures |r| == |xs|
    ensures forall i :: 0 <= i < |xs| ==> r[i] == xs[i].0
  {
    seq(|xs|, i requires 0 <= i < |xs| => xs[i].0)
  }

  /** Position of the first pair whose key is `k`. */
  function FirstPos<K(==), V>(xs: seq<(K, V)>, k: K): (p: nat)
    requires k in Keys(xs)
    ensures p < |xs| && xs[p].0 == k
    ensures forall q :: 0 <= q < p ==> xs[q].0 != k
  {
    if xs[0].0 == k then 0
    else
      assert k in Keys(xs[1..]) by {
        var j :| 0 <= j < |xs| && Keys(xs)[j] == k;
        assert Keys(xs[1..])[j - 1] == k;
      }
      1 + FirstPos(xs[1..], k)
  }

  /** Order-preserving de-duplication on keys in which the first occurrence of
      each key (and the value it carries) wins; `seen` holds the keys already
      emitted. This is the `seen`-set loop the anomaly detector runs. */
  function DedupFrom<K(==,!new), V>(xs: seq<(K, V)>, seen: set<K>): (r: seq<(K, V)>)
    ensures NoDup(Keys(r))
    ensures forall k :: k in Keys(r) <==> k in Keys(xs) && k !in seen
    decreases |xs|
  {
    if xs == [] then []
    else
      var k := xs[0].0;
      KeysTail(xs);
      if k in seen then
        DedupFrom(xs[1..], seen)
      else
        var rest := DedupFrom(xs[1..], seen + {k});
        var r := [xs[0]] + rest;
        assert Keys(r) == [k] + Keys(rest);
        r
  }

  /** In the de-duplicated list each key carries the value of its first occurrence. */
  lemma DedupFirstValue<K(!new), V>(xs: seq<(K, V)>, seen: set<K>)
    ensures forall j :: 0 <= j < |DedupFrom(xs, seen)| ==>
      DedupFrom(xs, seen)[j] == xs[FirstPos(xs, DedupFrom(xs, seen)[j].0)]
  {
    forall j | 0 <= j < |DedupFrom(xs, seen)| ensures DedupFrom(xs, seen)[j] == xs[FirstPos(xs, DedupFrom(xs, seen)[j].0)] {
      DedupFirstAt(xs, seen, j);
    }
  }

  lemma {:induction false} DedupFirstAt<K(!new), V>(xs: seq<(K, V)>, seen: set<K>, j: nat)
    requires j < |DedupFrom(xs, seen)|
    ensures DedupFrom(xs, seen)[j].0 in Keys(xs)
    ensures DedupFrom(xs, seen)[j] == xs[FirstPos(xs, DedupFrom(xs, seen)[j].0)]
    decreases |xs|
  {
    var k := xs[0].0;
    if k !in seen && j == 0 {
      KeysTail(xs);
      assert DedupFrom(xs, seen)[0] == xs[0];
      assert FirstPos(xs, k) == 0;
    } else {
      var seen' := if k in seen then seen else seen + {k};
      var i := if k in seen then j else j - 1;
      DedupShift(xs, seen, seen', j, i);
      DedupFirstAt(xs[1..], seen', i);
      TailFirstValue(xs, seen', DedupFrom(xs[1..], seen'), i);
    }
  }

  /** Past an emitted head, the `j`th kept pair is the `i`th kept from the tail. */
  lemma DedupShift<K(!new), V>(xs: seq<(K, V)>, seen: set<K>, seen': set<K>, j: nat, i: nat)
    requires xs != [] && j < |DedupFrom(xs, seen)|
    requires seen' == (if xs[0].0 in seen then seen else seen + {xs[0].0})
    requires i == (if xs[0].0 in seen then j else j - 1) && (xs[0].0 !in seen ==> j > 0)
    ensures i < |DedupFrom(xs[1..], seen')| && DedupFrom(xs, seen)[j] == DedupFrom(xs[1..], seen')[i]
  {
    if xs[0].0 in seen {
      assert DedupFrom(xs, seen) == DedupFrom(xs[1..], seen');
    } else {
      assert DedupFrom(xs, seen) == [xs[0]] + DedupFrom(xs[1..], seen');
    }
  }

  /** A value at its first position in `xs[1..]`, under a key other than
      `xs[0]`'s, is at its first position in `xs` too. */
  lemma TailFirstValue<K(!new), V>(xs: seq<(K, V)>, seen': set<K>, rest: seq<(K, V)>, i: nat)
    requires xs != [] && xs[0].0 in seen' && rest == DedupFrom(xs[1..], seen') && i < |rest|
    requires rest[i].0 in Keys(xs[1..]) && rest[i] == xs[1..][FirstPos(xs[1..], rest[i].0)]
    ensures rest[i].0 in Keys(xs) && rest[i] == xs[FirstPos(xs, rest[i].0)]
  {
    KeyIn(rest, i);
    FirstPosShift(xs, [rest[i].0]);
  }

  /** The keys of `r` occur in `xs`, in the order of their first occurrences there. */
  ghost predicate InFirstOrder<K, V>(xs: seq<(K, V)>, r: seq<(K, V)>) {
    (forall j :: 0 <= j < |r| ==> r[j].0 in Keys(xs)) &&
    forall a, b :: 0 <= a < b < |r| ==> FirstPos(xs, r[a].0) < FirstPos(xs, r[b].0)
  }

  /** Keys of the de-duplicated list appear in the order of their first occurrences. */
  lemma {:induction false} DedupFirstOrder<K(!new), V>(xs: seq<(K, V)>, seen: set<K>)
    ensures InFirstOrder(xs, DedupFrom(xs, seen))
    decreases |xs|
  {
    if xs != [] {
      var k := xs[0].0;
      var seen' := if k in seen then seen else seen + {k};
      var rest := DedupFrom(xs[1..], seen');
      DedupFirstOrder(xs[1..], seen');
      forall j | 0 <= j < |rest| ensures rest[j].0 != k {
        assert Keys(rest)[j] == rest[j].0;
      }
      InFirstOrderCons(xs, rest);
      assert DedupFrom(xs, seen) == if k in seen then rest else [xs[0]] + rest;
    }
  }

  /** Ordering by first occurrence in the tail carries over to the whole
      list, with or without its head in front, when the head's key is new. */
  lemma InFirstOrderCons<K, V>(xs: seq<(K, V)>, rest: seq<(K, V)>)
    requires xs != []
    requires InFirstOrder(xs[1..], rest)
    requires forall j :: 0 <= j < |rest| ==> rest[j].0 != xs[0].0
    ensures InFirstOrder(xs, rest)
    ensures InFirstOrder(xs, [xs[0]] + rest)
  {
    FirstPosAfterHead(xs, rest);
    forall a, b | 0 <= a < b < |rest| ensures FirstPos(xs, rest[a].0) < FirstPos(xs, rest[b].0) {
      assert FirstPos(xs[1..], rest[a].0) < FirstPos(xs[1..], rest[b].0);
    }
    InFirstOrderPrepend(xs, rest);
  }

  /** The head of the list goes first in front of keys found later. */
  lemma InFirstOrderPrepend<K, V>(xs: seq<(K, V)>, rest: seq<(K, V)>)
    requires xs != []
    requires InFirstOrder(xs, rest)
    requires forall j :: 0 <= j < |rest| ==> rest[j].0 != xs[0].0
    ensures InFirstOrder(xs, [xs[0]] + rest)
  {
    var r := [xs[0]] + rest;
    KeysTail(xs);
    assert FirstPos(xs, xs[0].0) == 0;
    forall j | 0 <= j < |r| ensures r[j].0 in Keys(xs) {
      if j > 0 {
        assert r[j] == rest[j - 1];
      }
    }
    forall a, b | 0 <= a < b < |r| ensures FirstPos(xs, r[a].0) < FirstPos(xs, r[b].0) {
      assert r[b] == rest[b - 1];
      if a > 0 {
        assert r[a] == rest[a - 1];
      }
    }
  }

  /** A key of the tail other than the head's is first found one place later in the whole list. */
  lemma FirstPosAfterHead<K, V>(xs: seq<(K, V)>, rest: seq<(K, V)>)
    requires xs != []
    requires forall j :: 0 <= j < |rest| ==> rest[j].0 in Keys(xs[1..]) && rest[j].0 != xs[0].0
    ensures forall j :: 0 <= j < |rest| ==>
      rest[j].0 in Keys(xs) && FirstPos(xs, rest[j].0) == 1 + FirstPos(xs[1..], rest[j].0)
  {
    forall j | 0 <= j < |rest|
      ensures rest[j].0 in Keys(xs) && FirstPos(xs, rest[j].0) == 1 + FirstPos(xs[1..], rest[j].0)
    {
      FirstPosShift(xs, [rest[j].0]);
    }
  }

  lemma KeyIn<K, V>(xs: seq<(K, V)>, j: nat)
    requires j < |xs|
    ensures xs[j].0 in Keys(xs)
  {
    assert Keys(xs)[j] == xs[j].0;
  }

  lemma RestKeysShift<K(!new), V>(xs: seq<(K, V)>, seen': set<K>)
    requires xs != [] && xs[0].0 in seen'
    ensures forall q :: q in Keys(DedupFrom(xs[1..], seen')) ==> q in Keys(xs) && FirstPos(xs, q) == 1 + FirstPos(xs[1..], q)
  {
    FirstPosShift(xs, Keys(DedupFrom(xs[1..], seen')));
  }

  lemma KeysTail<K, V>(xs: seq<(K, V)>)
    requires xs != []
    ensures Keys(xs) == [xs[0].0] + Keys(xs[1..])
    ensures forall k :: k in Keys(xs) <==> k == xs[0].0 || k in Keys(xs[1..])
  {
    assert Keys(xs) == [xs[0].0] + Keys(xs[1..]);
  }

  /** For keys other than the head's, the first position shifts by one. */
  lemma FirstPosShift<K, V>(xs: seq<(K, V)>, ks: seq<K>)
    requires xs != []
    requires forall k :: k in ks ==> k in Keys(xs[1..]) && k != xs[0].0
    ensures forall k :: k in ks ==> k in Keys(xs) && FirstPos(xs, k) == 1 + FirstPos(xs[1..], k)
  {
    KeysTail(xs);
  }

  /** Every key's first occurrence survives de-duplication from an empty `seen` set. */
  lemma {:induction false} DedupKeepsFirst<K(!new), V>(xs: seq<(K, V)>, k: K)
    requires k in Keys(xs)
    ensures xs[FirstPos(xs, k)] in DedupFrom(xs, {})
  {
    var r := DedupFrom(xs, {});
    assert k in Keys(r);
    var j :| 0 <= j < |r| && Keys(r)[j] == k;
    DedupFirstValue(xs, {});
    assert r[j] == xs[FirstPos(xs, k)];
  }
}
