/** Lists: the stable sort `Enumerable.OrderBy` by an integer key, filtering, counting, and
    replacing or dropping each element. */
module Linq {
  import opened Text

  predicate SortedBy<T>(s: seq<T>, key: T -> int) {
    forall i, j :: 0 <= i < j < |s| ==> key(s[i]) <= key(s[j])
  }

  function OrderBy<T>(s: seq<T>, key: T -> int): (r: seq<T>)
    ensures |r| == |s| && SortedBy(r, key)
    ensures multiset(r) == multiset(s)
  {
    if s == [] then []
    else
      assert s == s[..|s| - 1] + [s[|s| - 1]];
      Insert(OrderBy(s[..|s| - 1], key), s[|s| - 1], key)
  }

  /** Puts x behind the elements whose key is not larger, so that ties keep their order. */
  function Insert<T>(s: seq<T>, x: T, key: T -> int): (r: seq<T>)
    requires SortedBy(s, key)
    ensures |r| == |s| + 1 && SortedBy(r, key)
    ensures key(r[|s|]) == if s == [] || key(s[|s| - 1]) <= key(x) then key(x) else key(s[|s| - 1])
    ensures multiset(r) == multiset(s) + multiset{x}
  {
    if s == [] || key(s[|s| - 1]) <= key(x) then s + [x]
    else
      var r := Insert(s[..|s| - 1], x, key);
      assert s == s[..|s| - 1] + [s[|s| - 1]];
      assert key(r[|s| - 1]) <= key(s[|s| - 1]);
      r + [s[|s| - 1]]
  }

  function Filter<T>(s: seq<T>, p: T -> bool): (r: seq<T>)
    ensures |r| <= |s|
  {
    if s == [] then []
    else Filter(s[..|s| - 1], p) + if p(s[|s| - 1]) then [s[|s| - 1]] else []
  }

  function Count<T>(s: seq<T>, p: T -> bool): nat {
    |Filter(s, p)|
  }

  lemma {:induction false} FilterAppend<T>(s: seq<T>, t: seq<T>, p: T -> bool)
    ensures Filter(s + t, p) == Filter(s, p) + Filter(t, p)
  {
    if t == [] {
      assert s + t == s;
    } else {
      FilterAppend(s, t[..|t| - 1], p);
      assert (s + t)[..|s + t| - 1] == s + t[..|t| - 1];
    }
  }

  lemma FilterSnoc<T>(s: seq<T>, x: T, p: T -> bool)
    ensures Filter(s + [x], p) == Filter(s, p) + if p(x) then [x] else []
  {
    assert (s + [x])[..|s|] == s;
  }

  lemma FilterSkips<T>(s: seq<T>, x: T, p: T -> bool)
    requires !p(x)
    ensures Filter(s + [x], p) == Filter(s, p)
  {
    FilterSnoc(s, x, p);
    assert Filter(s, p) + [] == Filter(s, p);
  }

  lemma InsertSnoc<T>(init: seq<T>, last: T, x: T, key: T -> int)
    requires SortedBy(init, key) && SortedBy(init + [last], key)
    ensures Insert(init + [last], x, key) == if key(last) <= key(x) then init + [last] + [x] else Insert(init, x, key) + [last]
  {
    assert (init + [last])[..|init|] == init;
  }

  lemma InitSorted<T>(s: seq<T>, key: T -> int)
    requires SortedBy(s, key) && s != []
    ensures s == s[..|s| - 1] + [s[|s| - 1]] && SortedBy(s[..|s| - 1], key)
  {
  }

  lemma {:induction false} InsertSkipped<T>(s: seq<T>, x: T, key: T -> int, p: T -> bool)
    requires SortedBy(s, key) && !p(x)
    ensures Filter(Insert(s, x, key), p) == Filter(s, p)
  {
    if s == [] {
      FilterSkips(s, x, p);
    } else {
      InitSorted(s, key);
      var init, last := s[..|s| - 1], s[|s| - 1];
      InsertSnoc(init, last, x, key);
      if key(last) <= key(x) {
        FilterSkips(s, x, p);
      } else {
        InsertSkipped(init, x, key, p);
        FilterSnoc(Insert(init, x, key), last, p);
        FilterSnoc(init, last, p);
      }
    }
  }

  /** What is inserted comes after all that it is filtered with. */
  lemma {:induction false} InsertKept<T>(s: seq<T>, x: T, key: T -> int, p: T -> bool)
    requires SortedBy(s, key) && p(x)
    requires forall y :: p(y) ==> key(y) == key(x)
    ensures Filter(Insert(s, x, key), p) == Filter(s, p) + [x]
  {
    if s == [] {
      FilterSnoc(s, x, p);
    } else {
      InitSorted(s, key);
      var init, last := s[..|s| - 1], s[|s| - 1];
      InsertSnoc(init, last, x, key);
      if key(last) <= key(x) {
        FilterSnoc(s, x, p);
      } else {
        assert !p(last);
        InsertKept(init, x, key, p);
        FilterSkips(Insert(init, x, key), last, p);
        FilterSkips(init, last, p);
      }
    }
  }

  function HasKey<T>(key: T -> int, k: int): T -> bool {
    x => key(x) == k
  }

  /** The sort is stable: elements with equal keys keep their order. With sortedness this
      determines the result. */
  lemma {:induction false} OrderByStable<T>(s: seq<T>, key: T -> int, k: int)
    ensures Filter(OrderBy(s, key), HasKey(key, k)) == Filter(s, HasKey(key, k))
  {
    if s != [] {
      OrderByStable(s[..|s| - 1], key, k);
      var p := HasKey(key, k);
      var sorted, last := OrderBy(s[..|s| - 1], key), s[|s| - 1];
      if p(last) {
        InsertKept(sorted, last, key, p);
      } else {
        InsertSkipped(sorted, last, key, p);
      }
    }
  }

  lemma {:induction false} OrderByOfSorted<T>(s: seq<T>, key: T -> int)
    requires SortedBy(s, key)
    ensures OrderBy(s, key) == s
  {
    if s != [] {
      OrderByOfSorted(s[..|s| - 1], key);
      assert s == s[..|s| - 1] + [s[|s| - 1]];
    }
  }

  lemma {:induction false} InsertCount<T>(s: seq<T>, x: T, key: T -> int, p: T -> bool)
    requires SortedBy(s, key)
    ensures Count(Insert(s, x, key), p) == Count(s, p) + if p(x) then 1 else 0
  {
    if s == [] || key(s[|s| - 1]) <= key(x) {
      FilterSnoc(s, x, p);
    } else {
      var init, last := s[..|s| - 1], s[|s| - 1];
      InsertCount(init, x, key, p);
      FilterSnoc(Insert(init, x, key), last, p);
    }
  }

  /** Sorting changes no count. */
  lemma {:induction false} OrderByCount<T>(s: seq<T>, key: T -> int, p: T -> bool)
    ensures Count(OrderBy(s, key), p) == Count(s, p)
  {
    if s != [] {
      OrderByCount(s[..|s| - 1], key, p);
      InsertCount(OrderBy(s[..|s| - 1], key), s[|s| - 1], key, p);
    }
  }

  /** The places at which the predicate holds. */
  ghost function Places<T>(s: seq<T>, p: T -> bool): set<nat> {
    set i: nat | i < |s| && p(s[i])
  }

  lemma {:induction false} CountIs<T>(s: seq<T>, p: T -> bool)
    ensures Count(s, p) == |Places(s, p)|
    ensures Count(s, p) > 0 <==> exists i :: 0 <= i < |s| && p(s[i])
  {
    if s != [] {
      var init, n := s[..|s| - 1], |s| - 1;
      CountIs(init, p);
      assert Places(s, p) == Places(init, p) + if p(s[n]) then {n} else {};
      assert forall i :: 0 <= i < |init| ==> init[i] == s[i];
    }
  }

  lemma {:induction false} FilterHas<T>(s: seq<T>, p: T -> bool, x: T)
    ensures x in Filter(s, p) <==> x in s && p(x)
  {
    if s != [] {
      assert s == s[..|s| - 1] + [s[|s| - 1]];
      FilterHas(s[..|s| - 1], p, x);
    }
  }

  lemma {:induction false} FilterEmpty<T>(s: seq<T>, p: T -> bool)
    ensures Filter(s, p) == [] <==> forall i :: 0 <= i < |s| ==> !p(s[i])
  {
    if s != [] {
      var init, last := s[..|s| - 1], s[|s| - 1];
      FilterEmpty(init, p);
      assert Filter(s, p) == [] <==> Filter(init, p) == [] && !p(last);
      assert forall i :: 0 <= i < |init| ==> init[i] == s[i];
    }
  }

  lemma {:induction false} FilterAll<T>(s: seq<T>, p: T -> bool)
    ensures Filter(s, p) == s <==> forall i :: 0 <= i < |s| ==> p(s[i])
  {
    if s != [] {
      var init, last := s[..|s| - 1], s[|s| - 1];
      FilterAll(init, p);
      assert s == init + [last];
      if p(last) {
        SnocSame(init, last, Filter(init, p), Some(last));
      }
    }
  }

  // ----- replacing or dropping each element

  function ToList<T>(x: Option<T>): seq<T> {
    if x.None? then [] else [x.value]
  }

  /** Each element is replaced by what f makes of it, or dropped. */
  function Collect<T>(s: seq<T>, f: T -> Option<T>): (r: seq<T>)
    ensures |r| <= |s|
  {
    if s == [] then [] else Collect(s[..|s| - 1], f) + ToList(f(s[|s| - 1]))
  }

  lemma CollectSnoc<T>(s: seq<T>, x: T, f: T -> Option<T>)
    ensures Collect(s + [x], f) == Collect(s, f) + ToList(f(x))
  {
    assert (s + [x])[..|s|] == s;
  }

  lemma {:induction false} CollectEmpty<T>(s: seq<T>, f: T -> Option<T>)
    ensures Collect(s, f) == [] <==> forall i :: 0 <= i < |s| ==> f(s[i]).None?
  {
    if s != [] {
      var init, last := s[..|s| - 1], s[|s| - 1];
      CollectEmpty(init, f);
      assert Collect(s, f) == [] <==> Collect(init, f) == [] && f(last).None?;
      assert forall i :: 0 <= i < |init| ==> init[i] == s[i];
    }
  }

  lemma ConcatAssociative<T>(a: seq<T>, b: seq<T>, c: seq<T>)
    ensures a + b + c == a + (b + c)
  {
  }

  lemma {:induction false} CollectAppend<T>(s: seq<T>, t: seq<T>, f: T -> Option<T>)
    ensures Collect(s + t, f) == Collect(s, f) + Collect(t, f)
  {
    if t == [] {
      assert s + t == s;
    } else {
      var init, last := t[..|t| - 1], t[|t| - 1];
      CollectAppend(s, init, f);
      ConcatAssociative(s, init, [last]);
      assert t == init + [last];
      CollectSnoc(s + init, last, f);
      CollectSnoc(init, last, f);
      ConcatAssociative(Collect(s, f), Collect(init, f), ToList(f(last)));
    }
  }

  /** Appending at most one element to a shorter list gives the original list only if both
      parts are original. */
  lemma SnocSame<T>(init: seq<T>, last: T, init': seq<T>, last': Option<T>)
    requires |init'| <= |init|
    ensures init' + ToList(last') == init + [last] <==> init' == init && last' == Some(last)
  {
    var whole := init' + ToList(last');
    if whole == init + [last] {
      assert |init'| == |init|;
      assert whole[..|init|] == init' && (init + [last])[..|init|] == init;
      assert whole[|init|] == last;
    }
  }

  ghost predicate Fixed<T>(s: seq<T>, f: T -> Option<T>) {
    forall i :: 0 <= i < |s| ==> f(s[i]) == Some(s[i])
  }

  lemma FixedSnoc<T>(s: seq<T>, x: T, f: T -> Option<T>)
    ensures Fixed(s + [x], f) <==> Fixed(s, f) && f(x) == Some(x)
  {
    var t := s + [x];
    assert t[|s|] == x;
    assert forall i :: 0 <= i < |s| ==> t[i] == s[i];
  }

  /** One more element in a loop over s. */
  lemma CollectStep<T>(s: seq<T>, i: nat, f: T -> Option<T>)
    requires i < |s|
    ensures Collect(s[..i + 1], f) == Collect(s[..i], f) + ToList(f(s[i]))
    ensures Fixed(s[..i + 1], f) <==> Fixed(s[..i], f) && f(s[i]) == Some(s[i])
  {
    assert s[..i + 1] == s[..i] + [s[i]];
    CollectSnoc(s[..i], s[i], f);
    FixedSnoc(s[..i], s[i], f);
  }

  lemma {:induction false} CollectSame<T>(s: seq<T>, f: T -> Option<T>)
    ensures Collect(s, f) == s <==> Fixed(s, f)
  {
    if s != [] {
      var init, last := s[..|s| - 1], s[|s| - 1];
      CollectSame(init, f);
      assert s == init + [last];
      FixedSnoc(init, last, f);
      SnocSame(init, last, Collect(init, f), f(last));
    }
  }

  /** An element may be exchanged for one of which f makes the same. */
  lemma CollectUpdate<T>(s: seq<T>, i: nat, x: T, f: T -> Option<T>)
    requires i < |s| && f(x) == f(s[i])
    ensures Collect(s[i := x], f) == Collect(s, f)
  {
    assert s == (s[..i] + [s[i]]) + s[i + 1..];
    assert s[i := x] == (s[..i] + [x]) + s[i + 1..];
    CollectAppend(s[..i] + [s[i]], s[i + 1..], f);
    CollectAppend(s[..i] + [x], s[i + 1..], f);
    CollectSnoc(s[..i], s[i], f);
    CollectSnoc(s[..i], x, f);
  }

  /** Two passes are one, if they are for each element. */
  lemma {:induction false} CollectTwice<T>(s: seq<T>, f: T -> Option<T>, g: T -> Option<T>, h: T -> Option<T>)
    requires forall i :: 0 <= i < |s| ==> h(s[i]) == if f(s[i]).None? then None else g(f(s[i]).value)
    ensures Collect(Collect(s, f), g) == Collect(s, h)
  {
    if s != [] {
      var init, last := s[..|s| - 1], s[|s| - 1];
      CollectTwice(init, f, g, h);
      if f(last).Some? {
        CollectSnoc(Collect(init, f), f(last).value, g);
      } else {
        assert Collect(init, f) + [] == Collect(init, f);
        assert Collect(init, h) + [] == Collect(init, h);
      }
    }
  }

  /** f leaves nothing of the later elements of t, and of the others nothing or what it leaves
      of the element of s in the same place. */
  ghost predicate Shrinks<T>(s: seq<T>, t: seq<T>, f: T -> Option<T>) {
    && |s| <= |t|
    && (forall i :: 0 <= i < |s| ==> f(t[i]) == None || f(t[i]) == f(s[i]))
    && (forall i :: |s| <= i < |t| ==> f(t[i]) == None)
  }

  ghost predicate Agree<T>(s: seq<T>, t: seq<T>, f: T -> Option<T>)
    requires |s| <= |t|
  {
    forall i :: 0 <= i < |s| ==> f(t[i]) == f(s[i])
  }

  lemma {:induction false} CollectShrinks<T>(s: seq<T>, t: seq<T>, f: T -> Option<T>)
    requires Shrinks(s, t, f)
    ensures |Collect(t, f)| <= |Collect(s, f)|
    ensures Agree(s, t, f) ==> Collect(t, f) == Collect(s, f)
    ensures !Agree(s, t, f) ==> |Collect(t, f)| < |Collect(s, f)|
    decreases |t|
  {
    if |t| > |s| {
      var init := t[..|t| - 1];
      CollectShrinks(s, init, f);
      assert Collect(init, f) + [] == Collect(init, f);
      assert Agree(s, t, f) <==> Agree(s, init, f);
    } else if s != [] {
      var n := |s| - 1;
      CollectShrinks(s[..n], t[..n], f);
      assert Agree(s, t, f) <==> Agree(s[..n], t[..n], f) && f(t[n]) == f(s[n]);
    }
  }

  // ----- lists of lists

  function FlatMap<T, U>(s: seq<T>, g: T -> seq<U>): seq<U> {
    if s == [] then [] else FlatMap(s[..|s| - 1], g) + g(s[|s| - 1])
  }

  lemma FlatMapSnoc<T, U>(s: seq<T>, x: T, g: T -> seq<U>)
    ensures FlatMap(s + [x], g) == FlatMap(s, g) + g(x)
  {
    assert (s + [x])[..|s|] == s;
  }

  /** Filtering what is in the elements is filtering what is in all of them. */
  lemma {:induction false} CollectFilters<T, U>(s: seq<T>, f: T -> Option<T>, g: T -> seq<U>, p: U -> bool)
    requires forall i :: 0 <= i < |s| ==> Filter(g(s[i]), p) == if f(s[i]).None? then [] else g(f(s[i]).value)
    ensures FlatMap(Collect(s, f), g) == Filter(FlatMap(s, g), p)
  {
    if s != [] {
      var init, last := s[..|s| - 1], s[|s| - 1];
      CollectFilters(init, f, g, p);
      FilterAppend(FlatMap(init, g), g(last), p);
      if f(last).Some? {
        FlatMapSnoc(Collect(init, f), f(last).value, g);
      } else {
        assert Collect(init, f) + [] == Collect(init, f);
        assert Filter(FlatMap(init, g), p) + [] == Filter(FlatMap(init, g), p);
      }
    }
  }
}
