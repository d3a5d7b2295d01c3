/** Python's `list.sort`, comprehensions and `max`/`sum` folds, with the facts
    about them that the other modules rely on. */
module Sorting {
  import opened Models

  ghost predicate TotalPreorder<T(!new)>(leq: (T, T) -> bool) {
    && (forall a, b :: leq(a, b) || leq(b, a))
    && (forall a, b, c :: leq(a, b) && leq(b, c) ==> leq(a, c))
  }

  ghost predicate Sorted<T(!new)>(leq: (T, T) -> bool, s: seq<T>) {
    forall i, j :: 0 <= i < j < |s| ==> leq(s[i], s[j])
  }

  /** Ties are equal. */
  ghost predicate NoTies<T(!new)>(leq: (T, T) -> bool, s: seq<T>) {
    forall i, j :: 0 <= i < |s| && 0 <= j < |s| && leq(s[i], s[j]) && leq(s[j], s[i]) ==> s[i] == s[j]
  }

  lemma Reflexive<T(!new)>(leq: (T, T) -> bool, x: T)
    requires TotalPreorder(leq)
    ensures leq(x, x)
  {
  }

  function Insert<T>(leq: (T, T) -> bool, x: T, s: seq<T>): seq<T> {
    if s == [] then [x]
    else if leq(x, s[0]) then [x] + s
    else [s[0]] + Insert(leq, x, s[1..])
  }

  /** A stable sort: among equal elements the earlier one stays first. */
  function Sort<T>(leq: (T, T) -> bool, s: seq<T>): seq<T> {
    if s == [] then [] else Insert(leq, s[0], Sort(leq, s[1..]))
  }

  function Filter<T>(keep: T -> bool, s: seq<T>): seq<T> {
    if s == [] then []
    else if keep(s[0]) then [s[0]] + Filter(keep, s[1..])
    else Filter(keep, s[1..])
  }

  /** `[f(x) for x in s if f(x) is not None]`. */
  function Collect<T, U>(f: T -> Option<U>, s: seq<T>): seq<U> {
    if s == [] then []
    else match f(s[0])
      case Some(u) => [u] + Collect(f, s[1..])
      case None => Collect(f, s[1..])
  }

  function Sum<T>(f: T -> real, s: seq<T>): real {
    if s == [] then 0.0 else f(s[0]) + Sum(f, s[1..])
  }

  function Count<T>(p: T -> bool, s: seq<T>): nat {
    if s == [] then 0 else (if p(s[0]) then 1 else 0) + Count(p, s[1..])
  }

  /** `s[:n]`. */
  function First<T>(n: nat, s: seq<T>): (r: seq<T>)
    ensures |r| == if |s| <= n then |s| else n
    ensures forall i :: 0 <= i < |r| ==> r[i] == s[i]
  {
    if |s| <= n then s else s[..n]
  }

  /** What is not among the first stands behind them. */
  lemma BeyondFirst<T>(n: nat, s: seq<T>, k: int)
    requires 0 <= k < |s|
    ensures k < n ==> s[k] in First(n, s)
  {
    if k < n {
      assert First(n, s)[k] == s[k];
    }
  }

  /** Taking one element more. */
  lemma TakeStep<T>(s: seq<T>, i: int)
    requires 0 <= i < |s|
    ensures s[..i + 1] == s[..i] + [s[i]]
    ensures s[..i + 1][..i] == s[..i]
  {
  }

  // ---------- sorting ----------

  lemma {:induction false} InsertPermutes<T>(leq: (T, T) -> bool, x: T, s: seq<T>)
    ensures multiset(Insert(leq, x, s)) == multiset(s) + multiset{x}
  {
    if s != [] && !leq(x, s[0]) {
      InsertPermutes(leq, x, s[1..]);
      assert s == [s[0]] + s[1..];
    }
  }

  lemma {:induction false} SortPermutes<T>(leq: (T, T) -> bool, s: seq<T>)
    ensures multiset(Sort(leq, s)) == multiset(s)
    ensures |Sort(leq, s)| == |s|
  {
    if s != [] {
      SortPermutes(leq, s[1..]);
      InsertPermutes(leq, s[0], Sort(leq, s[1..]));
      assert s == [s[0]] + s[1..];
    }
    assert |multiset(Sort(leq, s))| == |multiset(s)|;
  }

  lemma {:induction false} InsertSorted<T(!new)>(leq: (T, T) -> bool, x: T, s: seq<T>)
    requires TotalPreorder(leq) && Sorted(leq, s)
    ensures Sorted(leq, Insert(leq, x, s))
  {
    if s == [] {
    } else if leq(x, s[0]) {
      forall j | 0 <= j < |s| ensures leq(x, s[j]) {
        Reflexive(leq, s[0]);
      }
    } else {
      InsertSorted(leq, x, s[1..]);
      InsertPermutes(leq, x, s[1..]);
      var t := Insert(leq, x, s[1..]);
      forall j | 0 <= j < |t| ensures leq(s[0], t[j]) {
        assert t[j] in multiset(t);
        assert t[j] == x || t[j] in multiset(s[1..]);
        if t[j] in s[1..] {
          var k :| 0 <= k < |s[1..]| && s[1..][k] == t[j];
          assert s[k + 1] == t[j];
        }
      }
    }
  }

  lemma {:induction false} SortSorts<T(!new)>(leq: (T, T) -> bool, s: seq<T>)
    requires TotalPreorder(leq)
    ensures Sorted(leq, Sort(leq, s))
  {
    if s != [] {
      SortSorts(leq, s[1..]);
      InsertSorted(leq, s[0], Sort(leq, s[1..]));
    }
  }

  /** The heads of two sorted arrangements of the same elements are equal. */
  lemma SortedHeads<T(!new)>(leq: (T, T) -> bool, a: seq<T>, b: seq<T>)
    requires a != [] && b != [] && Sorted(leq, a) && Sorted(leq, b) && multiset(a) == multiset(b)
    requires TotalPreorder(leq)
    requires NoTies(leq, a)
    ensures a[0] == b[0]
  {
    assert a[0] in multiset(b) && b[0] in multiset(a);
    HeadLeast(leq, a, b[0]);
    HeadLeast(leq, b, a[0]);
    var j :| 0 <= j < |a| && a[j] == b[0];
    assert leq(a[0], a[j]) && leq(a[j], a[0]);
  }

  lemma HeadLeast<T(!new)>(leq: (T, T) -> bool, s: seq<T>, x: T)
    requires TotalPreorder(leq) && Sorted(leq, s) && x in multiset(s)
    ensures leq(s[0], x)
  {
    var i :| 0 <= i < |s| && s[i] == x;
    Reflexive(leq, x);
  }

  lemma TailMultiset<T>(s: seq<T>)
    requires s != []
    ensures multiset(s[1..]) == multiset(s) - multiset{s[0]}
  {
    assert s == [s[0]] + s[1..];
  }

  /** Only one arrangement of the same elements is sorted, when ties are equal. */
  lemma {:induction false} SortedUnique<T(!new)>(leq: (T, T) -> bool, a: seq<T>, b: seq<T>)
    requires Sorted(leq, a) && Sorted(leq, b) && multiset(a) == multiset(b)
    requires TotalPreorder(leq)
    requires NoTies(leq, a)
    ensures a == b
    decreases |a|
  {
    assert |a| == |b| by { assert |multiset(a)| == |multiset(b)|; }
    if a != [] {
      SortedHeads(leq, a, b);
      TailMultiset(a);
      TailMultiset(b);
      NoTiesTail(leq, a);
      SortedTail(leq, a);
      SortedTail(leq, b);
      SortedUnique(leq, a[1..], b[1..]);
      assert a == [a[0]] + a[1..] && b == [b[0]] + b[1..];
    }
  }

  lemma NoTiesTail<T(!new)>(leq: (T, T) -> bool, s: seq<T>)
    requires s != [] && NoTies(leq, s)
    ensures NoTies(leq, s[1..])
  {
  }

  lemma SortedTail<T(!new)>(leq: (T, T) -> bool, s: seq<T>)
    requires s != [] && Sorted(leq, s)
    ensures Sorted(leq, s[1..])
  {
  }

  lemma NoTiesPermutes<T(!new)>(leq: (T, T) -> bool, a: seq<T>, b: seq<T>)
    requires NoTies(leq, a) && multiset(a) == multiset(b)
    ensures NoTies(leq, b)
  {
    forall i, j | 0 <= i < |b| && 0 <= j < |b| && leq(b[i], b[j]) && leq(b[j], b[i]) ensures b[i] == b[j] {
      assert b[i] in multiset(a) && b[j] in multiset(a);
      var k :| 0 <= k < |a| && a[k] == b[i];
      var m :| 0 <= m < |a| && a[m] == b[j];
    }
  }

  lemma SortPermutationInvariant<T(!new)>(leq: (T, T) -> bool, a: seq<T>, b: seq<T>)
    requires TotalPreorder(leq) && multiset(a) == multiset(b)
    requires NoTies(leq, a)
    ensures Sort(leq, a) == Sort(leq, b)
  {
    SortPermutes(leq, a);
    SortPermutes(leq, b);
    SortSorts(leq, a);
    SortSorts(leq, b);
    NoTiesPermutes(leq, a, Sort(leq, a));
    SortedUnique(leq, Sort(leq, a), Sort(leq, b));
  }

  // ---------- filtering ----------

  lemma {:induction false} FilterAppend<T>(keep: T -> bool, a: seq<T>, b: seq<T>)
    ensures Filter(keep, a + b) == Filter(keep, a) + Filter(keep, b)
  {
    if a == [] {
      assert a + b == b;
    } else {
      FilterAppend(keep, a[1..], b);
      assert (a + b)[1..] == a[1..] + b && (a + b)[0] == a[0];
      var rest, more := Filter(keep, a[1..]), Filter(keep, b);
      assert ([a[0]] + rest) + more == [a[0]] + (rest + more);
    }
  }

  lemma {:induction false} FilterMembers<T>(keep: T -> bool, s: seq<T>)
    ensures forall x :: x in Filter(keep, s) <==> x in s && keep(x)
  {
    if s != [] {
      FilterMembers(keep, s[1..]);
      assert s == [s[0]] + s[1..];
    }
  }

  lemma {:induction false} FilterMultiset<T>(keep: T -> bool, s: seq<T>, x: T)
    ensures multiset(Filter(keep, s))[x] == if keep(x) then multiset(s)[x] else 0
  {
    if s != [] {
      FilterMultiset(keep, s[1..], x);
      assert s == [s[0]] + s[1..];
    }
  }

  lemma {:induction false} FilterBoth<T>(p: T -> bool, q: T -> bool, both: T -> bool, s: seq<T>)
    requires forall x :: x in s ==> (both(x) <==> p(x) && q(x))
    ensures Filter(q, Filter(p, s)) == Filter(both, s)
  {
    if s != [] {
      FilterBoth(p, q, both, s[1..]);
      if p(s[0]) {
        assert ([s[0]] + Filter(p, s[1..]))[1..] == Filter(p, s[1..]);
      }
    }
  }

  lemma FilterPermutes<T(!new)>(keep: T -> bool, a: seq<T>, b: seq<T>)
    requires multiset(a) == multiset(b)
    ensures multiset(Filter(keep, a)) == multiset(Filter(keep, b))
  {
    forall x ensures multiset(Filter(keep, a))[x] == multiset(Filter(keep, b))[x] {
      FilterMultiset(keep, a, x);
      FilterMultiset(keep, b, x);
    }
  }

  lemma {:induction false} FilterInsert<T(!new)>(leq: (T, T) -> bool, keep: T -> bool, x: T, s: seq<T>)
    requires TotalPreorder(leq) && Sorted(leq, s)
    ensures Filter(keep, Insert(leq, x, s)) ==
            if keep(x) then Insert(leq, x, Filter(keep, s)) else Filter(keep, s)
  {
    if s == [] {
    } else if leq(x, s[0]) {
      assert Insert(leq, x, s) == [x] + s;
      assert ([x] + s)[1..] == s;
      if keep(x) && Filter(keep, s) != [] {
        var y := Filter(keep, s)[0];
        FilterMembers(keep, s);
        assert y in s;
        var k :| 0 <= k < |s| && s[k] == y;
        Reflexive(leq, s[0]);
        assert leq(s[0], y) && leq(x, y);
      }
    } else {
      var rest := Insert(leq, x, s[1..]);
      FilterInsert(leq, keep, x, s[1..]);
      assert Insert(leq, x, s) == [s[0]] + rest;
      assert ([s[0]] + rest)[1..] == rest;
      if keep(s[0]) && keep(x) {
        var t := Filter(keep, s[1..]);
        assert Filter(keep, s) == [s[0]] + t;
        assert ([s[0]] + t)[1..] == t;
      } else if keep(x) {
        InsertPastSmaller(leq, keep, x, s);
      }
    }
  }

  lemma InsertPastSmaller<T(!new)>(leq: (T, T) -> bool, keep: T -> bool, x: T, s: seq<T>)
    requires s != [] && !keep(s[0])
    ensures Insert(leq, x, Filter(keep, s)) == Insert(leq, x, Filter(keep, s[1..]))
  {
  }

  /** A stable sort commutes with filtering. */
  lemma {:induction false} FilterSort<T(!new)>(leq: (T, T) -> bool, keep: T -> bool, s: seq<T>)
    requires TotalPreorder(leq)
    ensures Filter(keep, Sort(leq, s)) == Sort(leq, Filter(keep, s))
  {
    if s != [] {
      FilterSort(leq, keep, s[1..]);
      SortSorts(leq, s[1..]);
      FilterInsert(leq, keep, s[0], Sort(leq, s[1..]));
      if keep(s[0]) {
        assert Filter(keep, s) == [s[0]] + Filter(keep, s[1..]);
        assert ([s[0]] + Filter(keep, s[1..]))[1..] == Filter(keep, s[1..]);
      }
    }
  }

  // ---------- first of a stable sort ----------

  /** `s[i]` is least, and strictly less than everything before it. */
  ghost predicate StableLeast<T(!new)>(leq: (T, T) -> bool, s: seq<T>, i: int) {
    && 0 <= i < |s|
    && (forall j :: 0 <= j < |s| ==> leq(s[i], s[j]))
    && (forall j :: 0 <= j < i ==> !leq(s[j], s[i]))
  }

  lemma {:induction false} SortHead<T(!new)>(leq: (T, T) -> bool, s: seq<T>)
    requires TotalPreorder(leq) && s != []
    ensures |Sort(leq, s)| == |s|
    ensures exists i :: StableLeast(leq, s, i) && s[i] == Sort(leq, s)[0]
  {
    SortPermutes(leq, s);
    var rest := s[1..];
    Reflexive(leq, s[0]);
    if rest == [] {
      assert StableLeast(leq, s, 0);
    } else {
      SortPermutes(leq, rest);
      SortHead(leq, rest);
      var i :| StableLeast(leq, rest, i) && rest[i] == Sort(leq, rest)[0];
      LeastWithHead(leq, s, i);
    }
  }

  /** The least element of the tail, against the head. */
  lemma LeastWithHead<T(!new)>(leq: (T, T) -> bool, s: seq<T>, i: int)
    requires TotalPreorder(leq) && s != [] && StableLeast(leq, s[1..], i)
    ensures s[i + 1] == s[1..][i]
    ensures if leq(s[0], s[i + 1]) then StableLeast(leq, s, 0) else StableLeast(leq, s, i + 1)
  {
    Reflexive(leq, s[0]);
    forall j | 1 <= j < |s| ensures s[j] == s[1..][j - 1] && leq(s[i + 1], s[j]) {
      assert leq(s[1..][i], s[1..][j - 1]);
    }
    if !leq(s[0], s[i + 1]) {
      forall j | 0 <= j < i + 1 ensures !leq(s[j], s[i + 1]) {
        assert j > 0 ==> !leq(s[1..][j - 1], s[1..][i]);
      }
    }
  }

  /** `s[i]` is kept, least among the kept, and strictly less than every kept one before it. */
  ghost predicate StableLeastKept<T(!new)>(leq: (T, T) -> bool, keep: T -> bool, s: seq<T>, i: int) {
    && 0 <= i < |s| && keep(s[i])
    && (forall j :: 0 <= j < |s| && keep(s[j]) ==> leq(s[i], s[j]))
    && (forall j :: 0 <= j < i && keep(s[j]) ==> !leq(s[j], s[i]))
  }

  lemma StableLeastOfTail<T(!new)>(leq: (T, T) -> bool, keep: T -> bool, s: seq<T>, i: int)
    requires s != [] && StableLeastKept(leq, keep, s[1..], i)
    requires keep(s[0]) ==> leq(s[1..][i], s[0]) && !leq(s[0], s[1..][i])
    ensures StableLeastKept(leq, keep, s, i + 1)
  {
    forall j | 0 <= j < |s| && keep(s[j])
      ensures leq(s[i + 1], s[j]) && (j < i + 1 ==> !leq(s[j], s[i + 1]))
    {
      if j > 0 {
        assert s[j] == s[1..][j - 1];
      }
    }
  }

  /** Where the stable least kept element stands in the whole list. */
  lemma {:induction false} FilterStableLeast<T(!new)>(leq: (T, T) -> bool, keep: T -> bool, s: seq<T>, c: int)
    requires StableLeast(leq, Filter(keep, s), c)
    ensures exists i :: StableLeastKept(leq, keep, s, i) && s[i] == Filter(keep, s)[c]
  {
    var kept, tail := Filter(keep, s), Filter(keep, s[1..]);
    FilterMembers(keep, s);
    if keep(s[0]) && c == 0 {
      forall j | 0 <= j < |s| && keep(s[j]) ensures leq(s[0], s[j]) {
        assert s[j] in kept;
      }
      assert StableLeastKept(leq, keep, s, 0);
    } else {
      var d := if keep(s[0]) then 1 else 0;
      assert tail == kept[d..];
      assert StableLeast(leq, tail, c - d);
      FilterStableLeast(leq, keep, s[1..], c - d);
      var i :| StableLeastKept(leq, keep, s[1..], i) && s[1..][i] == tail[c - d];
      if keep(s[0]) {
        assert kept[0] == s[0] && leq(kept[c], kept[0]) && !leq(kept[0], kept[c]);
      }
      StableLeastOfTail(leq, keep, s, i);
    }
  }

  // ---------- collecting ----------

  lemma {:induction false} CollectAppend<T, U>(f: T -> Option<U>, a: seq<T>, b: seq<T>)
    ensures Collect(f, a + b) == Collect(f, a) + Collect(f, b)
  {
    if a == [] {
      assert a + b == b;
    } else {
      CollectAppend(f, a[1..], b);
      assert (a + b)[1..] == a[1..] + b && (a + b)[0] == a[0];
      var rest, more := Collect(f, a[1..]), Collect(f, b);
      assert f(a[0]).Some? ==> ([f(a[0]).value] + rest) + more == [f(a[0]).value] + (rest + more);
    }
  }

  lemma CollectStep<T, U>(f: T -> Option<U>, s: seq<T>, i: int)
    requires 0 <= i < |s|
    ensures Collect(f, s[..i + 1]) == Collect(f, s[..i]) + if f(s[i]).Some? then [f(s[i]).value] else []
  {
    assert s[..i + 1] == s[..i] + [s[i]];
    CollectAppend(f, s[..i], [s[i]]);
    assert [s[i]][1..] == [];
  }

  /** Where the stable least element of a collected list came from. */
  ghost predicate StableLeastOf<T(!new), U(!new)>(leq: (U, U) -> bool, f: T -> Option<U>, s: seq<T>, i: int) {
    && 0 <= i < |s| && f(s[i]).Some?
    && (forall j :: 0 <= j < |s| && f(s[j]).Some? ==> leq(f(s[i]).value, f(s[j]).value))
    && (forall j :: 0 <= j < i && f(s[j]).Some? ==> !leq(f(s[j]).value, f(s[i]).value))
  }

  lemma {:induction false} CollectMembers<T(!new), U(!new)>(f: T -> Option<U>, s: seq<T>)
    ensures forall i :: 0 <= i < |s| && f(s[i]).Some? ==> f(s[i]).value in Collect(f, s)
    ensures Collect(f, s) == [] <==> forall i :: 0 <= i < |s| ==> f(s[i]).None?
  {
    if s != [] {
      CollectMembers(f, s[1..]);
      assert forall i :: 1 <= i < |s| ==> s[i] == s[1..][i - 1];
    }
  }

  lemma {:induction false} CollectOrigin<T, U>(f: T -> Option<U>, s: seq<T>, u: U) returns (i: int)
    requires u in Collect(f, s)
    ensures 0 <= i < |s| && f(s[i]) == Some(u)
  {
    if f(s[0]) == Some(u) {
      i := 0;
    } else {
      i := CollectOrigin(f, s[1..], u);
      i := i + 1;
    }
  }

  lemma StableLeastOfRest<T(!new), U(!new)>(leq: (U, U) -> bool, f: T -> Option<U>, s: seq<T>, i: int)
    requires s != [] && StableLeastOf(leq, f, s[1..], i)
    requires f(s[0]).Some? ==>
      leq(f(s[1..][i]).value, f(s[0]).value) && !leq(f(s[0]).value, f(s[1..][i]).value)
    ensures StableLeastOf(leq, f, s, i + 1)
  {
    forall j | 0 <= j < |s| && f(s[j]).Some?
      ensures leq(f(s[i + 1]).value, f(s[j]).value)
      ensures j < i + 1 ==> !leq(f(s[j]).value, f(s[i + 1]).value)
    {
      if j > 0 {
        assert s[j] == s[1..][j - 1];
      }
    }
  }

  lemma {:induction false} CollectStableLeast<T(!new), U(!new)>(
    leq: (U, U) -> bool, f: T -> Option<U>, s: seq<T>, c: int)
    requires StableLeast(leq, Collect(f, s), c)
    ensures exists i :: StableLeastOf(leq, f, s, i) && f(s[i]).value == Collect(f, s)[c]
  {
    var all, tail := Collect(f, s), Collect(f, s[1..]);
    if f(s[0]).Some? && c == 0 {
      CollectMembers(f, s);
      forall j | 0 <= j < |s| && f(s[j]).Some? ensures leq(f(s[0]).value, f(s[j]).value) {
        assert f(s[j]).value in all;
      }
      assert StableLeastOf(leq, f, s, 0);
    } else {
      var d := if f(s[0]).Some? then 1 else 0;
      assert tail == all[d..];
      assert StableLeast(leq, tail, c - d);
      CollectStableLeast(leq, f, s[1..], c - d);
      var i :| StableLeastOf(leq, f, s[1..], i) && f(s[1..][i]).value == tail[c - d];
      if f(s[0]).Some? {
        assert all[0] == f(s[0]).value && leq(all[c], all[0]) && !leq(all[0], all[c]);
      }
      StableLeastOfRest(leq, f, s, i);
    }
  }

  lemma {:induction false} CollectLength<T, U>(f: T -> Option<U>, s: seq<T>)
    ensures |Collect(f, s)| <= |s|
  {
    if s != [] {
      CollectLength(f, s[1..]);
    }
  }

  /** What is collected from a prefix comes first. */
  lemma CollectPrefix<T, U>(f: T -> Option<U>, s: seq<T>, i: int)
    requires 0 <= i <= |s|
    ensures Collect(f, s[..i]) == First(|Collect(f, s[..i])|, Collect(f, s))
  {
    assert s == s[..i] + s[i..];
    CollectAppend(f, s[..i], s[i..]);
  }

  function IsSomeBy<T, U>(f: T -> Option<U>): T -> bool { x => f(x).Some? }

  lemma {:induction false} CollectSkipsNone<T, U>(f: T -> Option<U>, s: seq<T>)
    ensures Collect(f, s) == Collect(f, Filter(IsSomeBy(f), s))
  {
    if s != [] {
      CollectSkipsNone(f, s[1..]);
      if f(s[0]).Some? {
        var rest := Filter(IsSomeBy(f), s[1..]);
        assert ([s[0]] + rest)[1..] == rest;
      }
    }
  }

  lemma {:induction false} CollectTotal<T, U>(f: T -> Option<U>, s: seq<T>)
    requires forall i :: 0 <= i < |s| ==> f(s[i]).Some?
    ensures |Collect(f, s)| == |s|
    ensures forall i :: 0 <= i < |s| ==> Collect(f, s)[i] == f(s[i]).value
  {
    if s != [] {
      CollectTotal(f, s[1..]);
    }
  }

  // ---------- sums and counts ----------

  lemma {:induction false} SumAppend<T>(f: T -> real, a: seq<T>, b: seq<T>)
    ensures Sum(f, a + b) == Sum(f, a) + Sum(f, b)
  {
    if a == [] {
      assert a + b == b;
    } else {
      SumAppend(f, a[1..], b);
      assert (a + b)[1..] == a[1..] + b;
    }
  }

  lemma SumAppendOne<T>(f: T -> real, s: seq<T>, x: T)
    ensures Sum(f, s + [x]) == Sum(f, s) + f(x)
  {
    SumAppend(f, s, [x]);
    assert [x][1..] == [];
  }

  lemma {:induction false} CountAppend<T>(p: T -> bool, a: seq<T>, b: seq<T>)
    ensures Count(p, a + b) == Count(p, a) + Count(p, b)
  {
    if a == [] {
      assert a + b == b;
    } else {
      CountAppend(p, a[1..], b);
      assert (a + b)[1..] == a[1..] + b;
    }
  }

  /** The sequence with element `i` taken out. */
  function Without<T>(s: seq<T>, i: int): (r: seq<T>)
    requires 0 <= i < |s|
    ensures |r| == |s| - 1
    ensures forall k :: 0 <= k < |r| ==> r[k] == s[if k < i then k else k + 1]
    ensures forall x :: x in r ==> x in s
  {
    s[..i] + s[i + 1..]
  }

  lemma SplitAt<T>(s: seq<T>, i: int)
    requires 0 <= i < |s|
    ensures s == s[..i] + [s[i]] + s[i + 1..]
    ensures multiset(s) == multiset(Without(s, i)) + multiset{s[i]}
  {
    assert s == s[..i] + [s[i]] + s[i + 1..];
  }

  lemma SameMembers<T>(a: seq<T>, b: seq<T>)
    requires multiset(a) == multiset(b)
    ensures forall x :: x in a <==> x in b
  {
    assert forall x :: x in a <==> x in multiset(a);
    assert forall x :: x in b <==> x in multiset(b);
  }

  /** Two places of a permuted sequence come from two places of the original. */
  lemma TwoIndices<T>(a: seq<T>, b: seq<T>, i: int, j: int) returns (k: int, m: int)
    requires multiset(a) == multiset(b) && 0 <= i < |b| && 0 <= j < |b| && i != j
    ensures 0 <= k < |a| && 0 <= m < |a| && k != m && a[k] == b[i] && a[m] == b[j]
  {
    assert b[i] in multiset(a) && b[j] in multiset(a);
    k :| 0 <= k < |a| && a[k] == b[i];
    if b[i] == b[j] {
      SplitAt(b, j);
      assert Without(b, j)[if i < j then i else i - 1] == b[i];
      assert multiset(b)[b[i]] >= 2;
      SplitAt(a, k);
      var others := Without(a, k);
      assert b[i] in multiset(others);
      var q :| 0 <= q < |others| && others[q] == b[i];
      m := if q < k then q else q + 1;
    } else {
      m :| 0 <= m < |a| && a[m] == b[j];
    }
  }

  lemma SumSplit<T>(f: T -> real, s: seq<T>, i: int)
    requires 0 <= i < |s|
    ensures Sum(f, s) == f(s[i]) + Sum(f, Without(s, i))
  {
    SplitAt(s, i);
    SumAppend(f, s[..i] + [s[i]], s[i + 1..]);
    SumAppend(f, s[..i], [s[i]]);
    SumAppend(f, s[..i], s[i + 1..]);
    assert [s[i]][1..] == [];
  }

  lemma CountSplit<T>(p: T -> bool, s: seq<T>, i: int)
    requires 0 <= i < |s|
    ensures Count(p, s) == (if p(s[i]) then 1 else 0) + Count(p, Without(s, i))
  {
    SplitAt(s, i);
    CountAppend(p, s[..i] + [s[i]], s[i + 1..]);
    CountAppend(p, s[..i], [s[i]]);
    CountAppend(p, s[..i], s[i + 1..]);
    assert [s[i]][1..] == [];
  }

  lemma {:induction false} SumPermutes<T>(f: T -> real, a: seq<T>, b: seq<T>)
    requires multiset(a) == multiset(b)
    ensures Sum(f, a) == Sum(f, b)
    decreases |a|
  {
    if a == [] {
      assert |multiset(a)| == |multiset(b)|;
    } else {
      var i := MatchHead(a, b);
      SumSplit(f, b, i);
      SumPermutes(f, a[1..], Without(b, i));
    }
  }

  lemma {:induction false} CountPermutes<T>(p: T -> bool, a: seq<T>, b: seq<T>)
    requires multiset(a) == multiset(b)
    ensures Count(p, a) == Count(p, b)
    decreases |a|
  {
    if a == [] {
      assert |multiset(a)| == |multiset(b)|;
    } else {
      var i := MatchHead(a, b);
      CountSplit(p, b, i);
      CountPermutes(p, a[1..], Without(b, i));
    }
  }

  lemma SumUpdate<T>(f: T -> real, s: seq<T>, i: int, x: T)
    requires 0 <= i < |s|
    ensures Sum(f, s[i := x]) == Sum(f, s) - f(s[i]) + f(x)
  {
    SumSplit(f, s, i);
    SumSplit(f, s[i := x], i);
    assert s[i := x][..i] == s[..i] && s[i := x][i + 1..] == s[i + 1..];
  }

  lemma CountUpdate<T>(p: T -> bool, s: seq<T>, i: int, x: T)
    requires 0 <= i < |s|
    ensures Count(p, s[i := x]) == Count(p, s) - (if p(s[i]) then 1 else 0) + (if p(x) then 1 else 0)
  {
    CountSplit(p, s, i);
    CountSplit(p, s[i := x], i);
    assert s[i := x][..i] == s[..i] && s[i := x][i + 1..] == s[i + 1..];
  }

  lemma {:induction false} FilterAll<T>(keep: T -> bool, s: seq<T>)
    requires forall x :: x in s ==> keep(x)
    ensures Filter(keep, s) == s
  {
    if s != [] {
      FilterAll(keep, s[1..]);
    }
  }

  lemma {:induction false} FilterNone<T>(keep: T -> bool, s: seq<T>)
    requires forall x :: x in s ==> !keep(x)
    ensures Filter(keep, s) == []
  {
    if s != [] {
      FilterNone(keep, s[1..]);
    }
  }

  lemma {:induction false} CountMonotone<T>(p: T -> bool, q: T -> bool, s: seq<T>)
    requires forall x :: x in s && p(x) ==> q(x)
    ensures Count(p, s) <= Count(q, s)
  {
    if s != [] {
      CountMonotone(p, q, s[1..]);
    }
  }

  lemma CountAppendOne<T>(p: T -> bool, s: seq<T>, x: T)
    ensures Count(p, s + [x]) == Count(p, s) + if p(x) then 1 else 0
  {
    CountAppend(p, s, [x]);
    assert [x][1..] == [];
  }

  lemma {:induction false} SumBounded<T>(f: T -> real, s: seq<T>, most: real)
    requires forall x :: x in s ==> 0.0 <= f(x) <= most
    ensures 0.0 <= Sum(f, s) <= |s| as real * most
  {
    if s != [] {
      SumBounded(f, s[1..], most);
      assert |s| as real * most == most + (|s| - 1) as real * most;
    }
  }

  lemma {:induction false} CountAll<T>(p: T -> bool, s: seq<T>)
    requires forall x :: x in s ==> p(x)
    ensures Count(p, s) == |s|
  {
    if s != [] {
      CountAll(p, s[1..]);
    }
  }

  lemma {:induction false} CountNone<T>(p: T -> bool, s: seq<T>)
    requires forall x :: x in s ==> !p(x)
    ensures Count(p, s) == 0
  {
    if s != [] {
      CountNone(p, s[1..]);
    }
  }

  /** In a sorted sequence, what comes before everything else is a prefix. */
  lemma {:induction false} CountOfSorted<T(!new)>(leq: (T, T) -> bool, front: T -> bool, s: seq<T>)
    requires Sorted(leq, s) && forall x, y :: leq(x, y) && front(y) ==> front(x)
    ensures forall k :: 0 <= k < |s| ==> (front(s[k]) <==> k < Count(front, s))
  {
    if s != [] {
      CountOfSorted(leq, front, s[1..]);
      if !front(s[0]) {
        forall x | x in s ensures !front(x) {
          var k :| 0 <= k < |s| && s[k] == x;
          assert k > 0 ==> leq(s[0], s[k]);
        }
        CountNone(front, s);
      } else {
        assert forall k :: 1 <= k < |s| ==> s[k] == s[1..][k - 1];
      }
    }
  }

  // ---------- mapping ----------

  function Map<T, U>(f: T -> U, s: seq<T>): (r: seq<U>)
    ensures |r| == |s| && forall i :: 0 <= i < |s| ==> r[i] == f(s[i])
  {
    if s == [] then [] else [f(s[0])] + Map(f, s[1..])
  }

  lemma SameImages<T, U, V>(f: T -> V, s: seq<T>, g: U -> V, t: seq<U>)
    requires |s| == |t| && forall i :: 0 <= i < |s| ==> f(s[i]) == g(t[i])
    ensures Map(f, s) == Map(g, t)
  {
  }

  lemma MapCons<T, U>(f: T -> U, x: T, s: seq<T>)
    ensures Map(f, [x] + s) == [f(x)] + Map(f, s)
    ensures multiset(Map(f, [x] + s)) == multiset{f(x)} + multiset(Map(f, s))
  {
    assert ([x] + s)[1..] == s;
  }

  lemma MappedWithout<T, U>(f: T -> U, s: seq<T>, i: int)
    requires 0 <= i < |s|
    ensures Without(Map(f, s), i) == Map(f, Without(s, i))
  {
    var a, b := Without(Map(f, s), i), Map(f, Without(s, i));
    forall k | 0 <= k < |a| ensures a[k] == b[k] {
      assert Without(s, i)[k] == s[if k < i then k else k + 1];
    }
  }

  lemma MapWithout<T, U>(f: T -> U, s: seq<T>, i: int)
    requires 0 <= i < |s|
    ensures multiset(Map(f, s)) == multiset{f(s[i])} + multiset(Map(f, Without(s, i)))
  {
    MappedWithout(f, s, i);
    SplitAt(Map(f, s), i);
  }

  lemma {:induction false} MapPermutes<T, U>(f: T -> U, a: seq<T>, b: seq<T>)
    requires multiset(a) == multiset(b)
    ensures multiset(Map(f, a)) == multiset(Map(f, b))
    decreases |a|
  {
    if a == [] {
      assert |multiset(a)| == |multiset(b)|;
    } else {
      var i := MatchHead(a, b);
      MapPermutes(f, a[1..], Without(b, i));
      MapWithout(f, b, i);
      MapWithout(f, a, 0);
      assert Without(a, 0) == a[1..];
    }
  }

  /** The head of a permutation, taken out of both sides. */
  lemma MatchHead<T>(a: seq<T>, b: seq<T>) returns (i: int)
    requires a != [] && multiset(a) == multiset(b)
    ensures 0 <= i < |b| && b[i] == a[0] && multiset(a[1..]) == multiset(Without(b, i))
  {
    assert a[0] in multiset(b);
    i :| 0 <= i < |b| && b[i] == a[0];
    SplitAt(b, i);
    TailMultiset(a);
    assert multiset(Without(b, i)) == multiset(b) - multiset{b[i]};
  }

  lemma MapFilterHead<T, U>(f: T -> U, keep: T -> bool, s: seq<T>)
    requires s != []
    ensures multiset(Map(f, Filter(keep, s)))
         == (if keep(s[0]) then multiset{f(s[0])} else multiset{}) + multiset(Map(f, Filter(keep, s[1..])))
  {
    MapCons(f, s[0], Filter(keep, s[1..]));
  }

  /** Keeping what either of two exclusive tests keeps. */
  lemma {:induction false} FilterSplits<T, U>(f: T -> U, either: T -> bool, p: T -> bool, q: T -> bool, s: seq<T>)
    requires forall x :: x in s ==> (either(x) <==> p(x) || q(x)) && !(p(x) && q(x))
    ensures multiset(Map(f, Filter(either, s))) == multiset(Map(f, Filter(p, s))) + multiset(Map(f, Filter(q, s)))
  {
    if s != [] {
      assert s[0] in s;
      FilterSplits(f, either, p, q, s[1..]);
      MapFilterHead(f, either, s);
      MapFilterHead(f, p, s);
      MapFilterHead(f, q, s);
    }
  }
}
