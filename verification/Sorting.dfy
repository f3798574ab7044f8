/** The stable library sort the source calls, and the facts its callers rely on. */
module Sorting {
  ghost predicate TotalPreorder<T(!new)>(le: (T, T) -> bool) {
    && (forall x, y :: le(x, y) || le(y, x))
    && (forall x, y, z :: le(x, y) && le(y, z) ==> le(x, z))
  }

  ghost predicate TotalOrder<T(!new)>(le: (T, T) -> bool) {
    && TotalPreorder(le)
    && (forall x, y :: le(x, y) && le(y, x) ==> x == y)
  }

  ghost predicate SortedBy<T>(s: seq<T>, le: (T, T) -> bool) {
    forall i, j :: 0 <= i < j < |s| ==> le(s[i], s[j])
  }

  // An element is placed before the first one it does not exceed, so equal elements keep their order.
  function Insert<T>(x: T, s: seq<T>, le: (T, T) -> bool): seq<T> {
    if s == [] then [x]
    else if le(x, s[0]) then [x] + s
    else [s[0]] + Insert(x, s[1..], le)
  }

  function Sort<T>(s: seq<T>, le: (T, T) -> bool): seq<T> {
    if s == [] then [] else Insert(s[0], Sort(s[1..], le), le)
  }

  lemma {:induction false} InsertKeeps<T>(x: T, s: seq<T>, le: (T, T) -> bool)
    ensures multiset(Insert(x, s, le)) == multiset(s) + multiset{x}
  {
    if s != [] && !le(x, s[0]) {
      InsertKeeps(x, s[1..], le);
      assert s == [s[0]] + s[1..];
    }
  }

  lemma {:induction false} SortKeeps<T>(s: seq<T>, le: (T, T) -> bool)
    ensures multiset(Sort(s, le)) == multiset(s)
  {
    if s != [] {
      SortKeeps(s[1..], le);
      InsertKeeps(s[0], Sort(s[1..], le), le);
      assert s == [s[0]] + s[1..];
    }
  }

  lemma {:induction false} SameElements<T>(s: seq<T>, le: (T, T) -> bool)
    ensures |Sort(s, le)| == |s|
    ensures forall x :: x in Sort(s, le) <==> x in s
  {
    SortKeeps(s, le);
    assert |multiset(Sort(s, le))| == |multiset(s)|;
    forall x ensures x in Sort(s, le) <==> x in s {
      assert x in Sort(s, le) <==> x in multiset(Sort(s, le));
    }
  }

  ghost predicate Distinct<T>(s: seq<T>) {
    forall i, j :: 0 <= i < j < |s| ==> s[i] != s[j]
  }

  lemma {:induction false} OccursOnce<T>(s: seq<T>, x: T)
    requires Distinct(s)
    ensures multiset(s)[x] == if x in s then 1 else 0
  {
    if s != [] {
      var init, last := s[..|s| - 1], s[|s| - 1];
      OccursOnce(init, x);
      assert s == init + [last];
      assert last !in init;
    }
  }

  lemma {:induction false} InsertDistinct<T>(x: T, s: seq<T>, le: (T, T) -> bool)
    requires Distinct(s) && x !in s
    ensures Distinct(Insert(x, s, le))
  {
    if s != [] && !le(x, s[0]) {
      InsertDistinct(x, s[1..], le);
      InsertKeeps(x, s[1..], le);
      var rest := Insert(x, s[1..], le);
      forall k | 0 <= k < |rest| ensures rest[k] != s[0] {
        assert rest[k] in multiset(rest);
      }
    }
  }

  lemma {:induction false} SortDistinct<T>(s: seq<T>, le: (T, T) -> bool)
    requires Distinct(s)
    ensures Distinct(Sort(s, le))
  {
    if s != [] {
      SortDistinct(s[1..], le);
      SameElements(s[1..], le);
      InsertDistinct(s[0], Sort(s[1..], le), le);
    }
  }

  lemma {:induction false} InsertSorts<T(!new)>(x: T, s: seq<T>, le: (T, T) -> bool)
    requires TotalPreorder(le) && SortedBy(s, le)
    ensures SortedBy(Insert(x, s, le), le)
  {
    if s != [] && !le(x, s[0]) {
      var rest := Insert(x, s[1..], le);
      InsertSorts(x, s[1..], le);
      InsertKeeps(x, s[1..], le);
      forall k | 0 <= k < |rest| ensures le(s[0], rest[k]) {
        assert rest[k] in multiset(rest);
        assert rest[k] == x || rest[k] in s[1..];
      }
    } else if s != [] {
      forall j | 0 <= j < |s| ensures le(x, s[j]) {
        if 0 < j {
          assert le(s[0], s[j]);
        }
      }
    }
  }

  lemma {:induction false} SortSorts<T(!new)>(s: seq<T>, le: (T, T) -> bool)
    requires TotalPreorder(le)
    ensures SortedBy(Sort(s, le), le)
  {
    if s != [] {
      SortSorts(s[1..], le);
      InsertSorts(s[0], Sort(s[1..], le), le);
    }
  }

  /** Elements the order does not tell apart are equal. */
  ghost predicate Separates<T(!new)>(le: (T, T) -> bool, s: seq<T>) {
    forall x, y :: x in s && y in s && le(x, y) && le(y, x) ==> x == y
  }

  lemma FirstIsLeast<T(!new)>(s: seq<T>, le: (T, T) -> bool, x: T)
    requires TotalPreorder(le) && SortedBy(s, le) && x in s
    ensures le(s[0], x)
  {
    var k :| 0 <= k < |s| && s[k] == x;
    assert le(s[0], s[0]) && (k == 0 || le(s[0], s[k]));
  }

  lemma WithoutFirst<T>(s: seq<T>)
    requires s != []
    ensures multiset(s[1..]) == multiset(s) - multiset{s[0]}
  {
    assert s == [s[0]] + s[1..];
  }

  lemma RestSorted<T>(s: seq<T>, le: (T, T) -> bool)
    requires s != [] && SortedBy(s, le)
    ensures SortedBy(s[1..], le)
  {
  }

  /** A multiset whose elements the order tells apart has one sorted arrangement. */
  lemma {:induction false} SortedUnique<T(!new)>(s: seq<T>, t: seq<T>, le: (T, T) -> bool)
    requires TotalPreorder(le) && Separates(le, s) && SortedBy(s, le) && SortedBy(t, le)
    requires multiset(s) == multiset(t)
    ensures s == t
  {
    hide TotalPreorder, SortedBy;
    assert |multiset(s)| == |s| && |multiset(t)| == |t|;
    if s != [] {
      assert t[0] in multiset(s) && s[0] in multiset(t);
      FirstIsLeast(s, le, t[0]);
      FirstIsLeast(t, le, s[0]);
      assert s[0] == t[0];
      WithoutFirst(s);
      WithoutFirst(t);
      RestSorted(s, le);
      RestSorted(t, le);
      SortedUnique(s[1..], t[1..], le);
      assert s == [s[0]] + s[1..] && t == [t[0]] + t[1..];
    }
  }

  /** Where the sort puts each element: of two, the earlier one stays in front unless it exceeds the other. */
  ghost predicate StablePlaces<T>(s: seq<T>, le: (T, T) -> bool, sorted: seq<T>, place: seq<int>) {
    && |place| == |s| == |sorted|
    && (forall i :: 0 <= i < |s| ==> 0 <= place[i] < |s| && sorted[place[i]] == s[i])
    && (forall k :: 0 <= k < |s| ==> k in place)
    && (forall i, j :: 0 <= i < j < |s| ==> place[i] != place[j] && (place[i] < place[j] <==> le(s[i], s[j])))
  }

  lemma {:induction false} SortIsStable<T(!new)>(s: seq<T>, le: (T, T) -> bool) returns (place: seq<int>)
    requires TotalPreorder(le)
    ensures StablePlaces(s, le, Sort(s, le), place)
  {
    if s == [] {
      place := [];
    } else {
      var rest := SortIsStable(s[1..], le);
      SortSorts(s[1..], le);
      var k := InsertPlace(s[0], Sort(s[1..], le), le);
      place := [k] + seq(|rest|, i requires 0 <= i < |rest| => if rest[i] < k then rest[i] else rest[i] + 1);
      PlacesAround(s, le, Sort(s[1..], le), rest, k, place);
    }
  }

  /** The new element goes in front of exactly the elements it does not exceed. */
  lemma {:induction false} InsertPlace<T(!new)>(x: T, s: seq<T>, le: (T, T) -> bool) returns (k: int)
    requires TotalPreorder(le) && SortedBy(s, le)
    ensures 0 <= k <= |s| && Insert(x, s, le) == s[..k] + [x] + s[k..]
    ensures forall i :: 0 <= i < |s| ==> (k <= i <==> le(x, s[i]))
  {
    hide Insert;
    InsertUnfolds(x, s, le);
    if s == [] || le(x, s[0]) {
      k := 0;
      assert forall i :: 0 < i < |s| ==> le(s[0], s[i]);
    } else {
      k := InsertPlace(x, s[1..], le);
      k := k + 1;
      assert s == [s[0]] + s[1..];
    }
  }

  lemma InsertUnfolds<T>(x: T, s: seq<T>, le: (T, T) -> bool)
    ensures Insert(x, s, le) == if s == [] || le(x, s[0]) then [x] + s else [s[0]] + Insert(x, s[1..], le)
  {
  }

  lemma PlacesAround<T>(s: seq<T>, le: (T, T) -> bool, sorted: seq<T>, rest: seq<int>, k: int, place: seq<int>)
    requires s != [] && StablePlaces(s[1..], le, sorted, rest) && 0 <= k <= |sorted|
    requires forall i :: 0 <= i < |sorted| ==> (k <= i <==> le(s[0], sorted[i]))
    requires |place| == |s| && place[0] == k
    requires forall i :: 1 <= i < |s| ==> place[i] == if rest[i - 1] < k then rest[i - 1] else rest[i - 1] + 1
    ensures StablePlaces(s, le, sorted[..k] + [s[0]] + sorted[k..], place)
  {
    forall j | 0 <= j < |s| ensures j in place {
      assert j == k ==> place[0] == j;
      if j < k {
        assert j in rest;
        var i :| 0 <= i < |rest| && rest[i] == j;
        assert place[i + 1] == j;
      } else if j > k {
        assert j - 1 in rest;
        var i :| 0 <= i < |rest| && rest[i] == j - 1;
        assert place[i + 1] == j;
      }
    }
    assert forall i :: 1 <= i < |s| ==> s[i] == s[1..][i - 1];
  }

  lemma {:induction false} SortOfSorted<T(!new)>(s: seq<T>, le: (T, T) -> bool)
    requires SortedBy(s, le)
    ensures Sort(s, le) == s
  {
    if s != [] {
      SortOfSorted(s[1..], le);
      assert |s| > 1 ==> le(s[0], s[1]);
      assert s == [s[0]] + s[1..];
    }
  }
}
