/**
 Orders and repetitions in lists, as JavaScript's `sort` and `Set` decide them.
 */
module Order {

  /** No element occurs twice. */
  predicate Distinct<T(==)>(s: seq<T>) {
    forall i, j :: 0 <= i < j < |s| ==> s[i] != s[j]
  }

  /** `new Set(s)` */
  function Elements<T(==)>(s: seq<T>): set<T> {
    set i | 0 <= i < |s| :: s[i]
  }

  lemma ElementsStep<T>(s: seq<T>)
    requires s != []
    ensures Elements(s) == Elements(s[..|s| - 1]) + {s[|s| - 1]}
  {
    var front := s[..|s| - 1];
    forall x | x in Elements(s) ensures x in Elements(front) + {s[|s| - 1]} {
      var i :| 0 <= i < |s| && s[i] == x;
      if i < |s| - 1 { assert front[i] == x; }
    }
    forall x | x in Elements(front) ensures x in Elements(s) {
      var i :| 0 <= i < |front| && front[i] == x;
      assert s[i] == x;
    }
  }

  /** The set of a list is as large as the list exactly if nothing is repeated. */
  lemma {:induction false} SizeIffDistinct<T>(s: seq<T>)
    ensures |Elements(s)| <= |s|
    ensures |Elements(s)| == |s| <==> Distinct(s)
  {
    if s != [] {
      var front, last := s[..|s| - 1], s[|s| - 1];
      ElementsStep(s);
      SizeIffDistinct(front);
      if last in Elements(front) {
        var i :| 0 <= i < |front| && front[i] == last;
        assert s[i] == s[|s| - 1];
        assert Elements(s) == Elements(front);
      } else {
        forall i | 0 <= i < |front| ensures s[i] != last {
          assert front[i] in Elements(front);
        }
        DistinctStep(front, last);
        assert s == front + [last];
      }
    }
  }

  lemma DistinctStep<T>(front: seq<T>, last: T)
    requires forall i :: 0 <= i < |front| ==> front[i] != last
    ensures Distinct(front + [last]) <==> Distinct(front)
  {
    var s := front + [last];
    assert forall i :: 0 <= i < |front| ==> s[i] == front[i];
  }

  /** `lists.flat()` */
  function Flatten<T>(lists: seq<seq<T>>): seq<T> {
    if lists == [] then [] else Flatten(lists[..|lists| - 1]) + lists[|lists| - 1]
  }

  lemma FlattenStep<T>(lists: seq<seq<T>>, k: nat)
    requires k < |lists|
    ensures Flatten(lists[..k + 1]) == Flatten(lists[..k]) + lists[k]
  {
    assert lists[..k + 1][..k] == lists[..k];
  }

  lemma {:induction false} NothingToFlattenIff<T>(lists: seq<seq<T>>)
    ensures Flatten(lists) == [] <==> forall i :: 0 <= i < |lists| ==> lists[i] == []
  {
    if lists != [] {
      NothingToFlattenIff(lists[..|lists| - 1]);
      assert forall i :: 0 <= i < |lists| - 1 ==> lists[..|lists| - 1][i] == lists[i];
    }
  }

  ghost predicate All<T>(p: T -> bool, s: seq<T>) {
    forall i :: 0 <= i < |s| ==> p(s[i])
  }

  lemma AllFront<T>(p: T -> bool, s: seq<T>)
    requires s != []
    ensures All(p, s) <==> All(p, s[..|s| - 1]) && p(s[|s| - 1])
  {
    assert forall i :: 0 <= i < |s| - 1 ==> s[..|s| - 1][i] == s[i];
  }

  // ----- text in the order of `sort`

  /** `a <= b`, by the first character that differs. */
  predicate TextLe(a: string, b: string) {
    a == "" || (b != "" && (a[0] < b[0] || (a[0] == b[0] && TextLe(a[1..], b[1..]))))
  }

  lemma {:induction false} TextTotal(a: string, b: string)
    ensures TextLe(a, b) || TextLe(b, a)
    ensures TextLe(a, b) && TextLe(b, a) ==> a == b
  {
    if a != "" && b != "" && a[0] == b[0] {
      TextTotal(a[1..], b[1..]);
      assert a == [a[0]] + a[1..] && b == [b[0]] + b[1..];
    }
  }

  lemma {:induction false} TextTransitive(a: string, b: string, c: string)
    requires TextLe(a, b) && TextLe(b, c)
    ensures TextLe(a, c)
  {
    if a != "" && a[0] == b[0] && b[0] == c[0] { TextTransitive(a[1..], b[1..], c[1..]); }
  }

  /** The first difference decides. */
  lemma {:induction false} FirstDifference(a: string, b: string, k: nat)
    requires k < |a| && k < |b| && a[..k] == b[..k] && a[k] < b[k]
    ensures TextLe(a, b) && !TextLe(b, a)
  {
    if k > 0 {
      assert a[0] == a[..k][0] == b[..k][0] == b[0];
      assert a[1..][..k - 1] == a[..k][1..] && b[1..][..k - 1] == b[..k][1..];
      FirstDifference(a[1..], b[1..], k - 1);
    }
  }

  function Insert(x: string, s: seq<string>): seq<string> {
    if s == [] then [x]
    else if TextLe(x, s[0]) then [x] + s
    else [s[0]] + Insert(x, s[1..])
  }

  /** `[...s].sort()` */
  function Sort(s: seq<string>): seq<string> {
    if s == [] then [] else Insert(s[0], Sort(s[1..]))
  }

  ghost predicate InOrder(s: seq<string>) {
    forall i, j :: 0 <= i < j < |s| ==> TextLe(s[i], s[j])
  }

  lemma {:induction false} InsertKeeps(x: string, s: seq<string>)
    ensures multiset(Insert(x, s)) == multiset(s) + multiset{x}
  {
    if s != [] {
      assert s == [s[0]] + s[1..];
      if !TextLe(x, s[0]) { InsertKeeps(x, s[1..]); }
    }
  }

  lemma {:induction false} InsertInOrder(x: string, s: seq<string>)
    requires InOrder(s)
    ensures InOrder(Insert(x, s))
  {
    if s != [] {
      if TextLe(x, s[0]) {
        forall j | 0 <= j < |s| ensures TextLe(x, s[j]) {
          if j > 0 { TextTransitive(x, s[0], s[j]); }
        }
      } else {
        TextTotal(x, s[0]);
        InsertInOrder(x, s[1..]);
        InsertKeeps(x, s[1..]);
        forall y | y in Insert(x, s[1..]) ensures TextLe(s[0], y) {
          assert y in multiset(Insert(x, s[1..]));
        }
      }
    }
  }

  lemma {:induction false} SortInOrder(s: seq<string>)
    ensures InOrder(Sort(s)) && multiset(Sort(s)) == multiset(s)
  {
    if s != [] {
      SortInOrder(s[1..]);
      InsertInOrder(s[0], Sort(s[1..]));
      InsertKeeps(s[0], Sort(s[1..]));
      assert s == [s[0]] + s[1..];
    }
  }

  lemma {:induction false} SortStays(s: seq<string>)
    requires InOrder(s)
    ensures Sort(s) == s
  {
    if s != [] { SortStays(s[1..]); }
  }

  /** Sorting leaves a list as it is exactly if it is in order. */
  lemma SortedIff(s: seq<string>)
    ensures Sort(s) == s <==> InOrder(s)
  {
    SortInOrder(s);
    if InOrder(s) { SortStays(s); }
  }
}
