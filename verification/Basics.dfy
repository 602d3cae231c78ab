/** Notions shared by several modules: optional values, injections between finite sets,
    and the stable sort by an integer key that Python's `sorted` performs. */
module Basics {

  datatype Option<+T> = None | Some(value: T)

  /** What a call that may raise comes to. */
  datatype Outcome<+T> = Raises | Returns(value: T)

  /** A string held as one value: an id or a name that is only compared or looked at as a whole. */
  datatype Text = Text(chars: string)

  ghost predicate Injective<K, V>(m: map<K, V>)
  {
    forall a, b :: a in m && b in m && m[a] == m[b] ==> a == b
  }

  /** An injective map into a finite set has at most as many keys as the set has elements. */
  lemma {:induction false} InjectionBoundsDomain<K, V>(m: map<K, V>, codomain: set<V>)
    requires Injective(m)
    requires forall k :: k in m ==> m[k] in codomain
    ensures |m| <= |codomain|
    decreases |m|
  {
    if |m| != 0 {
      var k :| k in m;
      var rest := m - {k};
      assert rest.Keys == m.Keys - {k};
      InjectionBoundsDomain(rest, codomain - {m[k]});
    }
  }

  predicate Within(a: nat, i: nat, b: nat) {
    a <= i < b
  }

  /** The indices from `a` up to `b`. */
  function Range(a: nat, b: nat): set<nat> {
    set i: nat | i < b && Within(a, i, b)
  }

  lemma {:induction false} RangeSize(a: nat, b: nat)
    requires a <= b
    ensures |Range(a, b)| == b - a
    decreases b - a
  {
    if a < b {
      RangeSize(a, b - 1);
      assert Range(a, b) == Range(a, b - 1) + {b - 1};
    } else {
      assert Range(a, b) == {};
    }
  }

  /** `more` is `less` with, or without, one element it lacks. */
  lemma {:induction false} OneMore<T>(less: set<T>, more: set<T>, x: T, added: bool)
    requires x !in less
    requires forall y :: y in more <==> y in less || (added && y == x)
    ensures |more| == |less| + if added then 1 else 0
  {
    if added {
      assert more == less + {x};
    } else {
      assert more == less;
    }
  }

  /** A subset of a finite set is no larger. */
  lemma {:induction false} SubsetCardinality<T>(a: set<T>, b: set<T>)
    requires a <= b
    ensures |a| <= |b|
  {
    assert b == a + (b - a);
  }

  ghost predicate Distinct<T(!new)>(s: seq<T>) {
    forall i, j :: 0 <= i < j < |s| ==> s[i] != s[j]
  }

  function Elements<T(==)>(s: seq<T>): set<T> {
    set x | x in s
  }

  lemma {:induction false} ElementsOfAppend<T>(s: seq<T>, x: T)
    ensures Elements(s + [x]) == Elements(s) + {x}
  {
  }

  /** A list has as many different elements as it is long exactly when none repeats. */
  lemma {:induction false} DistinctBySize<T(!new)>(s: seq<T>)
    ensures |Elements(s)| <= |s|
    ensures |Elements(s)| == |s| <==> Distinct(s)
  {
    if s == [] {
      assert Elements(s) == {};
    } else {
      var init, last := s[..|s| - 1], s[|s| - 1];
      DistinctBySize(init);
      ElementsOfAppend(init, last);
      assert s == init + [last];
      assert Distinct(s) <==> Distinct(init) && last !in init by {
        assert forall i :: 0 <= i < |init| ==> init[i] == s[i];
      }
    }
  }

  // ---------------------------------------------------------------- sequences

  lemma ConcatAssoc<T>(a: seq<T>, b: seq<T>, c: seq<T>)
    ensures a + b + c == a + (b + c)
  {
  }

  lemma ConcatEmpty<T>(a: seq<T>)
    ensures [] + a == a && a + [] == a
  {
  }

  lemma TailOfConcat<T>(a: seq<T>, b: seq<T>)
    requires a != []
    ensures (a + b)[0] == a[0] && (a + b)[1..] == a[1..] + b
    ensures a == [a[0]] + a[1..]
  {
  }

  // ---------------------------------------------------------------- sums over finite sets

  ghost function SumOver<T(!new)>(s: set<T>, f: T -> int): int {
    if s == {} then 0 else var x :| x in s; f(x) + SumOver(s - {x}, f)
  }

  lemma {:induction false} SumWithout<T(!new)>(s: set<T>, f: T -> int, x: T)
    requires x in s
    ensures SumOver(s, f) == f(x) + SumOver(s - {x}, f)
  {
    var y :| y in s && SumOver(s, f) == f(y) + SumOver(s - {y}, f);
    if y != x {
      SumWithout(s - {y}, f, x);
      SumWithout(s - {x}, f, y);
      assert s - {y} - {x} == s - {x} - {y};
    }
  }

  lemma {:induction false} SumPlus<T(!new)>(s: set<T>, f: T -> int, g: T -> int, h: T -> int)
    requires forall x :: x in s ==> h(x) == f(x) + g(x)
    ensures SumOver(s, h) == SumOver(s, f) + SumOver(s, g)
  {
    if s != {} {
      var x :| x in s;
      SumWithout(s, f, x);
      SumWithout(s, g, x);
      SumWithout(s, h, x);
      SumPlus(s - {x}, f, g, h);
    }
  }

  lemma {:induction false} SumAtMost<T(!new)>(s: set<T>, f: T -> int, g: T -> int)
    requires forall x :: x in s ==> f(x) <= g(x)
    ensures SumOver(s, f) <= SumOver(s, g)
  {
    if s != {} {
      var x :| x in s;
      SumWithout(s, f, x);
      SumWithout(s, g, x);
      SumAtMost(s - {x}, f, g);
    }
  }

  lemma {:induction false} SumSame<T(!new)>(s: set<T>, f: T -> int, g: T -> int)
    requires forall x :: x in s ==> f(x) == g(x)
    ensures SumOver(s, f) == SumOver(s, g)
  {
    SumAtMost(s, f, g);
    SumAtMost(s, g, f);
  }

  /** Changing the summand at one element changes the sum by as much. */
  lemma {:induction false} SumChangedAt<T(!new)>(s: set<T>, f: T -> int, g: T -> int, x: T)
    requires x in s && forall y :: y in s && y != x ==> f(y) == g(y)
    ensures SumOver(s, g) == SumOver(s, f) + g(x) - f(x)
  {
    SumWithout(s, f, x);
    SumWithout(s, g, x);
    SumSame(s - {x}, f, g);
  }

  /** Elements whose summand is zero do not matter. */
  lemma {:induction false} SumOverMore<T(!new)>(s: set<T>, more: set<T>, f: T -> int)
    requires s <= more && forall x :: x in more && x !in s ==> f(x) == 0
    ensures SumOver(more, f) == SumOver(s, f)
    decreases |more|
  {
    if more != s {
      var x :| x in more && x !in s;
      SumWithout(more, f, x);
      SumOverMore(s, more - {x}, f);
    }
  }

  // ---------------------------------------------------------------- selections

  /** The elements among the first `upTo` whose index is in `at`. */
  function Kept<T>(s: seq<T>, at: set<nat>, upTo: nat): seq<T>
    requires upTo <= |s|
  {
    if upTo == 0 then []
    else if upTo - 1 in at then Kept(s, at, upTo - 1) + [s[upTo - 1]]
    else Kept(s, at, upTo - 1)
  }

  /** The elements among the first `upTo` whose index is not in `at`. */
  function Dropped<T>(s: seq<T>, at: set<nat>, upTo: nat): seq<T>
    requires upTo <= |s|
  {
    if upTo == 0 then []
    else if upTo - 1 in at then Dropped(s, at, upTo - 1)
    else Dropped(s, at, upTo - 1) + [s[upTo - 1]]
  }

  lemma {:induction false} MultisetOfAppend<T>(s: seq<T>, x: T)
    ensures multiset(s + [x]) == multiset(s) + multiset{x}
  {
  }

  lemma {:induction false} KeptNext<T>(s: seq<T>, at: set<nat>, upTo: nat)
    requires 0 < upTo <= |s|
    ensures multiset(Kept(s, at, upTo))
         == multiset(Kept(s, at, upTo - 1)) + if upTo - 1 in at then multiset{s[upTo - 1]} else multiset{}
  {
    MultisetOfAppend(Kept(s, at, upTo - 1), s[upTo - 1]);
  }

  lemma {:induction false} DroppedNext<T>(s: seq<T>, at: set<nat>, upTo: nat)
    requires 0 < upTo <= |s|
    ensures multiset(Dropped(s, at, upTo))
         == multiset(Dropped(s, at, upTo - 1)) + if upTo - 1 in at then multiset{} else multiset{s[upTo - 1]}
  {
    MultisetOfAppend(Dropped(s, at, upTo - 1), s[upTo - 1]);
  }

  lemma {:induction false} PrefixNext<T>(s: seq<T>, upTo: nat)
    requires 0 < upTo <= |s|
    ensures multiset(s[..upTo]) == multiset(s[..upTo - 1]) + multiset{s[upTo - 1]}
  {
    assert s[..upTo] == s[..upTo - 1] + [s[upTo - 1]];
    MultisetOfAppend(s[..upTo - 1], s[upTo - 1]);
  }

  lemma {:induction false} KeptAndDropped<T>(s: seq<T>, at: set<nat>, upTo: nat)
    requires upTo <= |s|
    ensures multiset(s[..upTo]) == multiset(Kept(s, at, upTo)) + multiset(Dropped(s, at, upTo))
  {
    if upTo != 0 {
      KeptAndDropped(s, at, upTo - 1);
      PrefixNext(s, upTo);
      KeptNext(s, at, upTo);
      DroppedNext(s, at, upTo);
    }
  }

  lemma {:induction false} KeepingNothing<T>(s: seq<T>, at: set<nat>, upTo: nat)
    requires upTo <= |s| && at == {}
    ensures Kept(s, at, upTo) == []
  {
    if upTo != 0 {
      KeepingNothing(s, at, upTo - 1);
    }
  }

  lemma {:induction false} KeepingOneMore<T>(s: seq<T>, at: set<nat>, i: nat, upTo: nat)
    requires i < |s| && upTo <= |s| && i !in at
    ensures multiset(Kept(s, at + {i}, upTo))
         == multiset(Kept(s, at, upTo)) + if i < upTo then multiset{s[i]} else multiset{}
  {
    if upTo != 0 {
      KeepingOneMore(s, at, i, upTo - 1);
      KeptNext(s, at, upTo);
      KeptNext(s, at + {i}, upTo);
    }
  }

  // ---------------------------------------------------------------- stable sort

  /** A total preorder: what a sort key compares. */
  ghost predicate Ordering<T(!new)>(leq: (T, T) -> bool) {
    && (forall a, b :: leq(a, b) || leq(b, a))
    && (forall a, b, c :: leq(a, b) && leq(b, c) ==> leq(a, c))
  }

  /** Puts `x` before the first element that is not smaller. */
  function Insert<T>(x: T, s: seq<T>, leq: (T, T) -> bool): seq<T> {
    if s == [] || leq(x, s[0]) then [x] + s else [s[0]] + Insert(x, s[1..], leq)
  }

  function StableSort<T>(s: seq<T>, leq: (T, T) -> bool): seq<T> {
    if s == [] then [] else Insert(s[0], StableSort(s[1..], leq), leq)
  }

  ghost predicate SortedBy<T>(s: seq<T>, leq: (T, T) -> bool) {
    forall i, j :: 0 <= i < j < |s| ==> leq(s[i], s[j])
  }

  lemma {:induction false} InsertPermutes<T>(x: T, s: seq<T>, leq: (T, T) -> bool)
    ensures multiset(Insert(x, s, leq)) == multiset{x} + multiset(s)
  {
    if s != [] && !leq(x, s[0]) {
      InsertPermutes(x, s[1..], leq);
      assert s == [s[0]] + s[1..];
    }
  }

  lemma {:induction false} Inserted<T>(x: T, s: seq<T>, leq: (T, T) -> bool, j: nat)
    requires j < |Insert(x, s, leq)|
    ensures Insert(x, s, leq)[j] == x || Insert(x, s, leq)[j] in s
  {
    if s != [] && !leq(x, s[0]) && j > 0 {
      Inserted(x, s[1..], leq, j - 1);
    }
  }

  lemma {:induction false} InsertIsSorted<T(!new)>(x: T, s: seq<T>, leq: (T, T) -> bool)
    requires Ordering(leq) && SortedBy(s, leq)
    ensures SortedBy(Insert(x, s, leq), leq)
  {
    if s != [] && !leq(x, s[0]) {
      InsertIsSorted(x, s[1..], leq);
      var rest := Insert(x, s[1..], leq);
      forall j: nat | j < |rest| ensures leq(s[0], rest[j]) {
        Inserted(x, s[1..], leq, j);
      }
    }
  }

  lemma {:induction false} SortIsPermutation<T(!new)>(s: seq<T>, leq: (T, T) -> bool)
    requires Ordering(leq)
    ensures SortedBy(StableSort(s, leq), leq)
    ensures multiset(StableSort(s, leq)) == multiset(s)
    ensures |StableSort(s, leq)| == |s|
  {
    if s != [] {
      SortIsPermutation(s[1..], leq);
      InsertIsSorted(s[0], StableSort(s[1..], leq), leq);
      InsertPermutes(s[0], StableSort(s[1..], leq), leq);
      assert s == [s[0]] + s[1..];
    }
    assert |multiset(StableSort(s, leq))| == |multiset(s)|;
  }

  predicate Tie<T>(x: T, leq: (T, T) -> bool, like: T) {
    leq(x, like) && leq(like, x)
  }

  /** The elements that the order cannot tell from `like`, in their order. */
  function Ties<T>(s: seq<T>, leq: (T, T) -> bool, like: T): seq<T> {
    if s == [] then []
    else if Tie(s[0], leq, like) then [s[0]] + Ties(s[1..], leq, like)
    else Ties(s[1..], leq, like)
  }

  lemma {:induction false} InsertIsStable<T(!new)>(x: T, s: seq<T>, leq: (T, T) -> bool, like: T)
    requires Ordering(leq)
    ensures Ties(Insert(x, s, leq), leq, like)
         == if Tie(x, leq, like) then [x] + Ties(s, leq, like) else Ties(s, leq, like)
  {
    if s == [] || leq(x, s[0]) {
      assert ([x] + s)[1..] == s;
    } else {
      InsertIsStable(x, s[1..], leq, like);
      assert ([s[0]] + Insert(x, s[1..], leq))[1..] == Insert(x, s[1..], leq);
      assert !(Tie(x, leq, like) && Tie(s[0], leq, like));
    }
  }

  lemma {:induction false} InTies<T(!new)>(s: seq<T>, leq: (T, T) -> bool, like: T, x: T)
    ensures x in Ties(s, leq, like) <==> x in s && Tie(x, leq, like)
  {
    if s != [] {
      InTies(s[1..], leq, like, x);
      assert s == [s[0]] + s[1..];
    }
  }

  /** `x` stands somewhere before `y`. */
  predicate InOrderOf<T(==)>(s: seq<T>, x: T, y: T) {
    s != [] && ((s[0] == x && y in s[1..]) || InOrderOf(s[1..], x, y))
  }

  lemma {:induction false} Positions<T>(s: seq<T>, x: T, y: T) returns (i: nat, j: nat)
    requires InOrderOf(s, x, y)
    ensures i < j < |s| && s[i] == x && s[j] == y
  {
    if s[0] == x && y in s[1..] {
      var k: nat :| k < |s| - 1 && s[1..][k] == y;
      i, j := 0, k + 1;
    } else {
      i, j := Positions(s[1..], x, y);
      i, j := i + 1, j + 1;
    }
  }

  lemma {:induction false} PositionsOrder<T>(s: seq<T>, i: nat, j: nat)
    requires i < j < |s|
    ensures InOrderOf(s, s[i], s[j])
  {
    if i == 0 {
      assert s[1..][j - 1] == s[j];
    } else {
      PositionsOrder(s[1..], i - 1, j - 1);
    }
  }

  /** Tied elements stand in a list as they stand among its ties. */
  lemma {:induction false} TiesOrder<T(!new)>(s: seq<T>, leq: (T, T) -> bool, like: T, x: T, y: T)
    requires Tie(x, leq, like) && Tie(y, leq, like)
    ensures InOrderOf(Ties(s, leq, like), x, y) <==> InOrderOf(s, x, y)
  {
    if s != [] {
      TiesOrder(s[1..], leq, like, x, y);
      InTies(s[1..], leq, like, y);
      var ties := Ties(s[1..], leq, like);
      assert ([s[0]] + ties)[1..] == ties;
    }
  }

  /** Elements that compare equal keep their order. */
  lemma {:induction false} SortIsStable<T(!new)>(s: seq<T>, leq: (T, T) -> bool, like: T)
    requires Ordering(leq)
    ensures Ties(StableSort(s, leq), leq, like) == Ties(s, leq, like)
  {
    if s != [] {
      SortIsStable(s[1..], leq, like);
      InsertIsStable(s[0], StableSort(s[1..], leq), leq, like);
    }
  }

  lemma {:induction false} TiedInOrder<T(!new)>(s: seq<T>, leq: (T, T) -> bool, a: nat, b: nat)
    requires Ordering(leq) && a < b < |s| && Tie(s[b], leq, s[a])
    ensures InOrderOf(StableSort(s, leq), s[a], s[b])
  {
    PositionsOrder(s, a, b);
    SortIsStable(s, leq, s[a]);
    TiesOrder(s, leq, s[a], s[a], s[b]);
    TiesOrder(StableSort(s, leq), leq, s[a], s[a], s[b]);
  }
}
