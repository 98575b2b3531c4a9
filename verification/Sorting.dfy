// Sorting by an order, and the lexicographic order on sequences.
module Sorting {
  // below(a, b) says that a comes before b; elements neither of which comes
  // before the other tie.
  ghost predicate IsOrder<T(!new)>(below: (T, T) -> bool) {
    && (forall a, b :: !(below(a, b) && below(b, a)))
    && (forall a, b, c | !below(b, a) && !below(c, b) :: !below(c, a))
  }

  // Only an element ties with itself.
  ghost predicate IsStrict<T(!new)>(below: (T, T) -> bool) {
    forall a, b | !below(a, b) && !below(b, a) :: a == b
  }

  predicate Sorted<T>(s: seq<T>, below: (T, T) -> bool) { forall i, j | 0 <= i < j < |s| :: !below(s[j], s[i]) }

  // A stable sort: elements that tie keep their order.
  function Sort<T>(s: seq<T>, below: (T, T) -> bool): (r: seq<T>)
    ensures |r| == |s|
  {
    if s == [] then [] else Insert(s[0], Sort(s[1..], below), below)
  }

  function Insert<T>(x: T, s: seq<T>, below: (T, T) -> bool): (r: seq<T>)
    ensures |r| == |s| + 1
  {
    if s == [] || !below(s[0], x) then [x] + s else [s[0]] + Insert(x, s[1..], below)
  }

  lemma SortedCons<T(!new)>(x: T, s: seq<T>, below: (T, T) -> bool)
    requires IsOrder(below) && Sorted(s, below) && (s != [] ==> !below(s[0], x))
    ensures Sorted([x] + s, below)
  {
    forall j | 0 <= j < |s|
      ensures !below(s[j], x)
    {
      assert j > 0 ==> !below(s[j], s[0]);
    }
  }

  lemma {:induction false} InsertSorts<T(!new)>(x: T, s: seq<T>, below: (T, T) -> bool)
    requires IsOrder(below) && Sorted(s, below)
    ensures Sorted(Insert(x, s, below), below)
    ensures Insert(x, s, below)[0] == x || (s != [] && Insert(x, s, below)[0] == s[0])
  {
    if s == [] || !below(s[0], x) {
      SortedCons(x, s, below);
    } else {
      InsertSorts(x, s[1..], below);
      SortedCons(s[0], Insert(x, s[1..], below), below);
    }
  }

  lemma {:induction false} InsertKeeps<T>(x: T, s: seq<T>, below: (T, T) -> bool)
    ensures multiset(Insert(x, s, below)) == multiset(s) + multiset{x}
  {
    if s != [] {
      InsertKeeps(x, s[1..], below);
      assert s == [s[0]] + s[1..];
    }
  }

  lemma {:induction false} SortSorts<T(!new)>(s: seq<T>, below: (T, T) -> bool)
    requires IsOrder(below)
    ensures Sorted(Sort(s, below), below) && multiset(Sort(s, below)) == multiset(s)
  {
    if s != [] {
      SortSorts(s[1..], below);
      InsertSorts(s[0], Sort(s[1..], below), below);
      InsertKeeps(s[0], Sort(s[1..], below), below);
      assert s == [s[0]] + s[1..];
    }
  }

  lemma SameFirst<T(!new)>(s: seq<T>, t: seq<T>, below: (T, T) -> bool)
    requires IsOrder(below) && IsStrict(below) && Sorted(s, below) && Sorted(t, below)
    requires s != [] && t != [] && s[0] in t && t[0] in s
    ensures s[0] == t[0]
  {
    var j :| 0 <= j < |t| && t[j] == s[0];
    var i :| 0 <= i < |s| && s[i] == t[0];
    assert !below(s[0], s[0]) && !below(t[0], t[0]);
  }

  lemma RestIsRest<T>(s: seq<T>, t: seq<T>)
    requires s != [] && t != [] && s[0] == t[0] && multiset(s) == multiset(t)
    ensures multiset(s[1..]) == multiset(t[1..])
  {
    assert s == [s[0]] + s[1..] && t == [t[0]] + t[1..];
    assert multiset(s[1..]) == multiset(s) - multiset{s[0]};
    assert multiset(t[1..]) == multiset(t) - multiset{t[0]};
  }

  lemma SameElements<T>(s: seq<T>, t: seq<T>)
    requires multiset(s) == multiset(t)
    ensures |s| == |t| && forall x :: x in s <==> x in t
  {
    assert |s| == |multiset(s)| && |t| == |multiset(t)|;
    assert forall x :: x in s <==> x in multiset(s);
    assert forall x :: x in t <==> x in multiset(t);
  }

  // A sorted sequence is determined by what it holds how often.
  lemma {:induction false} SortedUnique<T(!new)>(s: seq<T>, t: seq<T>, below: (T, T) -> bool)
    requires IsOrder(below) && IsStrict(below) && Sorted(s, below) && Sorted(t, below) && multiset(s) == multiset(t)
    ensures s == t
    decreases |s|
  {
    SameElements(s, t);
    if s != [] {
      SameFirst(s, t, below);
      RestIsRest(s, t);
      SortedUnique(s[1..], t[1..], below);
      assert s == [s[0]] + s[1..] && t == [t[0]] + t[1..];
    }
  }

  // ---- Sequences, first difference first ----

  predicate Lex<T(==)>(a: seq<T>, b: seq<T>, below: (T, T) -> bool) {
    if b == [] then false
    else if a == [] then true
    else if a[0] != b[0] then below(a[0], b[0])
    else Lex(a[1..], b[1..], below)
  }

  lemma {:induction false} LexTotal<T(!new)>(a: seq<T>, b: seq<T>, below: (T, T) -> bool)
    requires IsOrder(below) && IsStrict(below)
    ensures a == b || Lex(a, b, below) || Lex(b, a, below)
    ensures !(Lex(a, b, below) && Lex(b, a, below)) && (a == b ==> !Lex(a, b, below))
  {
    if a != [] && b != [] && a[0] == b[0] {
      LexTotal(a[1..], b[1..], below);
      assert a == [a[0]] + a[1..] && b == [b[0]] + b[1..];
    }
  }

  lemma {:induction false} LexTransitive<T(!new)>(a: seq<T>, b: seq<T>, c: seq<T>, below: (T, T) -> bool)
    requires IsOrder(below) && IsStrict(below) && Lex(a, b, below) && Lex(b, c, below)
    ensures Lex(a, c, below)
  {
    if a != [] && b != [] && c != [] && a[0] == b[0] == c[0] {
      LexTransitive(a[1..], b[1..], c[1..], below);
    }
  }

  // The sequences agree up to position n, where b goes on.
  predicate Agree<T(==)>(a: seq<T>, b: seq<T>, n: nat) { n <= |a| && n < |b| && a[..n] == b[..n] }

  // The order is decided at the first difference; a beginning comes first.
  lemma {:induction false} LexAtDifference<T(!new)>(a: seq<T>, b: seq<T>, below: (T, T) -> bool)
    requires IsOrder(below) && IsStrict(below)
    ensures Lex(a, b, below) <==> exists n: nat :: Agree(a, b, n) && (n == |a| || below(a[n], b[n]))
  {
    forall n: nat | Agree(a, b, n) && n > 0
      ensures a[0] == b[0]
    {
      assert a[..n][0] == b[..n][0];
    }
    if a != [] && b != [] && a[0] == b[0] {
      var a', b' := a[1..], b[1..];
      LexAtDifference(a', b', below);
      assert a == [a[0]] + a' && b == [b[0]] + b';
      if n: nat :| Agree(a', b', n) && (n == |a'| || below(a'[n], b'[n])) {
        assert a[..n + 1] == [a[0]] + a'[..n] && b[..n + 1] == [b[0]] + b'[..n];
        assert Agree(a, b, n + 1);
      }
      if n: nat :| Agree(a, b, n) && (n == |a| || below(a[n], b[n])) {
        assert n > 0;
        assert a'[..n - 1] == a[..n][1..] && b'[..n - 1] == b[..n][1..];
        assert Agree(a', b', n - 1);
      }
    } else if a != [] && b != [] {
      if below(a[0], b[0]) {
        assert Agree(a, b, 0);
      }
    } else if b != [] {
      assert Agree(a, b, 0);
    }
  }
}
