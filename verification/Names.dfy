/** Job names, their order, and the slice operations that sorting and reversing need.
    Go compares strings byte by byte; for valid UTF-8 that is the order of the code
    points, which is the order used here. */
module Names {
  type Name = string

  /** Lexicographic order on strings, the order of Go's `<=` on valid UTF-8. */
  predicate AtMost(a: Name, b: Name) {
    if a == [] then true
    else if b == [] then false
    else if a[0] == b[0] then AtMost(a[1..], b[1..])
    else a[0] < b[0]
  }

  lemma {:induction false} AtMostTotal(a: Name, b: Name)
    ensures AtMost(a, b) || AtMost(b, a)
    ensures AtMost(a, b) && AtMost(b, a) ==> a == b
  {
    if a == [] || b == [] || a[0] != b[0] {
    } else {
      AtMostTotal(a[1..], b[1..]);
      assert a == [a[0]] + a[1..] && b == [b[0]] + b[1..];
    }
  }

  lemma {:induction false} AtMostTransitive(a: Name, b: Name, c: Name)
    requires AtMost(a, b) && AtMost(b, c)
    ensures AtMost(a, c)
  {
    if a == [] || a[0] != b[0] || b[0] != c[0] {
    } else {
      AtMostTransitive(a[1..], b[1..], c[1..]);
    }
  }

  /** What lexicographic order means: `a` is a prefix of `b`, or has the smaller character where they first
      differ. */
  ghost predicate Precedes(a: Name, b: Name) {
    a <= b || exists k :: 0 <= k < |a| && k < |b| && a[..k] == b[..k] && a[k] < b[k]
  }

  lemma DiffersAt(a: Name, b: Name) returns (k: nat)
    requires Precedes(a, b) && !(a <= b)
    ensures k < |a| && k < |b| && a[..k] == b[..k] && a[k] < b[k]
  {
    k :| 0 <= k < |a| && k < |b| && a[..k] == b[..k] && a[k] < b[k];
  }

  lemma PrecedesCons(c: char, a: Name, b: Name)
    ensures Precedes([c] + a, [c] + b) <==> Precedes(a, b)
  {
    var ca, cb := [c] + a, [c] + b;
    assert ca[1..] == a && cb[1..] == b;
    if Precedes(a, b) {
      if a <= b {
        assert ca <= cb;
      } else {
        var k := DiffersAt(a, b);
        assert ca[..k + 1] == [c] + a[..k] && cb[..k + 1] == [c] + b[..k];
        assert ca[k + 1] < cb[k + 1];
      }
    }
    if Precedes(ca, cb) {
      if ca <= cb {
        assert a <= b;
      } else {
        var k := DiffersAt(ca, cb);
        assert k > 0;
        assert a[..k - 1] == ca[..k][1..] && b[..k - 1] == cb[..k][1..];
        assert a[k - 1] < b[k - 1];
      }
    }
  }

  /** The order by which everything is sorted is the lexicographic one. */
  lemma {:induction false} AtMostIsLexicographic(a: Name, b: Name)
    ensures AtMost(a, b) <==> Precedes(a, b)
  {
    if a == [] || b == [] {
    } else if a[0] == b[0] {
      AtMostIsLexicographic(a[1..], b[1..]);
      PrecedesCons(a[0], a[1..], b[1..]);
      assert a == [a[0]] + a[1..] && b == [b[0]] + b[1..];
    } else {
      FirstDiffers(a, b);
    }
  }

  lemma FirstDiffers(a: Name, b: Name)
    requires a != [] && b != [] && a[0] != b[0]
    ensures Precedes(a, b) <==> a[0] < b[0]
  {
    if a[0] < b[0] { assert a[..0] == b[..0]; }
    if Precedes(a, b) {
      var k := DiffersAt(a, b);
      if k > 0 { SameHead(a, b, k); }
    }
  }

  lemma SameHead(a: Name, b: Name, k: nat)
    requires 0 < k <= |a| && k <= |b| && a[..k] == b[..k]
    ensures a[0] == b[0]
  {
    assert a[..k][0] == a[0] && b[..k][0] == b[0];
  }

  ghost predicate Sorted(s: seq<Name>) {
    forall i, j :: 0 <= i < j < |s| ==> AtMost(s[i], s[j])
  }

  ghost predicate Distinct<T>(s: seq<T>) {
    forall i, j :: 0 <= i < j < |s| ==> s[i] != s[j]
  }

  /** Strictly ascending in lexicographic order. */
  ghost predicate Ascending(s: seq<Name>) {
    forall i, j :: 0 <= i < j < |s| ==> Precedes(s[i], s[j]) && s[i] != s[j]
  }

  lemma SortedIsAscending(s: seq<Name>)
    ensures Sorted(s) && Distinct(s) <==> Ascending(s)
  {
    forall i, j | 0 <= i < j < |s| ensures AtMost(s[i], s[j]) <==> Precedes(s[i], s[j]) {
      AtMostIsLexicographic(s[i], s[j]);
    }
  }

  ghost function Elements<T>(s: seq<T>): set<T> {
    set x | x in s
  }

  /** Putting an element in front keeps the order when nothing that follows is smaller. */
  lemma SortedCons(x: Name, s: seq<Name>)
    requires Sorted(s) && forall y :: y in s ==> AtMost(x, y)
    ensures Sorted([x] + s)
  {
    forall i, j | 0 <= i < j < |[x] + s| ensures AtMost(([x] + s)[i], ([x] + s)[j]) {
      assert ([x] + s)[j] == s[j - 1] && s[j - 1] in s;
    }
  }

  lemma SortedHead(x: Name, s: seq<Name>)
    requires Sorted(s) && s != [] && AtMost(x, s[0])
    ensures forall y :: y in s ==> AtMost(x, y)
  {
    forall y | y in s ensures AtMost(x, y) {
      var j :| 0 <= j < |s| && s[j] == y;
      if j > 0 { AtMostTransitive(x, s[0], s[j]); }
    }
  }

  function Insert(x: Name, s: seq<Name>): (r: seq<Name>)
    requires Sorted(s)
    ensures Sorted(r) && multiset(r) == multiset(s) + multiset{x}
    ensures |r| == |s| + 1 && forall y :: y in r <==> y == x || y in s
  {
    if s == [] then [x]
    else
      assert s == [s[0]] + s[1..];
      assert forall y :: y in s <==> y == s[0] || y in s[1..];
      if AtMost(x, s[0]) then
        SortedHead(x, s);
        SortedCons(x, s);
        [x] + s
      else
        AtMostTotal(x, s[0]);
        AtMostTotal(s[0], s[0]);
        SortedHead(s[0], s);
        var t := Insert(x, s[1..]);
        SortedCons(s[0], t);
        [s[0]] + t
  }

  /** What `sort.Strings` leaves in the slice it is given. */
  function SortStrings(s: seq<Name>): (r: seq<Name>)
    ensures Sorted(r) && multiset(r) == multiset(s)
    ensures |r| == |s| && forall y :: y in r <==> y in s
  {
    if s == [] then [] else
      assert s == [s[0]] + s[1..];
      assert forall y :: y in s <==> y == s[0] || y in s[1..];
      Insert(s[0], SortStrings(s[1..]))
  }

  lemma TwiceCounted<T>(s: seq<T>, i: nat, k: nat)
    requires i < k < |s| && s[i] == s[k]
    ensures multiset(s)[s[i]] >= 2
  {
    assert s == s[..i] + [s[i]] + s[i + 1..k] + [s[k]] + s[k + 1..];
  }

  lemma CountedOnce<T>(s: seq<T>)
    requires forall x :: x in s ==> multiset(s)[x] <= 1
    ensures Distinct(s)
  {
    forall i, k | 0 <= i < k < |s| ensures s[i] != s[k] {
      if s[i] == s[k] { TwiceCounted(s, i, k); }
    }
  }

  lemma DistinctByMultiset<T>(s: seq<T>, t: seq<T>)
    requires Distinct(s) && multiset(s) == multiset(t)
    ensures Distinct(t)
  {
    hide Distinct;
    forall x | x in t ensures multiset(t)[x] <= 1 { DistinctCount(s, x); }
    CountedOnce(t);
  }

  lemma {:induction false} DistinctCount<T>(s: seq<T>, x: T)
    requires Distinct(s)
    ensures multiset(s)[x] <= 1
    ensures multiset(s)[x] == 1 <==> x in s
  {
    if s == [] {
    } else {
      var k := |s| - 1;
      assert s == s[..k] + [s[k]];
      DistinctCount(s[..k], x);
    }
  }

  lemma Inhabited<T>(s: seq<T>)
    ensures s == [] || exists x :: x in s
  {
    if s != [] { assert s[0] in s; }
  }

  lemma DropHead(s: seq<Name>)
    requires Distinct(s) && s != []
    ensures forall x :: x in s[1..] <==> x in s && x != s[0]
    ensures Distinct(s[1..])
  {
    assert s == [s[0]] + s[1..];
    forall x | x in s[1..] ensures x != s[0] {
      var j :| 0 <= j < |s[1..]| && s[1..][j] == x;
      assert s[j + 1] == x;
    }
  }

  /** A sorted sequence without repetition is determined by its elements. */
  lemma {:induction false} SortedUnique(s: seq<Name>, t: seq<Name>)
    requires Sorted(s) && Sorted(t) && Distinct(s) && Distinct(t)
    requires forall x :: x in s <==> x in t
    ensures s == t
  {
    Inhabited(s);
    Inhabited(t);
    if s == [] {
    } else {
      assert s[0] in t && t != [] && t[0] in s;
      AtMostTotal(s[0], t[0]);
      assert s[0] == t[0];
      DropHead(s);
      DropHead(t);
      SortedUnique(s[1..], t[1..]);
      assert s == [s[0]] + s[1..] && t == [t[0]] + t[1..];
    }
  }

  lemma {:induction false} DistinctSize<T>(s: seq<T>)
    requires Distinct(s)
    ensures |Elements(s)| == |s|
  {
    if s == [] {
    } else {
      var k := |s| - 1;
      DistinctSize(s[..k]);
      assert Elements(s) == Elements(s[..k]) + {s[k]};
      assert s[k] !in Elements(s[..k]);
    }
  }

  lemma SubsetSize<T>(a: set<T>, b: set<T>)
    requires a <= b
    ensures |a| <= |b|
  {
    if a == b {
    } else {
      var x :| x in b && x !in a;
      SubsetSize(a, b - {x});
    }
  }

  ghost function Reversed<T>(s: seq<T>): (r: seq<T>)
    ensures |r| == |s| && forall i :: 0 <= i < |s| ==> r[i] == s[|s| - 1 - i]
  {
    seq(|s|, i requires 0 <= i < |s| => s[|s| - 1 - i])
  }

  /** The two-index swap loop with which both cycle reporters reverse the path they collected. */
  method ReverseSlice<T>(s: seq<T>) returns (r: seq<T>)
    ensures r == Reversed(s)
  {
    r := s;
    var i, j := 0, |r| - 1;
    while i < j
      invariant |r| == |s| && 0 <= i <= |s| && j == |s| - 1 - i
      invariant forall k :: i <= k <= j ==> r[k] == s[k]
      invariant forall k :: 0 <= k < i ==> r[k] == s[|s| - 1 - k]
      invariant forall k :: j < k < |s| ==> r[k] == s[|s| - 1 - k]
    {
      var front, back := r[i], r[j];
      r := r[i := back];
      r := r[j := front];
      i, j := i + 1, j - 1;
    }
  }
}
