/** Facts about ordered key lists and finite sets shared by the stateful components. */
module Collections {

  ghost predicate Distinct<T>(s: seq<T>) {
    forall i, j :: 0 <= i < j < |s| ==> s[i] != s[j]
  }

  ghost function Elements<T>(s: seq<T>): set<T> {
    set x | x in s
  }

  function Without<T(==)>(s: seq<T>, x: T): seq<T> {
    if s == [] then [] else if s[0] == x then s[1..] else [s[0]] + Without(s[1..], x)
  }

  lemma {:induction false} WithoutAt<T>(s: seq<T>, i: nat)
    requires i < |s| && s[i] !in s[..i]
    ensures Without(s, s[i]) == s[..i] + s[i + 1..]
  {
    if i > 0 {
      assert s[1..][..i - 1] == s[..i][1..];
      assert s[0] in s[..i];
      WithoutAt(s[1..], i - 1);
      assert s[..i] == [s[0]] + s[1..][..i - 1];
      assert s[i + 1..] == s[1..][i..];
    }
  }

  lemma {:induction false} WithoutDistinct<T>(s: seq<T>, x: T)
    requires Distinct(s)
    ensures Distinct(Without(s, x))
    ensures Elements(Without(s, x)) == Elements(s) - {x}
    ensures x in s ==> |Without(s, x)| == |s| - 1
    ensures x !in s ==> Without(s, x) == s
  {
    if s == [] {
    } else if s[0] == x {
      forall y ensures y in s[1..] <==> y in s && y != x {
        if y in s && y != x {
          var i :| 0 <= i < |s| && s[i] == y;
          assert s[1..][i - 1] == y;
        }
      }
    } else {
      WithoutDistinct(s[1..], x);
      var rest := Without(s[1..], x);
      assert s == [s[0]] + s[1..];
      assert Elements(s) == {s[0]} + Elements(s[1..]);
      assert Elements([s[0]] + rest) == {s[0]} + Elements(rest);
      assert s[0] !in s[1..];
      assert s[0] !in rest by {
        assert s[0] !in Elements(rest);
      }
    }
  }

  lemma AppendDistinct<T>(s: seq<T>, x: T)
    requires Distinct(s) && x !in s
    ensures Distinct(s + [x]) && Elements(s + [x]) == Elements(s) + {x}
  {
  }

  lemma {:induction false} DistinctSize<T>(s: seq<T>)
    requires Distinct(s)
    ensures |Elements(s)| == |s|
  {
    if s != [] {
      var front := s[..|s| - 1];
      DistinctSize(front);
      assert s == front + [s[|s| - 1]];
      assert Elements(s) == Elements(front) + {s[|s| - 1]};
    }
  }

  ghost function Range(n: nat): set<nat> {
    if n == 0 then {} else Range(n - 1) + {n - 1}
  }

  lemma {:induction false} RangeSize(n: nat)
    ensures |Range(n)| == n && forall i: nat :: i in Range(n) <==> i < n
  {
    if n > 0 {
      RangeSize(n - 1);
    }
  }

  lemma SubsetSize<T>(a: set<T>, b: set<T>)
    requires a <= b
    ensures |a| <= |b|
    ensures |a| == |b| ==> a == b
  {
    assert b == a + (b - a);
  }

  /** A set of indexes below `n` with `n` members holds every index. */
  lemma FullRange(keys: set<nat>, n: nat)
    requires forall i :: i in keys ==> i < n
    ensures |keys| <= n
    ensures |keys| == n <==> keys == Range(n)
  {
    RangeSize(n);
    SubsetSize(keys, Range(n));
  }

  predicate IsLeast(s: set<int>, m: int) {
    m in s && forall x :: x in s ==> m <= x
  }

  lemma {:induction false} HasMinimum(s: set<int>)
    requires s != {}
    ensures exists m :: IsLeast(s, m)
  {
    var y := Member(s);
    var rest := s - {y};
    var least := y;
    if rest != {} {
      HasMinimum(rest);
      var m :| IsLeast(rest, m);
      least := if m < y then m else y;
    }
    forall x | x in s ensures least <= x {
      assert x == y || x in rest;
    }
    assert IsLeast(s, least);
  }

  lemma Member<T>(s: set<T>) returns (y: T)
    requires s != {}
    ensures y in s
  {
    y :| y in s;
  }

  /** The members of a set in ascending order. */
  function Ascending(s: set<int>): (r: seq<int>)
    ensures forall i :: 0 <= i < |r| ==> r[i] in s
  {
    if s == {} then []
    else
      HasMinimum(s);
      var m :| IsLeast(s, m);
      [m] + Ascending(s - {m})
  }

  /** The least member stands first, and the others follow. */
  lemma AscendingFirst(s: set<int>) returns (m: int)
    requires s != {}
    ensures IsLeast(s, m) && Ascending(s) == [m] + Ascending(s - {m})
  {
    HasMinimum(s);
    m :| IsLeast(s, m);
  }

  lemma {:induction false} AscendingInOrder(s: set<int>)
    ensures var r := Ascending(s); |r| == |s| && forall i, j :: 0 <= i < j < |r| ==> r[i] < r[j]
  {
    hide Ascending;
    if s == {} {
      AscendingOfNothing();
    } else {
      var m := AscendingFirst(s);
      AscendingInOrder(s - {m});
      var rest := Ascending(s - {m});
      forall i | 0 <= i < |rest| ensures m < rest[i] {
        assert rest[i] in s - {m};
      }
    }
  }

  lemma AscendingOfNothing()
    ensures Ascending({}) == []
  {
  }

  lemma {:induction false} AscendingHas(s: set<int>, x: int)
    requires x in s
    ensures x in Ascending(s)
  {
    hide Ascending;
    var m := AscendingFirst(s);
    if x != m {
      AscendingHas(s - {m}, x);
    }
  }

  lemma AscendingIsSorted(s: set<int>)
    ensures var r := Ascending(s);
            && |r| == |s| && (forall i, j :: 0 <= i < j < |r| ==> r[i] < r[j])
            && forall x :: x in s ==> exists i :: 0 <= i < |r| && r[i] == x
  {
    hide Ascending;
    AscendingInOrder(s);
    forall x | x in s ensures exists i :: 0 <= i < |Ascending(s)| && Ascending(s)[i] == x {
      AscendingHas(s, x);
    }
  }

  function RemoveAt<T>(s: seq<T>, i: nat): seq<T>
    requires i < |s|
  {
    s[..i] + s[i + 1..]
  }

  lemma StaysWithout<T>(s: seq<T>, i: nat, x: T)
    requires i < |s| && x in s && x != s[i]
    ensures x in RemoveAt(s, i)
  {
    var p :| 0 <= p < |s| && s[p] == x;
    assert RemoveAt(s, i)[if p < i then p else p - 1] == x;
  }

  // ---- Lists with some entries left out ----

  ghost predicate Subsequence<T>(short: seq<T>, long: seq<T>)
    decreases |long|
  {
    if short == [] then true
    else if long == [] then false
    else
      || (short[|short| - 1] == long[|long| - 1] && Subsequence(short[..|short| - 1], long[..|long| - 1]))
      || Subsequence(short, long[..|long| - 1])
  }

  lemma {:induction false} SubsequenceSelf<T>(s: seq<T>)
    ensures Subsequence(s, s)
  {
    if s != [] {
      SubsequenceSelf(s[..|s| - 1]);
    }
  }

  lemma {:induction false} SubsequenceRemove<T>(s: seq<T>, i: nat)
    requires i < |s|
    ensures Subsequence(RemoveAt(s, i), s)
  {
    var front := s[..|s| - 1];
    if i == |s| - 1 {
      SubsequenceSelf(front);
      assert RemoveAt(s, i) == front;
    } else {
      SubsequenceRemove(front, i);
      assert RemoveAt(s, i)[..|s| - 2] == RemoveAt(front, i);
    }
  }

  lemma {:induction false} SubsequenceTail<T>(a: seq<T>, b: seq<T>)
    requires a != [] && Subsequence(a, b)
    ensures Subsequence(a[..|a| - 1], b[..|b| - 1])
    decreases |b|
  {
    var b' := b[..|b| - 1];
    if !(a[|a| - 1] == b[|b| - 1] && Subsequence(a[..|a| - 1], b')) {
      SubsequenceTail(a, b');
    }
  }

  lemma {:induction false} SubsequenceTransitive<T>(a: seq<T>, b: seq<T>, c: seq<T>)
    requires Subsequence(a, b) && Subsequence(b, c)
    ensures Subsequence(a, c)
    decreases |c|
  {
    if a != [] {
      var b', c' := b[..|b| - 1], c[..|c| - 1];
      if b[|b| - 1] == c[|c| - 1] && Subsequence(b', c') {
        if a[|a| - 1] == b[|b| - 1] && Subsequence(a[..|a| - 1], b') {
          SubsequenceTransitive(a[..|a| - 1], b', c');
        } else {
          SubsequenceTransitive(a, b', c');
        }
      } else {
        SubsequenceTransitive(a, b, c');
      }
    }
  }

  lemma {:induction false} SubsequenceShorter<T>(a: seq<T>, b: seq<T>)
    requires Subsequence(a, b)
    ensures |a| <= |b|
    decreases |b|
  {
    if a != [] {
      SubsequenceTail(a, b);
      SubsequenceShorter(a[..|a| - 1], b[..|b| - 1]);
    }
  }

  lemma {:induction false} SubsequenceMember<T>(a: seq<T>, b: seq<T>, i: nat) returns (p: nat)
    requires Subsequence(a, b) && i < |a|
    ensures i <= p < |b| && b[p] == a[i] && p + |a| <= |b| + i
    decreases |b|
  {
    SubsequenceShorter(a, b);
    var b' := b[..|b| - 1];
    if Subsequence(a, b') {
      p := SubsequenceMember(a, b', i);
    } else if i == |a| - 1 {
      p := |b| - 1;
    } else {
      p := SubsequenceMember(a[..|a| - 1], b', i);
    }
  }

  /** Two entries of the shorter list stand in the same order in the longer one, and no nearer. */
  lemma {:induction false} SubsequencePair<T>(a: seq<T>, b: seq<T>, i: nat, j: nat) returns (p: nat, q: nat)
    requires Subsequence(a, b) && i < j < |a|
    ensures p < q < |b| && b[p] == a[i] && b[q] == a[j] && q - p >= j - i
    decreases |b|
  {
    var b' := b[..|b| - 1];
    if Subsequence(a, b') {
      p, q := SubsequencePair(a, b', i, j);
    } else if j == |a| - 1 {
      p := SubsequenceMember(a[..|a| - 1], b', i);
      q := |b| - 1;
    } else {
      p, q := SubsequencePair(a[..|a| - 1], b', i, j);
    }
  }
}
