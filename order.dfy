/** Python's ordering of str values (code point by code point, a proper
    prefix first) and sorted(list(x)) for a set of strings. */
module Order {

  /** a <= b on Python strings */
  predicate LexLe(a: string, b: string)
    decreases |a|
  {
    if |a| == 0 then true
    else if |b| == 0 then false
    else if a[0] != b[0] then a[0] < b[0]
    else LexLe(a[1..], b[1..])
  }

  predicate LexLt(a: string, b: string) { LexLe(a, b) && a != b }

  lemma LexLeReflexive(a: string)
    ensures LexLe(a, a)
    decreases |a|
  {
    if |a| > 0 {
      LexLeReflexive(a[1..]);
    }
  }

  lemma LexLeAntisymmetric(a: string, b: string)
    requires LexLe(a, b) && LexLe(b, a)
    ensures a == b
    decreases |a|
  {
    if |a| > 0 && |b| > 0 {
      LexLeAntisymmetric(a[1..], b[1..]);
      assert a == [a[0]] + a[1..] && b == [b[0]] + b[1..];
    }
  }

  lemma LexLeTransitive(a: string, b: string, c: string)
    requires LexLe(a, b) && LexLe(b, c)
    ensures LexLe(a, c)
    decreases |a|
  {
    if |a| > 0 && |b| > 0 && |c| > 0 && a[0] == b[0] == c[0] {
      LexLeTransitive(a[1..], b[1..], c[1..]);
    }
  }

  lemma LexLeTotal(a: string, b: string)
    ensures LexLe(a, b) || LexLe(b, a)
    decreases |a|
  {
    if |a| > 0 && |b| > 0 && a[0] == b[0] {
      LexLeTotal(a[1..], b[1..]);
    }
  }

  predicate IsLeast(m: string, s: set<string>) { m in s && forall x :: x in s ==> LexLe(m, x) }

  lemma LeastExists(s: set<string>)
    requires s != {}
    ensures exists m :: IsLeast(m, s)
    decreases |s|
  {
    var y :| y in s;
    if s - {y} == {} {
      assert s == {y};
      LexLeReflexive(y);
      assert IsLeast(y, s);
    } else {
      LeastExists(s - {y});
      var m :| IsLeast(m, s - {y});
      LexLeTotal(m, y);
      if LexLe(m, y) {
        assert IsLeast(m, s);
      } else {
        forall x | x in s
          ensures LexLe(y, x)
        {
          if x != y {
            LexLeTransitive(y, m, x);
          } else {
            LexLeReflexive(y);
          }
        }
        assert IsLeast(y, s);
      }
    }
  }

  /** min(s) */
  function Least(s: set<string>): (m: string)
    requires s != {}
    ensures IsLeast(m, s)
  {
    LeastExists(s);
    assert forall a, b :: IsLeast(a, s) && IsLeast(b, s) ==> a == b by {
      forall a, b | IsLeast(a, s) && IsLeast(b, s)
        ensures a == b
      {
        LexLeAntisymmetric(a, b);
      }
    }
    var m :| IsLeast(m, s);
    m
  }

  /** Every element strictly before every later one (so: sorted, no repeats) */
  predicate StrictlySorted(xs: seq<string>)
  {
    forall i, j :: 0 <= i < j < |xs| ==> LexLt(xs[i], xs[j])
  }

  /** sorted(list(s)) */
  function SortedElems(s: set<string>): (xs: seq<string>)
    ensures |xs| == |s|
    decreases s
  {
    if s == {} then []
    else
      var m := Least(s);
      [m] + SortedElems(s - {m})
  }

  /** The sorted listing holds exactly the set's elements, in strictly
      increasing order */
  lemma {:induction false} SortedElemsSpec(s: set<string>)
    ensures StrictlySorted(SortedElems(s))
    ensures forall x :: x in SortedElems(s) <==> x in s
    decreases s
  {
    if s != {} {
      var m := Least(s);
      var rest := SortedElems(s - {m});
      SortedElemsSpec(s - {m});
      var xs := [m] + rest;
      assert xs == SortedElems(s);
      forall i, j | 0 <= i < j < |xs|
        ensures LexLt(xs[i], xs[j])
      {
        if i == 0 {
          assert xs[j] in rest;
        } else {
          assert xs[i] == rest[i - 1] && xs[j] == rest[j - 1];
        }
      }
    }
  }

  /** A strictly increasing list of the set's elements is the sorted listing:
      whatever order list(s) produces, sorting it gives one result. */
  lemma {:induction false} SortedElemsUnique(s: set<string>, xs: seq<string>)
    requires StrictlySorted(xs)
    requires forall x :: x in xs <==> x in s
    ensures xs == SortedElems(s)
    decreases |xs|
  {
    if |xs| == 0 {
      assert s == {};
    } else {
      assert xs[0] in xs;
      var m := Least(s);
      forall x | x in s
        ensures LexLe(xs[0], x)
      {
        var j :| 0 <= j < |xs| && xs[j] == x;
        if j > 0 {
          assert LexLt(xs[0], xs[j]);
        } else {
          LexLeReflexive(x);
        }
      }
      LexLeAntisymmetric(xs[0], m);
      forall x
        ensures x in xs[1..] <==> x in s - {m}
      {
        if x in xs[1..] {
          var j :| 1 <= j < |xs| && xs[j] == x;
          assert LexLt(xs[0], xs[j]);
        }
        if x in s - {m} {
          var j :| 0 <= j < |xs| && xs[j] == x;
          assert j != 0;
          assert xs[1..][j - 1] == x;
        }
      }
      SortedElemsUnique(s - {m}, xs[1..]);
      assert xs == [xs[0]] + xs[1..];
    }
  }
}
