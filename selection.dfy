/**
 * The two list updates the assessment form applies to its skill and interest
 * selections: filtering an item out (`filter(s => s !== item)`) and toggling it
 * (filter it out when it is present, append it when it is absent).
 */
module Selection {

  /** No element occurs twice. */
  ghost predicate NoDups(xs: seq<string>)
  {
    forall i, j :: 0 <= i < j < |xs| ==> xs[i] != xs[j]
  }

  /** `a` is `b` with some elements deleted, the rest kept in their order. */
  ghost predicate IsSubsequence(a: seq<string>, b: seq<string>)
    decreases |b|
  {
    if a == [] then true
    else if b == [] then false
    else (a[0] == b[0] && IsSubsequence(a[1..], b[1..])) || IsSubsequence(a, b[1..])
  }

  /** `xs.filter(y => y !== x)`: every occurrence of `x` is dropped, every other
      element keeps its multiplicity. */
  function Without(xs: seq<string>, x: string): (r: seq<string>)
    ensures multiset(r) == multiset(xs)[x := 0]
    ensures x !in r
    ensures forall y :: y in r <==> y in xs && y != x
  {
    if xs == [] then []
    else
      assert xs == [xs[0]] + xs[1..];
      if xs[0] == x then Without(xs[1..], x)
      else [xs[0]] + Without(xs[1..], x)
  }

  /** `xs.includes(x) ? xs.filter(y => y !== x) : [...xs, x]`. */
  function Toggle(xs: seq<string>, x: string): (r: seq<string>)
    ensures x in r <==> x !in xs
    ensures forall y :: y != x ==> (y in r <==> y in xs)
    ensures x !in xs ==> |r| == |xs| + 1 && r[..|xs|] == xs && r[|xs|] == x
    ensures x in xs ==> multiset(r) == multiset(xs)[x := 0]
  {
    if x in xs then Without(xs, x) else xs + [x]
  }

  lemma {:induction false} WithoutAbsent(xs: seq<string>, x: string)
    requires x !in xs
    ensures Without(xs, x) == xs
  {
    if xs != [] {
      WithoutAbsent(xs[1..], x);
    }
  }

  lemma {:induction false} WithoutAppend(a: seq<string>, b: seq<string>, x: string)
    ensures Without(a + b, x) == Without(a, x) + Without(b, x)
  {
    if a == [] {
      assert a + b == b;
    } else {
      assert (a + b)[0] == a[0];
      assert (a + b)[1..] == a[1..] + b;
      WithoutAppend(a[1..], b, x);
    }
  }

  /** Filtering keeps the surviving elements in their original order. */
  lemma {:induction false} WithoutIsSubsequence(xs: seq<string>, x: string)
    ensures IsSubsequence(Without(xs, x), xs)
  {
    if xs != [] {
      WithoutIsSubsequence(xs[1..], x);
      var r := Without(xs, x);
      if xs[0] == x {
        assert r == Without(xs[1..], x);
        if r != [] {
          assert IsSubsequence(r, xs[1..]);
        }
      } else {
        assert r[0] == xs[0] && r[1..] == Without(xs[1..], x);
      }
    }
  }

  /** Filtering never introduces a duplicate. */
  lemma {:induction false} WithoutKeepsNoDups(xs: seq<string>, x: string)
    requires NoDups(xs)
    ensures NoDups(Without(xs, x))
  {
    if xs != [] {
      assert NoDups(xs[1..]) by {
        forall i, j | 0 <= i < j < |xs[1..]| ensures xs[1..][i] != xs[1..][j] {
          assert xs[1..][i] == xs[i + 1] && xs[1..][j] == xs[j + 1];
        }
      }
      WithoutKeepsNoDups(xs[1..], x);
      if xs[0] != x {
        var rest := Without(xs[1..], x);
        assert xs[0] !in xs[1..];
        assert xs[0] !in rest;
        var r := [xs[0]] + rest;
        forall i, j | 0 <= i < j < |r| ensures r[i] != r[j] {
          if i == 0 {
            assert r[j] == rest[j - 1];
          } else {
            assert r[i] == rest[i - 1] && r[j] == rest[j - 1];
          }
        }
      }
    }
  }

  /** `removeSkill`/`removeInterest` applied twice is the same as once. */
  lemma WithoutIdempotent(xs: seq<string>, x: string)
    ensures Without(Without(xs, x), x) == Without(xs, x)
  {
    WithoutAbsent(Without(xs, x), x);
  }

  /** Removal never adds an element and keeps the order of those it keeps. */
  lemma WithoutNeverAdds(xs: seq<string>, x: string)
    ensures |Without(xs, x)| <= |xs|
    ensures multiset(Without(xs, x)) <= multiset(xs)
    ensures IsSubsequence(Without(xs, x), xs)
  {
    WithoutIsSubsequence(xs, x);
    assert |multiset(Without(xs, x))| <= |multiset(xs)|;
  }

  /** Toggling keeps a duplicate-free selection duplicate-free. */
  lemma ToggleKeepsNoDups(xs: seq<string>, x: string)
    requires NoDups(xs)
    ensures NoDups(Toggle(xs, x))
  {
    if x in xs {
      WithoutKeepsNoDups(xs, x);
    } else {
      var r := xs + [x];
      forall i, j | 0 <= i < j < |r| ensures r[i] != r[j] {
        if j == |xs| {
          assert r[i] == xs[i];
        } else {
          assert r[i] == xs[i] && r[j] == xs[j];
        }
      }
    }
  }

  /** A present item toggled off keeps the other items in their order. */
  lemma TogglePresentKeepsOrder(xs: seq<string>, x: string)
    requires x in xs
    ensures IsSubsequence(Toggle(xs, x), xs)
  {
    WithoutIsSubsequence(xs, x);
  }

  /** Toggling an absent item on and off again restores the list exactly. */
  lemma ToggleTwiceAbsent(xs: seq<string>, x: string)
    requires x !in xs
    ensures Toggle(Toggle(xs, x), x) == xs
  {
    assert Toggle(xs, x) == xs + [x];
    WithoutAppend(xs, [x], x);
    WithoutAbsent(xs, x);
    assert Without([x], x) == [];
  }

  /** In a duplicate-free list a present item occurs exactly once. */
  lemma {:induction false} NoDupsOccursOnce(xs: seq<string>, x: string)
    requires NoDups(xs) && x in xs
    ensures multiset(xs)[x] == 1
  {
    assert xs == [xs[0]] + xs[1..];
    if xs[0] == x {
      assert x !in xs[1..] by {
        forall k | 0 <= k < |xs[1..]| ensures xs[1..][k] != x {
          assert xs[1..][k] == xs[k + 1];
        }
      }
    } else {
      assert NoDups(xs[1..]) by {
        forall i, j | 0 <= i < j < |xs[1..]| ensures xs[1..][i] != xs[1..][j] {
          assert xs[1..][i] == xs[i + 1] && xs[1..][j] == xs[j + 1];
        }
      }
      NoDupsOccursOnce(xs[1..], x);
    }
  }

  /** Toggling a present item off and on again restores the same elements (and,
      for a duplicate-free list, the same multiset), but the item is now last. */
  lemma ToggleTwicePresent(xs: seq<string>, x: string)
    requires x in xs
    ensures Toggle(Toggle(xs, x), x) == Without(xs, x) + [x]
    ensures forall y :: y in Toggle(Toggle(xs, x), x) <==> y in xs
    ensures NoDups(xs) ==> multiset(Toggle(Toggle(xs, x), x)) == multiset(xs)
  {
    var once := Toggle(xs, x);
    assert x !in once;
    if NoDups(xs) {
      NoDupsOccursOnce(xs, x);
      assert multiset(once + [x]) == multiset(once) + multiset{x};
    }
  }

  /** The order quirk on a concrete selection: "Python" toggled off and on moves
      behind "Leadership", so the list differs although the set is the same. */
  lemma ToggleTwiceReorders()
    ensures Toggle(Toggle(["Python", "Leadership"], "Python"), "Python") == ["Leadership", "Python"]
  {
    var xs := ["Python", "Leadership"];
    assert "Python" in xs;
    assert Without(xs, "Python") == ["Leadership"] by {
      assert xs[1..] == ["Leadership"];
      assert Without(["Leadership"], "Python") == ["Leadership"] by {
        assert ["Leadership"][1..] == [];
      }
    }
    ToggleTwicePresent(xs, "Python");
  }
}
