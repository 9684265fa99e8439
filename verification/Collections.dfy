/** Facts about sets and sequences that several modules share. */
module Collections {

  /** A fixed choice, standing for whichever key a map walk meets first. */
  ghost function First(keys: set<string>): (k: string)
    requires keys != {}
    ensures k in keys
  {
    var k :| k in keys; k
  }

  /** What inserting into a sequence does to its bag of elements. */
  lemma SpliceAddsOne<T>(s: seq<T>, k: nat, x: T)
    requires k <= |s|
    ensures multiset(s[..k] + [x] + s[k..]) == multiset(s) + multiset{x}
  {
    assert s == s[..k] + s[k..];
  }

  /** The head of one listing sits somewhere in the other, and what remains of both is again the same bag. */
  lemma Located<T>(a: seq<T>, b: seq<T>) returns (i: nat)
    requires a != [] && multiset(a) == multiset(b)
    ensures i < |b| && b[i] == a[0]
    ensures multiset(a[1..]) == multiset(b[..i] + b[i + 1..])
  {
    i := IndexOf(b, a[0]);
    BagOfTail(a);
    BagWithout(b, i);
  }

  lemma IndexOf<T>(s: seq<T>, x: T) returns (i: nat)
    requires x in multiset(s)
    ensures i < |s| && s[i] == x
  {
    i :| i < |s| && s[i] == x;
  }

  lemma BagOfTail<T>(s: seq<T>)
    requires s != []
    ensures multiset(s[1..]) == multiset(s) - multiset{s[0]} && s[0] in multiset(s)
  {
    assert s == [s[0]] + s[1..];
  }

  lemma SplitAt<T>(s: seq<T>, i: nat)
    requires i < |s|
    ensures s[..i] + [s[i]] + s[i + 1..] == s
  {
  }

  lemma BagWithout<T>(s: seq<T>, i: nat)
    requires i < |s|
    ensures multiset(s[..i] + s[i + 1..]) == multiset(s) - multiset{s[i]}
  {
    SplitAt(s, i);
  }

  function SumOf<T>(s: seq<T>, f: T -> real): real {
    if s == [] then 0.0 else SumOf(s[..|s| - 1], f) + f(s[|s| - 1])
  }

  lemma {:induction false} SumOfConcat<T>(a: seq<T>, b: seq<T>, f: T -> real)
    ensures SumOf(a + b, f) == SumOf(a, f) + SumOf(b, f)
  {
    if b == [] {
      assert a + b == a;
    } else {
      assert (a + b)[..|a + b| - 1] == a + b[..|b| - 1];
      SumOfConcat(a, b[..|b| - 1], f);
    }
  }

  lemma SumOfThree<T>(p: seq<T>, x: T, q: seq<T>, f: T -> real)
    ensures SumOf(p + [x] + q, f) == f(x) + SumOf(p + q, f)
  {
    SumOfConcat(p + [x], q, f);
    SumOfConcat(p, q, f);
    assert (p + [x])[..|p|] == p;
  }

  lemma SumOfWithout<T>(s: seq<T>, i: nat, f: T -> real)
    requires i < |s|
    ensures SumOf(s, f) == f(s[i]) + SumOf(s[..i] + s[i + 1..], f)
  {
    SplitAt(s, i);
    SumOfThree(s[..i], s[i], s[i + 1..], f);
  }

  /** A sum over a sequence depends on its bag of elements alone. */
  lemma {:induction false} SumOrderFree<T>(a: seq<T>, b: seq<T>, f: T -> real)
    requires multiset(a) == multiset(b)
    ensures SumOf(a, f) == SumOf(b, f)
  {
    if a == [] {
      assert |multiset(b)| == 0;
    } else {
      var i := Located(a, b);
      SumOfWithout(a, 0, f);
      SumOfWithout(b, i, f);
      assert a[..0] + a[1..] == a[1..];
      SumOrderFree(a[1..], b[..i] + b[i + 1..], f);
    }
  }

  ghost predicate Any<T(!new)>(s: seq<T>, p: T -> bool) {
    exists i: nat :: i < |s| && p(s[i])
  }

  lemma AnyOneMore<T(!new)>(s: seq<T>, p: T -> bool)
    requires s != []
    ensures Any(s, p) <==> Any(s[..|s| - 1], p) || p(s[|s| - 1])
  {
    var init := s[..|s| - 1];
    if Any(init, p) {
      var i: nat :| i < |init| && p(init[i]);
      assert p(s[i]);
    }
    if Any(s, p) && !p(s[|s| - 1]) {
      var i: nat :| i < |s| && p(s[i]);
      assert p(init[i]);
    }
  }

  /** The places of a sequence where p holds. */
  ghost function Places<T>(s: seq<T>, p: T -> bool): set<nat> {
    set i: nat | i < |s| && p(s[i])
  }

  lemma PlacesOneMore<T>(s: seq<T>, p: T -> bool)
    requires s != []
    ensures var n := |s| - 1; Places(s, p) == Places(s[..n], p) + (if p(s[n]) then {n} else {})
  {
    var n := |s| - 1;
    assert forall i: nat | i < n :: s[..n][i] == s[i];
  }
}
