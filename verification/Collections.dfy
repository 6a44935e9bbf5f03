/** Small facts about sets and sequences shared by the other modules. */
module Collections {

  datatype Option<+T> = None | Some(value: T)

  ghost predicate Distinct<T>(s: seq<T>)
  {
    forall i, j :: 0 <= i < j < |s| ==> s[i] != s[j]
  }

  lemma PrefixSnoc<T>(s: seq<T>, i: nat)
    requires i < |s|
    ensures s[..i + 1] == s[..i] + [s[i]]
  {}

  lemma {:induction false} SubsetCardinality<T>(a: set<T>, b: set<T>)
    requires a <= b
    ensures |a| <= |b|
  {
    if a != {} {
      var x :| x in a;
      SubsetCardinality(a - {x}, b - {x});
    }
  }

  /** Distinct members are counted by the length. */
  lemma {:induction false} CountDistinct<T>(s: seq<T>)
    requires Distinct(s)
    ensures |set x | x in s| == |s|
  {
    if s != [] {
      var n := |s| - 1;
      assert s == s[..n] + [s[n]];
      CountDistinct(s[..n]);
      assert (set x | x in s) == (set x | x in s[..n]) + {s[n]};
      assert s[n] !in s[..n];
    }
  }

  /** Distinct keys of a map are not more than its entries. */
  lemma DistinctKeysFit<K, V>(s: seq<K>, m: map<K, V>)
    requires Distinct(s) && forall i :: 0 <= i < |s| ==> s[i] in m
    ensures |s| <= |m|
  {
    CountDistinct(s);
    SubsetCardinality((set x | x in s), m.Keys);
    assert |m.Keys| == |m|;
  }

  lemma SomeMember<T>(s: seq<T>)
    ensures s != [] ==> exists x :: x in s
  {
    assert s != [] ==> s[0] in s;
  }

  lemma OneLess<T>(p: multiset<T>, q: multiset<T>, x: T)
    requires p + multiset{x} == q + multiset{x}
    ensures p == q
  {
    assert p == p + multiset{x} - multiset{x};
    assert q == q + multiset{x} - multiset{x};
  }

  lemma MembersWithout<T>(t: seq<T>, i: nat)
    requires i < |t|
    ensures multiset(t) == multiset(t[..i] + t[i + 1..]) + multiset{t[i]}
  {
    var a, b := t[..i], t[i + 1..];
    assert t == a + [t[i]] + b;
  }

  /** Equal multisets stay equal when the same element leaves both. */
  lemma SameRemoved<T>(s: seq<T>, t: seq<T>, i: nat)
    requires multiset(s) == multiset(t) && s != [] && i < |t| && t[i] == s[|s| - 1]
    ensures multiset(s[..|s| - 1]) == multiset(t[..i] + t[i + 1..])
  {
    MembersWithout(s, |s| - 1);
    MembersWithout(t, i);
    assert s[..|s| - 1] + s[|s|..] == s[..|s| - 1];
    OneLess(multiset(s[..|s| - 1]), multiset(t[..i] + t[i + 1..]), t[i]);
  }

  lemma MemberIndex<T>(s: seq<T>, t: seq<T>, x: T) returns (i: nat)
    requires multiset(s) == multiset(t) && x in s
    ensures i < |t| && t[i] == x
  {
    assert x in multiset(s);
    assert x in multiset(t);
    i :| 0 <= i < |t| && t[i] == x;
  }

  /** The numbers below n. */
  ghost function Below(n: nat): (all: set<nat>)
    ensures |all| == n && forall j: nat :: j in all <==> j < n
  {
    if n == 0 then {} else Below(n - 1) + {n - 1}
  }

  lemma SameMembers<T>(items: seq<T>, all: set<T>)
    requires forall j :: j in items <==> j in all
    ensures (set x | x in items) == all
  {}

  lemma DistinctPrefix<T>(s: seq<T>, i: nat)
    requires Distinct(s) && i < |s|
    ensures s[i] !in s[..i]
  {}

  lemma DistinctSnoc<T>(s: seq<T>, x: T)
    requires Distinct(s) && x !in s
    ensures Distinct(s + [x])
  {}

  // ---- what selecting and adding up mean, in terms of positions -------------------------------

  /** `at` lists exactly the positions below n that satisfy p, in increasing order. */
  ghost predicate Picks(at: seq<nat>, n: nat, p: nat -> bool)
  {
    && (forall i, j :: 0 <= i < j < |at| ==> at[i] < at[j])
    && forall j: nat :: j in at <==> j < n && p(j)
  }

  lemma PicksSnoc(at: seq<nat>, n: nat, p: nat -> bool) returns (more: seq<nat>)
    requires Picks(at, n, p)
    ensures Picks(more, n + 1, p) && more == if p(n) then at + [n] else at
  {
    more := if p(n) then at + [n] else at;
    forall i | 0 <= i < |at| ensures at[i] < n { assert at[i] in at; }
    forall j: nat ensures j in more <==> j < n + 1 && p(j) {
      assert j in at <==> j < n && p(j);
    }
  }

  /** The sum of w over the positions below n. */
  ghost function SumBelow(n: nat, w: nat -> real): real
  {
    if n == 0 then 0.0 else SumBelow(n - 1, w) + w(n - 1)
  }

  /** A quantity that starts at zero and grows by w at each position is the sum of w. */
  lemma {:induction false} GrowsBy(n: nat, f: nat -> real, w: nat -> real)
    requires f(0) == 0.0 && forall i: nat :: i < n ==> f(i + 1) == f(i) + w(i)
    ensures f(n) == SumBelow(n, w)
  {
    if n > 0 {
      GrowsBy(n - 1, f, w);
      assert f(n - 1 + 1) == f(n - 1) + w(n - 1);
    }
  }
}
