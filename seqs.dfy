/** List comprehensions and sums, as Python writes them: `[x for x in s if p(x)]`
    and `sum(f(x) for x in s)`. */
module Seqs {

  /** Regrouping a concatenation; called where the solver would otherwise expand both sides. */
  lemma ConcatAssoc<T>(a: seq<T>, b: seq<T>, c: seq<T>)
    ensures a + b + c == a + (b + c)
  {
  }

  /** A prefix one longer is the prefix and the next element. */
  lemma TakeStep<T>(s: seq<T>, k: nat)
    requires k < |s|
    ensures s[..k + 1] == s[..k] + [s[k]]
  {
  }

  /** The elements of `s` satisfying `p`, in their original order. */
  function Filter<T>(s: seq<T>, p: T -> bool): (r: seq<T>)
    ensures |r| <= |s|
    ensures forall i :: 0 <= i < |r| ==> r[i] in s && p(r[i])
    ensures forall i :: 0 <= i < |s| && p(s[i]) ==> s[i] in r
  {
    if s == [] then []
    else
      assert s == [s[0]] + s[1..];
      (if p(s[0]) then [s[0]] else []) + Filter(s[1..], p)
  }

  /** An element of `s` is selected exactly when it satisfies the predicate. */
  lemma FilterMembership<T>(s: seq<T>, p: T -> bool, i: int)
    requires 0 <= i < |s|
    ensures s[i] in Filter(s, p) <==> p(s[i])
  {
    if s[i] in Filter(s, p) {
      var k :| 0 <= k < |Filter(s, p)| && Filter(s, p)[k] == s[i];
    }
  }

  function SumBy<T>(s: seq<T>, f: T -> int): int
  {
    if s == [] then 0 else f(s[0]) + SumBy(s[1..], f)
  }

  lemma {:induction false} SumByAppend<T>(a: seq<T>, b: seq<T>, f: T -> int)
    ensures SumBy(a + b, f) == SumBy(a, f) + SumBy(b, f)
  {
    if a == [] {
      assert a + b == b;
    } else {
      assert (a + b)[1..] == a[1..] + b;
      SumByAppend(a[1..], b, f);
    }
  }

  lemma {:induction false} FilterAppend<T>(a: seq<T>, b: seq<T>, p: T -> bool)
    ensures Filter(a + b, p) == Filter(a, p) + Filter(b, p)
  {
    if a == [] {
      assert a + b == b;
    } else {
      assert (a + b)[1..] == a[1..] + b;
      FilterAppend(a[1..], b, p);
    }
  }

  /** The lists of `ss` joined end to end. */
  function Concat<T>(ss: seq<seq<T>>): seq<T>
  {
    if ss == [] then [] else Concat(ss[..|ss| - 1]) + ss[|ss| - 1]
  }

  lemma {:induction false} ConcatCons<T>(ss: seq<seq<T>>)
    requires ss != []
    ensures Concat(ss) == ss[0] + Concat(ss[1..])
  {
    if |ss| > 1 {
      var init, last := ss[..|ss| - 1], ss[|ss| - 1];
      ConcatCons(init);
      assert init[1..] == ss[1..][..|ss[1..]| - 1];
      assert init[0] == ss[0];
      assert Concat(ss[1..]) == Concat(init[1..]) + last;
      ConcatAssoc(ss[0], Concat(init[1..]), last);
    } else {
      assert ss[..0] == [] && ss[1..] == [];
    }
  }

  /** Filters with predicates that agree on every element of `s` select the same elements. */
  lemma {:induction false} FilterCongruent<T>(s: seq<T>, p: T -> bool, q: T -> bool)
    requires forall i :: 0 <= i < |s| ==> p(s[i]) == q(s[i])
    ensures Filter(s, p) == Filter(s, q)
  {
    if s != [] {
      FilterCongruent(s[1..], p, q);
    }
  }

  lemma {:induction false} FilterAll<T>(s: seq<T>, p: T -> bool)
    requires forall i :: 0 <= i < |s| ==> p(s[i])
    ensures Filter(s, p) == s
  {
    if s != [] {
      FilterAll(s[1..], p);
      assert s == [s[0]] + s[1..];
    }
  }

  lemma {:induction false} FilterNone<T>(s: seq<T>, p: T -> bool)
    requires forall i :: 0 <= i < |s| ==> !p(s[i])
    ensures Filter(s, p) == []
  {
    if s != [] {
      FilterNone(s[1..], p);
    }
  }

  /** `x` satisfies exactly one of the three predicates. */
  predicate ExactlyOne<T>(x: T, a: T -> bool, b: T -> bool, c: T -> bool)
  {
    (a(x) && !b(x) && !c(x)) || (!a(x) && b(x) && !c(x)) || (!a(x) && !b(x) && c(x))
  }

  /** Three filters whose predicates split the elements between them add up to the whole. */
  lemma {:induction false} FilterPartition3<T>(s: seq<T>, a: T -> bool, b: T -> bool, c: T -> bool)
    requires forall i :: 0 <= i < |s| ==> ExactlyOne(s[i], a, b, c)
    ensures multiset(Filter(s, a)) + multiset(Filter(s, b)) + multiset(Filter(s, c)) == multiset(s)
  {
    if s != [] {
      var x, t := s[0], s[1..];
      assert forall i :: 0 <= i < |t| ==> t[i] == s[i + 1];
      FilterPartition3(t, a, b, c);
      assert s == [x] + t;
      assert ExactlyOne(x, a, b, c);
      FilterCons(x, t, a);
      FilterCons(x, t, b);
      FilterCons(x, t, c);
      SplitStep(x, multiset(Filter(t, a)), multiset(Filter(t, b)), multiset(Filter(t, c)), multiset(t),
        multiset(Filter(s, a)), multiset(Filter(s, b)), multiset(Filter(s, c)), a(x), b(x), c(x));
    }
  }

  /** The multiset step of the partition: `x` goes to exactly one of the three parts. */
  lemma SplitStep<T>(x: T, fa: multiset<T>, fb: multiset<T>, fc: multiset<T>, rest: multiset<T>,
                     ga: multiset<T>, gb: multiset<T>, gc: multiset<T>, pa: bool, pb: bool, pc: bool)
    requires fa + fb + fc == rest
    requires (pa && !pb && !pc) || (!pa && pb && !pc) || (!pa && !pb && pc)
    requires ga == (if pa then multiset{x} else multiset{}) + fa
    requires gb == (if pb then multiset{x} else multiset{}) + fb
    requires gc == (if pc then multiset{x} else multiset{}) + fc
    ensures ga + gb + gc == multiset{x} + rest
  {
  }

  /** The multiset of a filter over `[x] + t`: `x` if it is selected, and the filter over `t`. */
  lemma FilterCons<T>(x: T, t: seq<T>, p: T -> bool)
    ensures multiset(Filter([x] + t, p)) == (if p(x) then multiset{x} else multiset{}) + multiset(Filter(t, p))
  {
    assert ([x] + t)[1..] == t;
  }
}
