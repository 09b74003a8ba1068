/** Small shared vocabulary: optional values, results, the byte order of
    strings, and bags summed over finite sets. */
module Base {
  datatype Option<+T> = None | Some(value: T)

  datatype Result<+T, +E> = Success(value: T) | Failure(error: E)
  {
    predicate IsFailure() {
      Failure?
    }

    function PropagateFailure<U>(): Result<U, E>
      requires Failure?
    {
      Failure(error)
    }

    function Extract(): T
      requires Success?
    {
      value
    }
  }

  function Lookup<K, V>(m: map<K, V>, k: K): Option<V> {
    if k in m then Some(m[k]) else None
  }

  lemma MapsEqual<K, V>(m: map<K, V>, n: map<K, V>)
    requires forall k :: Lookup(m, k) == Lookup(n, k)
    ensures m == n
  {
    forall k
      ensures k in m <==> k in n
      ensures k in m ==> m[k] == n[k]
    {
      assert Lookup(m, k) == Lookup(n, k);
    }
  }

  /** Strict lexicographic order of strings. */
  predicate StringLess(a: string, b: string) {
    b != [] && (a == [] || a[0] < b[0] || (a[0] == b[0] && StringLess(a[1..], b[1..])))
  }

  /** The order of strings: what they begin with in common does not matter; then the
      end of one or the smaller character comes first. */
  lemma {:induction false} StringOrder(common: string, a: string, b: string)
    ensures StringLess(common + a, common + b) <==>
            b != [] && (a == [] || a[0] < b[0] || (a[0] == b[0] && StringLess(a, b)))
  {
    if common == [] {
      assert common + a == a && common + b == b;
    } else {
      assert (common + a)[1..] == common[1..] + a && (common + b)[1..] == common[1..] + b;
      StringOrder(common[1..], a, b);
    }
  }

  lemma {:induction false} StringLessTotal(a: string, b: string)
    ensures StringLess(a, b) || a == b || StringLess(b, a)
  {
    if a != [] && b != [] && a[0] == b[0] {
      StringLessTotal(a[1..], b[1..]);
      assert a == [a[0]] + a[1..] && b == [b[0]] + b[1..];
    }
  }

  lemma {:induction false} StringLessAsymmetric(a: string, b: string)
    requires StringLess(a, b)
    ensures !StringLess(b, a) && a != b
  {
    if a != [] && a[0] == b[0] {
      StringLessAsymmetric(a[1..], b[1..]);
    }
  }

  lemma {:induction false} StringLessTransitive(a: string, b: string, c: string)
    requires StringLess(a, b) && StringLess(b, c)
    ensures StringLess(a, c)
  {
    if a != [] && a[0] == b[0] && b[0] == c[0] {
      StringLessTransitive(a[1..], b[1..], c[1..]);
    }
  }

  /** The bag that collects what `f` contributes for every member of `s`. */
  ghost function Sum<T, A>(s: set<T>, f: T -> multiset<A>): multiset<A> {
    if s == {} then multiset{}
    else var x :| x in s; f(x) + Sum(s - {x}, f)
  }

  lemma {:induction false} SumTakesAny<T, A>(s: set<T>, f: T -> multiset<A>, x: T)
    requires x in s
    ensures Sum(s, f) == f(x) + Sum(s - {x}, f)
    decreases s
  {
    var y :| y in s && Sum(s, f) == f(y) + Sum(s - {y}, f);
    if y != x {
      SumTakesAny(s - {y}, f, x);
      SumTakesAny(s - {x}, f, y);
      assert s - {y} - {x} == s - {x} - {y};
    }
  }

  lemma {:induction false} SumMember<T, A>(s: set<T>, f: T -> multiset<A>, a: A)
    ensures a in Sum(s, f) <==> exists x :: x in s && a in f(x)
    decreases s
  {
    if s != {} {
      var y :| y in s && Sum(s, f) == f(y) + Sum(s - {y}, f);
      SumMember(s - {y}, f, a);
      if x :| x in s && a in f(x) {
        assert x == y || x in s - {y};
      }
    }
  }

  /** `order` lists the members of `s`, each once. */
  ghost predicate Visits<T(!new)>(order: seq<T>, s: set<T>) {
    && (forall x :: x in order <==> x in s)
    && (forall i, j :: 0 <= i < j < |order| ==> order[i] != order[j])
  }

  /** What `f` gives for the members of `order`, one after the other. */
  ghost function Flat<T, A>(order: seq<T>, f: T -> seq<A>): seq<A> {
    if order == [] then [] else Flat(order[..|order| - 1], f) + f(order[|order| - 1])
  }

  ghost function Bag<T, A>(f: T -> seq<A>): T -> multiset<A> {
    x => multiset(f(x))
  }

  lemma FlatNext<T, A>(order: seq<T>, f: T -> seq<A>, x: T)
    ensures Flat(order + [x], f) == Flat(order, f) + f(x)
  {
    assert (order + [x])[..|order|] == order;
  }

  lemma VisitsNext<T(!new)>(order: seq<T>, s: set<T>, rest: set<T>, x: T)
    requires Visits(order, s - rest) && x in rest && rest <= s
    ensures Visits(order + [x], s - (rest - {x}))
  {
    assert s - (rest - {x}) == (s - rest) + {x};
  }

  /** Whatever the order, the same bag comes out. */
  lemma {:induction false} FlatIsSum<T(!new), A>(order: seq<T>, s: set<T>, f: T -> seq<A>)
    requires Visits(order, s)
    ensures multiset(Flat(order, f)) == Sum(s, Bag(f))
  {
    if order != [] {
      var last, init := order[|order| - 1], order[..|order| - 1];
      assert order == init + [last];
      assert forall x :: x in init <==> x in s - {last};
      FlatIsSum(init, s - {last}, f);
      SumTakesAny(s, Bag(f), last);
    } else {
      assert s == {};
    }
  }

  lemma {:induction false} SumCount<T, A>(s: set<T>, f: T -> multiset<A>, g: T -> multiset<A>, a: A, b: A)
    requires forall x :: x in s ==> f(x)[a] == g(x)[b]
    ensures Sum(s, f)[a] == Sum(s, g)[b]
    decreases s
  {
    if s != {} {
      var y :| y in s && Sum(s, f) == f(y) + Sum(s - {y}, f);
      SumCount(s - {y}, f, g, a, b);
      SumTakesAny(s, g, y);
    }
  }
}
