/** The `rdfs:subClassOf*` query of maptomethod.py: the zero-or-more property
    path of section 9.4 of the SPARQL 1.1 Query Language recommendation, with
    the parent bound and the entity free. Over a finite edge set this is the
    reflexive-transitive closure towards the parent. */
module SubClass {

  /** Edge (c, p) stands for a triple `c rdfs:subClassOf p`. */
  type Edges<T(==)> = set<(T, T)>

  /** `chain` follows edges from its first class up to its last. */
  ghost predicate IsChain<T>(E: Edges<T>, chain: seq<T>) {
    |chain| >= 1 && forall i :: 0 <= i < |chain| - 1 ==> (chain[i], chain[i + 1]) in E
  }

  /** `c rdfs:subClassOf* p`: a chain of zero or more edges leads from c to p. */
  ghost predicate Reaches<T(!new)>(E: Edges<T>, c: T, p: T) {
    exists chain :: IsChain(E, chain) && chain[0] == c && chain[|chain| - 1] == p
  }

  /** Every class the closure can contain: the parent and the subjects of edges. */
  function Candidates<T(==)>(E: Edges<T>, p: T): set<T> {
    (set e | e in E :: e.0) + {p}
  }

  /** One round: add every direct subclass of a class already found. */
  function Step<T(==)>(E: Edges<T>, R: set<T>): set<T> {
    R + (set e | e in E && e.1 in R :: e.0)
  }

  /** Prefixing a chain with one edge. */
  lemma ReachesByEdge<T(!new)>(E: Edges<T>, c: T, q: T, p: T)
    requires (c, q) in E && Reaches(E, q, p)
    ensures Reaches(E, c, p)
  {
    var chain :| IsChain(E, chain) && chain[0] == q && chain[|chain| - 1] == p;
    var longer := [c] + chain;
    assert longer[1..] == chain;
    assert IsChain(E, longer);
  }

  /** A subset missing one member of its superset is strictly smaller. */
  lemma StrictSubsetSmaller<T>(A: set<T>, B: set<T>, x: T)
    requires A <= B && x in B && x !in A
    ensures |A| < |B|
  {
    var C := B - A;
    assert C + A == B && C * A == {};
    assert x in C;
    assert |C| >= 1;
  }

  /** Rounds of `Step` until nothing new is found. Every round that changes `R`
      takes at least one candidate, so the rounds stop even when the edges
      form a cycle. */
  function Grow<T(==, !new)>(E: Edges<T>, p: T, R: set<T>): (r: set<T>)
    requires p in R && R <= Candidates(E, p)
    requires forall c :: c in R ==> Reaches(E, c, p)
    ensures R <= r <= Candidates(E, p)
    ensures forall c :: c in r ==> Reaches(E, c, p)
    ensures forall e :: e in E && e.1 in r ==> e.0 in r
    decreases |Candidates(E, p) - R|
  {
    var next := Step(E, R);
    if next == R then R
    else
      assert forall c :: c in next ==> Reaches(E, c, p) by {
        forall c | c in next ensures Reaches(E, c, p) {
          if c !in R {
            var e :| e in E && e.1 in R && e.0 == c;
            ReachesByEdge(E, c, e.1, p);
          }
        }
      }
      assert |Candidates(E, p) - next| < |Candidates(E, p) - R| by {
        var U := Candidates(E, p);
        var x :| x in next && x !in R;
        assert x in U - R && x !in U - next;
        StrictSubsetSmaller(U - next, U - R, x);
      }
      Grow(E, p, next)
  }

  /** A set closed under taking subclasses that holds `p` holds every class reaching `p`. */
  lemma {:induction false} ClosedHoldsChain<T(!new)>(E: Edges<T>, p: T, r: set<T>, chain: seq<T>)
    requires p in r && forall e :: e in E && e.1 in r ==> e.0 in r
    requires IsChain(E, chain) && chain[|chain| - 1] == p
    ensures chain[0] in r
    decreases |chain|
  {
    if |chain| > 1 {
      ClosedHoldsChain(E, p, r, chain[1..]);
      assert (chain[0], chain[1]) in E;
    }
  }

  /** `SELECT ?entity WHERE {?entity rdfs:subClassOf* ?parent}` with `?parent` bound to `p`. */
  function Closure<T(==, !new)>(E: Edges<T>, p: T): (r: set<T>)
    ensures p in r
    ensures forall c :: c in r <==> Reaches(E, c, p)
    ensures r <= Candidates(E, p)
  {
    assert Reaches(E, p, p) by {
      assert IsChain(E, [p]);
    }
    var r := Grow(E, p, {p});
    assert forall c :: Reaches(E, c, p) ==> c in r by {
      forall c | Reaches(E, c, p) ensures c in r {
        var chain :| IsChain(E, chain) && chain[0] == c && chain[|chain| - 1] == p;
        ClosedHoldsChain(E, p, r, chain);
      }
    }
    r
  }

  /** The closure is transitive: the closure of any member lies inside it. */
  lemma ClosureTransitive<T(!new)>(E: Edges<T>, p: T, q: T)
    requires q in Closure(E, p)
    ensures Closure(E, q) <= Closure(E, p)
  {
    forall c | c in Closure(E, q) ensures c in Closure(E, p) {
      var c1 :| IsChain(E, c1) && c1[0] == c && c1[|c1| - 1] == q;
      var c2 :| IsChain(E, c2) && c2[0] == q && c2[|c2| - 1] == p;
      var joined := c1 + c2[1..];
      assert IsChain(E, joined) by {
        forall i | 0 <= i < |joined| - 1 ensures (joined[i], joined[i + 1]) in E {
          if i >= |c1| - 1 {
            assert joined[i] == c2[i - |c1| + 1];
            assert joined[i + 1] == c2[i - |c1| + 2];
          }
        }
      }
    }
  }

  /** A two-step hierarchy a < b < c: the closure of c is exactly {a, b, c}. */
  lemma ClosureOfLine<T(!new)>(a: T, b: T, c: T)
    ensures Closure({(a, b), (b, c)}, c) == {a, b, c}
  {
    var E := {(a, b), (b, c)};
    var r := Closure(E, c);
    assert IsChain(E, [b, c]);
    assert IsChain(E, [a, b, c]);
    assert r <= Candidates(E, c) == {a, b, c};
  }

  /** A cycle a < b < a: the closure still terminates and holds both classes. */
  lemma ClosureOfCycle<T(!new)>(a: T, b: T)
    ensures Closure({(a, b), (b, a)}, a) == {a, b}
  {
    var E := {(a, b), (b, a)};
    assert IsChain(E, [b, a]);
    assert Closure(E, a) <= Candidates(E, a) == {a, b};
  }
}
