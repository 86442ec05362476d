/**
Order-independent fingerprints of sets of versions.

A cell is a count and the xor of the key hashes. The hash itself is a parameter: `of`
gives the cell of a single version.
*/
module Digest {

  const DIGEST_BITS: nat := 128

  /** A digest word, as the set of its one bits. */
  type Word = w: set<nat> | forall b :: b in w ==> b < DIGEST_BITS

  function Xor(a: Word, b: Word): Word {
    (a - b) + (b - a)
  }

  datatype Cell = Cell(count: int, digest: Word)

  const EMPTY: Cell := Cell(0, {})

  function Add(a: Cell, b: Cell): Cell {
    Cell(a.count + b.count, Xor(a.digest, b.digest))
  }

  function Sub(a: Cell, b: Cell): Cell {
    Cell(a.count - b.count, Xor(a.digest, b.digest))
  }

  lemma XorAssociates(a: Word, b: Word, c: Word)
    ensures Xor(Xor(a, b), c) == Xor(a, Xor(b, c))
  {
  }

  lemma XorCommutes(a: Word, b: Word)
    ensures Xor(a, b) == Xor(b, a)
  {
  }

  lemma XorCancels(a: Word, b: Word)
    ensures Xor(Xor(a, b), b) == a
    ensures Xor(a, {}) == a
  {
  }

  lemma AddAssociates(a: Cell, b: Cell, c: Cell)
    ensures Add(Add(a, b), c) == Add(a, Add(b, c))
  {
    XorAssociates(a.digest, b.digest, c.digest);
  }

  lemma AddSwaps(a: Cell, b: Cell, c: Cell)
    ensures Add(Add(a, b), c) == Add(Add(a, c), b)
  {
    XorAssociates(a.digest, b.digest, c.digest);
    XorCommutes(b.digest, c.digest);
    XorAssociates(a.digest, c.digest, b.digest);
  }

  lemma AddCancels(a: Cell, b: Cell)
    ensures Sub(Add(a, b), b) == a
    ensures Add(a, EMPTY) == a
  {
    XorCancels(a.digest, b.digest);
  }

  lemma AddSub(a: Cell, b: Cell, c: Cell)
    ensures Add(a, Sub(b, c)) == Sub(Add(a, b), c)
  {
    XorAssociates(a.digest, b.digest, c.digest);
  }

  /** Combination of the cells of a set, in whatever order. */
  ghost function Sum<T>(f: T -> Cell, s: set<T>): Cell {
    if s == {} then EMPTY
    else
      var x :| x in s;
      Add(Sum(f, s - {x}), f(x))
  }

  lemma {:induction false} SumInsert<T>(f: T -> Cell, s: set<T>, x: T)
    requires x !in s
    ensures Sum(f, s + {x}) == Add(Sum(f, s), f(x))
    decreases |s|
  {
    var t := s + {x};
    var y :| y in t && Sum(f, t) == Add(Sum(f, t - {y}), f(y));
    if y == x {
      assert t - {x} == s;
    } else {
      var u := s - {y};
      assert t - {y} == u + {x} && s == u + {y};
      SumInsert(f, u, x);
      SumInsert(f, u, y);
      AddSwaps(Sum(f, u), f(x), f(y));
    }
  }

  lemma SumRemove<T>(f: T -> Cell, s: set<T>, x: T)
    requires x in s
    ensures Sum(f, s - {x}) == Sub(Sum(f, s), f(x))
  {
    assert s == (s - {x}) + {x};
    SumInsert(f, s - {x}, x);
    AddCancels(Sum(f, s - {x}), f(x));
  }

  lemma {:induction false} SumUnion<T>(f: T -> Cell, s: set<T>, t: set<T>)
    requires s !! t
    ensures Sum(f, s + t) == Add(Sum(f, s), Sum(f, t))
    decreases |t|
  {
    if t == {} {
      assert s + t == s;
      AddCancels(Sum(f, s), EMPTY);
    } else {
      var x :| x in t;
      var u := t - {x};
      assert s + t == (s + u) + {x} && t == u + {x};
      SumUnion(f, s, u);
      SumInsert(f, s + u, x);
      SumInsert(f, u, x);
      AddAssociates(Sum(f, s), Sum(f, u), f(x));
    }
  }

  /** Every single version counts for one. */
  ghost predicate Counting<T(!new)>(of: T -> Cell) {
    forall k :: of(k).count == 1
  }

  lemma {:induction false} SumCount<T>(of: T -> Cell, s: set<T>)
    requires forall k :: k in s ==> of(k).count == 1
    ensures Sum(of, s).count == |s|
  {
    if s != {} {
      var x :| x in s;
      var rest := s - {x};
      assert s == rest + {x};
      SumInsert(of, rest, x);
      SumCount(of, rest);
    }
  }
}
