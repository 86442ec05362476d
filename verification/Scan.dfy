/**
Bounded ordered scans of the storage port, over keys of any type placed by `pos`.
*/
module Scan {

  predicate Distinct<T(==)>(s: seq<T>) {
    forall i, j :: 0 <= i < j < |s| ==> s[i] != s[j]
  }

  function Max(a: int, b: int): int {
    if a >= b then a else b
  }

  ghost predicate Injective<T>(pos: T -> real, s: set<T>) {
    forall j, k :: j in s && k in s && pos(j) == pos(k) ==> j == k
  }

  /** `page` lists, in order, the first `limit` keys of `s`. */
  ghost predicate IsFirst<T>(page: seq<T>, s: set<T>, pos: T -> real, limit: nat) {
    && |page| <= limit
    && (forall i, j :: 0 <= i < j < |page| ==> pos(page[i]) < pos(page[j]))
    && (forall k :: k in page ==> k in s)
    && (forall k :: k in s && k !in page ==>
          |page| == limit && (forall i :: 0 <= i < |page| ==> pos(page[i]) < pos(k)))
  }

  lemma {:induction false} LeastExists<T>(s: set<T>, pos: T -> real)
    requires s != {}
    ensures exists m :: m in s && forall k :: k in s ==> pos(m) <= pos(k)
  {
    var x :| x in s;
    var rest := s - {x};
    if rest == {} {
      assert s == {x};
    } else {
      LeastExists(rest, pos);
      var y :| y in rest && forall k :: k in rest ==> pos(y) <= pos(k);
      var m := if pos(x) < pos(y) then x else y;
      assert m in s && forall k :: k in s ==> pos(m) <= pos(k) by {
        assert forall k :: k in s ==> k == x || k in rest;
      }
    }
  }

  lemma {:induction false} GreatestExists<T>(s: set<T>, pos: T -> real)
    requires s != {}
    ensures exists m :: m in s && forall k :: k in s ==> pos(k) <= pos(m)
  {
    var x :| x in s;
    var rest := s - {x};
    if rest == {} {
      assert s == {x};
    } else {
      GreatestExists(rest, pos);
      var y :| y in rest && forall k :: k in rest ==> pos(k) <= pos(y);
      var m := if pos(x) > pos(y) then x else y;
      assert m in s && forall k :: k in s ==> pos(k) <= pos(m) by {
        assert forall k :: k in s ==> k == x || k in rest;
      }
    }
  }

  /** A forward scan: the storage port's bounded `list`, over the keys its bounds select. */
  method First<T(==)>(s: set<T>, pos: T -> real, limit: nat) returns (page: seq<T>)
    requires Injective(pos, s)
    ensures IsFirst(page, s, pos, limit)
  {
    page := [];
    var rest := s;
    while |page| < limit && rest != {}
      invariant rest <= s && |page| <= limit
      invariant forall k :: k in s <==> k in rest || k in page
      invariant Ascending(page, pos)
      invariant forall i, k :: 0 <= i < |page| && k in rest ==> pos(page[i]) < pos(k)
      decreases rest
    {
      LeastExists(rest, pos);
      var m :| m in rest && forall k :: k in rest ==> pos(m) <= pos(k);
      page := page + [m];
      rest := rest - {m};
    }
  }

  ghost predicate Ascending<T>(page: seq<T>, pos: T -> real) {
    forall i, j :: 0 <= i < j < |page| ==> pos(page[i]) < pos(page[j])
  }

  /** All of `s`, in order. */
  method Sort<T(==)>(s: set<T>, pos: T -> real) returns (page: seq<T>)
    requires Injective(pos, s)
    ensures Ascending(page, pos) && forall k :: k in page <==> k in s
  {
    page := [];
    var rest := s;
    while rest != {}
      invariant rest <= s
      invariant forall k :: k in s <==> k in rest || k in page
      invariant Ascending(page, pos)
      invariant forall i, k :: 0 <= i < |page| && k in rest ==> pos(page[i]) < pos(k)
      decreases rest
    {
      LeastExists(rest, pos);
      var m :| m in rest && forall k :: k in rest ==> pos(m) <= pos(k);
      page := page + [m];
      rest := rest - {m};
    }
  }

  /** `top` holds the `n` greatest keys of `s`. */
  ghost predicate IsTop<T>(top: set<T>, s: set<T>, pos: T -> real, n: nat) {
    && top <= s
    && |top| == (if |s| < n then |s| else n)
    && forall x, y :: x in top && y in s && y !in top ==> pos(y) < pos(x)
  }

  lemma SubsetSize<T>(a: set<T>, b: set<T>)
    requires a <= b
    ensures |a| <= |b|
    ensures |a| == |b| ==> a == b
  {
    assert b == a + (b - a);
  }

  lemma {:induction false} ListedSize<T>(page: seq<T>)
    requires Distinct(page)
    ensures |set x | x in page| == |page|
  {
    if |page| > 0 {
      var init, last := page[..|page| - 1], page[|page| - 1];
      assert page == init + [last];
      ListedSize(init);
      assert last !in init && (set x | x in page) == (set x | x in init) + {last};
    }
  }

  lemma TopUnique<T>(t: set<T>, u: set<T>, s: set<T>, pos: T -> real, n: nat)
    requires IsTop(t, s, pos, n) && IsTop(u, s, pos, n)
    ensures t == u
  {
    if x :| x in t && x !in u {
      if y :| y in u && y !in t {
        assert false;
      }
      SubsetSize(u, t);
    } else {
      SubsetSize(t, u);
    }
  }

  /** Dropping keys that are not among the greatest leaves the greatest unchanged. */
  lemma TopStable<T>(t: set<T>, s: set<T>, s': set<T>, pos: T -> real, n: nat)
    requires IsTop(t, s, pos, n) && t <= s' <= s
    ensures IsTop(t, s', pos, n)
  {
    SubsetSize(s', s);
    SubsetSize(t, s');
  }

  /** The `n` greatest keys of `s`. */
  ghost function Top<T>(s: set<T>, pos: T -> real, n: nat): (top: set<T>)
    requires Injective(pos, s)
    ensures IsTop(top, s, pos, n)
    decreases n
  {
    if n == 0 || s == {} then {}
    else
      GreatestExists(s, pos);
      var m :| m in s && forall k :: k in s ==> pos(k) <= pos(m);
      {m} + Top(s - {m}, pos, n - 1)
  }

  /** A bounded reverse scan. */
  method Last<T(==)>(s: set<T>, pos: T -> real, n: nat) returns (top: set<T>)
    requires Injective(pos, s)
    ensures top == Top(s, pos, n)
  {
    top := {};
    var rest := s;
    while |top| < n && rest != {}
      invariant rest !! top && s == rest + top
      invariant |top| <= n
      invariant forall x, y :: x in top && y in rest ==> pos(y) < pos(x)
      decreases rest
    {
      GreatestExists(rest, pos);
      var m :| m in rest && forall k :: k in rest ==> pos(k) <= pos(m);
      top := top + {m};
      rest := rest - {m};
    }
    assert |s| == |rest| + |top|;
    TopUnique(top, Top(s, pos, n), s, pos, n);
  }
}
