/**
The token ring: virtual nodes in ascending token order.
*/
module Ring {
  import opened Codec

  datatype VNode = VNode(token: nat, node: NodeId)

  predicate Sorted(r: seq<VNode>) {
    forall i, j :: 0 <= i < j < |r| ==> r[i].token <= r[j].token
  }

  /** `bisect_left`: how many vnodes lie strictly before a token. */
  function Lower(r: seq<VNode>, token: int): (i: nat)
    ensures i <= |r|
    ensures i < |r| ==> r[i].token >= token
    ensures forall j :: 0 <= j < i ==> r[j].token < token
  {
    if |r| == 0 || r[0].token >= token then 0 else 1 + Lower(r[1..], token)
  }

  /** Where the vnode in charge of a token stands. */
  function SuccessorIndex(r: seq<VNode>, token: int): (i: nat)
    requires |r| > 0
    ensures i < |r|
  {
    var i := Lower(r, token);
    if i == |r| then 0 else i
  }

  function Successor(r: seq<VNode>, token: int): VNode
    requires |r| > 0
  {
    r[SuccessorIndex(r, token)]
  }

  lemma LowerUnique(r: seq<VNode>, token: int, i: nat)
    requires Sorted(r) && i <= |r|
    requires i > 0 ==> r[i - 1].token < token
    requires i < |r| ==> r[i].token >= token
    ensures Lower(r, token) == i
  {
    var k := Lower(r, token);
    assert forall j :: 0 <= j < i ==> r[j].token <= r[i - 1].token;
    assert forall j :: i <= j < |r| ==> r[i].token <= r[j].token;
    assert k == i;
  }

  predicate AtLeast(r: seq<VNode>, token: nat) {
    forall i :: 0 <= i < |r| ==> r[i].token >= token
  }

  lemma SortedTail(r: seq<VNode>)
    requires |r| > 0
    ensures Sorted(r) <==> AtLeast(r[1..], r[0].token) && Sorted(r[1..])
  {
    var t := r[1..];
    assert forall i :: 0 < i < |r| ==> r[i] == t[i - 1];
    if AtLeast(t, r[0].token) && Sorted(t) {
      forall i, j | 0 <= i < j < |r|
        ensures r[i].token <= r[j].token
      {
        assert r[j] == t[j - 1];
        if i > 0 {
          assert r[i] == t[i - 1];
        }
      }
    }
    if Sorted(r) {
      assert forall i :: 0 <= i < |t| ==> t[i] == r[i + 1];
    }
  }

  /** The ring without one node's vnodes. */
  function Without(r: seq<VNode>, node: NodeId): seq<VNode> {
    if |r| == 0 then []
    else (if r[0].node == node then [] else [r[0]]) + Without(r[1..], node)
  }

  lemma {:induction false} WithoutBounded(r: seq<VNode>, node: NodeId, token: nat)
    requires AtLeast(r, token)
    ensures AtLeast(Without(r, node), token)
  {
    if |r| > 0 {
      WithoutBounded(r[1..], node, token);
    }
  }

  lemma {:induction false} WithoutSorted(r: seq<VNode>, node: NodeId)
    requires Sorted(r)
    ensures Sorted(Without(r, node))
  {
    if |r| > 0 {
      SortedTail(r);
      WithoutSorted(r[1..], node);
      WithoutBounded(r[1..], node, r[0].token);
      if r[0].node != node {
        var kept := Without(r, node);
        assert kept[1..] == Without(r[1..], node);
        SortedTail(kept);
      }
    }
  }

  /** Dropping a node takes its vnodes and only those. */
  lemma {:induction false} WithoutCounts(r: seq<VNode>, node: NodeId, v: VNode)
    ensures multiset(Without(r, node))[v] == if v.node == node then 0 else multiset(r)[v]
  {
    if |r| > 0 {
      var rest := Without(r[1..], node);
      WithoutCounts(r[1..], node, v);
      HeadCounts(r);
      if r[0].node == node {
        assert Without(r, node) == rest;
      } else {
        assert Without(r, node) == [r[0]] + rest;
        JoinCounts(r[0], rest);
      }
    }
  }

  /** Merge two sorted lists, the first one first among equal tokens. */
  method MergeSorted(a: seq<VNode>, b: seq<VNode>) returns (merged: seq<VNode>)
    requires Sorted(a) && Sorted(b)
    ensures merged == Merged(a, b)
    ensures Sorted(merged) && multiset(merged) == multiset(a) + multiset(b)
  {
    merged := [];
    var i, j := 0, 0;
    while i < |a| && j < |b|
      invariant i <= |a| && j <= |b|
      invariant merged + Merged(a[i..], b[j..]) == Merged(a, b)
    {
      MergedUnfolds(a, b, i, j, merged);
      if a[i].token <= b[j].token {
        merged := merged + [a[i]];
        i := i + 1;
      } else {
        merged := merged + [b[j]];
        j := j + 1;
      }
    }
    assert Merged(a[i..], b[j..]) == a[i..] + b[j..];
    if i < |a| {
      merged := merged + a[i..];
    }
    if j < |b| {
      merged := merged + b[j..];
    }
    MergedSorted(a, b);
    MergedContents(a, b);
  }

  function Merged(a: seq<VNode>, b: seq<VNode>): seq<VNode> {
    if |a| == 0 then b
    else if |b| == 0 then a
    else if a[0].token <= b[0].token then [a[0]] + Merged(a[1..], b)
    else [b[0]] + Merged(a, b[1..])
  }

  lemma MergedUnfolds(a: seq<VNode>, b: seq<VNode>, i: nat, j: nat, done: seq<VNode>)
    requires i < |a| && j < |b|
    ensures done + Merged(a[i..], b[j..]) ==
            if a[i].token <= b[j].token then done + [a[i]] + Merged(a[i + 1..], b[j..])
            else done + [b[j]] + Merged(a[i..], b[j + 1..])
  {
    assert a[i..][1..] == a[i + 1..] && b[j..][1..] == b[j + 1..];
  }

  lemma {:induction false} MergedBounded(a: seq<VNode>, b: seq<VNode>, token: nat)
    requires AtLeast(a, token) && AtLeast(b, token)
    ensures AtLeast(Merged(a, b), token)
    decreases |a| + |b|
  {
    if |a| > 0 && |b| > 0 {
      if a[0].token <= b[0].token {
        MergedBounded(a[1..], b, token);
      } else {
        MergedBounded(a, b[1..], token);
      }
    }
  }

  lemma {:induction false} MergedSorted(a: seq<VNode>, b: seq<VNode>)
    requires Sorted(a) && Sorted(b)
    ensures Sorted(Merged(a, b))
    decreases |a| + |b|
  {
    if |a| > 0 && |b| > 0 {
      SortedTail(a);
      SortedTail(b);
      SortedTail(Merged(a, b));
      if a[0].token <= b[0].token {
        MergedSorted(a[1..], b);
        MergedBounded(a[1..], b, a[0].token);
        assert Merged(a, b)[1..] == Merged(a[1..], b);
      } else {
        MergedSorted(a, b[1..]);
        MergedBounded(a, b[1..], b[0].token);
        assert Merged(a, b)[1..] == Merged(a, b[1..]);
      }
    }
  }

  lemma HeadCounts(r: seq<VNode>)
    requires |r| > 0
    ensures multiset(r) == multiset{r[0]} + multiset(r[1..])
  {
    assert r == [r[0]] + r[1..];
  }

  lemma JoinCounts(v: VNode, r: seq<VNode>)
    ensures multiset([v] + r) == multiset{v} + multiset(r)
  {
  }

  lemma {:induction false} MergedContents(a: seq<VNode>, b: seq<VNode>)
    ensures multiset(Merged(a, b)) == multiset(a) + multiset(b)
    decreases |a| + |b|
  {
    if |a| > 0 && |b| > 0 {
      if a[0].token <= b[0].token {
        MergedContents(a[1..], b);
        HeadCounts(a);
        JoinCounts(a[0], Merged(a[1..], b));
      } else {
        MergedContents(a, b[1..]);
        HeadCounts(b);
        JoinCounts(b[0], Merged(a, b[1..]));
      }
    }
  }

  /** Vnodes at one token are the same vnode. */
  predicate TokensDecide(r: seq<VNode>) {
    forall i, j :: 0 <= i < j < |r| && r[i].token == r[j].token ==> r[i] == r[j]
  }

  lemma SameFirst(r: seq<VNode>, s: seq<VNode>)
    requires Sorted(r) && Sorted(s) && multiset(r) == multiset(s) && TokensDecide(r) && |r| > 0 && |s| > 0
    ensures r[0] == s[0]
  {
    assert r[0] in multiset(s) && s[0] in multiset(r);
    assert r[0] in s && s[0] in r;
    var i :| 0 <= i < |r| && r[i] == s[0];
    var j :| 0 <= j < |s| && s[j] == r[0];
    assert s[0].token <= s[j].token && r[0].token <= r[i].token;
  }

  /** Two sorted rings of the same vnodes are the same ring when no two of them share a token. */
  lemma {:induction false} SortedUnique(r: seq<VNode>, s: seq<VNode>)
    requires Sorted(r) && Sorted(s) && multiset(r) == multiset(s) && TokensDecide(r)
    ensures r == s
  {
    assert |r| == |multiset(r)| == |multiset(s)| == |s|;
    if |r| > 0 {
      SameFirst(r, s);
      HeadCounts(r);
      HeadCounts(s);
      SortedTail(r);
      SortedTail(s);
      var t, u := r[1..], s[1..];
      assert multiset(t) == multiset(u) by {
        assert multiset{r[0]} + multiset(t) == multiset{r[0]} + multiset(u);
        CancelOne(r[0], multiset(t), multiset(u));
      }
      assert TokensDecide(t);
      SortedUnique(t, u);
      assert r == [r[0]] + t && s == [s[0]] + u;
    }
  }

  lemma CancelOne(v: VNode, m: multiset<VNode>, n: multiset<VNode>)
    requires multiset{v} + m == multiset{v} + n
    ensures m == n
  {
    forall x
      ensures m[x] == n[x]
    {
      assert (multiset{v} + m)[x] == multiset{v}[x] + m[x];
    }
  }

  ghost predicate Before(r: seq<VNode>, a: VNode, b: VNode) {
    forall i, j :: 0 <= i < |r| && 0 <= j < |r| && r[i] == a && r[j] == b ==> i < j
  }

  /** A merge puts the first list before the second among equal tokens. */
  lemma {:induction false} MergedBefore(x: seq<VNode>, y: seq<VNode>, a: VNode, b: VNode)
    requires Sorted(x) && a.token <= b.token && a !in y && b !in x
    ensures Before(Merged(x, y), a, b)
    decreases |x| + |y|
  {
    if |x| > 0 && |y| > 0 {
      SortedTail(x);
      if x[0].token <= y[0].token {
        MergedBefore(x[1..], y, a, b);
        BeforeHead(x[0], Merged(x[1..], y), a, b);
      } else {
        MergedBefore(x, y[1..], a, b);
        if y[0] == b {
          MergedOrigin(x, y[1..], a);
          assert forall i :: 0 <= i < |x| ==> x[0].token <= x[i].token;
        }
        BeforeHead(y[0], Merged(x, y[1..]), a, b);
      }
    }
  }

  lemma BeforeHead(v: VNode, r: seq<VNode>, a: VNode, b: VNode)
    requires Before(r, a, b) && (v == b ==> a !in r && a != b)
    ensures Before([v] + r, a, b)
  {
    var s := [v] + r;
    assert forall i :: 0 < i < |s| ==> s[i] == r[i - 1];
  }

  lemma {:induction false} MergedOrigin(x: seq<VNode>, y: seq<VNode>, v: VNode)
    ensures v in Merged(x, y) <==> v in x || v in y
  {
    MergedContents(x, y);
    assert v in Merged(x, y) <==> v in multiset(Merged(x, y));
    assert v in x <==> v in multiset(x);
    assert v in y <==> v in multiset(y);
  }

  lemma NotBothWays(r: seq<VNode>, a: VNode, b: VNode)
    requires Before(r, a, b) && a in r && b in r
    ensures !Before(r, b, a)
  {
    var i :| 0 <= i < |r| && r[i] == a;
    var j :| 0 <= j < |r| && r[j] == b;
    assert i < j;
  }
}
