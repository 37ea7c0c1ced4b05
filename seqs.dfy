/** Sequence helpers shared by the table operations: concatenation of blocks,
    pandas' `unique()` (first-seen order) and a left join. */
module Seqs {
  import opened Wrappers

  /** Concatenation of a sequence of blocks, as `pd.concat` does with row blocks. */
  function Flatten<T>(blocks: seq<seq<T>>): seq<T>
  {
    if blocks == [] then [] else blocks[0] + Flatten(blocks[1..])
  }

  lemma {:induction false} FlattenAppend<T>(a: seq<seq<T>>, b: seq<seq<T>>)
    ensures Flatten(a + b) == Flatten(a) + Flatten(b)
  {
    if a == [] {
      assert a + b == b;
    } else {
      assert (a + b)[1..] == a[1..] + b;
      FlattenAppend(a[1..], b);
    }
  }

  lemma FlattenSnoc<T>(blocks: seq<seq<T>>, b: seq<T>)
    ensures Flatten(blocks + [b]) == Flatten(blocks) + b
  {
    FlattenAppend(blocks, [b]);
    assert [b][1..] == [];
  }
  /** A split of the tail into two parts stays a split when the head joins one part. */
  lemma SplitStep<T>(h: T, tail: seq<T>, a: seq<T>, b: seq<T>)
    requires multiset(tail) == multiset(a) + multiset(b)
    ensures multiset([h] + tail) == multiset([h] + a) + multiset(b)
    ensures multiset([h] + tail) == multiset(b) + multiset([h] + a)
  {
  }

  /** Moving the next block from the pending tail onto the flattened prefix keeps the whole. */
  lemma FlattenStep<T>(blocks: seq<seq<T>>, b: seq<T>, rest: seq<T>, pending: seq<T>, whole: seq<T>)
    requires pending == b + rest && Flatten(blocks) + pending == whole
    ensures Flatten(blocks + [b]) + rest == whole
  {
    FlattenSnoc(blocks, b);
    assert (Flatten(blocks) + b) + rest == Flatten(blocks) + (b + rest);
  }


  lemma {:induction false} FlattenMember<T>(blocks: seq<seq<T>>, x: T)
    ensures x in Flatten(blocks) <==> exists k :: 0 <= k < |blocks| && x in blocks[k]
  {
    if blocks != [] {
      FlattenMember(blocks[1..], x);
      if x in Flatten(blocks[1..]) {
        var k :| 0 <= k < |blocks[1..]| && x in blocks[1..][k];
        assert x in blocks[k + 1];
      }
      if exists k :: 0 <= k < |blocks| && x in blocks[k] {
        var k :| 0 <= k < |blocks| && x in blocks[k];
        if k > 0 { assert x in blocks[1..][k - 1]; }
      }
    }
  }

  /** Blocks of one common length n: the flat sequence is |blocks| * n long and
      block j, position i sits at j * n + i. */
  lemma {:induction false} FlattenUniform<T>(blocks: seq<seq<T>>, n: nat)
    requires forall k :: 0 <= k < |blocks| ==> |blocks[k]| == n
    ensures |Flatten(blocks)| == |blocks| * n
    ensures forall j, i :: 0 <= j < |blocks| && 0 <= i < n ==> PlacedAt(blocks, n, j, i)
  {
    FlattenUniformLength(blocks, n);
    forall j, i | 0 <= j < |blocks| && 0 <= i < n
      ensures PlacedAt(blocks, n, j, i)
    {
      FlattenUniformAt(blocks, n, j, i);
    }
  }

  /** Element i of block j sits at j * n + i of the flat sequence. */
  ghost predicate PlacedAt<T>(blocks: seq<seq<T>>, n: nat, j: nat, i: nat)
    requires j < |blocks| && i < |blocks[j]|
  {
    j * n + i < |Flatten(blocks)| && Flatten(blocks)[j * n + i] == blocks[j][i]
  }

  lemma {:induction false} FlattenUniformLength<T>(blocks: seq<seq<T>>, n: nat)
    requires forall k :: 0 <= k < |blocks| ==> |blocks[k]| == n
    ensures |Flatten(blocks)| == |blocks| * n
  {
    if blocks != [] {
      FlattenUniformLength(blocks[1..], n);
      assert |blocks| * n == n + (|blocks| - 1) * n;
    }
  }

  lemma {:induction false} FlattenUniformAt<T>(blocks: seq<seq<T>>, n: nat, j: nat, i: nat)
    requires forall k :: 0 <= k < |blocks| ==> |blocks[k]| == n
    requires j < |blocks| && i < n
    ensures j * n + i < |Flatten(blocks)| && Flatten(blocks)[j * n + i] == blocks[j][i]
  {
    FlattenUniformLength(blocks, n);
    FlattenUniformLength(blocks[1..], n);
    if j > 0 {
      FlattenUniformAt(blocks[1..], n, j - 1, i);
      assert j * n + i == n + ((j - 1) * n + i);
    }
  }

  lemma EmptyWithoutMembers<T>(s: seq<T>)
    ensures (forall y :: y !in s) ==> s == []
  {
    if s != [] {
      assert s[0] in s;
    }
  }

  /** Index of the first occurrence of x in s. */
  function FirstIndex<T(==)>(s: seq<T>, x: T): (k: nat)
    requires x in s
    ensures k < |s| && s[k] == x
    ensures forall j :: 0 <= j < k ==> s[j] != x
  {
    if s[0] == x then 0 else 1 + FirstIndex(s[1..], x)
  }

  predicate NoDuplicates<T(==)>(s: seq<T>)
  {
    forall i, j :: 0 <= i < j < |s| ==> s[i] != s[j]
  }

  /** pandas `Series.unique()`: each distinct value once, in order of first appearance. */
  function FirstSeen<T(==,!new)>(s: seq<T>): (r: seq<T>)
    ensures forall x :: x in r <==> x in s
    ensures NoDuplicates(r)
  {
    if s == [] then []
    else
      var p := FirstSeen(s[..|s| - 1]);
      assert forall x :: x in s <==> x in s[..|s| - 1] || x == s[|s| - 1];
      if s[|s| - 1] in p then p else p + [s[|s| - 1]]
  }

  lemma FirstIndexOfPrefix<T>(s: seq<T>, n: nat, x: T)
    requires n <= |s| && x in s[..n]
    ensures FirstIndex(s, x) == FirstIndex(s[..n], x)
  {
    var a, b := FirstIndex(s, x), FirstIndex(s[..n], x);
    assert s[b] == s[..n][b] == x;
    assert a <= b;
    assert s[..n][a] == s[a];
  }

  /** The values of FirstSeen(s) appear in the order of their first occurrence in s. */
  lemma {:induction false} FirstSeenOrder<T(!new)>(s: seq<T>)
    ensures forall a, b :: 0 <= a < b < |FirstSeen(s)| ==> FirstIndex(s, FirstSeen(s)[a]) < FirstIndex(s, FirstSeen(s)[b])
  {
    if s != [] {
      var n := |s| - 1;
      var p := FirstSeen(s[..n]);
      FirstSeenOrder(s[..n]);
      forall y | y in p ensures FirstIndex(s, y) == FirstIndex(s[..n], y) && FirstIndex(s, y) < n {
        FirstIndexOfPrefix(s, n, y);
      }
      if s[n] !in p {
        assert s[n] !in s[..n];
        assert FirstIndex(s, s[n]) == n;
      }
    }
  }

  /** The rows of `right` whose key equals k, in their order. */
  function Matches<R(!new), K(==)>(right: seq<R>, rk: R -> K, k: K): (ms: seq<R>)
    ensures forall x :: x in ms <==> x in right && rk(x) == k
  {
    if right == [] then []
    else (if rk(right[0]) == k then [right[0]] else []) + Matches(right[1..], rk, k)
  }

  /** Keys of `right` that identify one row each. */
  predicate UniqueKeys<R, K(==)>(right: seq<R>, rk: R -> K)
  {
    forall i, j :: 0 <= i < |right| && 0 <= j < |right| && rk(right[i]) == rk(right[j]) ==> i == j
  }

  lemma {:induction false} MatchesNone<R(!new), K>(right: seq<R>, rk: R -> K, k: K)
    requires forall x :: x in right ==> rk(x) != k
    ensures Matches(right, rk, k) == []
  {
    if right != [] {
      MatchesNone(right[1..], rk, k);
    }
  }

  /** At most one row of `right` has key `k`. */
  predicate KeyAtMostOnce<R, K(==)>(right: seq<R>, rk: R -> K, k: K)
  {
    forall i, j :: 0 <= i < |right| && 0 <= j < |right| && rk(right[i]) == k && rk(right[j]) == k ==> i == j
  }

  lemma {:induction false} MatchesOfUniqueKeys<R(!new), K>(right: seq<R>, rk: R -> K, k: K)
    requires KeyAtMostOnce(right, rk, k)
    ensures |Matches(right, rk, k)| <= 1
  {
    if right != [] {
      assert KeyAtMostOnce(right[1..], rk, k) by {
        forall i, j | 0 <= i < |right[1..]| && 0 <= j < |right[1..]| && rk(right[1..][i]) == k && rk(right[1..][j]) == k
          ensures i == j
        {
          assert rk(right[i + 1]) == k && rk(right[j + 1]) == k;
        }
      }
      MatchesOfUniqueKeys(right[1..], rk, k);
      if rk(right[0]) == k {
        forall x | x in right[1..] ensures rk(x) != k {
          var j :| 0 <= j < |right[1..]| && right[1..][j] == x;
          assert right[j + 1] == x;
        }
        MatchesNone(right[1..], rk, k);
      }
    }
  }

  /** The rows one left row becomes in a left join: one per match, or one with no match. */
  function JoinOne<L, R(!new), K(==)>(l: L, right: seq<R>, lk: L -> K, rk: R -> K): seq<(L, Option<R>)>
  {
    var ms := Matches(right, rk, lk(l));
    if ms == [] then [(l, None)] else seq(|ms|, i requires 0 <= i < |ms| => (l, Some(ms[i])))
  }

  /** `left.merge(right, how='left')`: left rows in their order, each paired with every
      matching right row in right order, or with None when nothing matches. */
  function LeftJoin<L, R(!new), K(==)>(left: seq<L>, right: seq<R>, lk: L -> K, rk: R -> K): seq<(L, Option<R>)>
  {
    Flatten(JoinBlocks(left, right, lk, rk))
  }

  function JoinBlocks<L, R(!new), K(==)>(left: seq<L>, right: seq<R>, lk: L -> K, rk: R -> K): (b: seq<seq<(L, Option<R>)>>)
    ensures |b| == |left| && forall i :: 0 <= i < |left| ==> b[i] == JoinOne(left[i], right, lk, rk)
  {
    seq(|left|, i requires 0 <= i < |left| => JoinOne(left[i], right, lk, rk))
  }

  /** The right row a unique key finds, if any. */
  function Lookup<R(!new), K(==)>(right: seq<R>, rk: R -> K, k: K): (r: Option<R>)
    ensures r.Some? ==> r.value in right && rk(r.value) == k
    ensures r.None? <==> forall x :: x in right ==> rk(x) != k
  {
    var ms := Matches(right, rk, k);
    if ms == [] then None else assert ms[0] in ms; Some(ms[0])
  }

  /** With unique right keys a left join keeps the left rows one for one, in order. */
  lemma LeftJoinOfUniqueKeys<L, R(!new), K>(left: seq<L>, right: seq<R>, lk: L -> K, rk: R -> K)
    requires UniqueKeys(right, rk)
    ensures |LeftJoin(left, right, lk, rk)| == |left|
    ensures forall i :: 0 <= i < |left| ==> LeftJoin(left, right, lk, rk)[i] == (left[i], Lookup(right, rk, lk(left[i])))
  {
    forall i | 0 <= i < |left| ensures KeyAtMostOnce(right, rk, lk(left[i])) { }
    LeftJoinOfKeysFoundOnce(left, right, lk, rk);
  }

  /** The same holds when only the keys the left rows look up are unique on the right. */
  lemma LeftJoinOfKeysFoundOnce<L, R(!new), K>(left: seq<L>, right: seq<R>, lk: L -> K, rk: R -> K)
    requires forall i :: 0 <= i < |left| ==> KeyAtMostOnce(right, rk, lk(left[i]))
    ensures |LeftJoin(left, right, lk, rk)| == |left|
    ensures forall i :: 0 <= i < |left| ==> LeftJoin(left, right, lk, rk)[i] == (left[i], Lookup(right, rk, lk(left[i])))
  {
    var blocks := JoinBlocks(left, right, lk, rk);
    forall k | 0 <= k < |blocks| ensures blocks[k] == [(left[k], Lookup(right, rk, lk(left[k])))] {
      MatchesOfUniqueKeys(right, rk, lk(left[k]));
    }
    FlattenUniform(blocks, 1);
    forall i | 0 <= i < |left| ensures LeftJoin(left, right, lk, rk)[i] == (left[i], Lookup(right, rk, lk(left[i]))) {
      assert PlacedAt(blocks, 1, i, 0);
    }
  }

  /** Every row of a left join comes from a left row and a matching right row (or none),
      and every left row is represented. */
  lemma LeftJoinMembers<L(!new), R(!new), K>(left: seq<L>, right: seq<R>, lk: L -> K, rk: R -> K, p: (L, Option<R>))
    ensures p in LeftJoin(left, right, lk, rk) <==>
      p.0 in left &&
      (if p.1.Some? then p.1.value in right && rk(p.1.value) == lk(p.0)
       else forall x :: x in right ==> rk(x) != lk(p.0))
  {
    var blocks := JoinBlocks(left, right, lk, rk);
    FlattenMember(blocks, p);
    if p.0 in left {
      var i :| 0 <= i < |left| && left[i] == p.0;
      var ms := Matches(right, rk, lk(p.0));
      if p.1.Some? && p.1.value in right && rk(p.1.value) == lk(p.0) {
        var j :| 0 <= j < |ms| && ms[j] == p.1.value;
        assert blocks[i][j] == p;
      }
      if p.1.None? && forall x :: x in right ==> rk(x) != lk(p.0) {
        MatchesNone(right, rk, lk(p.0));
        assert blocks[i][0] == p;
      }
    }
  }

  lemma NoDuplicatesAppend<T>(a: seq<T>, b: seq<T>)
    requires NoDuplicates(a) && NoDuplicates(b)
    requires forall x :: x in a ==> x !in b
    ensures NoDuplicates(a + b)
  {
    forall i, j | 0 <= i < j < |a + b| ensures (a + b)[i] != (a + b)[j] {
      if i < |a| && j >= |a| {
        assert (a + b)[i] in a && (a + b)[j] == b[j - |a|];
      }
    }
  }

  /** Concatenating duplicate-free, pairwise disjoint blocks gives a duplicate-free sequence. */
  lemma {:induction false} FlattenNoDuplicates<T>(blocks: seq<seq<T>>)
    requires forall k :: 0 <= k < |blocks| ==> NoDuplicates(blocks[k])
    requires forall a, b, x :: 0 <= a < b < |blocks| && x in blocks[a] ==> x !in blocks[b]
    ensures NoDuplicates(Flatten(blocks))
  {
    if blocks != [] {
      var rest := blocks[1..];
      assert forall k :: 0 <= k < |rest| ==> rest[k] == blocks[k + 1];
      FlattenNoDuplicates(rest);
      forall x | x in blocks[0] ensures x !in Flatten(rest) {
        FlattenMember(rest, x);
      }
      NoDuplicatesAppend(blocks[0], Flatten(rest));
    }
  }
}
