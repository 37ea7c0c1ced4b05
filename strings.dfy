/** Python's ordering of `str` values (code point by code point, a proper prefix
    first) and `sorted(set(...))` over it. */
module StringOrder {
  import opened Seqs

  /** a < b for Python strings. */
  predicate Below(a: string, b: string)
    decreases |a|
  {
    if |b| == 0 then false
    else if |a| == 0 then true
    else if a[0] != b[0] then a[0] < b[0]
    else Below(a[1..], b[1..])
  }

  lemma {:induction false} BelowIrreflexive(a: string)
    ensures !Below(a, a)
  {
    if |a| > 0 {
      BelowIrreflexive(a[1..]);
    }
  }

  lemma {:induction false} BelowTransitive(a: string, b: string, c: string)
    requires Below(a, b) && Below(b, c)
    ensures Below(a, c)
  {
    if |a| > 0 && a[0] == b[0] && b[0] == c[0] {
      BelowTransitive(a[1..], b[1..], c[1..]);
    }
  }

  lemma {:induction false} BelowTotal(a: string, b: string)
    ensures a == b || Below(a, b) || Below(b, a)
  {
    if |a| > 0 && |b| > 0 && a[0] == b[0] {
      BelowTotal(a[1..], b[1..]);
      if a[1..] == b[1..] {
        assert a == [a[0]] + a[1..] && b == [b[0]] + b[1..];
      }
    }
  }

  lemma BelowAsymmetric(a: string, b: string)
    requires Below(a, b)
    ensures !Below(b, a)
  {
    if Below(b, a) {
      BelowTransitive(a, b, a);
      BelowIrreflexive(a);
    }
  }

  /** Ascending and free of duplicates. */
  predicate StrictlySorted(s: seq<string>)
  {
    forall i, j :: 0 <= i < j < |s| ==> Below(s[i], s[j])
  }

  /** Insertion of x into a strictly sorted sequence, keeping one copy of x. */
  function Insert(x: string, s: seq<string>): (r: seq<string>)
    requires StrictlySorted(s)
    ensures StrictlySorted(r)
    ensures forall y :: y in r <==> y in s || y == x
  {
    if s == [] then [x]
    else if x == s[0] then s
    else if Below(x, s[0]) then
      InsertFront(x, s);
      [x] + s
    else
      BelowTotal(x, s[0]);
      var t := Insert(x, s[1..]);
      InsertAfter(s[0], t, x, s[1..]);
      [s[0]] + t
  }

  lemma InsertFront(x: string, s: seq<string>)
    requires StrictlySorted(s) && s != [] && Below(x, s[0])
    ensures StrictlySorted([x] + s)
  {
    forall j | 1 <= j < |s| ensures Below(x, s[j]) {
      BelowTransitive(x, s[0], s[j]);
    }
  }

  lemma InsertAfter(h: string, t: seq<string>, x: string, rest: seq<string>)
    requires StrictlySorted(t) && StrictlySorted([h] + rest) && Below(h, x)
    requires forall y :: y in t <==> y in rest || y == x
    ensures StrictlySorted([h] + t)
  {
    forall j | 0 <= j < |t| ensures Below(h, t[j]) {
      assert t[j] in t;
      if t[j] != x {
        var k :| 0 <= k < |rest| && rest[k] == t[j];
        assert ([h] + rest)[0] == h && ([h] + rest)[k + 1] == t[j];
      }
    }
  }

  /** `sorted(set(s))`: the distinct strings of s in ascending order. */
  function SortedUnique(s: seq<string>): (r: seq<string>)
    ensures StrictlySorted(r)
    ensures forall y :: y in r <==> y in s
  {
    if s == [] then [] else Insert(s[0], SortedUnique(s[1..]))
  }

  /** A set has only one strictly sorted listing: SortedUnique does not depend on the
      order or the repetitions of its input. */
  lemma {:induction false} SortedListingIsUnique(a: seq<string>, b: seq<string>)
    requires StrictlySorted(a) && StrictlySorted(b)
    requires forall y :: y in a <==> y in b
    ensures a == b
  {
    if a != [] && b != [] {
      assert a[0] in b && b[0] in a;
      var i :| 0 <= i < |b| && b[i] == a[0];
      var j :| 0 <= j < |a| && a[j] == b[0];
      if i > 0 && j > 0 {
        BelowAsymmetric(b[0], a[0]);
      }
      assert a[0] == b[0];
      forall y ensures y in a[1..] <==> y in b[1..] {
        assert b == [b[0]] + b[1..] && a == [a[0]] + a[1..];
        if y in a[1..] {
          var k :| 0 <= k < |a[1..]| && a[1..][k] == y;
          assert Below(a[0], a[k + 1]);
          BelowIrreflexive(a[0]);
          assert y in b && y != b[0];
        }
        if y in b[1..] {
          var k :| 0 <= k < |b[1..]| && b[1..][k] == y;
          assert Below(b[0], b[k + 1]);
          BelowIrreflexive(b[0]);
          assert y in a && y != a[0];
        }
      }
      SortedListingIsUnique(a[1..], b[1..]);
      assert a == [a[0]] + a[1..] && b == [b[0]] + b[1..];
    } else {
      EmptyWithoutMembers(a);
      EmptyWithoutMembers(b);
    }
  }

  lemma StrictlySortedHasNoDuplicates(s: seq<string>)
    requires StrictlySorted(s)
    ensures forall i, j :: 0 <= i < j < |s| ==> s[i] != s[j]
  {
    forall i, j | 0 <= i < j < |s| ensures s[i] != s[j] {
      BelowIrreflexive(s[i]);
    }
  }
}
