/** The order in which the scheduler visits check IDs.

    Go compares strings byte by byte; on UTF-8 text that is the same as comparing
    code points, which is what `Less` does on Dafny characters. */
module Lex {

  /** `a` sorts strictly before `b`. */
  predicate Less(a: string, b: string) {
    if b == "" then false
    else if a == "" then true
    else if a[0] != b[0] then a[0] < b[0]
    else Less(a[1..], b[1..])
  }

  /** `a` is a proper prefix of `b`, or at the first place where they differ it has the smaller character. */
  ghost predicate FirstDifference(a: string, b: string, n: int) {
    && 0 <= n <= |a| && n <= |b| && a[..n] == b[..n]
    && (if n == |a| then n < |b| else n < |b| && a[n] < b[n])
  }

  /** That is the order. */
  lemma {:induction false} LessIff(a: string, b: string)
    ensures Less(a, b) <==> exists n :: FirstDifference(a, b, n)
  {
    if a == "" || b == "" {
      assert Less(a, b) ==> FirstDifference(a, b, 0);
    } else if a[0] != b[0] {
      assert Less(a, b) ==> FirstDifference(a, b, 0);
    } else {
      LessIff(a[1..], b[1..]);
      if n :| FirstDifference(a[1..], b[1..], n) {
        assert a[..n + 1] == [a[0]] + a[1..][..n] && b[..n + 1] == [b[0]] + b[1..][..n];
        assert FirstDifference(a, b, n + 1);
      }
      if n :| FirstDifference(a, b, n) {
        assert n > 0;
        assert a[1..][..n - 1] == a[..n][1..] && b[1..][..n - 1] == b[..n][1..];
        assert FirstDifference(a[1..], b[1..], n - 1);
      }
    }
  }

  lemma {:induction false} Irreflexive(a: string)
    ensures !Less(a, a)
  {
    if a == "" {
    } else {
      Irreflexive(a[1..]);
    }
  }

  lemma {:induction false} Transitive(a: string, b: string, c: string)
    requires Less(a, b) && Less(b, c)
    ensures Less(a, c)
  {
    if a == "" {
    } else if a[0] == b[0] && b[0] == c[0] {
      Transitive(a[1..], b[1..], c[1..]);
    }
  }

  lemma {:induction false} Total(a: string, b: string)
    ensures a == b || Less(a, b) || Less(b, a)
  {
    if a == "" || b == "" {
    } else if a[0] == b[0] {
      Total(a[1..], b[1..]);
      assert a == [a[0]] + a[1..] && b == [b[0]] + b[1..];
    }
  }

  lemma Asymmetric(a: string, b: string)
    requires Less(a, b)
    ensures a != b && !Less(b, a)
  {
    Irreflexive(a);
    if Less(b, a) {
      Transitive(a, b, a);
    }
  }

  /** Strictly ascending, hence free of duplicates. */
  ghost predicate Sorted(s: seq<string>) {
    forall i, j :: 0 <= i < j < |s| ==> Less(s[i], s[j])
  }

  ghost function Elems(s: seq<string>): set<string> {
    set x | x in s
  }

  lemma SortedHead(s: seq<string>, x: string)
    requires Sorted(s) && s != [] && x in s
    ensures x == s[0] || Less(s[0], x)
    ensures x != s[0] ==> x in s[1..]
    ensures x in s[1..] ==> x != s[0]
  {
    var i :| 0 <= i < |s| && s[i] == x;
    if x in s[1..] {
      var j :| 0 <= j < |s[1..]| && s[1..][j] == x;
      Asymmetric(s[0], s[j + 1]);
    }
  }

  /** A set of IDs has only one ascending listing: the order a map yields its keys
      in cannot be seen after sorting. */
  lemma {:induction false} SortedUnique(s: seq<string>, t: seq<string>)
    requires Sorted(s) && Sorted(t) && Elems(s) == Elems(t)
    ensures s == t
  {
    assert s != [] ==> s[0] in Elems(t);
    assert t != [] ==> t[0] in Elems(s);
    if s != [] && t != [] {
      assert s[0] in Elems(t) && t[0] in Elems(s);
      SortedHead(s, t[0]);
      SortedHead(t, s[0]);
      if s[0] != t[0] { Asymmetric(s[0], t[0]); }
      forall x ensures x in Elems(s[1..]) <==> x in Elems(t[1..]) {
        if x in s[1..] { assert x in Elems(s); SortedHead(s, x); SortedHead(t, x); }
        if x in t[1..] { assert x in Elems(t); SortedHead(t, x); SortedHead(s, x); }
      }
      SortedUnique(s[1..], t[1..]);
      assert s == [s[0]] + s[1..] && t == [t[0]] + t[1..];
    }
  }

  ghost predicate IsLeast(m: string, keys: set<string>) {
    m in keys && forall x :: x in keys ==> x == m || Less(m, x)
  }

  lemma {:induction false} LeastExists(keys: set<string>) returns (m: string)
    requires keys != {}
    ensures IsLeast(m, keys)
  {
    var k :| k in keys;
    if keys == {k} {
      m := k;
    } else {
      var n := LeastExists(keys - {k});
      Total(k, n);
      m := if Less(k, n) then k else n;
      forall x | x in keys ensures x == m || Less(m, x) {
        if x != k && x != n && m == k { Transitive(k, n, x); }
      }
    }
  }

  ghost function Least(keys: set<string>): (m: string)
    requires keys != {}
    ensures IsLeast(m, keys)
  {
    assert exists m :: IsLeast(m, keys) by { var m := LeastExists(keys); }
    var m :| IsLeast(m, keys);
    m
  }

  lemma ConsElems(m: string, rest: seq<string>)
    ensures Elems([m] + rest) == {m} + Elems(rest)
  {
    forall x ensures x in Elems([m] + rest) <==> x in {m} + Elems(rest) {
      assert x in [m] + rest <==> x == m || x in rest;
    }
  }

  /** The ascending listing of a set of IDs. */
  ghost function SortedIds(keys: set<string>): (ids: seq<string>)
    ensures Sorted(ids) && Elems(ids) == keys
  {
    if keys == {} then []
    else
      var m := Least(keys);
      var rest := SortedIds(keys - {m});
      ConsElems(m, rest);
      assert forall i :: 0 <= i < |rest| ==> rest[i] in Elems(rest);
      [m] + rest
  }

  lemma SortedIdsMember(keys: set<string>, x: string)
    ensures x in SortedIds(keys) <==> x in keys
  {
    assert x in Elems(SortedIds(keys)) <==> x in keys;
  }

  /** `sortedKeys` of the runner: collect the keys in whatever order the map gives
      them, insert each in its place. */
  method SortedKeys(keys: set<string>) returns (ids: seq<string>)
    ensures ids == SortedIds(keys)
  {
    ids := [];
    var rest := keys;
    while rest != {}
      invariant rest <= keys
      invariant Sorted(ids) && Elems(ids) == keys - rest
      decreases rest
    {
      var k :| k in rest;
      ghost var before := ids;
      assert k !in Elems(ids);
      var i := 0;
      while i < |ids| && Less(ids[i], k)
        invariant 0 <= i <= |ids|
        invariant forall j :: 0 <= j < i ==> Less(ids[j], k)
      {
        i := i + 1;
      }
      InsertKeepsSorted(ids, i, k);
      ids := ids[..i] + [k] + ids[i..];
      rest := rest - {k};
      assert Elems(ids) == Elems(before) + {k};
    }
    SortedUnique(ids, SortedIds(keys));
  }

  lemma InsertKeepsSorted(ids: seq<string>, i: nat, k: string)
    requires Sorted(ids) && i <= |ids| && k !in Elems(ids)
    requires forall j :: 0 <= j < i ==> Less(ids[j], k)
    requires i < |ids| ==> !Less(ids[i], k)
    ensures Sorted(ids[..i] + [k] + ids[i..])
    ensures Elems(ids[..i] + [k] + ids[i..]) == Elems(ids) + {k}
  {
    InsertedElems(ids, i, k);
    forall j | i <= j < |ids| ensures Less(k, ids[j]) {
      assert ids[i] in Elems(ids);
      Total(ids[i], k);
      if j > i { Transitive(k, ids[i], ids[j]); }
    }
    InsertedSorted(ids, i, k);
  }

  lemma InsertedElems(ids: seq<string>, i: nat, k: string)
    requires i <= |ids|
    ensures Elems(ids[..i] + [k] + ids[i..]) == Elems(ids) + {k}
  {
    var r := ids[..i] + [k] + ids[i..];
    assert ids == ids[..i] + ids[i..];
    forall x ensures x in Elems(r) <==> x in Elems(ids) + {k} {
      assert x in r <==> x in ids[..i] || x == k || x in ids[i..];
      assert x in ids <==> x in ids[..i] || x in ids[i..];
    }
  }

  lemma InsertedSorted(ids: seq<string>, i: nat, k: string)
    requires Sorted(ids) && i <= |ids|
    requires forall j :: 0 <= j < i ==> Less(ids[j], k)
    requires forall j :: i <= j < |ids| ==> Less(k, ids[j])
    ensures Sorted(ids[..i] + [k] + ids[i..])
  {
    var r := ids[..i] + [k] + ids[i..];
    forall a, b | 0 <= a < b < |r| ensures Less(r[a], r[b]) {
      assert r[a] == if a < i then ids[a] else if a == i then k else ids[a - 1];
      assert r[b] == if b < i then ids[b] else if b == i then k else ids[b - 1];
    }
  }
}
