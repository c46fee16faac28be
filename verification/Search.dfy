/** Substring search with the conventions of Go's `bytes.Index` and
    `strings.LastIndex` (the first or last position, or -1), and a few facts
    about sequences that are cheaper to call than to rediscover. */
module Search {

  predicate OccursAt<T(==)>(s: seq<T>, p: seq<T>, i: int) {
    0 <= i <= |s| - |p| && s[i..i + |p|] == p
  }

  function IndexFrom<T(==)>(s: seq<T>, p: seq<T>, from: nat): (i: int)
    ensures i == -1 || from <= i <= |s| - |p|
    decreases |s| - from
  {
    if from > |s| - |p| then -1
    else if OccursAt(s, p, from) then from
    else IndexFrom(s, p, from + 1)
  }

  function Index<T(==)>(s: seq<T>, p: seq<T>): (i: int)
    ensures i == -1 || 0 <= i <= |s| - |p|
  {
    IndexFrom(s, p, 0)
  }

  lemma {:induction false} IndexFromSpec<T>(s: seq<T>, p: seq<T>, from: nat)
    ensures var i := IndexFrom(s, p, from);
      && (i >= 0 ==> OccursAt(s, p, i))
      && forall j :: from <= j && (i < 0 || j < i) ==> !OccursAt(s, p, j)
    decreases |s| - from
  {
    if from <= |s| - |p| && !OccursAt(s, p, from) {
      IndexFromSpec(s, p, from + 1);
    }
  }

  /** `Index` is the first occurrence, or -1 when there is none. */
  lemma IndexSpec<T>(s: seq<T>, p: seq<T>)
    ensures var i := Index(s, p);
      && (i >= 0 ==> OccursAt(s, p, i))
      && forall j :: 0 <= j && (i < 0 || j < i) ==> !OccursAt(s, p, j)
  {
    IndexFromSpec(s, p, 0);
  }

  function LastIndexFrom<T(==)>(s: seq<T>, p: seq<T>, from: int): (i: int)
    ensures i == -1 || 0 <= i <= from
    ensures i >= 0 ==> i <= |s| - |p|
    decreases from
  {
    if from < 0 then -1
    else if OccursAt(s, p, from) then from
    else LastIndexFrom(s, p, from - 1)
  }

  function LastIndex<T(==)>(s: seq<T>, p: seq<T>): (i: int)
    ensures i == -1 || 0 <= i <= |s| - |p|
  {
    LastIndexFrom(s, p, |s| - |p|)
  }

  lemma {:induction false} LastIndexFromSpec<T>(s: seq<T>, p: seq<T>, from: int)
    ensures var i := LastIndexFrom(s, p, from);
      && (i >= 0 ==> OccursAt(s, p, i))
      && forall j :: i < j <= from ==> !OccursAt(s, p, j)
    decreases from
  {
    if from >= 0 && !OccursAt(s, p, from) {
      LastIndexFromSpec(s, p, from - 1);
    }
  }

  /** `LastIndex` is the last occurrence, or -1 when there is none. */
  lemma LastIndexSpec<T>(s: seq<T>, p: seq<T>)
    ensures var i := LastIndex(s, p);
      && (i >= 0 ==> OccursAt(s, p, i))
      && forall j :: i < j ==> !OccursAt(s, p, j)
  {
    LastIndexFromSpec(s, p, |s| - |p|);
  }

  /** Looking inside a suffix only shifts positions. */
  lemma OccursInSuffix<T>(s: seq<T>, k: nat, p: seq<T>, i: nat)
    requires k <= |s|
    ensures OccursAt(s[k..], p, i) <==> OccursAt(s, p, k + i)
  {
    if i + |p| <= |s| - k {
      assert s[k..][i..i + |p|] == s[k + i..k + i + |p|];
    }
  }

  /** Appending changes no occurrence that already fits. */
  lemma OccursInPrefix<T>(s: seq<T>, t: seq<T>, p: seq<T>, i: nat)
    requires i + |p| <= |s|
    ensures OccursAt(s + t, p, i) <==> OccursAt(s, p, i)
  {
    assert (s + t)[i..i + |p|] == s[i..i + |p|];
  }

  /** Cutting off a front in which no occurrence starts shifts the first occurrence. */
  lemma IndexDrop<T>(s: seq<T>, p: seq<T>, k: nat)
    requires k <= |s|
    requires Index(s, p) < 0 || k <= Index(s, p)
    ensures Index(s[k..], p) == if Index(s, p) < 0 then -1 else Index(s, p) - k
  {
    IndexSpec(s, p);
    IndexSpec(s[k..], p);
    var i, d := Index(s, p), Index(s[k..], p);
    if d >= 0 {
      OccursInSuffix(s, k, p, d);
    }
    if i >= 0 {
      OccursInSuffix(s, k, p, i - k);
    }
  }

  /** Appending never moves the first occurrence; a new one ends in the new part. */
  lemma IndexAppend<T>(s: seq<T>, t: seq<T>, p: seq<T>)
    ensures Index(s, p) >= 0 ==> Index(s + t, p) == Index(s, p)
    ensures Index(s, p) < 0 ==> Index(s + t, p) < 0 || Index(s + t, p) + |p| > |s|
  {
    IndexSpec(s, p);
    IndexSpec(s + t, p);
    var i, a := Index(s, p), Index(s + t, p);
    if i >= 0 {
      OccursInPrefix(s, t, p, i);
    }
    if a >= 0 && a + |p| <= |s| {
      OccursInPrefix(s, t, p, a);
    }
  }

  function Concat<T>(chunks: seq<seq<T>>): seq<T> {
    if chunks == [] then [] else chunks[0] + Concat(chunks[1..])
  }

  lemma ConcatCons<T>(first: seq<T>, rest: seq<seq<T>>)
    ensures Concat([first] + rest) == first + Concat(rest)
  {
    assert ([first] + rest)[1..] == rest;
  }

  lemma ConcatTwo<T>(a: seq<T>, b: seq<T>)
    ensures Concat([a, b]) == a + b
  {
    assert [a, b][1..] == [b] && [b][1..] == [];
    assert Concat([b]) == b + Concat([b][1..]);
    NilNeutral(b);
  }

  lemma {:induction false} ConcatSnoc<T>(chunks: seq<seq<T>>, last: seq<T>)
    ensures Concat(chunks + [last]) == Concat(chunks) + last
  {
    if chunks == [] {
      NilNeutral(last);
      NilNeutral([last]);
      assert [last][1..] == [];
    } else {
      ConcatSnoc(chunks[1..], last);
      assert (chunks + [last])[1..] == chunks[1..] + [last];
      Associative(chunks[0], Concat(chunks[1..]), last);
    }
  }

  // ---- Sequence algebra ----

  lemma Associative<T>(a: seq<T>, b: seq<T>, c: seq<T>)
    ensures a + (b + c) == (a + b) + c
  {
  }

  lemma SliceAppend<T>(s: seq<T>, t: seq<T>, k: nat)
    requires k <= |s|
    ensures (s + t)[k..] == s[k..] + t
    ensures (s + t)[..k] == s[..k]
  {
  }

  lemma JoinDrop<T>(s: seq<T>, t: seq<T>)
    ensures (s + t)[|s|..] == t
  {
  }

  lemma SliceSlice<T>(s: seq<T>, k: nat, m: nat)
    requires k + m <= |s|
    ensures s[k..][m..] == s[k + m..]
  {
  }

  lemma TakeThenDrop<T>(s: seq<T>, k: nat, m: nat)
    requires m <= k <= |s|
    ensures s[..k][m..] == s[m..k]
  {
  }

  lemma DropThenTake<T>(s: seq<T>, m: nat, k: nat)
    requires m + k <= |s|
    ensures s[m..][..k] == s[m..m + k]
  {
  }

  lemma TakeTake<T>(s: seq<T>, k: nat, m: nat)
    requires m <= k <= |s|
    ensures s[..k][..m] == s[..m] && s[..k][k..] == []
  {
  }

  lemma SplitAt<T>(s: seq<T>, k: nat)
    requires k <= |s|
    ensures s == s[..k] + s[k..]
  {
  }

  lemma SplitAround<T>(s: seq<T>, k: nat)
    requires k < |s|
    ensures s == s[..k] + ([s[k]] + s[k + 1..])
  {
  }

  lemma NilNeutral<T>(a: seq<T>)
    ensures [] + a == a && a + [] == a
  {
  }
}
