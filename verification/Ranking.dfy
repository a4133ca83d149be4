/** Sorting scores best first, and why a sorted list is determined by its contents. */
module Ranking {
  import opened Collections

  ghost predicate Descending(s: seq<real>) {
    forall i, j :: 0 <= i < j < |s| ==> s[i] >= s[j]
  }

  function Insert(x: real, s: seq<real>): (r: seq<real>)
    ensures multiset(r) == multiset(s) + multiset{x} && |r| == |s| + 1
  {
    if s == [] then [x]
    else if x >= s[0] then [x] + s
    else
      assert s == [s[0]] + s[1..];
      [s[0]] + Insert(x, s[1..])
  }

  lemma {:induction false} InsertDescends(x: real, s: seq<real>)
    requires Descending(s)
    ensures Descending(Insert(x, s))
  {
    if s != [] && x < s[0] {
      InsertDescends(x, s[1..]);
      var t := Insert(x, s[1..]);
      forall i | 0 <= i < |t| ensures s[0] >= t[i] {
        assert t[i] in multiset(t);
        assert t[i] == x || t[i] in s[1..];
      }
    }
  }

  /** The scores best first. */
  function SortDesc(s: seq<real>): (r: seq<real>)
    ensures multiset(r) == multiset(s) && |r| == |s|
  {
    if s == [] then []
    else
      assert s == s[..|s| - 1] + [s[|s| - 1]];
      Insert(s[|s| - 1], SortDesc(s[..|s| - 1]))
  }

  lemma {:induction false} SortDescends(s: seq<real>)
    ensures Descending(SortDesc(s))
  {
    if s != [] {
      SortDescends(s[..|s| - 1]);
      InsertDescends(s[|s| - 1], SortDesc(s[..|s| - 1]));
    }
  }

  lemma HeadIsMax(a: seq<real>, x: real)
    requires Descending(a) && x in multiset(a)
    ensures a != [] && a[0] >= x
  {
    var i :| 0 <= i < |a| && a[i] == x;
    assert i == 0 || a[0] >= a[i];
  }

  lemma HeadTail<T>(s: seq<T>)
    requires s != []
    ensures multiset(s) == multiset{s[0]} + multiset(s[1..])
  {
    assert s == [s[0]] + s[1..];
  }

  lemma TakeOut<T>(s: seq<T>, j: nat)
    requires j < |s|
    ensures multiset(s) == multiset{s[j]} + multiset(s[..j] + s[j + 1..])
  {
    assert s == s[..j] + ([s[j]] + s[j + 1..]);
  }

  lemma Cancel<T>(a: multiset<T>, b: multiset<T>, c: multiset<T>)
    requires c + a == c + b
    ensures a == b
  {
    assert a == (c + a) - c;
    assert b == (c + b) - c;
  }

  /** Taking the first element out of both of two permuted lists leaves them permuted. */
  lemma SameHead<T>(xs: seq<T>, ys: seq<T>) returns (j: nat)
    requires multiset(xs) == multiset(ys) && xs != []
    ensures j < |ys| && ys[j] == xs[0]
    ensures multiset(xs[..0] + xs[1..]) == multiset(ys[..j] + ys[j + 1..])
  {
    assert xs[0] in multiset(xs);
    j :| 0 <= j < |ys| && ys[j] == xs[0];
    TakeOut(xs, 0);
    TakeOut(ys, j);
    Cancel(multiset(xs[..0] + xs[1..]), multiset(ys[..j] + ys[j + 1..]), multiset{xs[0]});
  }

  /** Two descending lists with the same contents are the same list. */
  lemma {:induction false} DescendingUnique(a: seq<real>, b: seq<real>)
    requires Descending(a) && Descending(b) && multiset(a) == multiset(b)
    ensures a == b
  {
    assert |a| == |multiset(a)| == |b|;
    if a != [] {
      assert a[0] in multiset(a) && b[0] in multiset(b);
      HeadIsMax(b, a[0]);
      HeadIsMax(a, b[0]);
      HeadTail(a);
      HeadTail(b);
      Cancel(multiset(a[1..]), multiset(b[1..]), multiset{a[0]});
      TailDescends(a);
      TailDescends(b);
      DescendingUnique(a[1..], b[1..]);
      assert a == [a[0]] + a[1..] && b == [b[0]] + b[1..];
    }
  }

  lemma TailDescends(a: seq<real>)
    requires Descending(a) && a != []
    ensures Descending(a[1..])
  {
  }

  /** The k best of the scores. */
  function Top(all: seq<real>, k: nat): seq<real> {
    SortDesc(all)[..Min(k, |all|)]
  }

  lemma AppendDescends(best: seq<real>, rest: seq<real>, sorted: seq<real>)
    requires Descending(best) && Descending(sorted) && multiset(sorted) == multiset(rest)
    requires forall i, j :: 0 <= i < |best| && 0 <= j < |rest| ==> best[i] >= rest[j]
    ensures Descending(best + sorted)
  {
    forall i, j | 0 <= i < |best| && 0 <= j < |sorted| ensures best[i] >= sorted[j] {
      assert sorted[j] in multiset(sorted);
      assert sorted[j] in multiset(rest);
    }
  }

  lemma CountOnce<T>(s: seq<T>, x: T)
    requires NoDup(s)
    ensures multiset(s)[x] <= 1
  {
    if x in multiset(s) {
      var i :| 0 <= i < |s| && s[i] == x;
      TakeOut(s, i);
      assert x !in s[..i] + s[i + 1..];
    }
  }

  lemma CountTwice<T>(s: seq<T>, i: nat, j: nat)
    requires i < j < |s| && s[i] == s[j]
    ensures multiset(s)[s[i]] >= 2
  {
    TakeOut(s, i);
    assert (s[..i] + s[i + 1..])[j - 1] == s[j];
  }

  /** A descending prefix none of whose entries is beaten by the rest is a top list. */
  lemma TopFromPrefix(best: seq<real>, rest: seq<real>, all: seq<real>, k: nat)
    requires Descending(best)
    requires forall i, j :: 0 <= i < |best| && 0 <= j < |rest| ==> best[i] >= rest[j]
    requires multiset(all) == multiset(best) + multiset(rest)
    requires k <= |best| || rest == []
    ensures best[..Min(k, |best|)] == Top(all, k)
  {
    var full := best + SortDesc(rest);
    SortDescends(rest);
    AppendDescends(best, rest, SortDesc(rest));
    hide SortDesc;
    assert multiset(full) == multiset(all);
    SortDescends(all);
    DescendingUnique(full, SortDesc(all));
    assert |all| == |multiset(all)| == |full|;
  }
}
