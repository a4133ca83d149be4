/** Labellings of n nodes: how many there are, when two name the same blocks, and the
    canonical one (labels 0, 1, ... in order of first occurrence). */
module Labelings {
  import opened Collections

  ghost predicate Below(comm: seq<nat>, k: nat) {
    forall i :: 0 <= i < |comm| ==> comm[i] < k
  }

  ghost predicate SameBlocks(a: seq<nat>, b: seq<nat>) {
    && |a| == |b|
    && forall i, j :: 0 <= i < |a| && 0 <= j < |a| ==> (a[i] == a[j] <==> b[i] == b[j])
  }

  /** Every label smaller than one in use occurs earlier. */
  ghost predicate Canonical(r: seq<nat>) {
    forall i, c: nat :: 0 <= i < |r| && c < r[i] ==> c in r[..i]
  }

  /** Canonical labellings are determined by their blocks. */
  lemma {:induction false} CanonicalUnique(a: seq<nat>, b: seq<nat>)
    requires Canonical(a) && Canonical(b) && SameBlocks(a, b)
    ensures a == b
  {
    if a != [] {
      var n := |a| - 1;
      PrefixCanonical(a, n);
      PrefixCanonical(b, n);
      forall i, j | 0 <= i < n && 0 <= j < n ensures a[..n][i] == a[..n][j] <==> b[..n][i] == b[..n][j] {
        assert a[i] == a[j] <==> b[i] == b[j];
      }
      CanonicalUnique(a[..n], b[..n]);
      LastLabel(a, b, n);
      assert a == a[..n] + [a[n]] && b == b[..n] + [b[n]];
    }
  }

  lemma PrefixCanonical(a: seq<nat>, n: nat)
    requires Canonical(a) && n <= |a|
    ensures Canonical(a[..n])
  {
    forall i, c: nat | 0 <= i < n && c < a[i] ensures c in a[..n][..i] {
      assert c in a[..i] && a[..n][..i] == a[..i];
    }
  }

  lemma LastLabel(a: seq<nat>, b: seq<nat>, n: nat)
    requires Canonical(a) && Canonical(b) && SameBlocks(a, b) && n < |a| && a[..n] == b[..n]
    ensures a[n] == b[n]
  {
    if a[n] in a[..n] {
      var j :| 0 <= j < n && a[..n][j] == a[n];
      assert b[..n][j] == a[n] && a[j] == a[n];
    } else if b[n] in b[..n] {
      var j :| 0 <= j < n && b[..n][j] == b[n];
      assert a[..n][j] == b[n] && b[j] == b[n];
    } else {
      assert !(a[n] < b[n]) && !(b[n] < a[n]);
    }
  }

  // ---------- counting ----------

  function Power(k: nat, n: nat): nat {
    if n == 0 then 1 else k * Power(k, n - 1)
  }

  ghost function Extensions(S: set<seq<nat>>, k: nat): set<seq<nat>> {
    set s, c: nat | s in S && 0 <= c < k :: s + [c]
  }

  /** All labellings of n nodes with labels below k. */
  ghost function Labellings(n: nat, k: nat): set<seq<nat>> {
    if n == 0 then {[]} else Extensions(Labellings(n - 1, k), k)
  }

  ghost function Ends(s: seq<nat>, k: nat): set<seq<nat>> {
    set c: nat | 0 <= c < k :: s + [c]
  }

  lemma {:induction false} EndsSize(s: seq<nat>, k: nat)
    ensures |Ends(s, k)| <= k
  {
    if k > 0 {
      EndsSize(s, k - 1);
      assert Ends(s, k) == Ends(s, k - 1) + {s + [k - 1]};
    }
  }

  lemma ExtensionsSplit(S: set<seq<nat>>, s: seq<nat>, k: nat)
    requires s in S
    ensures Extensions(S, k) == Extensions(S - {s}, k) + Ends(s, k)
  {
    forall x | x in Extensions(S, k) ensures x in Extensions(S - {s}, k) + Ends(s, k) {
      var t, c: nat :| t in S && 0 <= c < k && x == t + [c];
      if t != s {
        assert t in S - {s};
      }
    }
    forall x | x in Extensions(S - {s}, k) ensures x in Extensions(S, k) {
      var t, c: nat :| t in S - {s} && 0 <= c < k && x == t + [c];
    }
    forall x | x in Ends(s, k) ensures x in Extensions(S, k) {
      var c: nat :| 0 <= c < k && x == s + [c];
    }
  }

  lemma NoExtensions(k: nat)
    ensures Extensions({}, k) == {}
  {
  }

  lemma {:induction false} ExtensionsSize(S: set<seq<nat>>, k: nat)
    ensures |Extensions(S, k)| <= k * |S|
  {
    hide Extensions, Ends;
    if S == {} {
      NoExtensions(k);
    } else {
      var s :| s in S;
      var rest := S - {s};
      ExtensionsSize(rest, k);
      EndsSize(s, k);
      ExtensionsSplit(S, s, k);
    }
  }

  lemma {:induction false} LabellingsSize(n: nat, k: nat)
    ensures |Labellings(n, k)| <= Power(k, n)
  {
    if n > 0 {
      hide Extensions;
      LabellingsSize(n - 1, k);
      ExtensionsSize(Labellings(n - 1, k), k);
    }
  }

  lemma {:induction false} InLabellings(comm: seq<nat>, k: nat)
    requires Below(comm, k)
    ensures comm in Labellings(|comm|, k)
  {
    if comm != [] {
      var s := comm[..|comm| - 1];
      InLabellings(s, k);
      assert comm == s + [comm[|comm| - 1]];
    }
  }

  /** Distinct labellings cannot outnumber all of them. */
  lemma AtMostAll(seen: set<seq<nat>>, n: nat, k: nat)
    requires forall s :: s in seen ==> |s| == n && Below(s, k)
    ensures |seen| <= Power(k, n)
  {
    forall s | s in seen ensures s in Labellings(n, k) {
      InLabellings(s, k);
    }
    SubsetSize(seen, Labellings(n, k));
    LabellingsSize(n, k);
  }

  // ---------- renumbering ----------

  /** Renumbers labels in order of first occurrence. */
  method Renumber(comm: seq<nat>) returns (result: seq<nat>)
    ensures SameBlocks(comm, result) && Canonical(result)
  {
    var renumber: map<nat, nat> := map[];
    var next := 0;
    result := [];
    for i := 0 to |comm|
      invariant |result| == i && Canonical(result)
      invariant forall j :: 0 <= j < i ==> comm[j] in renumber && result[j] == renumber[comm[j]]
      invariant forall c :: c in renumber ==> renumber[c] < next
      invariant forall c, d :: c in renumber && d in renumber && renumber[c] == renumber[d] ==> c == d
      invariant forall l: nat :: l < next ==> l in result
    {
      var c := comm[i];
      if c !in renumber {
        renumber := renumber[c := next];
        next := next + 1;
      }
      var r := result + [renumber[c]];
      forall j, l: nat | 0 <= j < |r| && l < r[j] ensures l in r[..j] {
        if j < i {
          assert r[..j] == result[..j];
        } else {
          assert r[..j] == result;
        }
      }
      result := r;
      forall l: nat | l < next ensures l in result {
        if l == renumber[c] {
          assert result[i] == l;
        }
      }
    }
  }
}
