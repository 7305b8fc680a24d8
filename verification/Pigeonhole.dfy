/** Facts about distinct numbers in a range. */
module Pigeonhole {

  ghost predicate Distinct(s: seq<int>)
  {
    forall i, k {:trigger s[i], s[k]} :: 0 <= i < k < |s| ==> s[i] != s[k]
  }

  ghost predicate Within(s: seq<int>, n: int)
  {
    forall k {:trigger s[k]} :: 0 <= k < |s| ==> 0 <= s[k] < n
  }

  /** Without one of its elements, the sequence is still distinct. */
  function Without(s: seq<int>, k: nat): seq<int>
    requires k < |s|
  {
    s[..k] + s[k + 1..]
  }

  lemma {:induction false} WithoutFacts(s: seq<int>, k: nat)
    requires Distinct(s) && k < |s|
    ensures Distinct(Without(s, k)) && s[k] !in Without(s, k) && |Without(s, k)| == |s| - 1
    ensures forall x :: x in s && x != s[k] ==> x in Without(s, k)
    ensures forall x :: x in Without(s, k) ==> x in s
  {
    var t := Without(s, k);
    forall x | x in s && x != s[k] ensures x in t {
      var i :| 0 <= i < |s| && s[i] == x;
      assert i < k ==> t[i] == x;
      assert i > k ==> t[i - 1] == x;
    }
  }

  /** At most n different numbers are in [0,n). */
  lemma {:induction false} AtMost(s: seq<int>, n: nat)
    requires Distinct(s) && Within(s, n)
    ensures |s| <= n
    decreases n
  {
    if s != [] {
      assert 0 <= s[0] < n;
      if n - 1 in s {
        var k :| 0 <= k < |s| && s[k] == n - 1;
        WithoutFacts(s, k);
        AtMost(Without(s, k), n - 1);
      } else {
        AtMost(s, n - 1);
      }
    }
  }

  /** n different numbers in [0,n) are all of them. */
  lemma {:induction false} AllOccur(s: seq<int>, n: nat, y: int) returns (k: nat)
    requires Distinct(s) && Within(s, n) && |s| == n && 0 <= y < n
    ensures k < |s| && s[k] == y
  {
    if y !in s {
      Shifted(s, n, y);
      assert false;
    }
    k :| 0 <= k < |s| && s[k] == y;
  }

  /** If y does not occur, the numbers fit into a smaller range. */
  lemma {:induction false} Shifted(s: seq<int>, n: nat, y: int)
    requires Distinct(s) && Within(s, n) && 0 <= y < n && y !in s
    ensures |s| < n
  {
    var t := seq(|s|, k requires 0 <= k < |s| => if s[k] > y then s[k] - 1 else s[k]);
    forall k | 0 <= k < |t| ensures 0 <= t[k] < n - 1 {
      assert s[k] in s;
    }
    forall i, k | 0 <= i < k < |t| ensures t[i] != t[k] {
      assert s[i] in s && s[k] in s && s[i] != s[k];
    }
    AtMost(t, n - 1);
  }

  /** Fewer than n numbers miss some number in [0,n). */
  lemma {:induction false} Missed(s: seq<int>, n: nat) returns (y: int)
    requires |s| < n
    ensures 0 <= y < n && y !in s
    decreases n
  {
    if n - 1 !in s {
      y := n - 1;
    } else {
      var k :| 0 <= k < |s| && s[k] == n - 1;
      y := Missed(Without(s, k), n - 1);
      forall i | 0 <= i < |s| ensures s[i] != y {
        assert i < k ==> Without(s, k)[i] == s[i];
        assert i > k ==> Without(s, k)[i - 1] == s[i];
      }
    }
  }

  /** And so do n numbers two of which are equal. */
  lemma {:induction false} MissedTwice(s: seq<int>, n: nat, i: nat, k: nat) returns (y: int)
    requires |s| <= n && i < k < |s| && s[i] == s[k]
    ensures 0 <= y < n && y !in s
  {
    var t := Without(s, k);
    y := Missed(t, n);
    assert t[i] == s[i];
    forall j | 0 <= j < |s| ensures s[j] != y {
      assert j < k ==> t[j] == s[j];
      assert j > k ==> t[j - 1] == s[j];
    }
  }
}
