/**
 * The reservoir of the moduli loop is uniform: of all vectors of draws, draw k from
 * 0 to k - 1, each of the n candidates is the one retained for the same number.
 */
module Reservoir {
  import opened Octets
  import opened DhGroup

  function Fact(n: nat): nat {
    if n == 0 then 1 else n * Fact(n - 1)
  }

  /** All vectors of n draws; draw k, counted from one, is in 0..k-1. */
  ghost function Draws(n: nat): set<seq<nat>> {
    if n == 0 then {[]}
    else set v, d: nat | v in Draws(n - 1) && d < n :: v + [d]
  }

  /** The last draw that came out 0, counted from zero. */
  function LastZero(v: seq<nat>): Option<nat> {
    if v == [] then None
    else if v[|v| - 1] == 0 then Some(|v| - 1)
    else LastZero(v[..|v| - 1])
  }

  /** The vectors that retain candidate i. */
  ghost function Retaining(n: nat, i: nat): set<seq<nat>> {
    set v | v in Draws(n) && LastZero(v) == Some(i)
  }

  ghost function Extend(a: set<seq<nat>>, d: nat): set<seq<nat>> {
    set v | v in a :: v + [d]
  }

  /** The vectors of `a` extended by each of the draws in `lo..hi`. */
  ghost function ExtendAll(a: set<seq<nat>>, lo: nat, hi: nat): set<seq<nat>> {
    set v, d: nat | v in a && lo <= d < hi :: v + [d]
  }

  lemma {:induction false} ExtendSize(a: set<seq<nat>>, d: nat)
    ensures |Extend(a, d)| == |a|
  {
    if a != {} {
      var v :| v in a;
      ExtendSize(a - {v}, d);
      assert Extend(a, d) == Extend(a - {v}, d) + {v + [d]};
      assert v + [d] !in Extend(a - {v}, d) by {
        forall w | w in a - {v} ensures w + [d] != v + [d] {
          assert (w + [d])[..|w|] == w && (v + [d])[..|v|] == v;
        }
      }
    } else {
      assert Extend(a, d) == {};
    }
  }

  lemma {:induction false} ExtendAllSize(a: set<seq<nat>>, lo: nat, hi: nat)
    requires lo <= hi
    ensures |ExtendAll(a, lo, hi)| == (hi - lo) * |a|
    decreases hi - lo
  {
    if lo == hi {
      assert ExtendAll(a, lo, hi) == {};
    } else {
      ExtendAllSize(a, lo, hi - 1);
      SplitTop(a, lo, hi);
      OneMoreTime(hi - lo, |a|);
    }
  }

  lemma OneMoreTime(k: nat, m: nat)
    requires k > 0
    ensures k * m == (k - 1) * m + m
  {
  }

  lemma SplitTop(a: set<seq<nat>>, lo: nat, hi: nat)
    requires lo < hi
    ensures |ExtendAll(a, lo, hi)| == |ExtendAll(a, lo, hi - 1)| + |a|
  {
    var below, top := ExtendAll(a, lo, hi - 1), Extend(a, hi - 1);
    ExtendSize(a, hi - 1);
    assert ExtendAll(a, lo, hi) == below + top;
    assert forall x :: x in below ==> x[|x| - 1] < hi - 1;
    assert forall x :: x in top ==> x[|x| - 1] == hi - 1;
    assert below !! top;
  }

  lemma {:induction false} DrawsSize(n: nat)
    ensures |Draws(n)| == Fact(n)
    ensures forall v :: v in Draws(n) ==> |v| == n
  {
    if n > 0 {
      DrawsSize(n - 1);
      ExtendAllSize(Draws(n - 1), 0, n);
      assert Draws(n) == ExtendAll(Draws(n - 1), 0, n);
    }
  }

  lemma OneMoreLastZero(v: seq<nat>, d: nat)
    ensures LastZero(v + [d]) == if d == 0 then Some(|v|) else LastZero(v)
  {
    assert (v + [d])[..|v|] == v;
  }

  lemma {:induction false} LastZeroBelow(v: seq<nat>)
    ensures LastZero(v).Some? ==> LastZero(v).value < |v|
  {
    if v != [] {
      LastZeroBelow(v[..|v| - 1]);
    }
  }

  /** An earlier candidate stays retained exactly when draw n is not 0. */
  lemma RetainEarlier(n: nat, i: nat)
    requires i < n - 1
    ensures Retaining(n, i) == ExtendAll(Retaining(n - 1, i), 1, n)
  {
    DrawsSize(n - 1);
    var before, extended := Retaining(n - 1, i), ExtendAll(Retaining(n - 1, i), 1, n);
    forall x | x in Retaining(n, i) ensures x in extended {
      var v, d: nat :| v in Draws(n - 1) && d < n && x == v + [d];
      OneMoreLastZero(v, d);
      assert v in before;
    }
    forall x | x in extended ensures x in Retaining(n, i) {
      var v, d: nat :| v in before && 1 <= d < n && x == v + [d];
      OneMoreLastZero(v, d);
    }
  }

  /** The newest candidate is retained exactly when draw n is 0. */
  lemma RetainLast(n: nat)
    requires n > 0
    ensures Retaining(n, n - 1) == Extend(Draws(n - 1), 0)
  {
    DrawsSize(n - 1);
    var last, extended := Retaining(n, n - 1), Extend(Draws(n - 1), 0);
    forall x | x in last ensures x in extended {
      var v, d: nat :| v in Draws(n - 1) && d < n && x == v + [d];
      OneMoreLastZero(v, d);
      LastZeroBelow(v);
    }
    forall x | x in extended ensures x in last {
      var v :| v in Draws(n - 1) && x == v + [0];
      OneMoreLastZero(v, 0);
    }
  }

  /** Each of the n candidates is retained by (n - 1)! of the n! vectors of draws. */
  lemma {:induction false} Uniform(n: nat, i: nat)
    requires i < n
    ensures |Retaining(n, i)| == Fact(n - 1)
    ensures |Draws(n)| == Fact(n)
  {
    DrawsSize(n);
    DrawsSize(n - 1);
    if i == n - 1 {
      RetainLast(n);
      ExtendSize(Draws(n - 1), 0);
    } else {
      Uniform(n - 1, i);
      RetainEarlier(n, i);
      ExtendAllSize(Retaining(n - 1, i), 1, n);
      assert Fact(n - 1) == (n - 1) * Fact(n - 2);
    }
  }

  // ---- What the loop draws ----

  /** The draws behind the nonces of a working generator. */
  function DrawsOf(nonces: seq<Nonce>): seq<nat>
    requires forall n :: n in nonces ==> n.Some?
  {
    seq(|nonces|, i requires 0 <= i < |nonces| => nonces[i].value % (i + 1))
  }

  /** The candidate the loop retains is the last draw that came out 0, and the draws are one of the n! vectors. */
  lemma {:induction false} RetainedIsLastZero(nonces: seq<Nonce>)
    requires forall n :: n in nonces ==> n.Some?
    ensures Retained(nonces) == LastZero(DrawsOf(nonces))
    ensures DrawsOf(nonces) in Draws(|nonces|)
  {
    if nonces != [] {
      var k := |nonces| - 1;
      RetainedIsLastZero(nonces[..k]);
      assert DrawsOf(nonces)[..k] == DrawsOf(nonces[..k]);
      assert DrawsOf(nonces) == DrawsOf(nonces[..k]) + [nonces[k].value % (k + 1)];
    }
  }

  lemma {:induction false} DrawsInRange(n: nat, v: seq<nat>)
    requires v in Draws(n)
    ensures |v| == n && forall i :: 0 <= i < n ==> v[i] <= i
  {
    if n > 0 {
      var w, d: nat :| w in Draws(n - 1) && d < n && v == w + [d];
      DrawsInRange(n - 1, w);
    }
  }

  /** Every vector of draws is the one some nonces give. */
  lemma EveryVectorDrawn(n: nat, v: seq<nat>)
    requires v in Draws(n)
    ensures |v| == n && DrawsOf(seq(n, i requires 0 <= i < n => Some(v[i]))) == v
  {
    DrawsInRange(n, v);
    var nonces: seq<Nonce> := seq(n, i requires 0 <= i < n => Some(v[i]));
    forall i | 0 <= i < n ensures DrawsOf(nonces)[i] == v[i] {
      assert v[i] % (i + 1) == v[i];
    }
  }

  /**
   * With a working generator the draws at the n candidates are one of the n! vectors,
   * and the modulus kept is the candidate that vector retains: by `Uniform`, every
   * candidate for (n - 1)! of them.
   */
  lemma LoopIsUniform(q: Request, file: seq<Line>, nonces: seq<Nonce>)
    requires Ordered(q) && q.pn >= 1 && |nonces| == |file| && Select(q, file, nonces).size != 0
    requires forall n :: n in nonces ==> n.Some?
    ensures
      var b := Select(q, file, nonces);
      var c := Candidates(q, file, b.size);
      var d := CandidateNonces(q, file, nonces, b.size);
      && (forall n :: n in d ==> n.Some?)
      && LastZero(DrawsOf(d)).Some?
      && DrawsOf(d) in Retaining(|c|, LastZero(DrawsOf(d)).value)
      && LastZero(DrawsOf(d)).value < |c|
      && b.kept == Some(c[LastZero(DrawsOf(d)).value])
  {
    var b := Select(q, file, nonces);
    var d := CandidateNonces(q, file, nonces, b.size);
    KeepsRetained(q, file, nonces);
    NoncesComeFrom(q, file, nonces, b.size);
    RetainedIsLastZero(d);
  }
}
