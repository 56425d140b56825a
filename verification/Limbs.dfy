/**
 Little-endian base-2^64 magnitudes and the natural numbers they denote.

 `Part(s, lo, n)` is the number held by the `n` limbs of `s` that start at index
 `lo`; limbs past the end of `s` read as zero, as `get(index).unwrap_or(0)` does.
 */
module Limbs {
  import opened Words
  import opened Arith

  // A `Vec<u64>` holds at most `isize::MAX / 8` elements.
  const MAX_LIMBS: int := 0xFFF_FFFF_FFFF_FFFF

  type LimbVec = s: seq<u64> | |s| <= 0xFFF_FFFF_FFFF_FFFF witness []

  function At(s: seq<u64>, i: nat): u64 {
    if i < |s| then s[i] else 0
  }

  function Pow(n: nat): (p: nat)
    ensures p >= 1
  {
    if n == 0 then 1 else BASE * Pow(n - 1)
  }

  ghost function Part(s: seq<u64>, lo: nat, n: nat): nat
    decreases n
  {
    if n == 0 then 0 else At(s, lo) + BASE * Part(s, lo + 1, n - 1)
  }

  ghost function Value(s: seq<u64>): nat {
    Part(s, 0, |s|)
  }

  /** Empty for zero, otherwise the most significant limb is not zero. */
  predicate Canonical(s: seq<u64>) {
    s == [] || s[|s| - 1] != 0
  }

  lemma {:induction false} PowAdd(m: nat, n: nat)
    ensures Pow(m + n) == Pow(m) * Pow(n)
  {
    if m > 0 {
      PowAdd(m - 1, n);
      MulAssoc(BASE, Pow(m - 1), Pow(n));
    }
  }

  lemma {:induction false} PowMonotone(m: nat, n: nat)
    requires m <= n
    ensures Pow(m) <= Pow(n)
    decreases n
  {
    if m < n {
      PowMonotone(m, n - 1);
    }
  }

  lemma {:induction false} PartSplit(s: seq<u64>, lo: nat, m: nat, n: nat)
    ensures Part(s, lo, m + n) == Part(s, lo, m) + Pow(m) * Part(s, lo + m, n)
    decreases m
  {
    if m > 0 {
      PartSplit(s, lo + 1, m - 1, n);
      MulAssoc(BASE, Pow(m - 1), Part(s, lo + m, n));
    }
  }

  lemma {:induction false} PartSnoc(s: seq<u64>, lo: nat, n: nat)
    ensures Part(s, lo, n + 1) == Part(s, lo, n) + Pow(n) * At(s, lo + n)
  {
    PartSplit(s, lo, n, 1);
    assert Part(s, lo + n, 1) == At(s, lo + n) + BASE * Part(s, lo + n + 1, 0);
  }

  lemma {:induction false} PartBound(s: seq<u64>, lo: nat, n: nat)
    ensures Part(s, lo, n) < Pow(n)
    decreases n
  {
    if n > 0 {
      PartBound(s, lo + 1, n - 1);
    }
  }

  /** Part depends only on the limbs it covers. */
  lemma {:induction false} PartFrame(s: seq<u64>, t: seq<u64>, lo: nat, n: nat)
    requires forall i :: lo <= i < lo + n ==> At(s, i) == At(t, i)
    ensures Part(s, lo, n) == Part(t, lo, n)
    decreases n
  {
    if n > 0 {
      assert At(s, lo) == At(t, lo);
      PartFrame(s, t, lo + 1, n - 1);
    }
  }

  lemma {:induction false} PartDrop(s: seq<u64>, k: nat, lo: nat, n: nat)
    requires k <= |s|
    ensures Part(s[k..], lo, n) == Part(s, k + lo, n)
    decreases n
  {
    if n > 0 {
      PartDrop(s, k, lo + 1, n - 1);
    }
  }

  lemma {:induction false} PartZero(s: seq<u64>, lo: nat, n: nat)
    requires |s| <= lo
    ensures Part(s, lo, n) == 0
    decreases n
  {
    if n > 0 {
      PartZero(s, lo + 1, n - 1);
    }
  }

  /** High zero limbs do not change the value. */
  lemma {:induction false} PartPadded(s: seq<u64>, n: nat)
    requires |s| <= n
    ensures Part(s, 0, n) == Value(s)
  {
    PartSplit(s, 0, |s|, n - |s|);
    PartZero(s, |s|, n - |s|);
    assert Pow(|s|) * 0 == 0;
  }

  lemma {:induction false} ValueSnoc(s: seq<u64>, x: u64)
    ensures Value(s + [x]) == Value(s) + Pow(|s|) * x
  {
    PartSnoc(s + [x], 0, |s|);
    PartFrame(s + [x], s, 0, |s|);
  }

  lemma {:induction false} ValueTake(s: seq<u64>, k: nat)
    requires k <= |s|
    requires Value(s) < Pow(k) || forall i :: k <= i < |s| ==> s[i] == 0
    ensures Value(s[..k]) == Value(s)
  {
    PartSplit(s, 0, k, |s| - k);
    PartFrame(s[..k], s, 0, k);
    var rest := Part(s, k, |s| - k);
    if Value(s) < Pow(k) {
      NothingAbove(Pow(k), Part(s, 0, k), rest);
    } else {
      PartFrame(s, [], k, |s| - k);
      PartZero([], k, |s| - k);
      assert Pow(k) * 0 == 0;
    }
  }

  /** The number of limbs a canonical magnitude of value `v` has. */
  function LimbCount(v: nat): nat {
    if v == 0 then 0 else 1 + LimbCount(v / BASE)
  }

  lemma {:induction false} LimbCountIs(v: nat, n: nat)
    requires v < Pow(n)
    requires n == 0 || Pow(n - 1) <= v
    ensures LimbCount(v) == n
    decreases n
  {
    if n >= 2 {
      assert Pow(n) == BASE * Pow(n - 1);
      assert Pow(n - 1) == BASE * Pow(n - 2);
      LimbCountIs(v / BASE, n - 1);
    } else if n == 1 {
      assert Pow(1) == BASE * Pow(0);
      assert v / BASE == 0;
    }
  }

  lemma {:induction false} LimbCountBounds(v: nat)
    ensures v < Pow(LimbCount(v))
    ensures v > 0 ==> LimbCount(v) > 0 && Pow(LimbCount(v) - 1) <= v
  {
    if v > 0 {
      LimbCountBounds(v / BASE);
      if v / BASE > 0 {
        assert Pow(LimbCount(v) - 1) == BASE * Pow(LimbCount(v / BASE) - 1);
      }
    }
  }

  lemma {:induction false} CanonicalFloor(s: seq<u64>)
    requires Canonical(s) && s != []
    ensures Pow(|s| - 1) <= Value(s)
  {
    PartSnoc(s, 0, |s| - 1);
    MulAtLeast(Pow(|s| - 1), s[|s| - 1]);
  }

  /** Canonical magnitudes are exactly the ones with no spare limb. */
  lemma {:induction false} CanonicalLength(s: seq<u64>)
    ensures Canonical(s) <==> |s| == LimbCount(Value(s))
    ensures Value(s) < Pow(|s|)
    ensures Canonical(s) && s != [] ==> Pow(|s| - 1) <= Value(s)
  {
    PartBound(s, 0, |s|);
    if s != [] {
      var n := |s| - 1;
      PartSnoc(s, 0, n);
      PartBound(s, 0, n);
      if s[n] != 0 {
        CanonicalFloor(s);
        LimbCountIs(Value(s), |s|);
      } else {
        assert Pow(n) * 0 == 0;
        LimbCountBounds(Value(s));
        if LimbCount(Value(s)) == |s| {
          assert false;
        }
      }
    }
  }

  /** Equal numbers in equally many limbs are equal limb by limb. */
  lemma {:induction false} PartInjective(s: seq<u64>, t: seq<u64>, lo: nat, n: nat)
    requires Part(s, lo, n) == Part(t, lo, n)
    ensures forall i :: lo <= i < lo + n ==> At(s, i) == At(t, i)
    decreases n
  {
    if n > 0 {
      assert At(s, lo) == At(t, lo) && Part(s, lo + 1, n - 1) == Part(t, lo + 1, n - 1);
      PartInjective(s, t, lo + 1, n - 1);
    }
  }

  /** A canonical magnitude is determined by its value. */
  lemma {:induction false} CanonicalUnique(s: seq<u64>, t: seq<u64>)
    requires Canonical(s) && Canonical(t)
    requires Value(s) == Value(t)
    ensures s == t
  {
    CanonicalLength(s);
    CanonicalLength(t);
    PartInjective(s, t, 0, |s|);
    forall i | 0 <= i < |s|
      ensures s[i] == t[i]
    {
      assert At(s, i) == At(t, i);
    }
  }

  /** `required` is one past the last nonzero limb of `out`. */
  ghost predicate Trimmed(out: seq<u64>, required: nat) {
    && required <= |out|
    && (required > 0 ==> out[required - 1] != 0)
    && forall i :: required <= i < |out| ==> out[i] == 0
  }

  lemma {:induction false} TrimmedCount(out: seq<u64>, required: nat)
    requires Trimmed(out, required)
    ensures required == LimbCount(Value(out))
    ensures Value(out[..required]) == Value(out)
  {
    ValueTake(out, required);
    CanonicalLength(out[..required]);
  }
}
