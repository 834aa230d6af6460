module Options {
  datatype Option<T> = None | Some(value: T)
}

/** A way to keep a definition folded in proofs that do not need what it says. */
module Folding {
  /** Always true. A definition guarded by it stays folded in a proof until it is mentioned for the same `x`. */
  ghost predicate Look<T(!new)>(x: T, u: nat) {
    true
  }
}

module Layout {
  const PG_SIZE := 4096
}

/** Lists without repetition, as the kernel's doubly linked lists are. */
module Lists {
  ghost predicate NoDup<T>(s: seq<T>) {
    forall i, j :: 0 <= i < j < |s| ==> s[i] != s[j]
  }

  /** `dlist_remove` */
  function Without<T(==)>(s: seq<T>, x: T): seq<T> {
    if s == [] then [] else if s[0] == x then s[1..] else [s[0]] + Without(s[1..], x)
  }

  /** The first occurrence goes, and the order stays. */
  lemma {:induction false} WithoutCuts<T>(s: seq<T>, p: nat)
    requires p < |s| && forall j :: 0 <= j < p ==> s[j] != s[p]
    ensures Without(s, s[p]) == s[..p] + s[p + 1..]
  {
    if p == 0 {
      assert s[..0] + s[1..] == s[1..];
    } else {
      WithoutCuts(s[1..], p - 1);
      assert [s[0]] + (s[1..][..p - 1] + s[1..][p..]) == s[..p] + s[p + 1..];
    }
  }

  lemma {:induction false} WithoutRemovesOne<T>(s: seq<T>, x: T)
    requires NoDup(s) && x in s
    ensures NoDup(Without(s, x)) && |Without(s, x)| == |s| - 1
    ensures forall y :: y in Without(s, x) <==> y in s && y != x
  {
    assert s == [s[0]] + s[1..];
    if s[0] != x {
      WithoutRemovesOne(s[1..], x);
      assert s[0] !in s[1..];
      assert s[0] !in Without(s[1..], x);
    } else {
      assert x !in s[1..];
    }
  }

  lemma {:induction false} WithoutAbsent<T>(s: seq<T>, x: T)
    requires x !in s
    ensures Without(s, x) == s
  {
    if s != [] {
      WithoutAbsent(s[1..], x);
    }
  }
}
