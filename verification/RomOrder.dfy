/** 64-bit device codes in the order in which the 1-Wire search meets them. */
module RomOrder {
  import opened ByteBits

  type Rom = r: Bytes | |r| == 8 witness [0, 0, 0, 0, 0, 0, 0, 0]

  /** `a` and `b` have the same first `k` bits. */
  ghost predicate Agree(a: Rom, b: Rom, k: nat)
    requires k <= 64
  {
    forall i: nat :: i < k ==> Bit(a, i) == Bit(b, i)
  }

  /** Lexicographic order, least significant bit first. */
  ghost predicate Less(a: Rom, b: Rom) {
    exists d: nat :: d < 64 && SplitAt(a, b, d)
  }

  /** `a` and `b` part at bit `d`, `a` taking the zero branch. */
  ghost predicate SplitAt(a: Rom, b: Rom, d: nat)
    requires d < 64
  {
    Agree(a, b, d) && !Bit(a, d) && Bit(b, d)
  }

  lemma LessTotal(a: Rom, b: Rom)
    ensures a == b || Less(a, b) || Less(b, a)
  {
    if a != b {
      var d := FirstDifference(a, b, 0);
      assert SplitAt(a, b, d) || SplitAt(b, a, d);
    }
  }

  lemma FirstDifference(a: Rom, b: Rom, k: nat) returns (d: nat)
    requires a != b && k <= 64 && Agree(a, b, k)
    ensures d < 64 && Agree(a, b, d) && Bit(a, d) != Bit(b, d)
    decreases 64 - k
  {
    if k == 64 {
      BytesExtensional(a, b);
      assert false;
    } else if Bit(a, k) != Bit(b, k) {
      d := k;
    } else {
      d := FirstDifference(a, b, k + 1);
    }
  }

  lemma LessIrreflexive(a: Rom, b: Rom)
    requires Less(a, b)
    ensures !Less(b, a) && a != b
  {}

  lemma LessTransitive(a: Rom, b: Rom, c: Rom)
    requires Less(a, b) && Less(b, c)
    ensures Less(a, c)
  {
    var d: nat :| d < 64 && SplitAt(a, b, d);
    var e: nat :| e < 64 && SplitAt(b, c, e);
    assert SplitAt(a, c, if d < e then d else e);
  }

  // ---------------------------------------------------------------- ascending listing of a set

  ghost predicate IsFirst(R: set<Rom>, t: Rom) {
    t in R && forall c :: c in R ==> c == t || Less(t, c)
  }

  /** `t` is the successor of `p` in `R`. */
  ghost predicate IsNext(R: set<Rom>, p: Rom, t: Rom) {
    t in R && Less(p, t) && forall c :: c in R && Less(p, c) ==> c == t || Less(t, c)
  }

  lemma {:induction false} FirstExists(R: set<Rom>) returns (t: Rom)
    requires R != {}
    ensures IsFirst(R, t)
    decreases |R|
  {
    hide Less;
    t :| t in R;
    var rest := R - {t};
    assert forall c :: c in R ==> c == t || c in rest;
    if rest != {} {
      var u := FirstExists(rest);
      LessTotal(t, u);
      if Less(u, t) {
        t := u;
      } else {
        forall c | c in rest ensures Less(t, c) {
          if c != u { LessTransitive(t, u, c); }
        }
      }
    }
  }

  lemma FirstExistsLemma(R: set<Rom>)
    requires R != {}
    ensures exists t :: IsFirst(R, t)
  {
    var t := FirstExists(R);
  }

  ghost function First(R: set<Rom>): (t: Rom)
    requires R != {}
    ensures IsFirst(R, t)
  {
    FirstExistsLemma(R);
    var t :| IsFirst(R, t);
    t
  }

  ghost function Sorted(R: set<Rom>): (s: seq<Rom>)
    ensures |s| == |R|
    ensures forall c :: c in s <==> c in R
    decreases |R|
  {
    if R == {} then [] else [First(R)] + Sorted(R - {First(R)})
  }

  lemma {:induction false} SortedIncreasing(R: set<Rom>, i: nat, j: nat)
    requires i < j < |R|
    ensures Less(Sorted(R)[i], Sorted(R)[j])
    decreases |R|
  {
    hide Less, Sorted;
    var rest := R - {First(R)};
    SortedSplit(R);
    if i == 0 {
      assert Sorted(rest)[j - 1] in rest;
    } else {
      SortedIncreasing(rest, i - 1, j - 1);
    }
  }

  lemma SortedSplit(R: set<Rom>)
    requires R != {}
    ensures Sorted(R) == [First(R)] + Sorted(R - {First(R)}) && |R - {First(R)}| == |R| - 1
  {
    hide Less;
  }

  lemma SortedNext(R: set<Rom>, k: nat)
    requires k < |R|
    ensures k == 0 ==> IsFirst(R, Sorted(R)[0])
    ensures k > 0 ==> IsNext(R, Sorted(R)[k - 1], Sorted(R)[k])
  {
    hide Less, Sorted;
    var s := Sorted(R);
    forall c | c in R && (k > 0 ==> Less(s[k - 1], c)) ensures c == s[k] || Less(s[k], c) {
      var j :| 0 <= j < |s| && s[j] == c;
      if j < k {
        if j < k - 1 { SortedIncreasing(R, j, k - 1); }
        LessIrreflexive(s[k - 1], c);
        assert false;
      } else if k < j {
        SortedIncreasing(R, k, j);
      }
    }
    if k > 0 { SortedIncreasing(R, k - 1, k); }
  }
}
