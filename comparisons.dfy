/** The free comparison operators of SimpleVector, over the vectors' element
    sequences (the elements in [begin(), end())). Capacity never enters. */
module Comparisons {

  /** operator==: std::equal over both ranges, which first compares the
      lengths and then the elements pairwise. */
  predicate Equal(lhs: seq<int>, rhs: seq<int>)
    ensures Equal(lhs, rhs) <==> lhs == rhs
    decreases |lhs|
  {
    if |lhs| != |rhs| then false
    else if |lhs| == 0 then true
    else lhs[0] == rhs[0] && Equal(lhs[1..], rhs[1..])
  }

  /** operator<: std::lexicographical_compare. The walk stops at the end of
      rhs (not less), at the end of lhs (less), or at the first position
      where one element is smaller. */
  predicate Less(lhs: seq<int>, rhs: seq<int>)
    ensures |lhs| < |rhs| && lhs == rhs[..|lhs|] ==> Less(lhs, rhs)
    ensures Less(lhs, rhs) ==> lhs != rhs
    decreases |lhs|
  {
    if |rhs| == 0 then false
    else if |lhs| == 0 then true
    else if lhs[0] < rhs[0] then true
    else if rhs[0] < lhs[0] then false
    else Less(lhs[1..], rhs[1..])
  }

  /** operator!=: the negation of ==. */
  predicate NotEqual(lhs: seq<int>, rhs: seq<int>)
    ensures NotEqual(lhs, rhs) <==> lhs != rhs
  {
    !Equal(lhs, rhs)
  }

  /** operator<=: lhs < rhs or lhs == rhs, which is the same as rhs not
      being less than lhs. */
  predicate LessOrEqual(lhs: seq<int>, rhs: seq<int>)
    ensures LessOrEqual(lhs, rhs) <==> !Less(rhs, lhs)
  {
    LessTrichotomous(lhs, rhs);
    Less(lhs, rhs) || Equal(lhs, rhs)
  }

  /** operator>=: not lhs < rhs, the mirror image of <=. */
  predicate GreaterOrEqual(lhs: seq<int>, rhs: seq<int>)
    ensures GreaterOrEqual(lhs, rhs) <==> LessOrEqual(rhs, lhs)
  {
    !Less(lhs, rhs)
  }

  /** operator>: >= and !=, which is the same as < with the operands
      swapped. */
  predicate Greater(lhs: seq<int>, rhs: seq<int>)
    ensures Greater(lhs, rhs) <==> Less(rhs, lhs)
  {
    LessTrichotomous(lhs, rhs);
    GreaterOrEqual(lhs, rhs) && NotEqual(lhs, rhs)
  }

  /** The textbook definition of lexicographic order, stated independently of
      the walk above: lhs and rhs agree on the first k positions, and then
      either lhs has ended while rhs has not, or lhs has the smaller element. */
  ghost predicate DiffersFirstAt(lhs: seq<int>, rhs: seq<int>, k: nat)
  {
    k <= |lhs| && k < |rhs| && lhs[..k] == rhs[..k] && (k == |lhs| || lhs[k] < rhs[k])
  }

  /** Less is exactly lexicographic order. */
  lemma {:induction false} LessIsLexicographic(lhs: seq<int>, rhs: seq<int>)
    ensures Less(lhs, rhs) <==> exists k: nat :: DiffersFirstAt(lhs, rhs, k)
    decreases |lhs|
  {
    if |rhs| == 0 {
      forall k: nat ensures !DiffersFirstAt(lhs, rhs, k) {}
    } else if |lhs| == 0 {
      assert DiffersFirstAt(lhs, rhs, 0);
    } else if lhs[0] < rhs[0] {
      assert DiffersFirstAt(lhs, rhs, 0);
    } else if rhs[0] < lhs[0] {
      forall k: nat ensures !DiffersFirstAt(lhs, rhs, k) {
        if k > 0 && k <= |lhs| && k < |rhs| {
          assert lhs[..k][0] == lhs[0] && rhs[..k][0] == rhs[0];
        }
      }
    } else {
      LessIsLexicographic(lhs[1..], rhs[1..]);
      if Less(lhs, rhs) {
        var k: nat :| DiffersFirstAt(lhs[1..], rhs[1..], k);
        assert lhs[..k + 1] == [lhs[0]] + lhs[1..][..k];
        assert rhs[..k + 1] == [rhs[0]] + rhs[1..][..k];
        assert DiffersFirstAt(lhs, rhs, k + 1);
      }
      if exists k: nat :: DiffersFirstAt(lhs, rhs, k) {
        var k: nat :| DiffersFirstAt(lhs, rhs, k);
        if k == 0 {
          assert false;
        }
        assert lhs[1..][..k - 1] == lhs[..k][1..];
        assert rhs[1..][..k - 1] == rhs[..k][1..];
        assert DiffersFirstAt(lhs[1..], rhs[1..], k - 1);
      }
    }
  }

  /** Less is transitive. */
  lemma {:induction false} LessTransitive(a: seq<int>, b: seq<int>, c: seq<int>)
    requires Less(a, b) && Less(b, c)
    ensures Less(a, c)
    decreases |a|
  {
    if |a| > 0 && a[0] == b[0] && b[0] == c[0] {
      LessTransitive(a[1..], b[1..], c[1..]);
    }
  }

  /** Exactly one of lhs < rhs, lhs == rhs, rhs < lhs holds. */
  lemma {:induction false} LessTrichotomous(lhs: seq<int>, rhs: seq<int>)
    ensures Less(lhs, rhs) || lhs == rhs || Less(rhs, lhs)
    ensures !(Less(lhs, rhs) && Less(rhs, lhs))
    decreases |lhs|
  {
    if |lhs| > 0 && |rhs| > 0 && lhs[0] == rhs[0] {
      LessTrichotomous(lhs[1..], rhs[1..]);
      if lhs[1..] == rhs[1..] {
        assert lhs == [lhs[0]] + lhs[1..] && rhs == [rhs[0]] + rhs[1..];
      }
    }
  }

  /** The derived operators agree with each other the way the standard
      library's do: exactly one of <, == and > holds, and <= is antisymmetric
      and total. It follows from the contracts of the four derived
      operators, which carry the trichotomy of Less. */
  lemma {:induction false} DerivedOperatorsConsistent(lhs: seq<int>, rhs: seq<int>)
    ensures Less(lhs, rhs) || Equal(lhs, rhs) || Greater(lhs, rhs)
    ensures !(Less(lhs, rhs) && Greater(lhs, rhs))
    ensures Equal(lhs, rhs) ==> !Less(lhs, rhs) && !Greater(lhs, rhs)
    ensures LessOrEqual(lhs, rhs) && LessOrEqual(rhs, lhs) ==> lhs == rhs
    ensures LessOrEqual(lhs, rhs) || GreaterOrEqual(lhs, rhs)
  {
  }

  /** <= is transitive. */
  lemma LessOrEqualTransitive(a: seq<int>, b: seq<int>, c: seq<int>)
    requires LessOrEqual(a, b) && LessOrEqual(b, c)
    ensures LessOrEqual(a, c)
  {
    if Less(a, b) && Less(b, c) {
      LessTransitive(a, b, c);
    }
  }
}
