/**
 * Small shared vocabulary: the error-carrying result and option types that replace the
 * exceptions of the original code, and counting facts about boolean marks.
 */
module Common {

  /** Either a value or the error the original code would have thrown. */
  datatype Result<+T, +E> = Ok(value: T) | Err(error: E)

  /** A value, or none where the original signals failure without saying why. */
  datatype Option<+T> = None | Some(value: T)

  /** No value occurs twice. */
  predicate Distinct<T(==)>(s: seq<T>) {
    forall i, j | 0 <= i < j < |s| :: s[i] != s[j]
  }

  /** Number of `true` entries of a mark vector. */
  function CountTrue(s: seq<bool>): (c: nat)
    ensures c <= |s|
  {
    if |s| == 0 then 0 else (if s[0] then 1 else 0) + CountTrue(s[1..])
  }

  /** Setting one unset mark adds exactly one to the count. */
  lemma {:induction false} CountTrueSet(s: seq<bool>, i: nat)
    requires i < |s| && !s[i]
    ensures CountTrue(s[i := true]) == CountTrue(s) + 1
  {
    if i > 0 {
      assert s[i := true][1..] == s[1..][i - 1 := true];
      CountTrueSet(s[1..], i - 1);
    } else {
      assert s[i := true][1..] == s[1..];
    }
  }

  /** A vector with every mark set counts its full length. */
  lemma {:induction false} CountTrueFull(s: seq<bool>)
    requires forall i | 0 <= i < |s| :: s[i]
    ensures CountTrue(s) == |s|
  {
    if |s| > 0 {
      CountTrueFull(s[1..]);
    }
  }

  /** A count equal to the length means every mark is set. */
  lemma {:induction false} CountTrueAll(s: seq<bool>)
    requires CountTrue(s) == |s|
    ensures forall i | 0 <= i < |s| :: s[i]
  {
    if |s| > 0 {
      CountTrueAll(s[1..]);
      assert forall i | 1 <= i < |s| :: s[i] == s[1..][i - 1];
    }
  }

  /** A vector with no mark set counts zero. */
  lemma {:induction false} CountTrueNone(s: seq<bool>)
    requires forall i | 0 <= i < |s| :: !s[i]
    ensures CountTrue(s) == 0
  {
    if |s| > 0 {
      CountTrueNone(s[1..]);
    }
  }

  /** If some mark is unset, the count is below the length. */
  lemma {:induction false} CountTrueBelow(s: seq<bool>, i: nat)
    requires i < |s| && !s[i]
    ensures CountTrue(s) < |s|
  {
    if i > 0 {
      CountTrueBelow(s[1..], i - 1);
    }
  }

  /** In a duplicate-free sequence every value occurs at most once. */
  lemma {:induction false} DistinctCount<T>(s: seq<T>, x: T)
    requires Distinct(s)
    ensures multiset(s)[x] == if x in s then 1 else 0
  {
    if |s| > 0 {
      assert s == [s[0]] + s[1..];
      assert Distinct(s[1..]);
      DistinctCount(s[1..], x);
      if x == s[0] {
        assert x !in s[1..];
      }
    }
  }
}
