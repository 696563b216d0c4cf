/**
 * The two data-frame row operations the contracts and the analyzer rely on:
 * `duplicated()` (an earlier row is equal to this one) and
 * `drop_duplicates()` (keep the first occurrence of every distinct row, in order).
 * Missing cells compare equal to each other here, as they do in both operations.
 */
module Frames {

  /** Row `i` repeats an earlier row (`df.duplicated()` with keep="first"). */
  predicate Duplicated<T(==)>(s: seq<T>, i: int)
    requires 0 <= i < |s|
  {
    s[i] in s[..i]
  }

  /** `~df.duplicated().any()`. */
  predicate NoDuplicateRows<T(==)>(s: seq<T>) {
    forall i | 0 <= i < |s| :: !Duplicated(s, i)
  }

  /** No row is duplicated exactly when all rows are pairwise different. */
  lemma NoDuplicateRowsPairwise<T>(s: seq<T>)
    ensures NoDuplicateRows(s) <==> forall i, j | 0 <= i < j < |s| :: s[i] != s[j]
  {
    if NoDuplicateRows(s) {
      forall i, j | 0 <= i < j < |s| ensures s[i] != s[j] {
        assert !Duplicated(s, j);
        assert s[..j][i] == s[i];
      }
    }
  }

  /** Position of the first row equal to `x`. */
  function FirstIndex<T(==)>(s: seq<T>, x: T): (k: nat)
    requires x in s
    ensures k < |s| && s[k] == x && x !in s[..k]
  {
    if s[0] == x then 0
    else
      assert x in s[1..];
      var k := 1 + FirstIndex(s[1..], x);
      assert s[..k] == [s[0]] + s[1..][..k - 1];
      k
  }

  /** The first occurrence of a row is the same in any prefix that contains it. */
  lemma FirstIndexInPrefix<T>(s: seq<T>, n: nat, x: T)
    requires n <= |s| && x in s[..n]
    ensures FirstIndex(s, x) == FirstIndex(s[..n], x)
  {
    var k, k' := FirstIndex(s, x), FirstIndex(s[..n], x);
    assert s[..n][..k'] == s[..k'];
  }

  /** `df.drop_duplicates()`: the first occurrence of each row, in order. */
  function DropDuplicates<T(==)>(s: seq<T>): seq<T>
    decreases |s|
  {
    if s == [] then []
    else
      var k := |s| - 1;
      DropDuplicates(s[..k]) + (if Duplicated(s, k) then [] else [s[k]])
  }

  /** The same distinct rows survive. */
  lemma {:induction false} DropDuplicatesMembers<T>(s: seq<T>)
    ensures forall x :: x in DropDuplicates(s) <==> x in s
    decreases |s|
  {
    if s != [] {
      var k := |s| - 1;
      DropDuplicatesMembers(s[..k]);
      assert s == s[..k] + [s[k]];
    }
  }

  /** No survivor repeats an earlier one. */
  lemma {:induction false} DropDuplicatesUnique<T>(s: seq<T>)
    ensures NoDuplicateRows(DropDuplicates(s))
    decreases |s|
  {
    if s != [] {
      var k := |s| - 1;
      var r0 := DropDuplicates(s[..k]);
      DropDuplicatesUnique(s[..k]);
      DropDuplicatesMembers(s[..k]);
      var r := DropDuplicates(s);
      if Duplicated(s, k) {
        assert r == r0;
      } else {
        forall i | 0 <= i < |r| ensures !Duplicated(r, i) {
          if i < |r0| {
            assert r[..i] == r0[..i];
            assert !Duplicated(r0, i);
          } else {
            assert r[..i] == r0;
          }
        }
      }
    }
  }

  /** Survivors keep the order of their first occurrences in the input. */
  lemma {:induction false} DropDuplicatesOrder<T>(s: seq<T>)
    ensures forall x :: x in DropDuplicates(s) ==> x in s
    ensures forall i, j | 0 <= i < j < |DropDuplicates(s)| ::
      FirstIndex(s, DropDuplicates(s)[i]) < FirstIndex(s, DropDuplicates(s)[j])
    decreases |s|
  {
    DropDuplicatesMembers(s);
    if s != [] {
      var k := |s| - 1;
      var r0 := DropDuplicates(s[..k]);
      var r := DropDuplicates(s);
      DropDuplicatesOrder(s[..k]);
      DropDuplicatesMembers(s[..k]);
      forall i, j | 0 <= i < j < |r| ensures FirstIndex(s, r[i]) < FirstIndex(s, r[j]) {
        assert r[i] == r0[i];
        FirstIndexInPrefix(s, k, r[i]);
        if j < |r0| {
          assert r[j] == r0[j];
          FirstIndexInPrefix(s, k, r[j]);
        } else {
          assert r[j] == s[k] && s[k] !in s[..k];
          assert FirstIndex(s, r[j]) == k;
        }
      }
    }
  }

  /** A frame with no duplicates is left as it is, so dropping twice equals dropping once. */
  lemma {:induction false} DropDuplicatesOfUnique<T>(s: seq<T>)
    requires NoDuplicateRows(s)
    ensures DropDuplicates(s) == s
    decreases |s|
  {
    if s != [] {
      var k := |s| - 1;
      assert NoDuplicateRows(s[..k]) by {
        forall i | 0 <= i < k ensures !Duplicated(s[..k], i) {
          assert !Duplicated(s, i);
          assert s[..k][..i] == s[..i];
        }
      }
      DropDuplicatesOfUnique(s[..k]);
      assert !Duplicated(s, k);
      assert s == s[..k] + [s[k]];
    }
  }

  lemma DropDuplicatesIdempotent<T>(s: seq<T>)
    ensures DropDuplicates(DropDuplicates(s)) == DropDuplicates(s)
  {
    DropDuplicatesUnique(s);
    DropDuplicatesOfUnique(DropDuplicates(s));
  }
}
