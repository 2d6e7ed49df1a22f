/** Duplicate detection: `src/utils/findArrayDuplicates.ts` and its copy
    `src/utils/listDuplicates.ts`. Both walk the input once, remembering the
    values seen so far, and collect every value seen before. */
module Duplicates {

  /** The reference: the values that occur earlier in the input, in input
      order (a value occurring `k` times contributes its last `k - 1`
      occurrences). */
  function Dups<T(==)>(s: seq<T>): (r: seq<T>)
    ensures s != [] ==> |r| < |s|
    decreases |s|
  {
    if s == [] then []
    else
      var init := s[..|s| - 1];
      Dups(init) + (if s[|s| - 1] in init then [s[|s| - 1]] else [])
  }

  /** `findArrayDuplicates(arr)`. */
  method FindArrayDuplicates<T(==)>(arr: seq<T>) returns (duplicatedValues: seq<T>)
    ensures duplicatedValues == Dups(arr)
  {
    var uniqueValues: seq<T> := [];
    duplicatedValues := [];
    for i := 0 to |arr|
      invariant forall x :: x in uniqueValues <==> x in arr[..i]
      invariant duplicatedValues == Dups(arr[..i])
    {
      var item := arr[i];
      assert arr[..i + 1][..i] == arr[..i];
      if item in uniqueValues {
        duplicatedValues := duplicatedValues + [item];
      } else {
        uniqueValues := uniqueValues + [item];
      }
    }
    assert arr[..|arr|] == arr;
  }

  /** `listDuplicates(arr)`: the same walk under other names. */
  method ListDuplicates<T(==)>(arr: seq<T>) returns (duplicates: seq<T>)
    ensures duplicates == Dups(arr)
  {
    var storage: seq<T> := [];
    duplicates := [];
    for i := 0 to |arr|
      invariant forall x :: x in storage <==> x in arr[..i]
      invariant duplicates == Dups(arr[..i])
    {
      var item := arr[i];
      assert arr[..i + 1][..i] == arr[..i];
      if item in storage {
        duplicates := duplicates + [item];
      } else {
        storage := storage + [item];
      }
    }
    assert arr[..|arr|] == arr;
  }

  /** A value occurring `k >= 1` times occurs `k - 1` times in the output. */
  lemma {:induction false} DupsCount<T>(s: seq<T>, v: T)
    ensures multiset(Dups(s))[v] == if multiset(s)[v] == 0 then 0 else multiset(s)[v] - 1
    decreases |s|
  {
    if s != [] {
      var init := s[..|s| - 1];
      DupsCount(init, v);
      assert s == init + [s[|s| - 1]];
      assert s[|s| - 1] in init <==> multiset(init)[s[|s| - 1]] > 0;
    }
  }

  /** The output is as long as the input less its number of distinct values. */
  lemma {:induction false} DupsLength<T>(s: seq<T>)
    ensures |Dups(s)| == |s| - |set x | x in s|
    decreases |s|
  {
    if s != [] {
      var init := s[..|s| - 1];
      var last := s[|s| - 1];
      DupsLength(init);
      assert s == init + [last];
      assert (set x | x in s) == (set x | x in init) + {last};
      if last !in init {
        assert last !in (set x | x in init);
      }
    }
  }

  /** The output is empty exactly when no value repeats. */
  lemma {:induction false} DupsEmptyIff<T>(s: seq<T>)
    ensures Dups(s) == [] <==> forall i, j :: 0 <= i < j < |s| ==> s[i] != s[j]
    decreases |s|
  {
    if s != [] {
      var init := s[..|s| - 1];
      var last := s[|s| - 1];
      DupsEmptyIff(init);
      if last in init {
        var i :| 0 <= i < |init| && init[i] == last;
        assert s[i] == s[|s| - 1];
      }
      if Dups(s) == [] {
        assert Dups(init) == [] && last !in init;
        forall i, j | 0 <= i < j < |s| ensures s[i] != s[j] {
          if j < |s| - 1 {
            assert s[i] == init[i] && s[j] == init[j];
          } else {
            assert s[i] == init[i];
          }
        }
      }
    }
  }

  /** Every output value comes, in order, from a later occurrence in the
      input: appending to the input appends only that value's repeat. */
  lemma DupsAppend<T>(s: seq<T>, x: T)
    ensures Dups(s + [x]) == Dups(s) + (if x in s then [x] else [])
  {
    assert (s + [x])[..|s + [x]| - 1] == s;
  }
}
