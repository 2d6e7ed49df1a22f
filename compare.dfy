/** Change detection of `src/contents/compare.ts`. The digest is the md5 of
    `src/contents/hash.ts`, an uninterpreted function here: only "equal
    texts have equal digests" is used. The function answers whether some
    later argument DIFFERS from the first, although its doc comment
    promises the opposite; its callers read `true` as "differs". */
module Difference {

  /** `data.slice(1).map(item => hash(data[0]) == hash(item)).includes(false)`. */
  function Compare(hash: string -> string, data: seq<string>): (r: bool)
    ensures r <==> exists i :: 1 <= i < |data| && hash(data[i]) != hash(data[0])
  {
    var same := seq(if |data| == 0 then 0 else |data| - 1,
                    i requires 0 <= i < |data| - 1 => hash(data[0]) == hash(data[i + 1]));
    assert forall i :: 1 <= i < |data| ==> same[i - 1] == (hash(data[0]) == hash(data[i]));
    false in same
  }

  /** No argument, or a single one, never differs. */
  lemma FewerThanTwo(hash: string -> string, data: seq<string>)
    requires |data| < 2
    ensures !Compare(hash, data)
  {
  }

  /** A text never differs from itself. */
  lemma SameText(hash: string -> string, x: string)
    ensures !Compare(hash, [x, x])
  {
    assert [x, x][1] == x;
  }

  /** For two texts the answer does not depend on their order. */
  lemma Symmetric(hash: string -> string, x: string, y: string)
    ensures Compare(hash, [x, y]) == Compare(hash, [y, x])
  {
    assert [x, y][1] == y && [y, x][1] == x;
  }

  /** Texts reported as different are different. */
  lemma DifferentTexts(hash: string -> string, x: string, y: string)
    requires Compare(hash, [x, y])
    ensures x != y
  {
    SameText(hash, x);
  }
}
