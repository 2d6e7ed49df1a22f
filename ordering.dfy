/** The sort of the module lists: `list.sort((a, b) => …)` with the
    comparator "recursion first, then by name". The comparator answers "a
    first" for ANY two recursion entries, in both orders, so it is not a
    consistent comparator and the order among recursion entries is left to
    the JavaScript engine. The model sorts by insertion with that comparator
    read literally ("does `a` go before `b`?"), and its contract promises
    only what every engine gives: a permutation, recursion entries before
    plain ones, and plain entries in ascending name order. */
module Ordering {

  /** Where `c`'s first UTF-16 code unit falls among code units: characters
      below U+D800 keep their value; a supplementary character, whose first
      unit is a high surrogate (0xD800 to 0xDBFF), comes next in code-point
      order; U+E000 to U+FFFF come last. */
  function UnitRank(c: char): int {
    var n := c as int;
    if n < 0xD800 then n
    else if n >= 0x10000 then n - 0x10000 + 0xD800
    else n + 0x100000
  }

  /** JavaScript's `a < b` on strings: lexicographic by UTF-16 code unit, a
      proper prefix before the longer string. `LessIsCodeUnitOrder` shows
      that comparing characters by `UnitRank` is exactly that. */
  predicate Less(a: string, b: string)
    decreases |a|
  {
    |b| > 0 && (|a| == 0 || UnitRank(a[0]) < UnitRank(b[0]) || (a[0] == b[0] && Less(a[1..], b[1..])))
  }

  // ---------------------------------------------------------------------
  // UTF-16, the representation JavaScript compares.

  /** The UTF-16 code units of one character. */
  function Units(c: char): (r: seq<int>)
    ensures 1 <= |r| <= 2
  {
    var n := c as int;
    if n < 0x10000 then [n]
    else [0xD800 + (n - 0x10000) / 0x400, 0xDC00 + (n - 0x10000) % 0x400]
  }

  /** The UTF-16 code units of a string. */
  function Utf16(s: string): (r: seq<int>)
    ensures r == [] <==> s == []
  {
    if s == [] then [] else Units(s[0]) + Utf16(s[1..])
  }

  /** Lexicographic order on code units, a proper prefix first. */
  predicate UnitsLess(a: seq<int>, b: seq<int>)
    decreases |a|
  {
    |b| > 0 && (|a| == 0 || a[0] < b[0] || (a[0] == b[0] && UnitsLess(a[1..], b[1..])))
  }

  /** A common prefix does not decide the order. */
  lemma {:induction false} UnitsLessCommonPrefix(u: seq<int>, x: seq<int>, y: seq<int>)
    ensures UnitsLess(u + x, u + y) <==> UnitsLess(x, y)
    decreases |u|
  {
    if u != [] {
      assert (u + x)[1..] == u[1..] + x;
      assert (u + y)[1..] == u[1..] + y;
      UnitsLessCommonPrefix(u[1..], x, y);
    } else {
      assert u + x == x && u + y == y;
    }
  }

  /** Two different characters are ordered by their first differing code
      unit, whatever follows them. */
  lemma UnitsLessFirstChar(c: char, d: char, x: seq<int>, y: seq<int>)
    requires c != d
    ensures UnitsLess(Units(c) + x, Units(d) + y) <==> UnitRank(c) < UnitRank(d)
  {
    var n, m := c as int, d as int;
    var u, v := Units(c) + x, Units(d) + y;
    assert u[0] == Units(c)[0] && v[0] == Units(d)[0];
    if n >= 0x10000 && m >= 0x10000 && u[0] == v[0] {
      assert u[1..] == [Units(c)[1]] + x;
      assert v[1..] == [Units(d)[1]] + y;
      assert (n - 0x10000) / 0x400 == (m - 0x10000) / 0x400;
      assert (n - 0x10000) % 0x400 != (m - 0x10000) % 0x400;
    }
  }

  /** `Less` is JavaScript's comparison of the UTF-16 code units. */
  lemma {:induction false} LessIsCodeUnitOrder(a: string, b: string)
    ensures Less(a, b) <==> UnitsLess(Utf16(a), Utf16(b))
    decreases |a|
  {
    if a != [] && b != [] {
      if a[0] == b[0] {
        LessIsCodeUnitOrder(a[1..], b[1..]);
        UnitsLessCommonPrefix(Units(a[0]), Utf16(a[1..]), Utf16(b[1..]));
      } else {
        UnitsLessFirstChar(a[0], b[0], Utf16(a[1..]), Utf16(b[1..]));
      }
    }
  }

  /** A supplementary character sorts before U+FFFF, unlike its code point. */
  lemma SupplementaryBeforeBmpTail()
    ensures Less("\U{1F600}", "\U{FFFF}")
    ensures ('\U{1F600}' as int) > ('\U{FFFF}' as int)
  {
  }

  lemma {:induction false} LessIrreflexive(a: string)
    ensures !Less(a, a)
  {
    if |a| > 0 {
      LessIrreflexive(a[1..]);
    }
  }

  lemma {:induction false} LessTransitive(a: string, b: string, c: string)
    requires Less(a, b) && Less(b, c)
    ensures Less(a, c)
  {
    if |a| > 0 && a[0] == b[0] && b[0] == c[0] {
      LessTransitive(a[1..], b[1..], c[1..]);
    }
  }

  /** Any two different strings are ordered one way or the other. */
  lemma {:induction false} LessTotal(a: string, b: string)
    ensures a == b || Less(a, b) || Less(b, a)
  {
    if |a| > 0 && |b| > 0 && a[0] == b[0] {
      LessTotal(a[1..], b[1..]);
      if a[1..] == b[1..] {
        assert a == [a[0]] + a[1..] && b == [b[0]] + b[1..];
      }
    }
  }

  /** The source's comparator is negative: `a` is placed before `b`. */
  predicate Precedes<T>(rec: T -> bool, key: T -> string, a: T, b: T) {
    rec(a) || (!rec(b) && Less(key(a), key(b)))
  }

  /** Every recursion entry stands before every plain entry. */
  predicate RecursionFirst<T>(rec: T -> bool, s: seq<T>) {
    forall i, j :: 0 <= i < j < |s| && rec(s[j]) ==> rec(s[i])
  }

  /** Plain entries are in ascending name order. */
  predicate PlainAscending<T>(rec: T -> bool, key: T -> string, s: seq<T>) {
    forall i, j :: 0 <= i < j < |s| && !rec(s[i]) && !rec(s[j]) ==> !Less(key(s[j]), key(s[i]))
  }

  predicate Canonical<T>(rec: T -> bool, key: T -> string, s: seq<T>) {
    RecursionFirst(rec, s) && PlainAscending(rec, key, s)
  }

  /** Placing `x` in front keeps a canonical list canonical when the
      comparator puts `x` before the head. */
  lemma InFront<T>(rec: T -> bool, key: T -> string, x: T, s: seq<T>)
    requires Canonical(rec, key, s) && s != [] && Precedes(rec, key, x, s[0])
    ensures Canonical(rec, key, [x] + s)
  {
    var r := [x] + s;
    if !rec(x) {
      assert forall j :: 0 <= j < |s| ==> !rec(s[j]);
      forall j | 0 < j < |r| && !rec(r[j]) ensures !Less(key(r[j]), key(x)) {
        assert r[j] == s[j - 1];
        if Less(key(s[j - 1]), key(x)) {
          if j - 1 == 0 {
            LessTransitive(key(x), key(s[0]), key(x));
            LessIrreflexive(key(x));
          } else {
            assert !Less(key(s[j - 1]), key(s[0]));
            LessTransitive(key(s[j - 1]), key(x), key(s[0]));
          }
        }
      }
    }
    assert forall i, j :: 0 < i < j < |r| ==> r[i] == s[i - 1] && r[j] == s[j - 1];
  }

  /** Placing the head in front of a canonical insertion result keeps it
      canonical when the comparator does not put `x` before the head. */
  lemma BehindHead<T>(rec: T -> bool, key: T -> string, x: T, s: seq<T>, rest: seq<T>)
    requires Canonical(rec, key, s) && s != [] && !Precedes(rec, key, x, s[0])
    requires Canonical(rec, key, rest) && multiset(rest) == multiset(s[1..]) + multiset{x}
    ensures Canonical(rec, key, [s[0]] + rest)
  {
    var r := [s[0]] + rest;
    forall j | 0 <= j < |rest| ensures rest[j] == x || rest[j] in s[1..] {
      assert rest[j] in multiset(rest);
    }
    forall j | 0 < j < |r| ensures (rec(r[j]) ==> rec(s[0])) && (!rec(s[0]) && !rec(r[j]) ==> !Less(key(r[j]), key(s[0]))) {
      assert r[j] == rest[j - 1];
      if r[j] != x {
        var k :| 0 <= k < |s[1..]| && s[1..][k] == r[j];
        assert s[k + 1] == r[j];
      }
    }
    assert forall i, j :: 0 < i < j < |r| ==> r[i] == rest[i - 1] && r[j] == rest[j - 1];
  }

  /** Insert `x` before the first entry the comparator puts it in front of. */
  function Insert<T>(rec: T -> bool, key: T -> string, x: T, s: seq<T>): (r: seq<T>)
    requires Canonical(rec, key, s)
    ensures Canonical(rec, key, r)
    ensures multiset(r) == multiset(s) + multiset{x}
  {
    if s == [] then [x]
    else if Precedes(rec, key, x, s[0]) then
      InFront(rec, key, x, s);
      [x] + s
    else
      var rest := Insert(rec, key, x, s[1..]);
      assert s == [s[0]] + s[1..];
      BehindHead(rec, key, x, s, rest);
      [s[0]] + rest
  }

  /** `sort` with the source's comparator. */
  function Sort<T>(rec: T -> bool, key: T -> string, s: seq<T>): (r: seq<T>)
    ensures Canonical(rec, key, r)
    ensures multiset(r) == multiset(s)
  {
    if s == [] then []
    else
      var tail := Sort(rec, key, s[1..]);
      var r := Insert(rec, key, s[0], tail);
      assert s == [s[0]] + s[1..];
      r
  }
}
