/** The regular expressions the engine builds. Every fixed pattern in the
    source is an alternation of "shapes": an optional `^`, a run of literal
    characters and `.` wildcards, and an optional `$`. A user-supplied
    `/…/` body is left to the regular-expression engine, which is a
    parameter. As in JavaScript without the `s` flag, a wildcard matches
    any character but a line terminator. Text interpolated into a pattern (an extension, a file name,
    an ignore entry) is taken to hold no metacharacter, so it compiles to
    literal atoms. */
module Regex {
  import opened Strings

  datatype Atom = Char(c: char) | Wildcard

  datatype Shape = Shape(anchorStart: bool, atoms: seq<Atom>, anchorEnd: bool)

  datatype Pattern =
    | Alternatives(shapes: seq<Shape>)
    | UserPattern(body: string)

  /** `new RegExp(body).test(file)` for a body written by the user. */
  type UserMatcher = (string, string) -> bool

  /** The characters JavaScript's `.` does not match (no `s` flag). */
  predicate LineTerminator(c: char) {
    c == '\n' || c == '\r' || c == '\U{2028}' || c == '\U{2029}'
  }

  predicate AtomMatches(a: Atom, c: char) {
    match a
    case Wildcard => !LineTerminator(c)
    case Char(x) => x == c
  }

  predicate MatchesAt(atoms: seq<Atom>, s: string, i: int) {
    0 <= i && i + |atoms| <= |s| &&
    forall k :: 0 <= k < |atoms| ==> AtomMatches(atoms[k], s[i + k])
  }

  /** `re.test(s)` for a single shape: some start position matches, the
      anchors pin the start or the end. */
  predicate ShapeMatches(sh: Shape, s: string) {
    exists i | 0 <= i <= |s| ::
      MatchesAt(sh.atoms, s, i) &&
      (sh.anchorStart ==> i == 0) &&
      (sh.anchorEnd ==> i + |sh.atoms| == |s|)
  }

  predicate Test(user: UserMatcher, p: Pattern, s: string) {
    match p
    case Alternatives(shapes) => exists k | 0 <= k < |shapes| :: ShapeMatches(shapes[k], s)
    case UserPattern(body) => user(body, s)
  }

  /** The characters of `s` as literal atoms. */
  function Literal(s: string): (r: seq<Atom>)
    ensures |r| == |s|
    ensures forall k :: 0 <= k < |s| ==> r[k] == Char(s[k])
  {
    seq(|s|, k requires 0 <= k < |s| => Char(s[k]))
  }

  /** A literal run matches exactly where the text occurs. */
  lemma LiteralMatchesAt(t: string, s: string, i: int)
    ensures MatchesAt(Literal(t), s, i) <==> OccursAt(s, t, i)
  {
    if MatchesAt(Literal(t), s, i) {
      assert s[i..i + |t|] == t by {
        forall k | 0 <= k < |t| ensures s[i..i + |t|][k] == t[k] {
          assert AtomMatches(Literal(t)[k], s[i + k]);
        }
      }
    }
    if OccursAt(s, t, i) {
      forall k | 0 <= k < |t| ensures AtomMatches(Literal(t)[k], s[i + k]) {
        assert s[i..i + |t|][k] == t[k];
      }
    }
  }

  /** A single unanchored literal shape is `includes`. */
  lemma ContainsShape(t: string, s: string)
    ensures ShapeMatches(Shape(false, Literal(t), false), s) <==> Contains(s, t)
  {
    if ShapeMatches(Shape(false, Literal(t), false), s) {
      var i :| 0 <= i <= |s| && MatchesAt(Literal(t), s, i);
      LiteralMatchesAt(t, s, i);
    }
    if Contains(s, t) {
      var i :| 0 <= i <= |s| - |t| && OccursAt(s, t, i);
      LiteralMatchesAt(t, s, i);
    }
  }

  /** A literal shape anchored at the start is `startsWith`. */
  lemma StartShape(t: string, s: string)
    ensures ShapeMatches(Shape(true, Literal(t), false), s) <==> StartsWith(s, t)
  {
    LiteralMatchesAt(t, s, 0);
  }

  /** A literal shape anchored at the end is `endsWith`. */
  lemma EndShape(t: string, s: string)
    ensures ShapeMatches(Shape(false, Literal(t), true), s) <==> EndsWith(s, t)
  {
    if |t| <= |s| {
      LiteralMatchesAt(t, s, |s| - |t|);
    }
  }

  /** A literal shape anchored at both ends is equality. */
  lemma WholeShape(t: string, s: string)
    ensures ShapeMatches(Shape(true, Literal(t), true), s) <==> s == t
  {
    LiteralMatchesAt(t, s, 0);
    if s == t {
      assert s[0..|t|] == t;
    }
  }

  /** Matching a concatenation is matching its parts one after the other. */
  lemma MatchesAtConcat(x: seq<Atom>, y: seq<Atom>, s: string, i: int)
    ensures MatchesAt(x + y, s, i) <==> MatchesAt(x, s, i) && MatchesAt(y, s, i + |x|)
  {
    if MatchesAt(x, s, i) && MatchesAt(y, s, i + |x|) {
      forall k | 0 <= k < |x + y| ensures AtomMatches((x + y)[k], s[i + k]) {
        if k >= |x| {
          assert AtomMatches(y[k - |x|], s[i + |x| + (k - |x|)]);
        }
      }
    }
    if MatchesAt(x + y, s, i) {
      forall k | 0 <= k < |y| ensures AtomMatches(y[k], s[i + |x| + k]) {
        assert AtomMatches((x + y)[|x| + k], s[i + (|x| + k)]);
      }
      forall k | 0 <= k < |x| ensures AtomMatches(x[k], s[i + k]) {
        assert AtomMatches((x + y)[k], s[i + k]);
      }
    }
  }

  /** A lone wildcard matches one character that is not a line terminator. */
  lemma WildcardAt(s: string, i: int)
    ensures MatchesAt([Wildcard], s, i) <==> 0 <= i < |s| && !LineTerminator(s[i])
  {
    if 0 <= i < |s| {
      assert [Wildcard][0] == Wildcard;
    }
  }

  /** `^a.b$` with a wildcard dot: the text is `a`, one character other
      than a line terminator, then `b`. */
  lemma SandwichShape(a: string, b: string, s: string)
    ensures ShapeMatches(Shape(true, Literal(a) + [Wildcard] + Literal(b), true), s)
        <==> |s| == |a| + 1 + |b| && StartsWith(s, a) && EndsWith(s, b) && !LineTerminator(s[|a|])
  {
    var atoms := Literal(a) + [Wildcard] + Literal(b);
    MatchesAtConcat(Literal(a) + [Wildcard], Literal(b), s, 0);
    MatchesAtConcat(Literal(a), [Wildcard], s, 0);
    LiteralMatchesAt(a, s, 0);
    LiteralMatchesAt(b, s, |a| + 1);
    WildcardAt(s, |a|);
    if |s| == |a| + 1 + |b| && StartsWith(s, a) && EndsWith(s, b) && !LineTerminator(s[|a|]) {
      assert MatchesAt(atoms, s, 0);
    }
  }
}
