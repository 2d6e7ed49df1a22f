/** Change detection of the older entry points: `getHash` in `src/index.ts`
    and `src/cli.ts`, `computeHash` in `bin/esm-index.ts`, and the
    `compareContents` all three share. The text is split into CRLF lines,
    every line starting with `//` is replaced by an empty line, and the lines
    are joined with `,` (the default of `join()`) before hashing. The digest
    (md5) is a parameter. */
module LegacyHash {
  import opened Outcomes
  import opened Strings
  import Difference

  function Blank(line: string): string {
    if StartsWith(line, "//") then "" else line
  }

  /** The text the digest is taken of. */
  function Normalize(data: string): string {
    var lines := Split(data, "\r\n");
    Join(seq(|lines|, i requires 0 <= i < |lines| => Blank(lines[i])), ",")
  }

  /** `getHash(data)`. */
  function GetHash(md5: string -> string, data: string): string {
    md5(Normalize(data))
  }

  /** What `compareContents` leaves in `pass`: every later text has the
      first one's digest. */
  predicate AllSame(md5: string -> string, data: seq<string>) {
    forall i | 1 <= i < |data| :: GetHash(md5, data[i]) == GetHash(md5, data[0])
  }

  /** `compareContents(...data)`: a `forEach` over `data.slice(1)` that
      clears `pass` on the first digest that differs from the first one. */
  method CompareContents(md5: string -> string, data: seq<string>) returns (pass: bool)
    ensures pass == AllSame(md5, data)
  {
    pass := true;
    if |data| > 0 {
      var master := GetHash(md5, data[0]);
      var rest := data[1..];
      for k := 0 to |rest|
        invariant pass == forall j | 0 <= j < k :: GetHash(md5, rest[j]) == master
      {
        if master != GetHash(md5, rest[k]) {
          if pass {
            pass := false;
          }
        }
      }
      assert forall i | 1 <= i < |data| :: data[i] == rest[i - 1];
    }
  }

  /** With at most one text there is nothing to differ. */
  lemma AtMostOneIsSame(md5: string -> string, data: seq<string>)
    requires |data| <= 1
    ensures AllSame(md5, data)
  {
  }

  /** The old test is the exact negation of the newer `compare` taken over
      the normalised digest, on every input, empty or not. */
  lemma {:induction false} NegatesNewerCompare(md5: string -> string, data: seq<string>)
    ensures AllSame(md5, data) <==> !Difference.Compare(s => GetHash(md5, s), data)
  {
    var h := s => GetHash(md5, s);
    if !AllSame(md5, data) {
      var i :| 1 <= i < |data| && GetHash(md5, data[i]) != GetHash(md5, data[0]);
      assert h(data[i]) != h(data[0]);
    }
    if Difference.Compare(h, data) {
      var i :| 1 <= i < |data| && h(data[i]) != h(data[0]);
      assert GetHash(md5, data[i]) != GetHash(md5, data[0]);
    }
  }

  // ---------------------------------------------------------------------
  // What normalisation keeps and what it forgets.

  /** Splitting at a first line that holds no carriage return. */
  lemma SplitFirstLine(line: string, rest: string)
    requires '\r' !in line
    ensures Split(line + "\r\n" + rest, "\r\n") == [line] + Split(rest, "\r\n")
  {
    var s := line + "\r\n" + rest;
    assert OccursAt(s, "\r\n", |line|) by {
      assert s[|line|..|line| + 2] == "\r\n";
    }
    forall j | 0 <= j < |line| ensures !OccursAt(s, "\r\n", j) {
      assert s[j] == line[j];
      assert s[j] != '\r';
    }
    assert IndexOf(s, "\r\n", 0) == Some(|line|);
    assert s[..|line|] == line;
    assert s[|line| + 2..] == rest;
  }

  /** A text without CRLF is a single line: it is its own normal form, or
      `''` when it starts with `//`, and its digest is taken of that. */
  lemma NormalizeOneLine(md5: string -> string, data: string)
    requires !Contains(data, "\r\n")
    ensures Normalize(data) == Blank(data)
    ensures GetHash(md5, data) == md5(Blank(data))
  {
    assert forall i :: 0 <= i ==> !OccursAt(data, "\r\n", i);
    assert Split(data, "\r\n") == [data];
  }

  /** A comment line is blanked, not dropped: it still adds a separator. */
  lemma CommentLineBlanked(comment: string, rest: string)
    requires StartsWith(comment, "//") && '\r' !in comment
    ensures Normalize(comment + "\r\n" + rest) == "," + Normalize(rest)
  {
    var lines := Split(rest, "\r\n");
    var all := [comment] + lines;
    var blanked := seq(|all|, i requires 0 <= i < |all| => Blank(all[i]));
    var tail := seq(|lines|, i requires 0 <= i < |lines| => Blank(lines[i]));
    assert |blanked| >= 2 && blanked[0] == "" && blanked[1..] == tail;
    calc {
      Normalize(comment + "\r\n" + rest);
    == { SplitFirstLine(comment, rest); }
      Join(blanked, ",");
    ==
      "" + "," + Join(tail, ",");
    }
  }

  /** So the text of a comment line does not matter to the digest … */
  lemma CommentTextIgnored(md5: string -> string, c1: string, c2: string, rest: string)
    requires StartsWith(c1, "//") && '\r' !in c1
    requires StartsWith(c2, "//") && '\r' !in c2
    ensures GetHash(md5, c1 + "\r\n" + rest) == GetHash(md5, c2 + "\r\n" + rest)
  {
    CommentLineBlanked(c1, rest);
    CommentLineBlanked(c2, rest);
  }

  /** … but inserting one changes the normalised text. */
  lemma InsertedCommentCounts()
    ensures Normalize("// note\r\nx") == ",x"
    ensures Normalize("x") == "x"
  {
    assert IndexOf("x", "\r\n", 0) == None;
    assert Normalize("x") == "x";
    CommentLineBlanked("// note", "x");
    assert "// note" + "\r\n" + "x" == "// note\r\nx";
  }
}
