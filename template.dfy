/** `{key}` placeholder substitution (`src/contents/template.ts`). The data
    object is a list of (key, value-as-string) pairs in `Object.keys` order;
    keys are taken to hold no regular-expression metacharacter, so
    `new RegExp(`{${key}}`, 'g')` matches the literal text `{key}`. */
module Template {
  import opened Outcomes
  import opened Strings
  import opened Types

  /** `s.replace(/pat/g, rep)`: the leftmost occurrence is replaced, and the
      search goes on after it, never inside the replacement. */
  function ReplaceAll(s: string, pat: string, rep: string): (r: string)
    requires |pat| > 0
    ensures !Contains(s, pat) ==> r == s
    decreases |s|
  {
    match IndexOf(s, pat, 0)
    case None =>
      assert !Contains(s, pat);
      s
    case Some(i) => s[..i] + rep + ReplaceAll(s[i + |pat|..], pat, rep)
  }

  /** Global replacement is splitting at the pattern and joining with the
      replacement. */
  lemma {:induction false} ReplaceAllIsSplitJoin(s: string, pat: string, rep: string)
    requires |pat| > 0
    ensures ReplaceAll(s, pat, rep) == Join(Split(s, pat), rep)
    decreases |s|
  {
    match IndexOf(s, pat, 0)
    case None =>
    case Some(i) =>
      var rest := s[i + |pat|..];
      var parts := Split(rest, pat);
      ReplaceAllIsSplitJoin(rest, pat, rep);
      assert Split(s, pat) == [s[..i]] + parts;
      JoinCons(s[..i], parts, rep);
  }

  lemma JoinCons(a: string, parts: seq<string>, sep: string)
    requires |parts| >= 1
    ensures Join([a] + parts, sep) == a + sep + Join(parts, sep)
  {
    assert ([a] + parts)[1..] == parts;
  }

  /** The placeholder the source builds for a key. */
  function Placeholder(key: string): (r: string)
    ensures |r| == |key| + 2 && r[0] == '{' && r[|r| - 1] == '}'
  {
    "{" + key + "}"
  }

  /** The result of the `forEach`: each key in turn replaces every
      occurrence of its placeholder in the text produced so far. */
  function Render(template: string, data: seq<(string, string)>): (r: string)
    ensures data == [] ==> r == template
    decreases |data|
  {
    if data == [] then template
    else Render(ReplaceAll(template, Placeholder(data[0].0), data[0].1), data[1..])
  }

  /** The source's loop: `template` is reassigned once per key. */
  method Substitute(template: string, data: seq<(string, string)>) returns (r: string)
    ensures r == Render(template, data)
  {
    r := template;
    var i := 0;
    while i < |data|
      invariant 0 <= i <= |data|
      invariant Render(template, data) == Render(r, data[i..])
      decreases |data| - i
    {
      assert data[i..][1..] == data[i + 1..];
      r := ReplaceAll(r, Placeholder(data[i].0), data[i].1);
      i := i + 1;
    }
  }

  /** Text with no placeholder of any data key comes back unchanged. */
  lemma {:induction false} RenderUntouched(template: string, data: seq<(string, string)>)
    requires forall k :: 0 <= k < |data| ==> !Contains(template, Placeholder(data[k].0))
    ensures Render(template, data) == template
  {
    if data != [] {
      assert !Contains(template, Placeholder(data[0].0));
      RenderUntouched(template, data[1..]);
    }
  }

  /** Rendering in pieces: the keys are applied one after the other, so a
      value that holds a later key's placeholder is substituted again. */
  lemma {:induction false} RenderAppend(template: string, d1: seq<(string, string)>, d2: seq<(string, string)>)
    ensures Render(template, d1 + d2) == Render(Render(template, d1), d2)
    decreases |d1|
  {
    if d1 == [] {
      assert d1 + d2 == d2;
    } else {
      assert (d1 + d2)[0] == d1[0] && (d1 + d2)[1..] == d1[1..] + d2;
      RenderAppend(ReplaceAll(template, Placeholder(d1[0].0), d1[0].1), d1[1..], d2);
    }
  }

  /** A placeholder alone is replaced by its value. */
  lemma ReplaceWhole(key: string, value: string)
    ensures ReplaceAll(Placeholder(key), Placeholder(key), value) == value
  {
    var p := Placeholder(key);
    assert OccursAt(p, p, 0);
    assert IndexOf(p, p, 0) == Some(0);
    assert p[|p|..] == [];
    assert IndexOf([], p, 0) == None;
  }

  /** Key order: with `{a: "{b}", b: "x"}` the text `{a}` becomes `{b}` and
      then `x`. */
  lemma LaterKeySubstitutesValue()
    ensures Render("{a}", [("a", "{b}"), ("b", "x")]) == "x"
  {
    ReplaceWhole("a", "{b}");
    ReplaceWhole("b", "x");
    assert Render("x", []) == "x";
  }
}
