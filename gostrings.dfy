/**
 * The parts of Go's `strings` package that the wifi code uses: `Split(s, sep)[0]`,
 * `Split(s, sep)[1]` and `Trim(s, cutset)`, for a one-character separator.
 *
 * Each function carries only the bounds its callers need to be well formed; what it
 * computes is stated by the lemma that follows it.
 */
module GoStrings {
  import opened Wrappers

  predicate StartsWith(s: string, prefix: string) {
    |prefix| <= |s| && s[..|prefix|] == prefix
  }

  /** Index of the first `c` in `s` at or after `j`, or `|s|`. */
  function IndexFrom(s: string, c: char, j: nat): (i: nat)
    requires j <= |s|
    ensures j <= i <= |s|
    decreases |s| - j
  {
    if j == |s| || s[j] == c then j else IndexFrom(s, c, j + 1)
  }

  lemma {:induction false} IndexFromSpec(s: string, c: char, j: nat)
    requires j <= |s|
    ensures IndexFrom(s, c, j) < |s| ==> s[IndexFrom(s, c, j)] == c
    ensures forall k :: j <= k < IndexFrom(s, c, j) ==> s[k] != c
    decreases |s| - j
  {
    if j < |s| && s[j] != c {
      IndexFromSpec(s, c, j + 1);
    }
  }

  /** Index of the first `c` in `s`, or `|s|` when there is none. */
  function IndexOf(s: string, c: char): (i: nat)
    ensures i <= |s|
  {
    IndexFrom(s, c, 0)
  }

  lemma IndexOfSpec(s: string, c: char)
    ensures IndexOf(s, c) < |s| ==> s[IndexOf(s, c)] == c
    ensures forall k :: 0 <= k < IndexOf(s, c) ==> s[k] != c
    ensures IndexOf(s, c) == |s| <==> c !in s
  {
    IndexFromSpec(s, c, 0);
  }

  /** A separator-free prefix moves the first separator by its length. */
  lemma IndexOfAppend(a: string, b: string, c: char)
    requires c !in a
    ensures IndexOf(a + b, c) == |a| + IndexOf(b, c)
  {
    IndexOfSpec(a + b, c);
    IndexOfSpec(b, c);
    var i, j := IndexOf(a + b, c), IndexOf(b, c);
    if j < |b| {
      assert (a + b)[|a| + j] == c;
    }
  }

  /** `strings.Split(s, sep)[0]`: the text before the first `sep`. */
  function SplitField0(s: string, sep: char): string {
    s[..IndexOf(s, sep)]
  }

  lemma SplitField0Spec(s: string, sep: char)
    ensures StartsWith(s, SplitField0(s, sep))
    ensures sep !in SplitField0(s, sep)
    ensures |SplitField0(s, sep)| == |s| || s[|SplitField0(s, sep)|] == sep
  {
    IndexOfSpec(s, sep);
  }

  /**
   * `strings.Split(s, sep)[1]`: the text between the first and the second `sep`
   * (or the end). `None` when `s` holds no `sep`: Go's index expression then panics.
   */
  function SplitField1(s: string, sep: char): Option<string> {
    var i := IndexOf(s, sep);
    if i == |s| then None else Some(SplitField0(s[i + 1..], sep))
  }

  /**
   * `f` is the field after the first `sep` of `s`: it holds no `sep`, it stands in `s`
   * right after that `sep`, and a `sep` or the end of `s` follows it.
   */
  predicate FieldAfterFirst(s: string, sep: char, f: string) {
    var i := IndexOf(s, sep);
    && i < |s|
    && sep !in f
    && i + 1 + |f| <= |s|
    && s[i + 1..i + 1 + |f|] == f
    && (i + 1 + |f| == |s| || s[i + 1 + |f|] == sep)
  }

  lemma SplitField1Spec(s: string, sep: char)
    ensures SplitField1(s, sep).None? <==> sep !in s
    ensures SplitField1(s, sep).Some? ==> FieldAfterFirst(s, sep, SplitField1(s, sep).value)
  {
    IndexOfSpec(s, sep);
    var i := IndexOf(s, sep);
    if i < |s| {
      var t := s[i + 1..];
      SplitField0Spec(t, sep);
      var r := SplitField0(t, sep);
      assert s[i + 1..i + 1 + |r|] == t[..|r|];
    }
  }

  /** The split of a text made of a separator-free head, `sep` and a separator-free field. */
  lemma SplitField1Of(head: string, sep: char, field: string, tail: string)
    requires sep !in head && sep !in field
    requires tail == [] || tail[0] == sep
    ensures SplitField1(head + [sep] + field + tail, sep) == Some(field)
  {
    var rest := field + tail;
    var s := head + ([sep] + rest);
    assert head + [sep] + field + tail == s;
    IndexOfAppend(head, [sep] + rest, sep);
    assert IndexOf([sep] + rest, sep) == 0;
    assert s[|head| + 1..] == rest;
    IndexOfAppend(field, tail, sep);
    assert IndexOf(tail, sep) == 0;
    assert rest[..|field|] == field;
  }

  /** The first index at or after `j` whose character is not in `cut`, or `|s|`. */
  function LeftCut(s: string, cut: set<char>, j: nat): (i: nat)
    requires j <= |s|
    ensures j <= i <= |s|
    decreases |s| - j
  {
    if j < |s| && s[j] in cut then LeftCut(s, cut, j + 1) else j
  }

  lemma {:induction false} LeftCutSpec(s: string, cut: set<char>, j: nat)
    requires j <= |s|
    ensures forall k :: j <= k < LeftCut(s, cut, j) ==> s[k] in cut
    ensures LeftCut(s, cut, j) < |s| ==> s[LeftCut(s, cut, j)] !in cut
    decreases |s| - j
  {
    if j < |s| && s[j] in cut {
      LeftCutSpec(s, cut, j + 1);
    }
  }

  /** The least `i <= j` such that every character of `s[i..j]` is in `cut`. */
  function RightCut(s: string, cut: set<char>, j: nat): (i: nat)
    requires j <= |s|
    ensures i <= j
    decreases j
  {
    if j > 0 && s[j - 1] in cut then RightCut(s, cut, j - 1) else j
  }

  lemma {:induction false} RightCutSpec(s: string, cut: set<char>, j: nat)
    requires j <= |s|
    ensures forall k :: RightCut(s, cut, j) <= k < j ==> s[k] in cut
    ensures RightCut(s, cut, j) > 0 ==> s[RightCut(s, cut, j) - 1] !in cut
    decreases j
  {
    if j > 0 && s[j - 1] in cut {
      RightCutSpec(s, cut, j - 1);
    }
  }

  /** `strings.TrimLeft(s, cutset)`. */
  function TrimLeft(s: string, cut: set<char>): string {
    s[LeftCut(s, cut, 0)..]
  }

  lemma TrimLeftSpec(s: string, cut: set<char>)
    ensures |TrimLeft(s, cut)| <= |s| && TrimLeft(s, cut) == s[|s| - |TrimLeft(s, cut)|..]
    ensures forall k :: 0 <= k < |s| - |TrimLeft(s, cut)| ==> s[k] in cut
    ensures TrimLeft(s, cut) != [] ==> TrimLeft(s, cut)[0] !in cut
  {
    LeftCutSpec(s, cut, 0);
  }

  /** `strings.TrimRight(s, cutset)`. */
  function TrimRight(s: string, cut: set<char>): string {
    s[..RightCut(s, cut, |s|)]
  }

  lemma TrimRightSpec(s: string, cut: set<char>)
    ensures |TrimRight(s, cut)| <= |s| && TrimRight(s, cut) == s[..|TrimRight(s, cut)|]
    ensures forall k :: |TrimRight(s, cut)| <= k < |s| ==> s[k] in cut
    ensures TrimRight(s, cut) != [] ==> TrimRight(s, cut)[|TrimRight(s, cut)| - 1] !in cut
  {
    RightCutSpec(s, cut, |s|);
  }

  /** `strings.Trim(s, cutset)`: drops every leading and trailing character of the cutset. */
  function Trim(s: string, cut: set<char>): string {
    TrimRight(TrimLeft(s, cut), cut)
  }

  lemma TrimSpec(s: string, cut: set<char>)
    ensures Trim(s, cut) != [] ==> Trim(s, cut)[0] !in cut && Trim(s, cut)[|Trim(s, cut)| - 1] !in cut
    ensures forall c :: c in Trim(s, cut) ==> c in s
    ensures s == [] || (s[0] !in cut && s[|s| - 1] !in cut) ==> Trim(s, cut) == s
  {
    var l := TrimLeft(s, cut);
    TrimLeftSpec(s, cut);
    TrimRightSpec(l, cut);
    var r := TrimRight(l, cut);
    forall c | c in r ensures c in s {
      var k :| 0 <= k < |r| && r[k] == c;
      assert l[k] == c;
      assert s[|s| - |l| + k] == c;
    }
    if s != [] && s[0] !in cut && s[|s| - 1] !in cut {
      assert l == s;
      assert r == s;
    }
  }

  /** Trimming a text wrapped only in cut characters gives back the text. */
  lemma TrimWrapped(pre: string, t: string, post: string, cut: set<char>)
    requires forall c :: c in pre ==> c in cut
    requires forall c :: c in post ==> c in cut
    requires t != [] ==> t[0] !in cut && t[|t| - 1] !in cut
    ensures Trim(pre + t + post, cut) == t
  {
    var s := pre + t + post;
    LeftCutSpec(s, cut, 0);
    var i := LeftCut(s, cut, 0);
    var l := s[i..];
    RightCutSpec(l, cut, |l|);
    var j := RightCut(l, cut, |l|);
    if t == [] {
      assert l == [];
    } else {
      assert s[|pre|] == t[0];
      assert i == |pre|;
      assert l == t + post;
      assert l[|t| - 1] == t[|t| - 1];
      assert l[..|t|] == t;
    }
  }

  /** Trimming on the left drops exactly a prefix of cut characters before a kept one. */
  lemma TrimLeftPrefix(pre: string, t: string, cut: set<char>)
    requires forall c :: c in pre ==> c in cut
    requires t == [] || t[0] !in cut
    ensures TrimLeft(pre + t, cut) == t
  {
    var s := pre + t;
    LeftCutSpec(s, cut, 0);
    assert s[|pre|..] == t;
  }

  /**
   * The trimmed field after the first `sep` of `head + [sep] + pad + t + post + tail`, where
   * only cut characters wrap `t` and `tail` is empty or starts with another `sep`.
   */
  lemma TrimmedField(head: string, sep: char, pad: string, t: string, post: string, tail: string,
                     cut: set<char>)
    requires sep !in head && sep !in pad && sep !in t && sep !in post
    requires tail == [] || tail[0] == sep
    requires forall c :: c in pad ==> c in cut
    requires forall c :: c in post ==> c in cut
    requires t != [] ==> t[0] !in cut && t[|t| - 1] !in cut
    ensures SplitField1(head + [sep] + pad + t + post + tail, sep).Some?
    ensures Trim(SplitField1(head + [sep] + pad + t + post + tail, sep).value, cut) == t
  {
    var field := pad + t + post;
    assert sep !in field;
    SplitField1Of(head, sep, field, tail);
    assert head + [sep] + pad + t + post + tail == head + [sep] + field + tail;
    TrimWrapped(pad, t, post, cut);
  }
}
