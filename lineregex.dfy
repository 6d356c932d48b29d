/**
 * Go's `regexp` search methods, for the multi-line (`(?m)`) patterns the wifi code uses.
 * Each pattern is modelled as a predicate on one line of text: a match starts at a line
 * start (where `^` matches) and its text is the whole line. This fits every pattern of
 * pkg/wifi/wifi.go, since each one begins with `^` and ends in `.*`, `$` or a fixed word
 * that the code only tests for presence.
 *
 * As in GoStrings, each function carries only the bounds its callers need; what a search
 * finds is stated by the lemmas.
 */
module LineRegex {
  import opened Wrappers

  /** Where `^` matches in multi-line mode: the start of the text or just after a newline. */
  predicate IsLineStart(s: string, p: int) {
    p == 0 || (0 < p <= |s| && s[p - 1] == '\n')
  }

  /** The end of the line starting at `p`: the next newline, or the end of the text. */
  function LineEnd(s: string, p: nat): (e: nat)
    requires p <= |s|
    ensures p <= e <= |s|
    ensures e == |s| || s[e] == '\n'
    decreases |s| - p
  {
    if p == |s| || s[p] == '\n' then p else LineEnd(s, p + 1)
  }

  lemma {:induction false} LineEndSpec(s: string, p: nat)
    requires p <= |s|
    ensures forall k :: p <= k < LineEnd(s, p) ==> s[k] != '\n'
    decreases |s| - p
  {
    if p < |s| && s[p] != '\n' {
      LineEndSpec(s, p + 1);
    }
  }

  /** The line that starts at `p`, without its newline. */
  function LineAt(s: string, p: nat): string
    requires p <= |s|
  {
    s[p..LineEnd(s, p)]
  }

  /** A line start of `s` whose line satisfies `re`. */
  predicate MatchAt(re: string -> bool, s: string, p: int) {
    0 <= p <= |s| && IsLineStart(s, p) && re(LineAt(s, p))
  }

  /** A line start after `p` lies past the end of `p`'s line. */
  lemma NextLineStart(s: string, p: nat, q: nat)
    requires p < q <= |s| && IsLineStart(s, q)
    ensures LineEnd(s, p) < q
  {
    LineEndSpec(s, p);
    assert s[q - 1] == '\n';
  }

  predicate Increasing(r: seq<nat>) {
    forall k, k' :: 0 <= k < k' < |r| ==> r[k] < r[k']
  }

  /** The match starts at or after the line start `p`, in increasing order. */
  function MatchStarts(re: string -> bool, s: string, p: nat): seq<nat>
    requires p <= |s| && IsLineStart(s, p)
    decreases |s| - p
  {
    var e := LineEnd(s, p);
    var rest := if e < |s| then MatchStarts(re, s, e + 1) else [];
    if re(LineAt(s, p)) then [p] + rest else rest
  }

  /** `MatchStarts` finds only matches, from `p` on. */
  lemma {:induction false} MatchStartsSound(re: string -> bool, s: string, p: nat)
    requires p <= |s| && IsLineStart(s, p)
    ensures forall k :: 0 <= k < |MatchStarts(re, s, p)| ==>
      p <= MatchStarts(re, s, p)[k] && MatchAt(re, s, MatchStarts(re, s, p)[k])
    decreases |s| - p
  {
    var e := LineEnd(s, p);
    var r := MatchStarts(re, s, p);
    if e < |s| {
      var rest := MatchStarts(re, s, e + 1);
      MatchStartsSound(re, s, e + 1);
      if re(LineAt(s, p)) {
        assert r == [p] + rest;
        assert forall k :: 1 <= k < |r| ==> r[k] == rest[k - 1];
      } else {
        assert r == rest;
      }
    } else {
      assert r == if re(LineAt(s, p)) then [p] else [];
    }
  }

  /** A start below every element of an increasing sequence keeps it increasing. */
  lemma IncreasingCons(p: nat, rest: seq<nat>)
    requires Increasing(rest)
    requires forall k :: 0 <= k < |rest| ==> p < rest[k]
    ensures Increasing([p] + rest)
  {
    var r := [p] + rest;
    forall k, k' | 0 <= k < k' < |r| ensures r[k] < r[k'] {
      assert r[k'] == rest[k' - 1];
      if k > 0 {
        assert r[k] == rest[k - 1];
      }
    }
  }

  /** `MatchStarts` lists the matches in increasing order. */
  lemma {:induction false} MatchStartsIncreasing(re: string -> bool, s: string, p: nat)
    requires p <= |s| && IsLineStart(s, p)
    ensures Increasing(MatchStarts(re, s, p))
    decreases |s| - p
  {
    var e := LineEnd(s, p);
    if e < |s| {
      var rest := MatchStarts(re, s, e + 1);
      MatchStartsIncreasing(re, s, e + 1);
      if re(LineAt(s, p)) {
        MatchStartsSound(re, s, e + 1);
        IncreasingCons(p, rest);
      }
    }
  }

  /** `MatchStarts` misses no match at or after `p`. */
  lemma {:induction false} MatchStartsComplete(re: string -> bool, s: string, p: nat, q: nat)
    requires p <= |s| && IsLineStart(s, p)
    requires p <= q && MatchAt(re, s, q)
    ensures q in MatchStarts(re, s, p)
    decreases |s| - p
  {
    var e := LineEnd(s, p);
    var rest := if e < |s| then MatchStarts(re, s, e + 1) else [];
    if q == p {
      assert MatchStarts(re, s, p) == [p] + rest;
    } else {
      NextLineStart(s, p, q);
      MatchStartsComplete(re, s, e + 1, q);
      if re(LineAt(s, p)) {
        assert MatchStarts(re, s, p) == [p] + rest;
      } else {
        assert MatchStarts(re, s, p) == rest;
      }
    }
  }

  /** `re.FindAllIndex(s, -1)`, keeping the start offset of each match. */
  function FindAllIndex(re: string -> bool, s: string): seq<nat> {
    MatchStarts(re, s, 0)
  }

  /** `FindAllIndex` lists exactly the matches of `s`, in increasing order. */
  lemma FindAllIndexSpec(re: string -> bool, s: string)
    ensures forall k :: 0 <= k < |FindAllIndex(re, s)| ==> MatchAt(re, s, FindAllIndex(re, s)[k])
    ensures Increasing(FindAllIndex(re, s))
    ensures forall q :: MatchAt(re, s, q) ==> q in FindAllIndex(re, s)
  {
    MatchStartsSound(re, s, 0);
    MatchStartsIncreasing(re, s, 0);
    forall q | MatchAt(re, s, q) ensures q in FindAllIndex(re, s) {
      MatchStartsComplete(re, s, 0, q);
    }
  }

  /**
   * The offsets `FindAllIndex` returns lie in the text, in increasing order: the part of
   * `FindAllIndexSpec` that `FindAll` and `ScanOf` need, kept apart so that they do not
   * pull in the completeness half.
   */
  lemma FindAllIndexOrdered(re: string -> bool, s: string)
    ensures forall k :: 0 <= k < |FindAllIndex(re, s)| ==> FindAllIndex(re, s)[k] <= |s|
    ensures Increasing(FindAllIndex(re, s))
  {
    MatchStartsSound(re, s, 0);
    MatchStartsIncreasing(re, s, 0);
  }

  /** `re.FindAll(s, -1)`: the text of every match, in order. */
  function FindAll(re: string -> bool, s: string): (r: seq<string>)
    ensures |r| == |FindAllIndex(re, s)|
  {
    var idx := FindAllIndex(re, s);
    FindAllIndexOrdered(re, s);
    seq(|idx|, k requires 0 <= k < |idx| => LineAt(s, idx[k]))
  }

  /** The `k`-th text `FindAll` returns is the line of the `k`-th match. */
  lemma FindAllSpec(re: string -> bool, s: string)
    ensures forall k :: 0 <= k < |FindAll(re, s)| ==>
      && FindAllIndex(re, s)[k] <= |s|
      && FindAll(re, s)[k] == LineAt(s, FindAllIndex(re, s)[k])
      && re(FindAll(re, s)[k])
  {
    FindAllIndexSpec(re, s);
  }

  /** `re.FindIndex(s)`: the start of the leftmost match, if any. */
  function FindIndex(re: string -> bool, s: string): Option<nat> {
    var idx := FindAllIndex(re, s);
    if idx == [] then None else Some(idx[0])
  }

  /** `FindIndex` finds the leftmost match, and finds nothing only when there is none. */
  lemma FindIndexSpec(re: string -> bool, s: string)
    ensures FindIndex(re, s).None? <==> forall q :: !MatchAt(re, s, q)
    ensures FindIndex(re, s).Some? ==> MatchAt(re, s, FindIndex(re, s).value)
    ensures FindIndex(re, s).Some? ==> forall q :: q < FindIndex(re, s).value ==> !MatchAt(re, s, q)
  {
    FindAllIndexSpec(re, s);
    var idx := FindAllIndex(re, s);
    forall q | MatchAt(re, s, q) ensures idx != [] && idx[0] <= q {
      var k :| 0 <= k < |idx| && idx[k] == q;
      assert k == 0 || idx[0] < idx[k];
    }
  }

  /** The offset `FindIndex` returns lies in the text. */
  lemma FindIndexInRange(re: string -> bool, s: string)
    ensures FindIndex(re, s).Some? ==> FindIndex(re, s).value <= |s|
  {
    FindAllIndexOrdered(re, s);
  }

  /** `re.Find(s)`: the text of the leftmost match; Go's nil result reads as "". */
  function Find(re: string -> bool, s: string): string {
    match FindIndex(re, s)
    case None => ""
    case Some(p) =>
      FindAllIndexOrdered(re, s);
      assert FindAllIndex(re, s)[0] == p;
      LineAt(s, p)
  }

  /** The text `Find` returns is the line at the offset `FindIndex` returns. */
  lemma FindAtIndex(re: string -> bool, s: string, p: nat)
    requires FindIndex(re, s) == Some(p)
    ensures p <= |s| && Find(re, s) == LineAt(s, p)
  {
    FindIndexInRange(re, s);
  }

  /**
   * A slice `s[a..b]` that starts at a line start and ends just after a newline (or at
   * the end of `s`) holds the lines of `s` that start in `[a, b)`, unchanged.
   */
  lemma SliceLine(s: string, a: nat, b: nat, q: nat)
    requires a <= q <= b <= |s| && IsLineStart(s, a)
    requires b == |s| || IsLineStart(s, b)
    requires q < b || b == |s|
    ensures IsLineStart(s[a..b], q - a) <==> IsLineStart(s, q)
    ensures LineAt(s[a..b], q - a) == LineAt(s, q)
  {
    var w := s[a..b];
    var e := LineEnd(s, q);
    var e' := LineEnd(w, q - a);
    LineEndSpec(s, q);
    LineEndSpec(w, q - a);
    if b < |s| {
      assert s[b - 1] == '\n';
    }
    assert e' + a == e;
    assert w[q - a..e'] == s[q..e] by {
      forall k | 0 <= k < e - q ensures w[q - a..e'][k] == s[q..e][k] {
        assert w[q - a + k] == s[q + k];
      }
    }
    if q > a {
      assert w[q - a - 1] == s[q - 1];
    }
  }

  /**
   * The first match in a slice `s[a..b]` as in `SliceLine` is the first line of `s`
   * starting in `[a, b)` that satisfies `re`, for a pattern no empty line satisfies.
   */
  lemma FindIndexInSlice(re: string -> bool, s: string, a: nat, b: nat)
    requires a <= b <= |s| && IsLineStart(s, a)
    requires b == |s| || IsLineStart(s, b)
    requires !re("")
    ensures FindIndex(re, s[a..b]).None? <==> forall q :: a <= q < b ==> !MatchAt(re, s, q)
    ensures FindIndex(re, s[a..b]).Some? ==>
      var l := FindIndex(re, s[a..b]).value;
      && a + l < b && MatchAt(re, s, a + l)
      && forall q :: a <= q < a + l ==> !MatchAt(re, s, q)
  {
    var w := s[a..b];
    FindIndexSpec(re, w);
    forall q | a <= q < b
      ensures MatchAt(re, w, q - a) <==> MatchAt(re, s, q)
    {
      SliceLine(s, a, b, q);
    }
    assert !MatchAt(re, w, b - a) by {
      assert LineAt(w, b - a) == "";
    }
    var r := FindIndex(re, w);
    if r.Some? {
      var l := r.value;
      assert l < b - a;
      assert MatchAt(re, w, a + l - a);
      assert MatchAt(re, s, a + l);
    } else {
      forall q | a <= q < b ensures !MatchAt(re, s, q) {
        assert !MatchAt(re, w, q - a);
      }
    }
  }

  /** The first line of `s` starting in `[a, b)` that satisfies `re` is at `w`: `FindIndex` says so. */
  lemma FirstInSlice(re: string -> bool, s: string, a: nat, b: nat, w: nat)
    requires a <= w < b <= |s| && IsLineStart(s, a)
    requires b == |s| || IsLineStart(s, b)
    requires !re("")
    requires MatchAt(re, s, w) && forall q :: a <= q < w ==> !MatchAt(re, s, q)
    ensures FindIndex(re, s[a..b]) == Some(w - a)
  {
    FindIndexInSlice(re, s, a, b);
  }

  /**
   * `Find` on a slice as in `SliceLine`: the first line of `s` starting in `[a, b)` that
   * satisfies `re`, or "" when there is none.
   */
  lemma FindInSlice(re: string -> bool, s: string, a: nat, b: nat, m: nat)
    requires a <= b <= |s| && IsLineStart(s, a)
    requires b == |s| || IsLineStart(s, b)
    requires !re("")
    requires a <= m && forall q :: a <= q < m && q < b ==> !MatchAt(re, s, q)
    ensures m < b && MatchAt(re, s, m) ==> Find(re, s[a..b]) == LineAt(s, m)
    ensures m >= b ==> Find(re, s[a..b]) == ""
  {
    FindIndexInSlice(re, s, a, b);
    if m < b && MatchAt(re, s, m) {
      FirstInSlice(re, s, a, b, m);
      FindAtIndex(re, s[a..b], m - a);
      SliceLine(s, a, b, m);
    }
  }
}
