/**
 * What parseIwlistOut, parseIwconfig and generateConfig compute, stated against reference
 * definitions and the text they read.
 */
module WifiProperties {
  import opened Wrappers
  import opened GoStrings
  import opened LineRegex
  import opened Wifi

  // ---------------------------------------------------------------------------------
  // The loop of parseIwlistOut, against a reference: the first cell of each SSID.

  /** No cell before `j` has cell `j`'s SSID. */
  predicate Fresh(cs: seq<CellFacts>, j: nat)
    requires j < |cs|
  {
    forall k :: 0 <= k < j ==> cs[k].essid != cs[j].essid
  }

  /**
   * The first `n` turns do not panic: every cell has an SSID, and every cell whose SSID
   * is new has a security.
   */
  predicate NoPanic(cs: seq<CellFacts>, n: nat)
    requires n <= |cs|
  {
    forall j :: 0 <= j < n ==> cs[j].essid.Some? && (Fresh(cs, j) ==> cs[j].security.Some?)
  }

  /** The option of each cell whose SSID is new, in the order of the cells. */
  function Kept(cs: seq<CellFacts>, n: nat): seq<WifiOption>
    requires n <= |cs| && NoPanic(cs, n)
  {
    if n == 0 then []
    else
      var c := cs[n - 1];
      Kept(cs, n - 1) + (if Fresh(cs, n - 1) then [WifiOption(c.essid.value, c.security.value)] else [])
  }

  /** The SSIDs of the first `n` cells. */
  function EssidsSeen(cs: seq<CellFacts>, n: nat): set<string>
    requires n <= |cs|
  {
    set j | 0 <= j < n && cs[j].essid.Some? :: cs[j].essid.value
  }

  /** A cell's SSID is new exactly when no earlier cell has it. */
  lemma FreshIff(cs: seq<CellFacts>, j: nat)
    requires j < |cs| && cs[j].essid.Some?
    ensures Fresh(cs, j) <==> cs[j].essid.value !in EssidsSeen(cs, j)
  {
    if !Fresh(cs, j) {
      var k :| 0 <= k < j && cs[k].essid == cs[j].essid;
      assert cs[k].essid.value in EssidsSeen(cs, j);
    }
  }

  lemma EssidsSeenStep(cs: seq<CellFacts>, n: nat)
    requires 0 < n <= |cs| && cs[n - 1].essid.Some?
    ensures EssidsSeen(cs, n) == EssidsSeen(cs, n - 1) + {cs[n - 1].essid.value}
  {
  }

  /** The kept options carry exactly the SSIDs seen. */
  lemma {:induction false} KeptEssids(cs: seq<CellFacts>, n: nat)
    requires n <= |cs| && NoPanic(cs, n)
    ensures EssidsIn(Kept(cs, n)) == EssidsSeen(cs, n)
  {
    if n > 0 {
      assert NoPanic(cs, n - 1);
      KeptEssids(cs, n - 1);
      var c := cs[n - 1];
      EssidsSeenStep(cs, n);
      FreshIff(cs, n - 1);
      if Fresh(cs, n - 1) {
        EssidsInAppend(Kept(cs, n - 1), WifiOption(c.essid.value, c.security.value));
      } else {
        assert Kept(cs, n) == Kept(cs, n - 1);
      }
    }
  }

  /**
   * The loop panics exactly when some turn reads a missing SSID, or a missing security
   * for a new SSID; otherwise it returns the options of the first cell of each SSID.
   */
  lemma {:induction false} FoldSpec(cs: seq<CellFacts>, n: nat)
    requires n <= |cs|
    ensures Fold(cs, n).Options? <==> NoPanic(cs, n)
    ensures NoPanic(cs, n) ==> Fold(cs, n) == Options(Kept(cs, n))
  {
    if n > 0 {
      FoldSpec(cs, n - 1);
      var c := cs[n - 1];
      if NoPanic(cs, n - 1) {
        KeptEssids(cs, n - 1);
        if c.essid.Some? {
          FreshIff(cs, n - 1);
        }
      } else {
        assert !NoPanic(cs, n);
      }
    }
  }

  /** Each SSID is kept at most once. */
  lemma {:induction false} KeptDistinct(cs: seq<CellFacts>, n: nat)
    requires n <= |cs| && NoPanic(cs, n)
    ensures forall k, k' :: 0 <= k < k' < |Kept(cs, n)| ==> Kept(cs, n)[k].essid != Kept(cs, n)[k'].essid
  {
    if n > 0 {
      assert NoPanic(cs, n - 1);
      KeptDistinct(cs, n - 1);
      if Fresh(cs, n - 1) {
        var prev := Kept(cs, n - 1);
        var e := cs[n - 1].essid.value;
        KeptEssids(cs, n - 1);
        FreshIff(cs, n - 1);
        forall k | 0 <= k < |prev| ensures prev[k].essid != e {
          assert prev[k].essid in EssidsIn(prev);
        }
      }
    }
  }

  /** At most one option per cell. */
  lemma {:induction false} KeptLength(cs: seq<CellFacts>, n: nat)
    requires n <= |cs| && NoPanic(cs, n)
    ensures |Kept(cs, n)| <= n
  {
    if n > 0 {
      assert NoPanic(cs, n - 1);
      KeptLength(cs, n - 1);
    }
  }

  /** A panicking turn makes the whole loop panic. */
  lemma PanicAt(cs: seq<CellFacts>, j: nat, n: nat)
    requires j < n <= |cs|
    requires cs[j].essid.None? || (Fresh(cs, j) && cs[j].security.None?)
    ensures Fold(cs, n) == OutOfRange
  {
    FoldSpec(cs, n);
  }

  /** Some cell is kept whenever there is a cell. */
  lemma {:induction false} KeptNonEmpty(cs: seq<CellFacts>, n: nat)
    requires 0 < n <= |cs| && NoPanic(cs, n)
    ensures Kept(cs, n) != []
  {
    if n > 1 {
      assert NoPanic(cs, n - 1);
      KeptNonEmpty(cs, n - 1);
    } else {
      assert Fresh(cs, 0);
    }
  }

  /** Each kept option is the SSID and the security of the first cell with that SSID. */
  lemma {:induction false} KeptFrom(cs: seq<CellFacts>, n: nat, k: nat)
    requires n <= |cs| && NoPanic(cs, n) && k < |Kept(cs, n)|
    ensures exists j :: 0 <= j < n && Fresh(cs, j) && cs[j].essid == Some(Kept(cs, n)[k].essid)
                        && cs[j].security == Some(Kept(cs, n)[k].authSuite)
  {
    assert n > 0;
    assert NoPanic(cs, n - 1);
    var prev := Kept(cs, n - 1);
    if k < |prev| {
      assert Kept(cs, n)[k] == prev[k];
      KeptFrom(cs, n - 1, k);
    } else {
      assert Fresh(cs, n - 1);
    }
  }

  /** The cells whose SSID is new, in increasing order. */
  function FreshCells(cs: seq<CellFacts>, n: nat): seq<nat>
    requires n <= |cs|
  {
    if n == 0 then [] else FreshCells(cs, n - 1) + (if Fresh(cs, n - 1) then [n - 1] else [])
  }

  /** The `k`-th kept option comes from the `k`-th cell with a new SSID, and these increase. */
  lemma {:induction false} KeptCells(cs: seq<CellFacts>, n: nat)
    requires n <= |cs| && NoPanic(cs, n)
    ensures |FreshCells(cs, n)| == |Kept(cs, n)|
    ensures forall k :: 0 <= k < |FreshCells(cs, n)| ==>
      && FreshCells(cs, n)[k] < n
      && Fresh(cs, FreshCells(cs, n)[k])
      && cs[FreshCells(cs, n)[k]].essid == Some(Kept(cs, n)[k].essid)
    ensures Increasing(FreshCells(cs, n))
  {
    if n > 0 {
      assert NoPanic(cs, n - 1);
      KeptCells(cs, n - 1);
      var prev := FreshCells(cs, n - 1);
      if Fresh(cs, n - 1) {
        IncreasingSnoc(prev, n - 1);
      }
    }
  }

  lemma IncreasingSnoc(r: seq<nat>, p: nat)
    requires Increasing(r) && forall k :: 0 <= k < |r| ==> r[k] < p
    ensures Increasing(r + [p])
  {
  }

  /** Two cells with a new SSID each have different SSIDs. */
  lemma FreshUnique(cs: seq<CellFacts>, a: nat, b: nat)
    requires a < |cs| && b < |cs| && Fresh(cs, a) && Fresh(cs, b)
    requires cs[a].essid == cs[b].essid
    ensures a == b
  {
  }

  /** Kept options come in the order of the cells they are read from. */
  lemma KeptInCellOrder(cs: seq<CellFacts>, n: nat, k: nat, k': nat, j: nat, j': nat)
    requires n <= |cs| && NoPanic(cs, n) && k < k' < |Kept(cs, n)|
    requires j < n && Fresh(cs, j) && cs[j].essid == Some(Kept(cs, n)[k].essid)
    requires j' < n && Fresh(cs, j') && cs[j'].essid == Some(Kept(cs, n)[k'].essid)
    ensures j < j'
  {
    KeptCells(cs, n);
    var fc := FreshCells(cs, n);
    FreshUnique(cs, j, fc[k]);
    FreshUnique(cs, j', fc[k']);
  }

  // ---------------------------------------------------------------------------------
  // parseIwlistOut on a whole text.

  /**
   * parseIwlistOut panics exactly when the loop panics on some cell of `o`; otherwise it
   * returns the option of the first cell of each SSID, in the order of the cells.
   */
  lemma IwlistOptionsSpec(o: string)
    ensures |Facts(ScanOf(o))| == |FindAllIndex(IsCellLine, o)|
    ensures IwlistOptions(o).Options? <==> NoPanic(Facts(ScanOf(o)), |FindAllIndex(IsCellLine, o)|)
    ensures NoPanic(Facts(ScanOf(o)), |FindAllIndex(IsCellLine, o)|) ==>
      IwlistOptions(o) == Options(Kept(Facts(ScanOf(o)), |FindAllIndex(IsCellLine, o)|))
  {
    var cs := Facts(ScanOf(o));
    FoldSpec(cs, |cs|);
  }

  /** An empty result, and no panic, exactly when the text has no `Cell` line. */
  lemma IwlistEmptyIff(o: string)
    ensures IwlistOptions(o) == Options([]) <==> FindAllIndex(IsCellLine, o) == []
  {
    var cs := Facts(ScanOf(o));
    IwlistOptionsSpec(o);
    if cs != [] && NoPanic(cs, |cs|) {
      KeptNonEmpty(cs, |cs|);
    }
  }

  /** The options carry distinct SSIDs, at most one per cell. */
  lemma IwlistDistinct(o: string)
    ensures IwlistOptions(o).Options? ==>
      && |IwlistOptions(o).opts| <= |FindAllIndex(IsCellLine, o)|
      && forall k, k' :: 0 <= k < k' < |IwlistOptions(o).opts| ==>
           IwlistOptions(o).opts[k].essid != IwlistOptions(o).opts[k'].essid
  {
    var cs := Facts(ScanOf(o));
    IwlistOptionsSpec(o);
    if NoPanic(cs, |cs|) {
      KeptDistinct(cs, |cs|);
      KeptLength(cs, |cs|);
    }
  }

  /** Cell `j` of `o` is the first with the SSID of `x` and reads the security of `x`. */
  predicate FirstCellOf(o: string, j: nat, x: WifiOption)
    requires j < |ScanOf(o).cells|
  {
    var sc := ScanOf(o);
    && CellEssid(sc.essids, j) == Some(x.essid)
    && CellSecurity(o, sc.cells, sc.encKeyOpts, j) == Some(x.authSuite)
    && forall j' :: 0 <= j' < j ==> CellEssid(sc.essids, j') != Some(x.essid)
  }

  /**
   * Each option is the SSID and the security read off a cell of `o` whose SSID no earlier
   * cell has.
   */
  lemma IwlistOptionFrom(o: string, k: nat)
    requires IwlistOptions(o).Options? && k < |IwlistOptions(o).opts|
    ensures exists j :: 0 <= j < |ScanOf(o).cells| && FirstCellOf(o, j, IwlistOptions(o).opts[k])
  {
    var sc := ScanOf(o);
    var cs := Facts(sc);
    IwlistOptionsSpec(o);
    KeptFrom(cs, |cs|, k);
    var j :| 0 <= j < |cs| && Fresh(cs, j) && cs[j].essid == Some(Kept(cs, |cs|)[k].essid)
             && cs[j].security == Some(Kept(cs, |cs|)[k].authSuite);
    assert cs[j] == FactsAt(sc, j);
    forall j' | 0 <= j' < j ensures CellEssid(sc.essids, j') != cs[j].essid {
      assert cs[j'] == FactsAt(sc, j');
    }
    assert FirstCellOf(o, j, IwlistOptions(o).opts[k]);
  }

  /** The first cell of an option has a new SSID among the cell facts. */
  lemma FirstCellFresh(o: string, j: nat, x: WifiOption)
    requires j < |ScanOf(o).cells| && FirstCellOf(o, j, x)
    ensures Fresh(Facts(ScanOf(o)), j) && Facts(ScanOf(o))[j].essid == Some(x.essid)
  {
    var sc := ScanOf(o);
    var cs := Facts(sc);
    assert cs[j] == FactsAt(sc, j);
    forall j' | 0 <= j' < j ensures cs[j'].essid != cs[j].essid {
      assert cs[j'] == FactsAt(sc, j');
    }
  }

  /** The options come in the order of their first cells. */
  lemma IwlistInCellOrder(o: string, k: nat, k': nat, j: nat, j': nat)
    requires IwlistOptions(o).Options? && k < k' < |IwlistOptions(o).opts|
    requires j < |ScanOf(o).cells| && FirstCellOf(o, j, IwlistOptions(o).opts[k])
    requires j' < |ScanOf(o).cells| && FirstCellOf(o, j', IwlistOptions(o).opts[k'])
    ensures j < j'
  {
    var cs := Facts(ScanOf(o));
    IwlistOptionsSpec(o);
    FirstCellFresh(o, j, IwlistOptions(o).opts[k]);
    FirstCellFresh(o, j', IwlistOptions(o).opts[k']);
    KeptInCellOrder(cs, |cs|, k, k', j, j');
  }

  /** Every cell's SSID is among the options. */
  lemma IwlistOptionsComplete(o: string, j: nat)
    requires IwlistOptions(o).Options? && j < |FindAllIndex(IsCellLine, o)|
    ensures CellEssid(FindAll(IsEssidLine, o), j).Some?
    ensures CellEssid(FindAll(IsEssidLine, o), j).value in EssidsIn(IwlistOptions(o).opts)
  {
    var sc := ScanOf(o);
    var cs := Facts(sc);
    IwlistOptionsSpec(o);
    KeptEssids(cs, |cs|);
    assert cs[j] == FactsAt(sc, j);
    assert cs[j].essid.value in EssidsSeen(cs, |cs|);
  }

  /** Fewer ESSID lines than cells: line 122 indexes past the end of `essids`. */
  lemma FewerEssidsPanics(o: string)
    requires |FindAll(IsEssidLine, o)| < |FindAllIndex(IsCellLine, o)|
    ensures IwlistOptions(o) == OutOfRange
  {
    var sc := ScanOf(o);
    var cs := Facts(sc);
    var j := |sc.essids|;
    assert cs[j] == FactsAt(sc, j);
    IwlistOptionsSpec(o);
    PanicAt(cs, j, |cs|);
  }

  // ---------------------------------------------------------------------------------
  // The fields read off the matched lines.

  /**
   * Line 122 panics exactly when the ESSID line holds no ':'; otherwise the SSID holds
   * no ':' and neither starts nor ends with a quote or a newline.
   */
  lemma EssidOfSpec(line: string)
    ensures EssidOf(line).None? <==> ':' !in line
    ensures EssidOf(line).Some? ==> ':' !in EssidOf(line).value
    ensures EssidOf(line).Some? && EssidOf(line).value != [] ==>
      && EssidOf(line).value[0] !in {'"', '\n'}
      && EssidOf(line).value[|EssidOf(line).value| - 1] !in {'"', '\n'}
  {
    SplitField1Spec(line, ':');
    if SplitField1(line, ':').Some? {
      TrimSpec(SplitField1(line, ':').value, {'"', '\n'});
    }
  }

  /** An ESSID line as iwlist prints it is matched, and line 122 reads its SSID back. */
  lemma EssidLineRoundTrip(indent: string, name: string)
    requires forall c :: c in indent ==> c in Space
    requires ':' !in name
    requires name != [] ==> name[0] !in {'"', '\n'} && name[|name| - 1] !in {'"', '\n'}
    ensures IsEssidLine(indent + "ESSID:\"" + name + "\"")
    ensures EssidOf(indent + "ESSID:\"" + name + "\"") == Some(name)
  {
    var line := indent + "ESSID:\"" + name + "\"";
    TrimLeftPrefix(indent, "ESSID:\"" + name + "\"", Space);
    assert line == indent + ("ESSID:\"" + name + "\"");
    assert line == (indent + "ESSID") + [':'] + "\"" + name + "\"" + [];
    TrimmedField(indent + "ESSID", ':', "\"", name, "\"", [], {'"', '\n'});
  }

  /** An SSID that holds ':' is cut at its first ':' (line 122 takes field 1 only). */
  lemma EssidColonCut(indent: string, a: string, b: string)
    requires forall c :: c in indent ==> c in Space
    requires ':' !in a
    requires a != [] ==> a[0] !in {'"', '\n'} && a[|a| - 1] !in {'"', '\n'}
    ensures EssidOf(indent + "ESSID:\"" + a + ":" + b + "\"") == Some(a)
  {
    var line := indent + "ESSID:\"" + a + ":" + b + "\"";
    assert line == (indent + "ESSID") + [':'] + "\"" + a + [] + (":" + b + "\"");
    TrimmedField(indent + "ESSID", ':', "\"", a, [], ":" + b + "\"", {'"', '\n'});
  }

  /** Line 127 reads `off` or `on` off a matched key line, as the line ends. */
  lemma EncKeyOptValue(line: string)
    requires IsEncKeyOptLine(line)
    ensures EncKeyOptOf(line) == Some("off") <==> TrimLeft(line, Space) == EncKeyOff
    ensures EncKeyOptOf(line) == Some("on") <==> TrimLeft(line, Space) == EncKeyOn
  {
    var t := TrimLeft(line, Space);
    TrimLeftSpec(line, Space);
    var indent := line[..|line| - |t|];
    assert line == indent + t;
    assert ':' !in indent by {
      forall k | 0 <= k < |indent| ensures indent[k] != ':' {
        assert indent[k] == line[k];
      }
    }
    var word := if t == EncKeyOn then "on" else "off";
    assert t == "Encryption key" + [':'] + word;
    assert line == (indent + "Encryption key") + [':'] + [] + word + [] + [];
    TrimmedField(indent + "Encryption key", ':', [], word, [], [], {'\n'});
  }

  /**
   * The security of cell `j` (lines 127-131): a panic without a `j`-th key line, `NoEnc`
   * exactly when that line says `off` (whatever the cell's window holds), and the window's
   * verdict when it says `on`.
   */
  lemma CellSecuritySpec(o: string, j: nat)
    requires j < |ScanOf(o).cells|
    ensures j >= |ScanOf(o).encKeyOpts| ==> CellSecurity(o, ScanOf(o).cells, ScanOf(o).encKeyOpts, j).None?
    ensures j < |ScanOf(o).encKeyOpts| && TrimLeft(ScanOf(o).encKeyOpts[j], Space) == EncKeyOn ==>
      CellSecurity(o, ScanOf(o).cells, ScanOf(o).encKeyOpts, j) == WindowSecurity(o, ScanOf(o).cells, j)
    ensures CellSecurity(o, ScanOf(o).cells, ScanOf(o).encKeyOpts, j) == Some(NoEnc) <==>
      j < |ScanOf(o).encKeyOpts| && TrimLeft(ScanOf(o).encKeyOpts[j], Space) == EncKeyOff
  {
    var sc := ScanOf(o);
    if j < |sc.encKeyOpts| {
      FindAllSpec(IsEncKeyOptLine, o);
      EncKeyOptValue(sc.encKeyOpts[j]);
    }
  }

  // ---------------------------------------------------------------------------------
  // The window of a cell (lines 133-154).

  /** Cell `j`'s window starts at a line start and ends at one, or at the end of the text. */
  predicate LineWindow(o: string, cells: seq<nat>, j: nat)
    requires CellsIn(cells, o) && j < |cells|
  {
    IsLineStart(o, cells[j]) && (CellEnd(o, cells, j) == |o| || IsLineStart(o, CellEnd(o, cells, j)))
  }

  /** The window of every cell the `Cell` search finds is bounded by line starts. */
  lemma ScanWindows(o: string, j: nat)
    requires j < |ScanOf(o).cells|
    ensures LineWindow(o, ScanOf(o).cells, j)
  {
    FindAllIndexSpec(IsCellLine, o);
  }

  /**
   * No WPA2 line starts in cell `j`'s window: the cell is `NotSupportedProto`, whatever
   * the text outside the window holds.
   */
  lemma NoWpa2InWindow(o: string, cells: seq<nat>, j: nat)
    requires CellsIn(cells, o) && j < |cells| && LineWindow(o, cells, j)
    requires forall q :: cells[j] <= q < CellEnd(o, cells, j) ==> !MatchAt(IsWpa2Line, o, q)
    ensures WindowSecurity(o, cells, j) == Some(NotSupportedProto)
  {
    assert !IsWpa2Line("");
    FindIndexInSlice(IsWpa2Line, o, cells[j], CellEnd(o, cells, j));
  }

  /**
   * The first WPA2 line of cell `j`'s window is at `w`: the suites search covers the
   * window from `w` on.
   */
  lemma Wpa2At(o: string, cells: seq<nat>, j: nat, w: nat)
    requires CellsIn(cells, o) && j < |cells| && LineWindow(o, cells, j)
    requires cells[j] <= w < CellEnd(o, cells, j) && MatchAt(IsWpa2Line, o, w)
    requires forall q :: cells[j] <= q < w ==> !MatchAt(IsWpa2Line, o, q)
    ensures WindowSecurity(o, cells, j) == SuiteSecurity(Find(IsAuthSuitesLine, o[w..CellEnd(o, cells, j)]))
  {
    var a, b := cells[j], CellEnd(o, cells, j);
    assert !IsWpa2Line("");
    FirstInSlice(IsWpa2Line, o, a, b, w);
    assert o[a..b][w - a..] == o[w..b];
  }

  /**
   * After the first WPA2 line `w` of cell `j`'s window, the first suites line `m` from `w`
   * on decides the cell (lines 145-154).
   */
  lemma SuitesAt(o: string, cells: seq<nat>, j: nat, w: nat, m: nat)
    requires CellsIn(cells, o) && j < |cells| && LineWindow(o, cells, j)
    requires cells[j] <= w < CellEnd(o, cells, j) && MatchAt(IsWpa2Line, o, w)
    requires forall q :: cells[j] <= q < w ==> !MatchAt(IsWpa2Line, o, q)
    requires w <= m < CellEnd(o, cells, j) && MatchAt(IsAuthSuitesLine, o, m)
    requires forall q :: w <= q < m ==> !MatchAt(IsAuthSuitesLine, o, q)
    ensures WindowSecurity(o, cells, j) == SuiteSecurity(LineAt(o, m))
  {
    Wpa2At(o, cells, j, w);
    assert !IsAuthSuitesLine("");
    FindInSlice(IsAuthSuitesLine, o, w, CellEnd(o, cells, j), m);
  }

  /** A WPA2 line with no suites line after it in the window: line 146 panics. */
  lemma NoSuitesPanics(o: string, cells: seq<nat>, j: nat, w: nat)
    requires CellsIn(cells, o) && j < |cells| && LineWindow(o, cells, j)
    requires cells[j] <= w < CellEnd(o, cells, j) && MatchAt(IsWpa2Line, o, w)
    requires forall q :: cells[j] <= q < w ==> !MatchAt(IsWpa2Line, o, q)
    requires forall q :: w <= q < CellEnd(o, cells, j) ==> !MatchAt(IsAuthSuitesLine, o, q)
    ensures WindowSecurity(o, cells, j).None?
  {
    var b := CellEnd(o, cells, j);
    Wpa2At(o, cells, j, w);
    assert !IsAuthSuitesLine("");
    FindInSlice(IsAuthSuitesLine, o, w, b, b);
  }

  /**
   * An indented line is a WPA2 line exactly when its text spells the marker, with one
   * character other than a newline where `802.11` has its dot.
   */
  lemma Wpa2LineIff(indent: string, t: string)
    requires forall c :: c in indent ==> c in Space
    requires t == [] || t[0] !in Space
    ensures IsWpa2Line(indent + t) <==> Spells(t, Wpa2Before, Wpa2After)
  {
    TrimLeftPrefix(indent, t, Space);
  }

  /**
   * A suites line as iwlist prints it is matched, and its token after ':', with spaces and
   * newlines trimmed, classifies the cell.
   */
  lemma SuitesLineToken(indent: string, tag: string, pad: string, token: string)
    requires forall c :: c in indent ==> c in Space
    requires ':' !in tag && ':' !in token
    requires forall c :: c in pad ==> c in {' ', '\n'}
    requires token != [] ==> token[0] !in {' ', '\n'} && token[|token| - 1] !in {' ', '\n'}
    ensures IsAuthSuitesLine(indent + AuthSuitesMarker + tag + ":" + pad + token)
    ensures SuiteSecurity(indent + AuthSuitesMarker + tag + ":" + pad + token) == Some(SuiteProto(token))
  {
    var rest := AuthSuitesMarker + tag + ":" + pad + token;
    assert indent + AuthSuitesMarker + tag + ":" + pad + token == indent + rest;
    SuitesLineMatches(indent, rest);
    SuitesLineReads(indent, tag, pad, token);
  }

  /** An indented line that starts with the suites marker is a suites line. */
  lemma SuitesLineMatches(indent: string, rest: string)
    requires forall c :: c in indent ==> c in Space
    requires StartsWith(rest, AuthSuitesMarker)
    ensures IsAuthSuitesLine(indent + rest)
  {
    TrimLeftPrefix(indent, rest, Space);
  }

  /** Line 146 reads the token after the suites line's ':'. */
  lemma SuitesLineReads(indent: string, tag: string, pad: string, token: string)
    requires forall c :: c in indent ==> c in Space
    requires ':' !in tag && ':' !in token
    requires forall c :: c in pad ==> c in {' ', '\n'}
    requires token != [] ==> token[0] !in {' ', '\n'} && token[|token| - 1] !in {' ', '\n'}
    ensures StartsWith(AuthSuitesMarker + tag + ":" + pad + token, AuthSuitesMarker)
    ensures SuiteSecurity(indent + AuthSuitesMarker + tag + ":" + pad + token) == Some(SuiteProto(token))
  {
    var line := indent + AuthSuitesMarker + tag + ":" + pad + token;
    assert (AuthSuitesMarker + tag + ":" + pad + token)[..|AuthSuitesMarker|] == AuthSuitesMarker;
    assert ':' !in indent by {
      assert ':' !in Space;
    }
    assert ':' !in AuthSuitesMarker;
    assert ':' !in pad;
    assert line == (indent + AuthSuitesMarker + tag) + [':'] + pad + token + [] + [];
    TrimmedField(indent + AuthSuitesMarker + tag, ':', pad, token, [], [], {'\n', ' '});
  }

  // ---------------------------------------------------------------------------------
  // parseIwconfig

  /**
   * `name` is what line 88 makes of `line`: the line's text before its first space, which
   * is never empty since the line starts with a letter or a digit.
   */
  predicate NameOfLine(line: string, name: string) {
    && StartsWith(line, name)
    && ' ' !in name
    && (|name| == |line| || line[|name|] == ' ')
    && name != [] && IsAlnum(name[0])
  }

  /** The name of one matched line. */
  lemma IwconfigLineName(line: string)
    requires IsIwconfigLine(line)
    ensures NameOfLine(line, SplitField0(line, ' '))
  {
    var k :| 1 <= k <= |line| && IwconfigSplit(line, k);
    assert IsAlnum(line[0]);
    SplitField0Spec(line, ' ');
    IndexOfSpec(line, ' ');
  }

  /**
   * parseIwconfig returns one name per line that the interface pattern matches, in the
   * order of the lines, and no other.
   */
  lemma IwconfigNamesSpec(o: string)
    ensures |IwconfigNames(o)| == |FindAllIndex(IsIwconfigLine, o)|
    ensures Increasing(FindAllIndex(IsIwconfigLine, o))
    ensures forall q :: MatchAt(IsIwconfigLine, o, q) ==> q in FindAllIndex(IsIwconfigLine, o)
    ensures forall k :: 0 <= k < |IwconfigNames(o)| ==>
      && MatchAt(IsIwconfigLine, o, FindAllIndex(IsIwconfigLine, o)[k])
      && NameOfLine(LineAt(o, FindAllIndex(IsIwconfigLine, o)[k]), IwconfigNames(o)[k])
  {
    var lines := FindAll(IsIwconfigLine, o);
    FindAllIndexSpec(IsIwconfigLine, o);
    FindAllSpec(IsIwconfigLine, o);
    forall k | 0 <= k < |lines|
      ensures NameOfLine(lines[k], IwconfigNames(o)[k])
    {
      IwconfigLineName(lines[k]);
    }
  }

  /**
   * A line as iwconfig prints it is matched, and line 88 reads its interface name back;
   * `ieee` is `IEEE 802.11` with one character other than a newline at the dot.
   */
  lemma IwconfigRoundTrip(name: string, gap: string, ieee: string, rest: string)
    requires name != [] && forall j :: 0 <= j < |name| ==> IsAlnum(name[j])
    requires gap != [] && gap[0] == ' ' && forall c :: c in gap ==> c in Space
    requires Spells(ieee, IeeeBefore, IeeeAfter)
    ensures IsIwconfigLine(name + gap + ieee + rest)
    ensures SplitField0(name + gap + ieee + rest, ' ') == name
  {
    var tail := gap + ieee + rest;
    var line := name + tail;
    assert line == name + gap + ieee + rest;
    assert line[|name|..] == gap + (ieee + rest);
    var w :| 1 <= w <= 4 && |ieee| == |IeeeBefore| + w + |IeeeAfter| && DotSplit(ieee, IeeeBefore, IeeeAfter, w);
    assert ieee[0] == ieee[..|IeeeBefore|][0] == 'I';
    TrimLeftPrefix(gap, ieee + rest, Space);
    DotSplitExtend(ieee, rest, IeeeBefore, IeeeAfter, w);
    assert IwconfigSplit(line, |name|);
    assert ' ' !in name by {
      forall j | 0 <= j < |name| ensures name[j] != ' ' {
        assert IsAlnum(name[j]);
      }
    }
    IndexOfAppend(name, tail, ' ');
    assert IndexOf(tail, ' ') == 0;
    assert line[..|name|] == name;
  }

  /** A text that starts with the pattern still does after more text is appended. */
  lemma DotSplitExtend(t: string, rest: string, before: string, after: string, w: nat)
    requires DotSplit(t, before, after, w)
    ensures DotSplit(t + rest, before, after, w)
  {
    var n := |before| + w + |after|;
    assert (t + rest)[..n] == t[..n];
    assert (t + rest)[..|before|] == t[..n][..|before|] == t[..|before|];
    assert (t + rest)[|before|..|before| + w] == t[..n][|before|..|before| + w] == t[|before|..|before| + w];
    assert (t + rest)[|before| + w..n] == t[..n][|before| + w..n] == t[|before| + w..n];
  }

  /** The text of a pattern with one dot character put in its place spells the pattern. */
  lemma SpellsAtDot(before: string, x: string, after: string)
    requires DotChar(x)
    ensures Spells(before + x + after, before, after)
  {
    var t := before + x + after;
    assert t[..|before|] == before;
    assert t[|before|..|before| + |x|] == x;
    assert t[|before| + |x|..|before| + |x| + |after|] == after;
    assert DotSplit(t, before, after, |x|);
  }

  /**
   * Two widths of the dot character fit only when the text after the dot starts with a
   * continuation byte. Both patterns continue with the ASCII `1`, so only the width Go's
   * UTF-8 decoder takes fits.
   */
  lemma DotWidthUnique(t: string, before: string, after: string, w: nat, w': nat)
    requires after != []
    requires DotSplit(t, before, after, w) && DotSplit(t, before, after, w')
    ensures w != w' ==> IsContinuation(after[0])
    ensures !IsContinuation(Wpa2After[0]) && !IsContinuation(IeeeAfter[0])
  {
    if w < w' {
      DotCharTail(t[|before|..|before| + w'], w);
      assert t[|before|..|before| + w'][w] == t[|before| + w] == after[0];
    } else if w' < w {
      DotCharTail(t[|before|..|before| + w], w');
      assert t[|before|..|before| + w][w'] == t[|before| + w'] == after[0];
    }
  }

  /** Every byte after the first of a dot character is a continuation byte. */
  lemma DotCharTail(x: string, i: nat)
    requires DotChar(x) && 1 <= i < |x|
    ensures IsContinuation(x[i])
  {
  }

  /** Some dot characters, and texts that are not one: a newline, or two ASCII bytes. */
  lemma DotCharExamples()
    ensures DotChar("x") && DotChar(['\U{C3}', '\U{A9}'])
    ensures DotChar(['\U{E2}', '\U{82}', '\U{AC}']) && DotChar(['\U{F0}', '\U{9F}', '\U{98}', '\U{80}'])
    ensures !DotChar("\n") && !DotChar("xy") && !DotChar(['\U{ED}', '\U{A0}', '\U{80}'])
  {
  }

  /**
   * The unescaped dot of `802.11` matches any one character but a newline, in both
   * patterns: with `é` (two bytes) at the dot, say, `IE: IEEE 802é11i/WPA2 Version 1` is a
   * WPA2 line and `wlan0 IEEE 802é11` an iwconfig line naming `wlan0`.
   */
  lemma DotIsWildcard(x: string)
    requires DotChar(x)
    ensures IsWpa2Line("    " + (Wpa2Before + x + Wpa2After))
    ensures IsIwconfigLine("wlan0 " + (IeeeBefore + x + IeeeAfter))
    ensures SplitField0("wlan0 " + (IeeeBefore + x + IeeeAfter), ' ') == "wlan0"
  {
    SpellsAtDot(Wpa2Before, x, Wpa2After);
    Wpa2LineIff("    ", Wpa2Before + x + Wpa2After);
    var ieee := IeeeBefore + x + IeeeAfter;
    SpellsAtDot(IeeeBefore, x, IeeeAfter);
    IwconfigRoundTrip("wlan0", " ", ieee, "");
    assert "wlan0" + " " + ieee + "" == "wlan0 " + ieee;
  }

  // ---------------------------------------------------------------------------------
  // generateConfig, against a reader of the network blocks it writes.

  /**
   * `s` starts with a quote-free value followed by the text `after` (which starts with a
   * quote): the value and what follows `after`.
   */
  function QuotedField(s: string, after: string): Option<(string, string)> {
    var value := SplitField0(s, '"');
    var rest := s[|value|..];
    if StartsWith(rest, after) then Some((value, rest[|after|..])) else None
  }

  /** A quote-free value followed by a quote: the field is the value and the text after it. */
  lemma QuotedFieldAt(value: string, rest: string, after: string)
    requires '"' !in value && rest != [] && rest[0] == '"'
    ensures QuotedField(value + rest, after) ==
      if StartsWith(rest, after) then Some((value, rest[|after|..])) else None
  {
    var s := value + rest;
    IndexOfAppend(value, rest, '"');
    assert IndexOf(rest, '"') == 0;
    assert s[..|value|] == value;
    assert s[|value|..] == rest;
  }

  /** `p + b` starts with `p`, and `b` follows it. */
  lemma AfterPrefix(p: string, b: string)
    ensures StartsWith(p + b, p) && (p + b)[|p|..] == b
  {
    assert (p + b)[..|p|] == p;
  }

  /** The SSID of an open network block, `None` for any other text. */
  function ReadOpenConfig(conf: string): Option<string> {
    if !StartsWith(conf, NetworkHead) then None
    else match QuotedField(conf[|NetworkHead|..], OpenTail)
      case Some((ssid, rest)) => if rest == [] then Some(ssid) else None
      case None => None
  }

  datatype EapFields = EapFields(ssid: string, identity: string, password: string)

  /** The fields of an EAP network block, `None` for any other text. */
  function ReadEapConfig(conf: string): Option<EapFields> {
    if !StartsWith(conf, NetworkHead) then None
    else match QuotedField(conf[|NetworkHead|..], EapIdentity)
      case None => None
      case Some((ssid, r1)) =>
        match QuotedField(r1, EapPassword)
        case None => None
        case Some((identity, r2)) =>
          match QuotedField(r2, EapTail)
          case None => None
          case Some((password, r3)) => if r3 == [] then Some(EapFields(ssid, identity, password)) else None
  }

  /** The open block of an SSID reads back as that SSID exactly when it holds no quote. */
  lemma OpenConfigRoundTrip(ssid: string)
    ensures ReadOpenConfig(NoPassphraseConfig(ssid)) == Some(ssid) <==> '"' !in ssid
  {
    var body := ssid + OpenTail;
    assert NoPassphraseConfig(ssid) == NetworkHead + body;
    AfterPrefix(NetworkHead, body);
    if '"' !in ssid {
      QuotedFieldAt(ssid, OpenTail, OpenTail);
      AfterPrefix(OpenTail, []);
      assert OpenTail + [] == OpenTail;
    } else {
      SplitField0Spec(body, '"');
    }
  }

  /** The EAP block of quote-free fields reads back as those fields, in their places. */
  lemma EapConfigRoundTrip(ssid: string, identity: string, password: string)
    requires '"' !in ssid && '"' !in identity && '"' !in password
    ensures ReadEapConfig(EapConfig(ssid, identity, password)) == Some(EapFields(ssid, identity, password))
  {
    var r2 := password + EapTail;
    var r1 := identity + (EapPassword + r2);
    var body := ssid + (EapIdentity + r1);
    EapConfigParts(ssid, identity, password);
    AfterPrefix(NetworkHead, body);
    QuotedFieldAt(ssid, EapIdentity + r1, EapIdentity);
    AfterPrefix(EapIdentity, r1);
    QuotedFieldAt(identity, EapPassword + r2, EapPassword);
    AfterPrefix(EapPassword, r2);
    QuotedFieldAt(password, EapTail, EapTail);
    AfterPrefix(EapTail, []);
    assert EapTail + [] == EapTail;
  }

  lemma EapConfigParts(ssid: string, identity: string, password: string)
    ensures EapConfig(ssid, identity, password) ==
      NetworkHead + (ssid + (EapIdentity + (identity + (EapPassword + (password + EapTail)))))
  {
  }

  /** A field that is read is the value, the text `after` and the rest, in that order. */
  lemma QuotedFieldParts(s: string, after: string)
    requires QuotedField(s, after).Some?
    ensures s == QuotedField(s, after).value.0 + after + QuotedField(s, after).value.1
  {
    var value := SplitField0(s, '"');
    SplitField0Spec(s, '"');
    var rest := s[|value|..];
    assert s == value + rest;
    assert rest == after + rest[|after|..];
  }

  /** The reader accepts only open blocks: what it reads is what the block was made of. */
  lemma ReadOpenConfigSound(conf: string)
    ensures ReadOpenConfig(conf).Some? ==> conf == NoPassphraseConfig(ReadOpenConfig(conf).value)
  {
    if StartsWith(conf, NetworkHead) {
      var body := conf[|NetworkHead|..];
      assert conf == NetworkHead + body;
      if QuotedField(body, OpenTail).Some? {
        QuotedFieldParts(body, OpenTail);
      }
    }
  }

  /** The reader accepts only EAP blocks: what it reads is what the block was made of. */
  lemma ReadEapConfigSound(conf: string)
    ensures ReadEapConfig(conf).Some? ==>
      conf == EapConfig(ReadEapConfig(conf).value.ssid, ReadEapConfig(conf).value.identity,
                        ReadEapConfig(conf).value.password)
  {
    if StartsWith(conf, NetworkHead) {
      var body := conf[|NetworkHead|..];
      assert conf == NetworkHead + body;
      var q1 := QuotedField(body, EapIdentity);
      if q1.Some? {
        QuotedFieldParts(body, EapIdentity);
        var q2 := QuotedField(q1.value.1, EapPassword);
        if q2.Some? {
          QuotedFieldParts(q1.value.1, EapPassword);
          var q3 := QuotedField(q2.value.1, EapTail);
          if q3.Some? && q3.value.1 == [] {
            QuotedFieldParts(q2.value.1, EapTail);
            EapAssembled(conf, body, q1.value.0, q1.value.1, q2.value.0, q2.value.1, q3.value.0);
          }
        }
      }
    }
  }

  /** Putting the three fields of a read block back together gives the block. */
  lemma EapAssembled(conf: string, body: string, ssid: string, r1: string, identity: string,
                     r2: string, password: string)
    requires conf == NetworkHead + body && body == ssid + EapIdentity + r1
    requires r1 == identity + EapPassword + r2 && r2 == password + EapTail + []
    ensures conf == EapConfig(ssid, identity, password)
  {
    EapConfigParts(ssid, identity, password);
    assert r2 == password + EapTail;
  }

  /** The fourth character from the end of `x + t` is that of `t`. */
  lemma FourthFromEnd(x: string, t: string)
    requires 4 <= |t|
    ensures (x + t)[|x + t| - 4] == t[|t| - 4]
  {
  }

  /** No open block is an EAP block: one ends in `NONE` and a brace, the other in a quote and a brace. */
  lemma OpenBlockIsNotEapBlock(ssid: string, ssid': string, identity: string, password: string)
    ensures NoPassphraseConfig(ssid) != EapConfig(ssid', identity, password)
  {
    FourthFromEnd(NetworkHead + ssid, OpenTail);
    FourthFromEnd(NetworkHead + ssid' + EapIdentity + identity + EapPassword + password, EapTail);
    assert OpenTail[|OpenTail| - 4] != EapTail[|EapTail| - 4];
  }

  /** An open block does not read as an EAP block, whatever its SSID. */
  lemma OpenIsNotEap(ssid: string)
    ensures ReadEapConfig(NoPassphraseConfig(ssid)).None?
  {
    var conf := NoPassphraseConfig(ssid);
    ReadEapConfigSound(conf);
    if ReadEapConfig(conf).Some? {
      var f := ReadEapConfig(conf).value;
      OpenBlockIsNotEapBlock(ssid, f.ssid, f.identity, f.password);
    }
  }

  /** An EAP block does not read as an open block, whatever its fields. */
  lemma EapIsNotOpen(ssid: string, identity: string, password: string)
    ensures ReadOpenConfig(EapConfig(ssid, identity, password)).None?
  {
    var conf := EapConfig(ssid, identity, password);
    ReadOpenConfigSound(conf);
    if ReadOpenConfig(conf).Some? {
      OpenBlockIsNotEapBlock(ReadOpenConfig(conf).value, ssid, identity, password);
    }
  }

  /**
   * generateConfig by argument count: an error exactly for no or more than three
   * arguments; one argument always gives an open block, which reads back `a[0]` exactly
   * when `a[0]` holds no quote; three always give an EAP block, which for quote-free
   * arguments reads back the SSID `a[0]`, the identity `a[2]` and the password `a[1]`; two
   * give what the passphrase tool gives, its error wrapped with both arguments.
   */
  lemma GenerateConfigSpec(a: seq<string>, passphrase: (string, string) -> Result<string, string>)
    ensures GenerateConfig(a, passphrase) == Failure(BadArgCount) <==> |a| == 0 || |a| > 3
    ensures |a| == 1 ==>
      && GenerateConfig(a, passphrase).Success?
      && (ReadOpenConfig(GenerateConfig(a, passphrase).value) == Some(a[0]) <==> '"' !in a[0])
      && ReadEapConfig(GenerateConfig(a, passphrase).value).None?
    ensures |a| == 3 ==>
      && GenerateConfig(a, passphrase).Success?
      && ReadOpenConfig(GenerateConfig(a, passphrase).value).None?
      && ('"' !in a[0] && '"' !in a[1] && '"' !in a[2] ==>
            ReadEapConfig(GenerateConfig(a, passphrase).value) == Some(EapFields(a[0], a[2], a[1])))
    ensures |a| == 2 ==>
      && (passphrase(a[0], a[1]).Success? ==> GenerateConfig(a, passphrase) == Success(passphrase(a[0], a[1]).value))
      && (passphrase(a[0], a[1]).Failure? ==>
            GenerateConfig(a, passphrase) == Failure(PassphraseFailed(a[0], a[1], passphrase(a[0], a[1]).error)))
  {
    if |a| == 1 {
      OpenConfigRoundTrip(a[0]);
      OpenIsNotEap(a[0]);
    }
    if |a| == 3 {
      EapIsNotOpen(a[0], a[2], a[1]);
      if '"' !in a[0] && '"' !in a[1] && '"' !in a[2] {
        EapConfigRoundTrip(a[0], a[2], a[1]);
      }
    }
  }

  /**
   * The errors of generateConfig: the argument-count error differs from every passphrase
   * error, and a passphrase error names the SSID first and the tool's error last.
   */
  lemma ConfigErrorMessages(essid: string, pass: string, cause: string)
    ensures BadArgCount.Message() != PassphraseFailed(essid, pass, cause).Message()
    ensures StartsWith(PassphraseFailed(essid, pass, cause).Message(), "essid: " + essid)
    ensures |cause| <= |PassphraseFailed(essid, pass, cause).Message()|
    ensures PassphraseFailed(essid, pass, cause).Message()[|PassphraseFailed(essid, pass, cause).Message()| - |cause|..] == cause
  {
    var m := PassphraseFailed(essid, pass, cause).Message();
    assert m[0] == 'e' != BadArgCount.Message()[0];
    assert m == ("essid: " + essid) + (", pass: " + pass + " : ") + cause;
  }
}
