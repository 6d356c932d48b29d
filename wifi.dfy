/**
 * pkg/wifi/wifi.go: the parser of `iwlist <if> scanning` output, the parser of `iwconfig`
 * output and the generator of wpa_supplicant network blocks.
 */
module Wifi {
  import opened Wrappers
  import opened GoStrings
  import opened LineRegex

  // ---------------------------------------------------------------------------------
  // The regular expressions, one predicate per pattern, on one line of text.

  /** The characters of RE2's `\s`. */
  const Space: set<char> := {'\t', '\n', '\U{000C}', '\r', ' '}

  const EncKeyOn := "Encryption key:on"
  const EncKeyOff := "Encryption key:off"
  /** The WPA2 marker `IE: IEEE 802.11i/WPA2 Version 1` around its unescaped dot. */
  const Wpa2Before := "IE: IEEE 802"
  const Wpa2After := "11i/WPA2 Version 1"
  const AuthSuitesMarker := "Authentication Suites "
  /** `IEEE 802.11` around its unescaped dot. */
  const IeeeBefore := "IEEE 802"
  const IeeeAfter := "11"

  predicate IsAlnum(c: char) {
    'a' <= c <= 'z' || 'A' <= c <= 'Z' || '0' <= c <= '9'
  }

  // A leading `\s*` followed by a word that starts with a non-space matches exactly when
  // the line with its leading spaces dropped starts with (or, before `$`, is) that word.

  // The `.` in `802.11` is not escaped in the source. Go's regexp reads the text as UTF-8,
  // so the dot takes one whole character: a well-formed sequence of two to four bytes, or
  // a single byte (a byte that does not start a well-formed sequence reads as U+FFFD).
  // Only a newline is refused. The model tries every width at the dot; the byte after it
  // is the ASCII `1`, which no sequence continues with, so only the width the decoder
  // takes can succeed (`DotWidthUnique`).

  predicate IsContinuation(c: char) {
    '\U{80}' <= c <= '\U{BF}'
  }

  /** A well-formed three-byte UTF-8 sequence (section 4 of RFC 3629). */
  predicate IsThreeByte(x: string)
    requires |x| == 3
  {
    && IsContinuation(x[2])
    && ( || (x[0] == '\U{E0}' && '\U{A0}' <= x[1] <= '\U{BF}')
         || ('\U{E1}' <= x[0] <= '\U{EC}' && IsContinuation(x[1]))
         || (x[0] == '\U{ED}' && '\U{80}' <= x[1] <= '\U{9F}')
         || ('\U{EE}' <= x[0] <= '\U{EF}' && IsContinuation(x[1])))
  }

  /** A well-formed four-byte UTF-8 sequence (section 4 of RFC 3629). */
  predicate IsFourByte(x: string)
    requires |x| == 4
  {
    && IsContinuation(x[2]) && IsContinuation(x[3])
    && ( || (x[0] == '\U{F0}' && '\U{90}' <= x[1] <= '\U{BF}')
         || ('\U{F1}' <= x[0] <= '\U{F3}' && IsContinuation(x[1]))
         || (x[0] == '\U{F4}' && '\U{80}' <= x[1] <= '\U{8F}'))
  }

  /** The bytes `x` are one character other than a newline, as the unescaped `.` takes it. */
  predicate DotChar(x: string) {
    || (|x| == 1 && x[0] != '\n')
    || (|x| == 2 && '\U{C2}' <= x[0] <= '\U{DF}' && IsContinuation(x[1]))
    || (|x| == 3 && IsThreeByte(x))
    || (|x| == 4 && IsFourByte(x))
  }

  /** `t` starts with `before`, then the `w` bytes of one dot character, then `after`. */
  predicate DotSplit(t: string, before: string, after: string, w: nat) {
    && |before| + w + |after| <= |t|
    && t[..|before|] == before
    && DotChar(t[|before|..|before| + w])
    && t[|before| + w..|before| + w + |after|] == after
  }

  /** `t` is the pattern `before` `.` `after`. */
  predicate Spells(t: string, before: string, after: string) {
    exists w :: 1 <= w <= 4 && |t| == |before| + w + |after| && DotSplit(t, before, after, w)
  }

  /** `t` starts with the pattern `before` `.` `after`. */
  predicate SpellsPrefix(t: string, before: string, after: string) {
    exists w :: 1 <= w <= 4 && DotSplit(t, before, after, w)
  }

  /** `(?m)^\s*Cell` */
  predicate IsCellLine(line: string) {
    StartsWith(TrimLeft(line, Space), "Cell")
  }

  /** `(?m)^\s*ESSID.*` */
  predicate IsEssidLine(line: string) {
    StartsWith(TrimLeft(line, Space), "ESSID")
  }

  /** `(?m)^\s*Encryption key:(on|off)$` */
  predicate IsEncKeyOptLine(line: string) {
    TrimLeft(line, Space) == EncKeyOn || TrimLeft(line, Space) == EncKeyOff
  }

  /** `(?m)^\s*IE: IEEE 802.11i/WPA2 Version 1$` */
  predicate IsWpa2Line(line: string) {
    Spells(TrimLeft(line, Space), Wpa2Before, Wpa2After)
  }

  /** `(?m)^\s*Authentication Suites .*$` */
  predicate IsAuthSuitesLine(line: string) {
    StartsWith(TrimLeft(line, Space), AuthSuitesMarker)
  }

  /** `line[..k]` is the `[a-zA-Z0-9]+` run and `\s*IEEE 802.11` follows it. */
  predicate IwconfigSplit(line: string, k: nat)
    requires k <= |line|
  {
    && 1 <= k
    && (forall j :: 0 <= j < k ==> IsAlnum(line[j]))
    && SpellsPrefix(TrimLeft(line[k..], Space), IeeeBefore, IeeeAfter)
  }

  /** `(?m)^[a-zA-Z0-9]+\s*IEEE 802.11.*$` */
  predicate IsIwconfigLine(line: string) {
    exists k :: 1 <= k <= |line| && IwconfigSplit(line, k)
  }

  // ---------------------------------------------------------------------------------
  // Types.

  datatype SecProto = NoEnc | WpaPsk | WpaEap | NotSupportedProto

  datatype WifiOption = WifiOption(essid: string, authSuite: SecProto)

  // ---------------------------------------------------------------------------------
  // parseIwconfig

  /** The interface name of each line: `strings.Split(line, " ")[0]`. */
  function Names(lines: seq<string>): (names: seq<string>)
    ensures |names| == |lines|
  {
    seq(|lines|, k requires 0 <= k < |lines| => SplitField0(lines[k], ' '))
  }

  /** What parseIwconfig returns on the text `o`. */
  function IwconfigNames(o: string): seq<string> {
    Names(FindAll(IsIwconfigLine, o))
  }

  /** parseIwconfig, lines 85-91. */
  method ParseIwconfig(o: string) returns (res: seq<string>)
    ensures res == IwconfigNames(o)
  {
    var interfaces := FindAll(IsIwconfigLine, o);
    res := [];
    for j := 0 to |interfaces|
      invariant |res| == j
      invariant forall k :: 0 <= k < j ==> res[k] == SplitField0(interfaces[k], ' ')
    {
      res := res + [SplitField0(interfaces[j], ' ')];
    }
  }

  // ---------------------------------------------------------------------------------
  // parseIwlistOut

  /**
   * The outcome of parseIwlistOut: the options, or `OutOfRange` where the Go code
   * panics (an index past the end of `essids` or `encKeyOpts`, or field 1 of a split
   * on ":" of a text that holds no ':').
   */
  datatype Parsed = Options(opts: seq<WifiOption>) | OutOfRange

  /**
   * The three searches over the whole text that parseIwlistOut starts with (lines 109-111):
   * the start offsets of the `Cell` matches, and the texts of the `ESSID` and of the
   * `Encryption key` matches.
   */
  datatype Scan = Scan(text: string, cells: seq<nat>, essids: seq<string>, encKeyOpts: seq<string>)

  /** What `FindAllIndex` guarantees of `cells`: increasing offsets into the text `o`. */
  predicate CellsIn(cells: seq<nat>, o: string) {
    && (forall k :: 0 <= k < |cells| ==> cells[k] <= |o|)
    && Increasing(cells)
  }

  function ScanOf(o: string): (sc: Scan)
    ensures sc.text == o && CellsIn(sc.cells, sc.text)
  {
    FindAllIndexOrdered(IsCellLine, o);
    Scan(o, FindAllIndex(IsCellLine, o), FindAll(IsEssidLine, o), FindAll(IsEncKeyOptLine, o))
  }

  /** `strings.Trim(strings.Split(line, ":")[1], "\"\n")`, the SSID of an ESSID line. */
  function EssidOf(line: string): Option<string> {
    match SplitField1(line, ':')
    case None => None
    case Some(f) => Some(Trim(f, {'"', '\n'}))
  }

  /** `strings.Trim(strings.Split(line, ":")[1], "\n")`, the on/off word of a key line. */
  function EncKeyOptOf(line: string): Option<string> {
    match SplitField1(line, ':')
    case None => None
    case Some(f) => Some(Trim(f, {'\n'}))
  }

  /** `strings.Trim(strings.Split(line, ":")[1], "\n ")`, the token of a suites line. */
  function SuiteOf(line: string): Option<string> {
    match SplitField1(line, ':')
    case None => None
    case Some(f) => Some(Trim(f, {'\n', ' '}))
  }

  /** The switch on the suite token, lines 147-154. */
  function SuiteProto(token: string): (r: SecProto)
    ensures r == WpaPsk <==> token == "PSK"
    ensures r == WpaEap <==> token == "802.1x"
    ensures r != NoEnc
  {
    if token == "PSK" then WpaPsk
    else if token == "802.1x" then WpaEap
    else NotSupportedProto
  }

  /** The end of cell `i`'s window: the next cell's start, or the end of the text. */
  function CellEnd(o: string, cells: seq<nat>, i: nat): (end: nat)
    requires CellsIn(cells, o) && i < |cells|
    ensures cells[i] <= end <= |o|
  {
    if i != |cells| - 1 then cells[i + 1] else |o|
  }

  /**
   * The security lines 133-154 read off cell `i`'s window of an encrypted cell; `None`
   * where the Go code panics (the suites text lacks ':', which includes finding no
   * suites line at all).
   */
  function WindowSecurity(o: string, cells: seq<nat>, i: nat): Option<SecProto>
    requires CellsIn(cells, o) && i < |cells|
  {
    var wpa2SearchArea := o[cells[i]..CellEnd(o, cells, i)];
    match FindIndex(IsWpa2Line, wpa2SearchArea)
    case None => Some(NotSupportedProto)
    case Some(l) =>
      FindIndexInRange(IsWpa2Line, wpa2SearchArea);
      SuiteSecurity(Find(IsAuthSuitesLine, wpa2SearchArea[l..]))
  }

  /** The security a suites line gives (lines 146-154), `None` where it lacks ':'. */
  function SuiteSecurity(line: string): Option<SecProto> {
    match SuiteOf(line)
    case None => None
    case Some(authSuites) => Some(SuiteProto(authSuites))
  }

  /** The SSID of cell `i` (line 122), `None` where the Go code panics. */
  function CellEssid(essids: seq<string>, i: nat): Option<string> {
    if i < |essids| then EssidOf(essids[i]) else None
  }

  /** The security of cell `i` (lines 127-154), `None` where the Go code panics. */
  function CellSecurity(o: string, cells: seq<nat>, encKeyOpts: seq<string>, i: nat): Option<SecProto>
    requires CellsIn(cells, o) && i < |cells|
  {
    if i >= |encKeyOpts| then None
    else match EncKeyOptOf(encKeyOpts[i])
      case None => None
      case Some(encKeyOpt) =>
        if encKeyOpt == "off" then Some(NoEnc) else WindowSecurity(o, cells, i)
  }

  /** Line 122 of parseIwlistOut. */
  method ReadEssid(essids: seq<string>, i: nat) returns (essid: Option<string>)
    ensures essid == CellEssid(essids, i)
  {
    if i >= |essids| {
      return None;
    }
    var field := SplitField1(essids[i], ':');
    if field.None? {
      return None;
    }
    essid := Some(Trim(field.value, {'"', '\n'}));
  }

  /** Lines 127-154 of parseIwlistOut. */
  method ReadSecurity(o: string, cells: seq<nat>, encKeyOpts: seq<string>, i: nat)
    returns (sec: Option<SecProto>)
    requires CellsIn(cells, o) && i < |cells|
    ensures sec == CellSecurity(o, cells, encKeyOpts, i)
  {
    if i >= |encKeyOpts| {
      return None;
    }
    var field := SplitField1(encKeyOpts[i], ':');
    if field.None? {
      return None;
    }
    var encKeyOpt := Trim(field.value, {'\n'});
    if encKeyOpt == "off" {
      return Some(NoEnc);
    }
    sec := ClassifyWindow(o, cells, i);
  }

  /** Lines 133-154 of parseIwlistOut, on the window of cell `i`. */
  method ClassifyWindow(o: string, cells: seq<nat>, i: nat) returns (sec: Option<SecProto>)
    requires CellsIn(cells, o) && i < |cells|
    ensures sec == WindowSecurity(o, cells, i)
  {
    var start, end := cells[i], |o|;
    if i != |cells| - 1 {
      end := cells[i + 1];
    }
    var wpa2SearchArea := o[start..end];
    var l := FindIndex(IsWpa2Line, wpa2SearchArea);
    if l.None? {
      return Some(NotSupportedProto);
    }
    FindIndexInRange(IsWpa2Line, wpa2SearchArea);
    var authSearchArea := wpa2SearchArea[l.value..];
    var authField := SplitField1(Find(IsAuthSuitesLine, authSearchArea), ':');
    if authField.None? {
      return None;
    }
    var authSuites := Trim(authField.value, {'\n', ' '});
    if authSuites == "PSK" {
      sec := Some(WpaPsk);
    } else if authSuites == "802.1x" {
      sec := Some(WpaEap);
    } else {
      sec := Some(NotSupportedProto);
    }
  }

  /**
   * What one turn of the loop reads about a cell: its SSID (lines 122-123) and its
   * security (lines 127-154, read only for an SSID not seen before); `None` stands for a
   * panic at that point.
   */
  datatype CellFacts = CellFacts(essid: Option<string>, security: Option<SecProto>)

  /**
   * `ReadCell` on the searches of a scan. It has a name of its own so that terms of
   * `Facts(sc)` do not trigger the quantifier of `FactsOf`, which is stated on `ReadCell`.
   */
  function FactsAt(sc: Scan, i: nat): CellFacts
    requires CellsIn(sc.cells, sc.text) && i < |sc.cells|
  {
    ReadCell(sc.text, sc.cells, sc.essids, sc.encKeyOpts, i)
  }

  function Facts(sc: Scan): (cs: seq<CellFacts>)
    requires CellsIn(sc.cells, sc.text)
    ensures |cs| == |sc.cells|
  {
    seq(|sc.cells|, i requires 0 <= i < |sc.cells| => FactsAt(sc, i))
  }

  /** `knownEssids` marks exactly the SSIDs of the options `res`, each with `true`. */
  predicate Tracks(knownEssids: map<string, bool>, res: seq<WifiOption>) {
    knownEssids.Keys == EssidsIn(res) && forall e :: e in knownEssids ==> knownEssids[e]
  }

  /** `cs` lists, cell by cell, what the loop reads about the cells `cells` of `o`. */
  predicate FactsOf(cs: seq<CellFacts>, o: string, cells: seq<nat>, essids: seq<string>,
                    encKeyOpts: seq<string>)
  {
    && CellsIn(cells, o)
    && |cs| == |cells|
    && forall i {:trigger ReadCell(o, cells, essids, encKeyOpts, i)} :: 0 <= i < |cs| ==>
         cs[i] == ReadCell(o, cells, essids, encKeyOpts, i)
  }

  /** What the loop reads about cell `i`. */
  function ReadCell(o: string, cells: seq<nat>, essids: seq<string>, encKeyOpts: seq<string>,
                    i: nat): CellFacts
    requires CellsIn(cells, o) && i < |cells|
  {
    CellFacts(CellEssid(essids, i), CellSecurity(o, cells, encKeyOpts, i))
  }

  /** The SSIDs of the options gathered so far: the keys of `knownEssids`. */
  function EssidsIn(res: seq<WifiOption>): set<string> {
    set k | 0 <= k < |res| :: res[k].essid
  }

  /** One turn of the loop of lines 121-155, after the options `res`. */
  function Step(c: CellFacts, res: seq<WifiOption>): Parsed {
    match c.essid
    case None => OutOfRange
    case Some(essid) =>
      if essid in EssidsIn(res) then Options(res)
      else match c.security
        case None => OutOfRange
        case Some(sec) => Options(res + [WifiOption(essid, sec)])
  }

  /** The outcome after the first `n` turns of the loop. */
  function Fold(cs: seq<CellFacts>, n: nat): Parsed
    requires n <= |cs|
  {
    if n == 0 then Options([])
    else match Fold(cs, n - 1)
      case OutOfRange => OutOfRange
      case Options(res) => Step(cs[n - 1], res)
  }

  /** What parseIwlistOut returns, or panics with, on the text `o`. */
  function IwlistOptions(o: string): Parsed {
    var sc := ScanOf(o);
    if sc.cells == [] then Options([]) else Fold(Facts(sc), |sc.cells|)
  }

  /** The facts of the cells that the three searches of lines 109-111 find. */
  lemma ScanFacts(o: string) returns (cs: seq<CellFacts>)
    ensures FactsOf(cs, o, FindAllIndex(IsCellLine, o), FindAll(IsEssidLine, o),
                    FindAll(IsEncKeyOptLine, o))
  {
    var sc := ScanOf(o);
    cs := Facts(sc);
    forall i | 0 <= i < |cs|
      ensures cs[i] == ReadCell(o, sc.cells, sc.essids, sc.encKeyOpts, i)
    {
      assert cs[i] == FactsAt(sc, i);
    }
  }

  /** The outcome of the loop over the facts `cs` of the cells of `o` is `IwlistOptions(o)`. */
  lemma IwlistOptionsFold(o: string, cs: seq<CellFacts>, r: Parsed)
    requires FactsOf(cs, o, FindAllIndex(IsCellLine, o), FindAll(IsEssidLine, o),
                     FindAll(IsEncKeyOptLine, o))
    requires r == Fold(cs, |cs|)
    ensures r == IwlistOptions(o)
  {
    var sc := ScanOf(o);
    var fs := Facts(sc);
    assert |fs| == |cs|;
    forall i | 0 <= i < |cs| ensures fs[i] == cs[i] {
      assert fs[i] == FactsAt(sc, i);
      assert cs[i] == ReadCell(sc.text, sc.cells, sc.essids, sc.encKeyOpts, i);
    }
    assert fs == cs;
  }

  /** One turn of the loop moves the fold one cell on. */
  lemma FoldStep(cs: seq<CellFacts>, i: nat, res: seq<WifiOption>)
    requires i < |cs| && Fold(cs, i) == Options(res)
    ensures Fold(cs, i + 1) == Step(cs[i], res)
  {
  }

  /** Once a turn of the loop has panicked, the whole call has. */
  lemma {:induction false} PanicPersists(cs: seq<CellFacts>, i: nat, n: nat)
    requires i <= n <= |cs| && Fold(cs, i) == OutOfRange
    ensures Fold(cs, n) == OutOfRange
    decreases n - i
  {
    if i < n {
      PanicPersists(cs, i + 1, n);
    }
  }

  /** Adding an option adds its SSID to the known ones (line 126). */
  lemma EssidsInAppend(res: seq<WifiOption>, x: WifiOption)
    ensures EssidsIn(res + [x]) == EssidsIn(res) + {x.essid}
  {
    var r := res + [x];
    forall e | e in EssidsIn(r) ensures e in EssidsIn(res) + {x.essid} {
      var k :| 0 <= k < |r| && r[k].essid == e;
      if k < |res| {
        assert res[k].essid == e;
      }
    }
    forall e | e in EssidsIn(res) ensures e in EssidsIn(r) {
      var k :| 0 <= k < |res| && res[k].essid == e;
      assert r[k].essid == e;
    }
    assert r[|res|].essid == x.essid;
  }

  /**
   * One turn of the loop of parseIwlistOut (lines 122-154) on cell `i`, after the options
   * `res` whose SSIDs `knownEssids` holds, where `c` is what the turn reads: the options
   * after the turn, or `OutOfRange` where the Go code panics.
   */
  method Visit(o: string, cells: seq<nat>, essids: seq<string>, encKeyOpts: seq<string>, i: nat,
               res: seq<WifiOption>, knownEssids: map<string, bool>, ghost c: CellFacts)
    returns (next: Parsed, known: map<string, bool>)
    requires CellsIn(cells, o) && i < |cells|
    requires c == ReadCell(o, cells, essids, encKeyOpts, i)
    requires Tracks(knownEssids, res)
    ensures next == Step(c, res)
    ensures next.Options? ==> Tracks(known, next.opts)
  {
    known := knownEssids;
    var essidOpt := ReadEssid(essids, i);
    if essidOpt.None? {
      return OutOfRange, known;
    }
    var essid := essidOpt.value;
    if essid in known && known[essid] {
      return Options(res), known;
    }
    known := known[essid := true];
    var sec := ReadSecurity(o, cells, encKeyOpts, i);
    if sec.None? {
      return OutOfRange, known;
    }
    EssidsInAppend(res, WifiOption(essid, sec.value));
    next := Options(res + [WifiOption(essid, sec.value)]);
  }

  /** parseIwlistOut, lines 108-157: the three searches, then the options of the cells. */
  method ParseIwlistOut(o: string) returns (r: Parsed)
    ensures r == IwlistOptions(o)
  {
    var cells := FindAllIndex(IsCellLine, o);
    var essids := FindAll(IsEssidLine, o);
    var encKeyOpts := FindAll(IsEncKeyOptLine, o);
    ghost var cs := ScanFacts(o);
    if cells == [] {
      r := Options([]);
    } else {
      r := Assemble(o, cells, essids, encKeyOpts, cs);
    }
    IwlistOptionsFold(o, cs, r);
  }

  /** Lines 117-156 of parseIwlistOut: the loop that assembles the options of the cells. */
  method Assemble(o: string, cells: seq<nat>, essids: seq<string>, encKeyOpts: seq<string>,
                  ghost cs: seq<CellFacts>)
    returns (r: Parsed)
    requires FactsOf(cs, o, cells, essids, encKeyOpts)
    ensures r == Fold(cs, |cells|)
  {
    var res: seq<WifiOption> := [];
    var knownEssids: map<string, bool> := map[];
    for i := 0 to |cells|
      invariant Fold(cs, i) == Options(res)
      invariant Tracks(knownEssids, res)
    {
      var next;
      assert cs[i] == ReadCell(o, cells, essids, encKeyOpts, i);
      next, knownEssids := Visit(o, cells, essids, encKeyOpts, i, res, knownEssids, cs[i]);
      FoldStep(cs, i, res);
      if next.OutOfRange? {
        PanicPersists(cs, i + 1, |cells|);
        return OutOfRange;
      }
      res := next.opts;
    }
    return Options(res);
  }

  // ---------------------------------------------------------------------------------
  // generateConfig

  // The two templates of lines 19-31, cut at their `%s` verbs.
  const NetworkHead := "network={\n\t\tssid=\""
  const OpenTail := "\"\n\t\tproto=RSN\n\t\tkey_mgmt=NONE\n\t}"
  const EapIdentity := "\"\n\t\tkey_mgmt=WPA-EAP\n\t\tidentity=\""
  const EapPassword := "\"\n\t\tpassword=\""
  const EapTail := "\"\n\t}"

  /** The `nopassphrase` template (lines 20-24) with its `%s` filled. */
  function NoPassphraseConfig(ssid: string): string {
    NetworkHead + ssid + OpenTail
  }

  /** The `eap` template (lines 25-30) with its three `%s` filled, in order. */
  function EapConfig(ssid: string, identity: string, password: string): string {
    NetworkHead + ssid + EapIdentity + identity + EapPassword + password + EapTail
  }

  datatype ConfigError =
    | BadArgCount
    | PassphraseFailed(essid: string, pass: string, cause: string)
  {
    /** The text of the Go error. */
    function Message(): string {
      match this
      case BadArgCount => "generateConfig needs 1, 2, or 3 args"
      case PassphraseFailed(e, p, c) => "essid: " + e + ", pass: " + p + " : " + c
    }
  }

  /**
   * generateConfig, lines 213-229, for the arguments `[essid, pass, id]`; `passphrase`
   * stands for `passphrase.Run`, whose error is given by its text.
   */
  function GenerateConfig(a: seq<string>, passphrase: (string, string) -> Result<string, string>)
    : Result<string, ConfigError>
  {
    if |a| == 3 then Success(EapConfig(a[0], a[2], a[1]))
    else if |a| == 2 then
      match passphrase(a[0], a[1])
      case Success(conf) => Success(conf)
      case Failure(err) => Failure(PassphraseFailed(a[0], a[1], err))
    else if |a| == 1 then Success(NoPassphraseConfig(a[0]))
    else Failure(BadArgCount)
  }
}
