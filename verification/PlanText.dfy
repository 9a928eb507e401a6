// The text form of a plan: the printer, the parser, and the paths they exchange.
module PlanText {
  import opened Arithmetic
  import P = Planner

  datatype ParseError = UnexpectedCharacter | TooWide | WiderThanLevel | UnknownConfig | NoParenthesis | TooShort

  datatype Parsed = Ok(path: seq<P.Action>) | Err(error: ParseError)

  // The names of the configurations; one is a prefix of the next.
  function ConfigStr(config: nat): string
    requires config < 4
  {
    if config == 0 then "ST" else if config == 1 then "ST stream" else if config == 2 then "MT" else "MT stream"
  }

  predicate IsSpace(c: char) {
    c == ' ' || c == '\t' || c == '\n' || c == '\r' || c == 11 as char || c == 12 as char
  }

  predicate IsDigit(c: char) {
    '0' <= c <= '9'
  }

  function DigitValue(c: char): nat
    requires IsDigit(c)
  {
    c as nat - '0' as nat
  }

  // ---------------------------------------------------------------- printing

  function DigitChar(d: nat): (c: char)
    requires d < 10
    ensures IsDigit(c) && DigitValue(c) == d
  {
    ('0' as nat + d) as char
  }

  function Decimal(n: nat): (s: string)
    ensures |s| >= 1 && forall i :: 0 <= i < |s| ==> IsDigit(s[i])
  {
    if n < 10 then [DigitChar(n)] else Decimal(n / 10) + [DigitChar(n % 10)]
  }

  function Item(a: P.Action): string {
    Decimal(a.N) + "(" + (if a.config < 4 then ConfigStr(a.config) else "? " + Decimal(a.config)) + ") "
  }

  function Text(path: seq<P.Action>): string {
    if path == [] then "" else Item(path[0]) + Text(path[1..])
  }

  lemma TextExample()
    ensures Text([P.Action(2, 14, 12), P.Action(3, 2, 2)]) == "12(MT) 2(MT stream) "
  {
    var a, b := P.Action(2, 14, 12), P.Action(3, 2, 2);
    assert Decimal(12) == "12" && Decimal(2) == "2";
    hide Decimal;
    assert Item(a) == "12(MT) " && Item(b) == "2(MT stream) ";
    hide Item;
    assert [a, b][1..] == [b] && [b][1..] == [];
    assert Text([b]) == Item(b) + Text([]);
  }

  // to_string()
  method Print(path: seq<P.Action>) returns (s: string)
    ensures s == Text(path)
  {
    s := "";
    for i: nat := 0 to |path|
      invariant s + Text(path[i..]) == Text(path)
    {
      var e := path[i];
      assert path[i..][1..] == path[i + 1..];
      assert (s + Item(e)) + Text(path[i + 1..]) == s + (Item(e) + Text(path[i + 1..]));
      var c := "? " + Decimal(e.config);
      if e.config < 4 {
        c := ConfigStr(e.config);
      }
      s := s + (Decimal(e.N) + "(" + c + ") ");
    }
  }

  // ---------------------------------------------------------------- parsing

  function SkipSpaces(s: string): (t: string)
    ensures |t| <= |s| && (t == "" || !IsSpace(t[0]))
  {
    if s != "" && IsSpace(s[0]) then SkipSpaces(s[1..]) else s
  }

  // The value of acc followed by the leading digits of s, and what comes after them.
  function Number(s: string, acc: nat): (r: (nat, string))
    ensures |r.1| <= |s| && (s != "" && IsDigit(s[0]) ==> |r.1| < |s|)
  {
    if s != "" && IsDigit(s[0]) then Number(s[1..], acc * 10 + DigitValue(s[0])) else (acc, s)
  }

  predicate StartsWith(s: string, t: string) {
    |t| <= |s| && s[..|t|] == t
  }

  predicate EndsWith(s: string, t: string) {
    |t| <= |s| && s[|s| - |t|..] == t
  }

  // The names tell the bits of the configuration: the upper one for threads, the lower one for streaming.
  lemma ConfigNames(config: nat)
    requires config < 4
    ensures StartsWith(ConfigStr(config), "MT") <==> P.Threaded(config)
    ensures StartsWith(ConfigStr(config), "ST") <==> !P.Threaded(config)
    ensures EndsWith(ConfigStr(config), " stream") <==> P.Streaming(config)
    ensures ConfigStr(config) == (if P.Threaded(config) then "MT" else "ST") +
      if P.Streaming(config) then " stream" else ""
    ensures config == (if P.Threaded(config) then 2 else 0) + if P.Streaming(config) then 1 else 0
  {
    var s := ConfigStr(config);
    StartsSame(s, "MT");
    StartsSame(s, "ST");
    assert s[..2] == if config >= 2 then "MT" else "ST";
    if config % 2 == 1 {
      assert s[2..] == " stream" && s == s[..2] + s[2..];
    } else {
      assert |s| == 2;
    }
  }

  lemma StartsSame(s: string, t: string)
    requires t != ""
    ensures StartsWith(s, t) ==> s != "" && s[0] == t[0]
  {
    assert StartsWith(s, t) ==> s[..|t|][0] == t[0];
  }

  // The last configuration, from 3 down to 0, whose name s starts with.
  function MatchConfig(s: string, config: nat): (r: int)
    requires config <= 4
    ensures -1 <= r < 4 && (r >= 0 ==> StartsWith(s, ConfigStr(r)))
  {
    if config == 0 then -1
    else if StartsWith(s, ConfigStr(config - 1)) then config - 1
    else MatchConfig(s, config - 1)
  }

  datatype Suffix = Suffix(config: nat, rest: string) | NoSuffix(error: ParseError)

  // The optional configuration in parentheses.
  function ParseConfig(s: string): (r: Suffix)
    ensures r.Suffix? ==> r.config < 4 && |r.rest| <= |s|
  {
    if s == "" || s[0] != '(' then Suffix(0, s)
    else
      var config := MatchConfig(s[1..], 4);
      if config == -1 then NoSuffix(UnknownConfig)
      else
        var rest := s[1..][|ConfigStr(config)|..];
        if rest == "" || rest[0] != ')' then NoSuffix(NoParenthesis) else Suffix(config, rest[1..])
  }

  function Prepend(a: P.Action, r: Parsed): Parsed {
    match r
    case Ok(path) => Ok([a] + path)
    case Err(e) => Err(e)
  }

  // What parsePathStr() makes of the rest s of the text when level bits are left.
  function Parse(s: string, level: nat, max: nat): Parsed
    decreases |s|
  {
    var s1 := SkipSpaces(s);
    if s1 == "" then (if level != 0 then Err(TooShort) else Ok([]))
    else if !IsDigit(s1[0]) then Err(UnexpectedCharacter)
    else
      var (N, s2) := Number(s1, 0);
      if N > max then Err(TooWide)
      else if N > level then Err(WiderThanLevel)
      else
        match ParseConfig(s2)
        case NoSuffix(e) => Err(e)
        case Suffix(config, s3) => Prepend(P.Action(config, level, N), Parse(s3, level - N, max))
  }

  // ---------------------------------------------------------------- what the parser accepts

  // The paths for a length of 2^level: the widths sum to level, and each action carries the level
  // that the ones before it leave.
  ghost predicate WellFormed(path: seq<P.Action>, level: nat, max: nat)
    decreases |path|
  {
    if path == [] then level == 0
    else
      && path[0].config < 4 && path[0].level == level && path[0].N <= level && path[0].N <= max
      && WellFormed(path[1..], level - path[0].N, max)
  }

  // Every accepted text gives a well-formed path.
  lemma {:induction false} ParsedIsWellFormed(s: string, level: nat, max: nat)
    ensures Parse(s, level, max).Ok? ==> WellFormed(Parse(s, level, max).path, level, max)
    decreases |s|
  {
    var s1 := SkipSpaces(s);
    if s1 != "" && IsDigit(s1[0]) {
      var (N, s2) := Number(s1, 0);
      if N <= max && N <= level && ParseConfig(s2).Suffix? {
        var s3 := ParseConfig(s2).rest;
        ParsedIsWellFormed(s3, level - N, max);
        if Parse(s3, level - N, max).Ok? {
          var path := Parse(s, level, max).path;
          assert path[1..] == Parse(s3, level - N, max).path;
        }
      }
    }
  }

  // In a well-formed path levels telescope and sum to the length.
  lemma {:induction false} WellFormedTelescopes(path: seq<P.Action>, level: nat, max: nat, i: nat)
    requires WellFormed(path, level, max) && i <= |path|
    ensures Sum(P.Widths(path)) == level
    ensures Sum(P.Widths(path[..i])) <= level && (i < |path| ==> path[i].level == level - Sum(P.Widths(path[..i])))
    ensures i + 1 < |path| ==> path[i + 1].level == path[i].level - path[i].N
    ensures |path| > 0 && i == |path| - 1 ==> path[i].level == path[i].N
    decreases |path|
  {
    if path == [] {
      assert path[..0] == [];
    } else {
      var j := if i == 0 then 0 else i - 1;
      WellFormedTelescopes(path[1..], level - path[0].N, max, j);
      assert P.Widths(path)[1..] == P.Widths(path[1..]);
      assert P.Widths(path[..0]) == [] && P.Widths(path[1..][..0]) == [];
      if i > 0 {
        assert P.Widths(path[..i])[1..] == P.Widths(path[1..][..j]);
      }
    }
  }

  // ---------------------------------------------------------------- the round trip

  lemma {:induction false} NumberOfDecimal(n: nat, u: string)
    ensures Number(Decimal(n) + u, 0) == Number(u, n)
  {
    if n < 10 {
      assert (Decimal(n) + u)[1..] == u;
    } else {
      var d := [DigitChar(n % 10)];
      assert Decimal(n) + u == Decimal(n / 10) + (d + u);
      NumberOfDecimal(n / 10, d + u);
      assert (d + u)[1..] == u;
    }
  }

  lemma DiffersAt(s: string, t: string, k: nat)
    requires k < |t| && k < |s| && s[k] != t[k]
    ensures !StartsWith(s, t)
  {
    if |t| <= |s| {
      assert s[..|t|][k] == s[k];
    }
  }

  // The longer names are tried first, so that "ST" does not hide "ST stream".
  lemma ConfigIsFound(config: nat, u: string)
    requires config < 4
    ensures MatchConfig(ConfigStr(config) + (")" + u), 4) == config
  {
    var t := ConfigStr(config) + (")" + u);
    assert t[..|ConfigStr(config)|] == ConfigStr(config);
    assert t[2] == if config == 0 || config == 2 then ')' else ' ';
    forall k: nat | config < k < 4
      ensures !StartsWith(t, ConfigStr(k))
    {
      DiffersAt(t, ConfigStr(k), if k >= 2 && config < 2 then 0 else 2);
    }
    FirstMatch(t, config, 4);
  }

  lemma {:induction false} FirstMatch(t: string, config: nat, k: nat)
    requires config < k <= 4 && StartsWith(t, ConfigStr(config))
    requires forall j: nat :: config < j < k ==> !StartsWith(t, ConfigStr(j))
    ensures MatchConfig(t, k) == config
  {
    if config < k - 1 {
      FirstMatch(t, config, k - 1);
    }
  }

  lemma ConfigIsParsed(config: nat, u: string)
    requires config < 4
    ensures ParseConfig("(" + ConfigStr(config) + ")" + u) == Suffix(config, u)
  {
    hide ConfigStr, MatchConfig;
    var t := ConfigStr(config) + (")" + u);
    var s := "(" + ConfigStr(config) + ")" + u;
    assert s[1..] == t;
    ConfigIsFound(config, u);
    assert t[|ConfigStr(config)|..] == ")" + u;
    assert (")" + u)[1..] == u;
  }

  lemma SpaceIsSkipped(u: string, level: nat, max: nat)
    ensures Parse(" " + u, level, max) == Parse(u, level, max)
  {
    assert (" " + u)[1..] == u;
  }

  lemma ItemIsParsed(a: P.Action, u: string, level: nat, max: nat)
    requires a.config < 4 && a.level == level && a.N <= level && a.N <= max
    ensures Parse(Item(a) + u, level, max) == Prepend(a, Parse(u, level - a.N, max))
  {
    var rest := "(" + ConfigStr(a.config) + ")" + (" " + u);
    var s := Item(a) + u;
    assert s == Decimal(a.N) + rest;
    assert s[0] == Decimal(a.N)[0] && IsDigit(s[0]) && SkipSpaces(s) == s;
    NumberOfDecimal(a.N, rest);
    assert Number(s, 0) == (a.N, rest);
    ConfigIsParsed(a.config, " " + u);
    SpaceIsSkipped(u, level - a.N, max);
  }

  lemma NothingIsParsed(max: nat)
    ensures Parse("", 0, max) == Ok([])
  {
  }

  // Parsing a printed path gives it back.
  lemma {:induction false} RoundTrip(path: seq<P.Action>, level: nat, max: nat)
    requires WellFormed(path, level, max)
    ensures Parse(Text(path), level, max) == Ok(path)
    decreases |path|
  {
    hide Parse, Item;
    if path == [] {
      NothingIsParsed(max);
    } else {
      RoundTrip(path[1..], level - path[0].N, max);
      ItemIsParsed(path[0], Text(path[1..]), level, max);
      assert [path[0]] + path[1..] == path;
    }
  }

  // The paths that some text denotes are exactly the well-formed ones.
  lemma AcceptedPaths(path: seq<P.Action>, level: nat, max: nat)
    ensures WellFormed(path, level, max) <==> exists s :: Parse(s, level, max) == Ok(path)
  {
    if WellFormed(path, level, max) {
      RoundTrip(path, level, max);
    }
    if s :| Parse(s, level, max) == Ok(path) {
      ParsedIsWellFormed(s, level, max);
    }
  }

  // A plan of the planner is well-formed, so its text leads back to it.
  lemma PlanRoundTrip(s: P.Setup, path: seq<P.Action>)
    requires P.Plan(s, path)
    ensures Parse(Text(path), s.log2len, s.maxBut) == Ok(path)
  {
    assert forall i :: 0 <= i < |path| ==> P.Executable(s, path[i]);
    PlanIsWellFormed(s, path, 0);
    assert path[0..] == path;
    RoundTrip(path, s.log2len, s.maxBut);
  }

  lemma {:induction false} PlanIsWellFormed(s: P.Setup, path: seq<P.Action>, i: nat)
    requires P.Plan(s, path) && i < |path| && forall i :: 0 <= i < |path| ==> P.Executable(s, path[i])
    ensures WellFormed(path[i..], path[i].level, s.maxBut)
    decreases |path| - i
  {
    assert P.Executable(s, path[i]);
    hide P.HasTable;
    assert path[i..][1..] == path[i + 1..];
    if i + 1 < |path| {
      PlanIsWellFormed(s, path, i + 1);
      assert P.Linked(path[i], path[i + 1]);
    } else {
      assert path[i + 1..] == [];
    }
  }

  // ---------------------------------------------------------------- the parser as a loop

  function Combine(v: seq<P.Action>, r: Parsed): Parsed {
    match r
    case Ok(path) => Ok(v + path)
    case Err(e) => Err(e)
  }

  // parsePathStr(): p runs over the text, v collects the actions.
  method ParsePathStr(text: string, log2len: nat, max: nat) returns (r: Parsed)
    ensures r == Parse(text, log2len, max)
  {
    var v: seq<P.Action> := [];
    var level: nat := log2len;
    var p := text;
    while true
      invariant Combine(v, Parse(p, level, max)) == Parse(text, log2len, max)
      decreases |p|
    {
      ghost var start := p;
      p := SkipSpacesLoop(p);
      if p == "" {
        break;
      }
      if !IsDigit(p[0]) {
        return Err(UnexpectedCharacter);
      }
      var N;
      N, p := ReadNumber(p);
      if N > max {
        return Err(TooWide);
      }
      if N > level {
        return Err(WiderThanLevel);
      }
      var suffix := ReadConfig(p);
      if suffix.NoSuffix? {
        return Err(suffix.error);
      }
      p := suffix.rest;
      PrependCombines(v, P.Action(suffix.config, level, N), Parse(p, level - N, max));
      v := v + [P.Action(suffix.config, level, N)];
      level := level - N;
    }
    if level != 0 {
      return Err(TooShort);
    }
    return Ok(v);
  }

  lemma PrependCombines(v: seq<P.Action>, a: P.Action, r: Parsed)
    ensures Combine(v, Prepend(a, r)) == Combine(v + [a], r)
  {
    if r.Ok? {
      assert v + ([a] + r.path) == v + [a] + r.path;
    }
  }

  method SkipSpacesLoop(s: string) returns (p: string)
    ensures p == SkipSpaces(s)
  {
    p := s;
    while p != "" && IsSpace(p[0])
      invariant SkipSpaces(p) == SkipSpaces(s)
      decreases |p|
    {
      p := p[1..];
    }
  }

  method ReadNumber(s: string) returns (n: nat, p: string)
    ensures (n, p) == Number(s, 0)
  {
    n, p := 0, s;
    while p != "" && IsDigit(p[0])
      invariant Number(p, n) == Number(s, 0)
      decreases |p|
    {
      n := n * 10 + DigitValue(p[0]);
      p := p[1..];
    }
  }

  method ReadConfig(s: string) returns (r: Suffix)
    ensures r == ParseConfig(s)
  {
    var p := s;
    var config: int := 0;
    if p != "" && p[0] == '(' {
      p := p[1..];
      config := 3;
      while config >= 0 && !StartsWith(p, ConfigStr(config))
        invariant -1 <= config <= 3 && MatchConfig(p, config + 1) == MatchConfig(p, 4)
        decreases config
      {
        config := config - 1;
      }
      if config == -1 {
        return NoSuffix(UnknownConfig);
      }
      p := p[|ConfigStr(config)|..];
      if p == "" || p[0] != ')' {
        return NoSuffix(NoParenthesis);
      }
      p := p[1..];
    }
    return Suffix(config, p);
  }

  // ---------------------------------------------------------------- setting and getting paths

  // A one-dimensional transform, as far as its plan goes.
  class Plan1D {
    const log2len: nat
    const max: nat
    var bestPath: seq<P.Action>

    constructor (log2len: nat, max: nat)
      ensures this.log2len == log2len && this.max == max && bestPath == []
    {
      this.log2len, this.max, bestPath := log2len, max, [];
    }

    // A text that does not parse leaves the path as it was.
    method SetPath(text: string)
      modifies this
      ensures bestPath == AfterSet(text, log2len, max, old(bestPath))
    {
      var r := ParsePathStr(text, log2len, max);
      if r.Ok? {
        bestPath := r.path;
      }
    }

    method GetPath() returns (text: string)
      ensures text == Text(bestPath)
    {
      text := Print(bestPath);
    }
  }

  function AfterSet(text: string, log2len: nat, max: nat, path: seq<P.Action>): seq<P.Action> {
    match Parse(text, log2len, max)
    case Ok(p) => p
    case Err(_) => path
  }

  // Setting what was got restores a well-formed path, whatever was there.
  lemma GetThenSet(path: seq<P.Action>, log2len: nat, max: nat, other: seq<P.Action>)
    requires WellFormed(path, log2len, max)
    ensures AfterSet(Text(path), log2len, max, other) == path
  {
    RoundTrip(path, log2len, max);
  }

  // sscanf("%d"): white space, an optional sign and at least one digit.
  datatype Scanned = Int(value: int) | NoInt

  function ScanInt(s: string): Scanned {
    var s1 := SkipSpaces(s);
    var s2 := if s1 != "" && (s1[0] == '-' || s1[0] == '+') then s1[1..] else s1;
    if s2 != "" && IsDigit(s2[0]) then
      var (n, _) := Number(s2, 0);
      Int(if s1[0] == '-' then 0 - n else n)
    else NoInt
  }

  // The position of the first c, or the length of s.
  function Find(s: string, c: char): (i: nat)
    ensures i <= |s| && (i < |s| ==> s[i] == c) && forall j :: 0 <= j < i ==> s[j] != c
  {
    if s == "" || s[0] == c then 0 else 1 + Find(s[1..], c)
  }

  // The two parts behind the colon, if the text has a colon and a comma behind it.
  datatype Parts = Parts(horizontal: string, vertical: string) | Missing

  function Split(s: string): Parts {
    var colon := Find(s, ':');
    if colon == |s| then Missing
    else
      var t := s[colon + 1..];
      var comma := Find(t, ',');
      if comma == |t| then Missing else Parts(t[..comma], t[comma + 1..])
  }

  function Text2D(mt: bool, horizontal: seq<P.Action>, vertical: seq<P.Action>): string {
    (if mt then "1" else "0") + ":" + Text(horizontal) + "," + Text(vertical)
  }

  lemma {:induction false} FindAfter(s: string, t: string, c: char)
    requires forall i :: 0 <= i < |s| ==> s[i] != c
    ensures Find(s + [c] + t, c) == |s|
  {
    if s != "" {
      FindAfter(s[1..], t, c);
      assert (s + [c] + t)[1..] == s[1..] + [c] + t;
    }
  }

  lemma {:induction false} NoSeparators(path: seq<P.Action>)
    ensures forall i :: 0 <= i < |Text(path)| ==> Text(path)[i] != ':' && Text(path)[i] != ','
  {
    if path != [] {
      NoSeparators(path[1..]);
      var a := path[0];
      assert forall i :: 0 <= i < |Item(a)| ==> Item(a)[i] != ':' && Item(a)[i] != ',' by {
        NamesHaveNoSeparators(a);
      }
    }
  }

  lemma NamesHaveNoSeparators(a: P.Action)
    ensures forall i :: 0 <= i < |Item(a)| ==> Item(a)[i] != ':' && Item(a)[i] != ','
  {
    var name := if a.config < 4 then ConfigStr(a.config) else "? " + Decimal(a.config);
    assert forall i :: 0 <= i < |name| ==> name[i] != ':' && name[i] != ',';
    assert Item(a) == Decimal(a.N) + "(" + name + ") ";
  }

  // The text of a two-dimensional plan splits into its three parts.
  lemma Text2DSplits(mt: bool, h: seq<P.Action>, v: seq<P.Action>)
    ensures Split(Text2D(mt, h, v)) == Parts(Text(h), Text(v))
    ensures ScanInt(Text2D(mt, h, v)) == Int(if mt then 1 else 0)
  {
    hide Text, Split, ScanInt;
    NoSeparators(h);
    var d := if mt then "1" else "0";
    SplitParts(d, Text(h), Text(v));
    ScanDigit(d, ":" + Text(h) + "," + Text(v));
    assert Text2D(mt, h, v) == d + (":" + Text(h) + "," + Text(v));
  }

  lemma SplitParts(d: string, h: string, v: string)
    requires (forall i :: 0 <= i < |d| ==> d[i] != ':') && forall i :: 0 <= i < |h| ==> h[i] != ','
    ensures Split(d + ":" + h + "," + v) == Parts(h, v)
  {
    var t := h + "," + v;
    var s := d + ":" + h + "," + v;
    assert s == d + [':'] + t;
    FindAfter(d, t, ':');
    assert s[|d| + 1..] == t;
    FindAfter(h, v, ',');
    assert t[..|h|] == h && t[|h| + 1..] == v;
  }

  lemma ScanDigit(d: string, u: string)
    requires |d| == 1 && IsDigit(d[0]) && u != "" && !IsDigit(u[0])
    ensures ScanInt(d + u) == Int(DigitValue(d[0]))
  {
    var s := d + u;
    assert s[0] == d[0] && SkipSpaces(s) == s && s[1..] == u;
    assert Number(u, DigitValue(d[0])) == (DigitValue(d[0]), u);
  }

  // A two-dimensional transform; for a square one both directions share one object.
  class Plan2D {
    const instH: Plan1D
    const instV: Plan1D
    var planMT: bool

    constructor (instH: Plan1D, instV: Plan1D)
      ensures this.instH == instH && this.instV == instV && !planMT
    {
      this.instH, this.instV, planMT := instH, instV, false;
    }

    method GetPath() returns (text: string)
      ensures text == Text2D(planMT, instH.bestPath, instV.bestPath)
    {
      var h := instH.GetPath();
      var v := instV.GetPath();
      text := (if planMT then "1" else "0") + ":" + h + "," + v;
    }

    // The threading is set as soon as the text starts with a number, the paths if it has a colon
    // and a comma; the vertical one last, also when both are the same object.
    method SetPath(text: string)
      modifies this, instH, instV
      ensures planMT == if ScanInt(text).Int? then ScanInt(text).value != 0 else old(planMT)
      ensures ScanInt(text).NoInt? || Split(text).Missing? ==>
        instH.bestPath == old(instH.bestPath) && instV.bestPath == old(instV.bestPath)
      ensures ScanInt(text).Int? && Split(text).Parts? && instH != instV ==>
        && instH.bestPath == AfterSet(Split(text).horizontal, instH.log2len, instH.max, old(instH.bestPath))
        && instV.bestPath == AfterSet(Split(text).vertical, instV.log2len, instV.max, old(instV.bestPath))
      ensures ScanInt(text).Int? && Split(text).Parts? && instH == instV ==>
        instV.bestPath == AfterSet(Split(text).vertical, instV.log2len, instV.max,
          AfterSet(Split(text).horizontal, instV.log2len, instV.max, old(instV.bestPath)))
    {
      var n := ScanInt(text);
      if n.NoInt? {
        return;
      }
      planMT := n.value != 0;
      var colon := Find(text, ':');
      if colon == |text| {
        return;
      }
      var pathH := text[colon + 1..];
      var comma := Find(pathH, ',');
      if comma == |pathH| {
        return;
      }
      var pathV := pathH[comma + 1..];
      pathH := pathH[..comma];
      instH.SetPath(pathH);
      instV.SetPath(pathV);
    }

    // Setting what another transform of the same shape gave copies its plan.
    method CopyPlan(other: Plan2D)
      requires WellFormed(other.instH.bestPath, instH.log2len, instH.max)
      requires WellFormed(other.instV.bestPath, instV.log2len, instV.max)
      requires instH == instV ==> other.instH.bestPath == other.instV.bestPath
      modifies this, instH, instV
      ensures planMT == old(other.planMT)
      ensures instH.bestPath == old(other.instH.bestPath) && instV.bestPath == old(other.instV.bestPath)
    {
      ghost var h, v := other.instH.bestPath, other.instV.bestPath;
      var text := other.GetPath();
      Text2DSplits(other.planMT, h, v);
      GetThenSet(h, instH.log2len, instH.max, instH.bestPath);
      GetThenSet(v, instV.log2len, instV.max, instV.bestPath);
      GetThenSet(v, instV.log2len, instV.max, h);
      SetPath(text);
    }
  }
}
