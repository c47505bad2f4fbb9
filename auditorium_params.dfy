/** The auditorium configuration (votebox/AuditoriumParams.java): a file of
    alternating key and value lines, comments starting with '#', read into a
    key/value map, and getters that fall back to compiled-in defaults. The
    file is given as its sequence of lines, or None when reading it fails. */
module AuditoriumConfig {
  import opened Wrappers
  import opened Numeric
  import opened JavaStrings

  const DiscoverTimeout: int32 := 4000
  const DiscoverPort: int32 := 9782
  const DiscoverReplyTimeout: int32 := 1000
  const DiscoverReplyPort: int32 := 9783
  const ListenPort: int32 := 9700
  const JoinTimeout: int32 := 1000
  const BroadcastAddress: string := "255.255.255.255"
  const LogLocation: string := "log.out"
  const KeysDirectory: string := "keys/"
  const ViewImplementation: string := "AWT"
  const RuleFile: string := "rules"
  const CastBallotEncryptionEnabled: bool := true
  const UseEloTouchScreen: bool := false
  const ViewRestartTimeout: int32 := 5000
  const DefaultSerialNumber: int32 := -1
  const DefaultReportAddress: string := ""
  const DefaultPort: int32 := 9700
  const PrinterForVVPAT: string := ""
  const PaperWidthForVVPAT: int32 := 249
  const PaperHeightForVVPAT: int32 := 322
  const PrintableWidthForVVPAT: int32 := 239
  const PrintableHeightForVVPAT: int32 := 311
  const PrintableVerticalMargin: int32 := 25
  const PrintableHorizontalMargin: int32 := 25
  const PrinterDefaultDpi: int32 := 300
  const JavaDefaultDpi: int32 := 72
  const EnableNIZKs: bool := true
  const UsePiecemealEncryption: bool := false
  const UseSimpleTallyView: bool := false
  const UseTableTallyView: bool := false
  const DefaultUseWindowedView: bool := false
  const DefaultAllowUIScaling: bool := true
  const ElectionName: string := "Rice University General Election"
  const PrintUseTwoColumns: bool := true
  const UseScanConfirmationSound: bool := false
  const ScanConfirmationSoundPath: string := "sound/test.mp3"
  const PrintCommandsFileFilename: string := "CommandsFile.txt"
  const PrintCommandsFileParameterSeparator: string := "!!!"
  const DefaultOperatingSystem: string := "Windows"
  const DefaultShuffleCandidateOrder: bool := false

  const ParseError: string := "Couldn't parse the configuration file."

  // ---------------------------------------------------------------- lines

  /** The part of a line before its first '#'. */
  function Uncommented(t: string): (u: string)
    ensures '#' !in u
    ensures '#' in t ==> u == t[..IndexOfChar(t, '#')]
    ensures '#' !in t ==> u == t
  {
    if '#' in t then t[..IndexOfChar(t, '#')] else t
  }

  /** What one line of the file adds to the content list: nothing for a line
      that, trimmed, starts with '#' or is empty after its comment is cut;
      otherwise the trimmed text before its first '#'. */
  function KeptLine(line: string): Option<string> {
    var t := Trim(line);
    if StartsWith(t, "#") then None
    else
      var u := Uncommented(t);
      if |u| > 0 then Some(Trim(u)) else None
  }

  /** A trimmed string is a substring of the original, and begins and ends
      with a character above U+0020. */
  lemma TrimBounds(s: string)
    ensures |Trim(s)| <= |s|
    ensures forall c :: c in Trim(s) ==> c in s
    ensures |Trim(s)| > 0 ==> Trim(s)[0] > ' ' && Trim(s)[|Trim(s)| - 1] > ' '
    ensures |s| > 0 && s[0] > ' ' ==> |Trim(s)| > 0 && Trim(s)[0] == s[0]
  {
    var a := TrimStart(s);
    var t := TrimEnd(a);
    SubChars(s, a, t);
    if |s| > 0 && s[0] > ' ' {
      assert a == s;
    }
    if |t| > 0 {
      assert t[0] == a[0];
    }
  }

  /** A prefix of a suffix holds only characters of the whole. */
  lemma SubChars(s: string, a: string, t: string)
    requires |t| <= |a| <= |s| && a == s[|s| - |a|..] && t == a[..|t|]
    ensures forall c :: c in t ==> c in s
  {
    forall c | c in t
      ensures c in s
    {
      var j :| 0 <= j < |t| && t[j] == c;
      assert a[j] == c;
      assert s[|s| - |a| + j] == c;
    }
  }

  /** A line is dropped exactly when it is blank or, trimmed, starts with
      '#'; a kept line is non-empty, holds no '#' and has no leading or
      trailing character at or below U+0020. */
  lemma KeptLineShape(line: string)
    ensures KeptLine(line).None? <==> (Trim(line) == "" || Trim(line)[0] == '#')
    ensures KeptLine(line).Some? ==>
      var v := KeptLine(line).value;
      |v| > 0 && '#' !in v && v[0] > ' ' && v[|v| - 1] > ' '
  {
    var t := Trim(line);
    TrimBounds(line);
    KeptCases(t, KeptLine(line));
  }

  /** What a line keeps, given its trimmed text t. */
  lemma KeptCases(t: string, k: Option<string>)
    requires |t| > 0 ==> t[0] > ' '
    requires k == if StartsWith(t, "#") then None else
      var u := Uncommented(t);
      if |u| > 0 then Some(Trim(u)) else None
    ensures k.None? <==> (t == "" || t[0] == '#')
    ensures k.Some? ==> |k.value| > 0 && '#' !in k.value && k.value[0] > ' ' && k.value[|k.value| - 1] > ' '
  {
    if |t| > 0 && t[0] != '#' {
      assert !StartsWith(t, "#");
      var u := Uncommented(t);
      KeptText(t, u, Trim(u));
    } else if |t| > 0 {
      assert StartsWith(t, "#");
    } else {
      assert Uncommented(t) == t;
    }
  }

  /** The text kept from a trimmed line that does not start with '#'. */
  lemma KeptText(t: string, u: string, v: string)
    requires |t| > 0 && t[0] > ' ' && t[0] != '#' && u == Uncommented(t) && v == Trim(u)
    ensures |v| > 0 && '#' !in v && v[0] > ' ' && v[|v| - 1] > ' '
  {
    assert u[0] == t[0];
    TrimBounds(u);
  }

  /** The content list for the first lines of the file, in file order. */
  function Content(lines: seq<string>): seq<string>
    decreases |lines|
  {
    if |lines| == 0 then []
    else
      var k := KeptLine(lines[|lines| - 1]);
      Content(lines[..|lines| - 1]) + (if k.Some? then [k.value] else [])
  }

  /** Every content line is a kept line of the file, so none is empty or
      holds a '#'; there are no more than lines. */
  lemma {:induction false} ContentShape(lines: seq<string>)
    ensures |Content(lines)| <= |lines|
    ensures forall i :: 0 <= i < |Content(lines)| ==> |Content(lines)[i]| > 0 && '#' !in Content(lines)[i]
    decreases |lines|
  {
    if |lines| > 0 {
      var c := Content(lines[..|lines| - 1]);
      var k := KeptLine(lines[|lines| - 1]);
      ContentShape(lines[..|lines| - 1]);
      KeptLineShape(lines[|lines| - 1]);
      var t := if k.Some? then [k.value] else [];
      assert Content(lines) == c + t;
      ShapedConcat(c, t);
    }
  }

  lemma ShapedConcat(c: seq<string>, t: seq<string>)
    requires forall i :: 0 <= i < |c| ==> |c[i]| > 0 && '#' !in c[i]
    requires forall i :: 0 <= i < |t| ==> |t[i]| > 0 && '#' !in t[i]
    ensures forall i :: 0 <= i < |c + t| ==> |(c + t)[i]| > 0 && '#' !in (c + t)[i]
  {
    forall i | 0 <= i < |c + t|
      ensures |(c + t)[i]| > 0 && '#' !in (c + t)[i]
    {
      if i < |c| {
        assert (c + t)[i] == c[i];
      } else {
        assert (c + t)[i] == t[i - |c|];
      }
    }
  }

  /** The line loop of read(). */
  method ReadContent(lines: seq<string>) returns (content: seq<string>)
    ensures content == Content(lines)
  {
    content := [];
    var i := 0;
    while i < |lines|
      invariant 0 <= i <= |lines|
      invariant content == Content(lines[..i])
    {
      var k := KeptLine(lines[i]);
      ContentSnoc(lines, i, k);
      if k.Some? {
        content := content + [k.value];
      }
      i := i + 1;
    }
    assert lines[..i] == lines;
  }

  lemma ContentSnoc(lines: seq<string>, i: nat, k: Option<string>)
    requires i < |lines| && k == KeptLine(lines[i])
    ensures Content(lines[..i + 1]) == Content(lines[..i]) + (if k.Some? then [k.value] else [])
  {
    assert lines[..i + 1][..i] == lines[..i];
  }

  // ---------------------------------------------------------------- pairs

  /** Content lines (2i, 2i+1) as the i-th key/value pair; a trailing odd
      line is no pair. */
  function Pairs(c: seq<string>): seq<(string, string)>
    decreases |c|
  {
    if |c| < 2 then [] else Pairs(c[..|c| - 2]) + [(c[|c| - 2], c[|c| - 1])]
  }

  lemma {:induction false} PairsAt(c: seq<string>)
    requires |c| % 2 == 0
    ensures |Pairs(c)| == |c| / 2
    ensures forall i :: 0 <= i < |c| / 2 ==> Pairs(c)[i] == (c[2 * i], c[2 * i + 1])
    decreases |c|
  {
    if |c| >= 2 {
      var init := c[..|c| - 2];
      PairsAt(init);
      forall i | 0 <= i < |c| / 2
        ensures Pairs(c)[i] == (c[2 * i], c[2 * i + 1])
      {
        if i < |init| / 2 {
          assert Pairs(c)[i] == Pairs(init)[i];
          assert init[2 * i] == c[2 * i] && init[2 * i + 1] == c[2 * i + 1];
        } else {
          assert 2 * i == |c| - 2;
        }
      }
    }
  }

  /** Putting the pairs into an empty map in order. */
  function PutAll(ps: seq<(string, string)>): map<string, string>
    decreases |ps|
  {
    if |ps| == 0 then map[] else PutAll(ps[..|ps| - 1])[ps[|ps| - 1].0 := ps[|ps| - 1].1]
  }

  /** A key is in the map exactly when some pair has it, and its value is
      that of the last such pair. */
  lemma {:induction false} PutAllLastWins(ps: seq<(string, string)>, key: string)
    ensures key in PutAll(ps) <==> exists i :: 0 <= i < |ps| && ps[i].0 == key
    ensures forall i :: 0 <= i < |ps| && ps[i].0 == key && (forall j :: i < j < |ps| ==> ps[j].0 != key) ==>
      PutAll(ps)[key] == ps[i].1
    decreases |ps|
  {
    if |ps| > 0 {
      var init := ps[..|ps| - 1];
      PutAllLastWins(init, key);
      assert forall i :: 0 <= i < |init| ==> init[i] == ps[i];
      if ps[|ps| - 1].0 != key {
        forall i | 0 <= i < |ps| && ps[i].0 == key && (forall j :: i < j < |ps| ==> ps[j].0 != key)
          ensures PutAll(ps)[key] == ps[i].1
        {
          assert i < |init|;
          assert forall j :: i < j < |init| ==> init[j].0 != key;
        }
      }
    }
  }

  /** read(path): a failed read leaves the configuration empty; an odd
      number of content lines is an error; otherwise the content pairs fill
      the map in order. */
  function ReadSpec(file: Option<seq<string>>): Result<map<string, string>> {
    match file
    case None => Ok(map[])
    case Some(lines) =>
      var c := Content(lines);
      if |c| % 2 == 1 then Err(ParseError) else Ok(PutAll(Pairs(c)))
  }

  method Read(file: Option<seq<string>>) returns (r: Result<map<string, string>>)
    ensures r == ReadSpec(file)
  {
    if file.None? {
      return Ok(map[]);
    }
    var content := ReadContent(file.value);
    if |content| % 2 == 1 {
      return Err(ParseError);
    }
    var config := PutPairs(content);
    return Ok(config);
  }

  /** The pair loop of read(). */
  method PutPairs(content: seq<string>) returns (config: map<string, string>)
    requires |content| % 2 == 0
    ensures config == PutAll(Pairs(content))
  {
    config := map[];
    ghost var half := |content| / 2;
    assert |content| == 2 * half;
    var i := 0;
    ghost var k := 0;
    while i < |content|
      invariant 0 <= k <= half && i == 2 * k
      invariant config == PutAll(Pairs(content[..i]))
    {
      ghost var next := content[..i + 2];
      assert next[..|next| - 2] == content[..i];
      assert Pairs(next) == Pairs(content[..i]) + [(content[i], content[i + 1])];
      config := config[content[i] := content[i + 1]];
      i, k := i + 2, k + 1;
    }
    assert content[..i] == content;
  }

  /** After a successful read, a key is configured exactly when some
      content pair has it, with the value of the last such pair; an odd
      number of content lines is the only error. */
  lemma ReadLastWins(lines: seq<string>, key: string)
    ensures ReadSpec(Some(lines)).Err? <==> |Content(lines)| % 2 == 1
    ensures ReadSpec(Some(lines)).Ok? ==>
      var c := Content(lines);
      var m := ReadSpec(Some(lines)).value;
      (key in m <==> exists i :: 0 <= i < |c| / 2 && c[2 * i] == key) &&
      forall i :: 0 <= i < |c| / 2 && c[2 * i] == key && (forall j :: i < j < |c| / 2 ==> c[2 * j] != key) ==>
        m[key] == c[2 * i + 1]
  {
    var c := Content(lines);
    if |c| % 2 == 0 {
      assert ReadSpec(Some(lines)) == Ok(PutAll(Pairs(c)));
      PairsKeyIn(c, key);
      forall i | 0 <= i < |c| / 2 && c[2 * i] == key && (forall j :: i < j < |c| / 2 ==> c[2 * j] != key)
        ensures PutAll(Pairs(c))[key] == c[2 * i + 1]
      {
        PairsLastWins(c, key, i);
      }
    }
  }

  lemma PairsKeyIn(c: seq<string>, key: string)
    requires |c| % 2 == 0
    ensures key in PutAll(Pairs(c)) <==> exists i :: 0 <= i < |c| / 2 && c[2 * i] == key
  {
    var ps := Pairs(c);
    PairsAt(c);
    PutAllLastWins(ps, key);
    if key in PutAll(ps) {
      var i :| 0 <= i < |ps| && ps[i].0 == key;
      assert c[2 * i] == key;
    } else {
      forall i | 0 <= i < |c| / 2
        ensures c[2 * i] != key
      {
        assert ps[i].0 == c[2 * i];
      }
    }
  }

  lemma PairsLastWins(c: seq<string>, key: string, i: nat)
    requires |c| % 2 == 0 && i < |c| / 2 && c[2 * i] == key
    requires forall j :: i < j < |c| / 2 ==> c[2 * j] != key
    ensures key in PutAll(Pairs(c)) && PutAll(Pairs(c))[key] == c[2 * i + 1]
  {
    var ps := Pairs(c);
    PairsAt(c);
    PutAllLastWins(ps, key);
    assert ps[i] == (c[2 * i], c[2 * i + 1]);
    forall j | i < j < |ps|
      ensures ps[j].0 != key
    {
      assert ps[j].0 == c[2 * j];
    }
  }

  // ---------------------------------------------------------------- getters

  /** A string setting: the configured value, else the default. */
  function StringParam(config: map<string, string>, key: string, default: string): (r: string)
    ensures key in config ==> r == config[key]
    ensures key !in config ==> r == default
  {
    if key in config then config[key] else default
  }

  /** An integer setting read with Integer.parseInt, whose
      NumberFormatException reaches the caller. */
  function IntParam(config: map<string, string>, key: string, default: int32): (r: Result<int32>)
    ensures r.Err? <==> key in config && ParseInt(config[key]).None?
    ensures r.Ok? ==> r.value == (if key in config then ParseInt(config[key]).value else default)
  {
    if key in config then
      match ParseInt(config[key])
      case Some(v) => Ok(v)
      case None => Err("NumberFormatException")
    else Ok(default)
  }

  /** An integer setting whose NumberFormatException is caught: an
      unparsable value gives the default. */
  function IntParamOr(config: map<string, string>, key: string, default: int32): (r: int32)
    ensures key in config && ParseInt(config[key]).Some? ==> r == ParseInt(config[key]).value
    ensures key !in config || ParseInt(config[key]).None? ==> r == default
  {
    if key in config && ParseInt(config[key]).Some? then ParseInt(config[key]).value else default
  }

  /** A boolean setting read with Boolean.parseBoolean. */
  function BoolParam(config: map<string, string>, key: string, default: bool): (r: bool)
    ensures key in config ==> (r <==> EqualsIgnoreCase(config[key], "true"))
    ensures key !in config ==> r == default
  {
    if key in config then ParseBoolean(config[key]) else default
  }

  /** An AuditoriumParams object: the map read from its file. */
  datatype Params = Params(config: map<string, string>)
  {
    function GetBroadcastAddress(): string { StringParam(config, "BROADCAST_ADDRESS", BroadcastAddress) }
    function GetDiscoverPort(): Result<int32> { IntParam(config, "DISCOVER_PORT", DiscoverPort) }
    function GetDiscoverReplyPort(): Result<int32> { IntParam(config, "DISCOVER_REPLY_PORT", DiscoverReplyPort) }
    function GetDiscoverReplyTimeout(): Result<int32> { IntParam(config, "DISCOVER_REPLY_TIMEOUT", DiscoverReplyTimeout) }
    function GetDiscoverTimeout(): Result<int32> { IntParam(config, "DISCOVER_TIMEOUT", DiscoverTimeout) }
    function GetJoinTimeout(): Result<int32> { IntParam(config, "JOIN_TIMEOUT", JoinTimeout) }
    function GetListenPort(): Result<int32> { IntParam(config, "LISTEN_PORT", ListenPort) }
    function GetCommandsFileFilename(): string {
      StringParam(config, "PRINT_COMMANDS_FILE_FILENAME", PrintCommandsFileFilename)
    }
    function GetCommandsFileParameterSeparator(): string {
      StringParam(config, "PRINT_COMMANDS_FILE_PARAMETER_SEPARATOR", PrintCommandsFileParameterSeparator)
    }
    function GetLogLocation(): string { StringParam(config, "LOG_LOCATION", LogLocation) }
    function GetViewImplementation(): string { StringParam(config, "VIEW_IMPLEMENTATION", ViewImplementation) }
    /** getKeyStore(): the directory the key store is opened on. */
    function GetKeysDirectory(): string { StringParam(config, "KEYS_DIRECTORY", KeysDirectory) }
    function GetRuleFile(): string { StringParam(config, "RULE_FILE", RuleFile) }
    function GetCastBallotEncryptionEnabled(): bool {
      BoolParam(config, "CAST_BALLOT_ENCRYPTION_ENABLED", CastBallotEncryptionEnabled)
    }
    function GetUseEloTouchScreen(): bool { BoolParam(config, "USE_ELO_TOUCH_SCREEN", UseEloTouchScreen) }
    /** The default device is null. */
    function GetEloTouchScreenDevice(): Option<string> {
      if "ELO_TOUCH_SCREEN_DEVICE" in config then Some(config["ELO_TOUCH_SCREEN_DEVICE"]) else None
    }
    function GetViewRestartTimeout(): Result<int32> { IntParam(config, "VIEW_RESTART_TIMEOUT", ViewRestartTimeout) }
    function GetDefaultSerialNumber(): Result<int32> { IntParam(config, "DEFAULT_SERIAL_NUMBER", DefaultSerialNumber) }
    function GetReportAddress(): string { StringParam(config, "DEFAULT_REPORT_ADDRESS", DefaultReportAddress) }
    function GetPrinterForVVPAT(): string { StringParam(config, "PRINTER_FOR_VVPAT", PrinterForVVPAT) }
    function GetPaperHeightForVVPAT(): int32 { IntParamOr(config, "PAPER_HEIGHT_FOR_VVPAT", PaperHeightForVVPAT) }
    function GetPaperWidthForVVPAT(): int32 { IntParamOr(config, "PAPER_WIDTH_FOR_VVPAT", PaperWidthForVVPAT) }
    function GetPrintableHeightForVVPAT(): int32 {
      IntParamOr(config, "PRINTABLE_HEIGHT_FOR_VVPAT", PrintableHeightForVVPAT)
    }
    function GetPrintableWidthForVVPAT(): int32 {
      IntParamOr(config, "PRINTABLE_WIDTH_FOR_VVPAT", PrintableWidthForVVPAT)
    }
    function GetPrintableVerticalMargin(): int32 {
      IntParamOr(config, "PRINTABLE_VERTICAL_MARGIN", PrintableVerticalMargin)
    }
    function GetPrintableHorizontalMargin(): int32 {
      IntParamOr(config, "PRINTABLE_HORIZONTAL_MARGIN", PrintableHorizontalMargin)
    }
    function GetPrinterDefaultDpi(): int32 { IntParamOr(config, "PRINTER_DEFAULT_DPI", PrinterDefaultDpi) }
    function GetJavaDefaultDpi(): int32 { IntParamOr(config, "JAVA_DEFAULT_DPI", JavaDefaultDpi) }
    function GetEnableNIZKs(): bool { BoolParam(config, "ENABLE_NIZKS", EnableNIZKs) }
    function GetUsePiecemealEncryption(): bool { BoolParam(config, "USE_PIECEMEAL_ENCRYPTION", UsePiecemealEncryption) }
    function GetUseSimpleTallyView(): bool { BoolParam(config, "USE_SIMPLE_TALLY_VIEW", UseSimpleTallyView) }
    function GetUseTableTallyView(): bool { BoolParam(config, "USE_TABLE_TALLY_VIEW", UseTableTallyView) }
    function GetUseWindowedView(): bool { BoolParam(config, "USE_WINDOWED_VIEW", DefaultUseWindowedView) }
    function GetAllowUIScaling(): bool { BoolParam(config, "ALLOW_UI_SCALING", DefaultAllowUIScaling) }
    function GetElectionName(): string { StringParam(config, "ELECTION_NAME", ElectionName) }
    function GetPort(): Result<int32> { IntParam(config, "SERVER_PORT", DefaultPort) }
    function ShuffleCandidates(): bool { BoolParam(config, "SHUFFLE_CANDIDATE_ORDER", DefaultShuffleCandidateOrder) }
    function GetUseTwoColumns(): bool { BoolParam(config, "PRINT_USE_TWO_COLUMNS", PrintUseTwoColumns) }
    function UseScanConfirmation(): bool { BoolParam(config, "USE_SCAN_CONFIRMATION_SOUND", UseScanConfirmationSound) }
    function GetConfirmationSoundPath(): string {
      StringParam(config, "SCAN_CONFIRMATION_SOUND_PATH", ScanConfirmationSoundPath)
    }
    function GetOS(): string { StringParam(config, "OPERATING_SYSTEM", DefaultOperatingSystem) }
  }

  /** The Singleton (private constructor): nothing configured. */
  const Singleton: Params := Params(map[])

  /** new AuditoriumParams(path): the constructor throws when read() does. */
  function Load(file: Option<seq<string>>): (r: Result<Params>)
    ensures r.Ok? <==> ReadSpec(file).Ok?
    ensures r.Ok? ==> r.value.config == ReadSpec(file).value
    ensures file.None? ==> r == Ok(Singleton)
  {
    match ReadSpec(file)
    case Ok(m) => Ok(Params(m))
    case Err(e) => Err(e)
  }

  /** With nothing configured (the Singleton, or a file that cannot be
      read), every string getter returns its compiled-in default and the
      touch-screen device is null. */
  lemma EmptyGivesStringDefaults(p: Params)
    requires p.config == map[]
    ensures p.GetBroadcastAddress() == "255.255.255.255" && p.GetLogLocation() == "log.out"
    ensures p.GetCommandsFileFilename() == "CommandsFile.txt"
    ensures p.GetCommandsFileParameterSeparator() == "!!!"
    ensures p.GetViewImplementation() == "AWT" && p.GetKeysDirectory() == "keys/"
    ensures p.GetRuleFile() == "rules" && p.GetReportAddress() == ""
    ensures p.GetPrinterForVVPAT() == "" && p.GetEloTouchScreenDevice().None?
    ensures p.GetElectionName() == ElectionName && p.GetConfirmationSoundPath() == "sound/test.mp3"
    ensures p.GetOS() == "Windows"
  {
  }

  /** With nothing configured every integer getter returns its default. */
  lemma EmptyGivesIntDefaults(p: Params)
    requires p.config == map[]
    ensures p.GetDiscoverPort() == Ok(9782) && p.GetDiscoverReplyPort() == Ok(9783)
    ensures p.GetDiscoverReplyTimeout() == Ok(1000) && p.GetDiscoverTimeout() == Ok(4000)
    ensures p.GetJoinTimeout() == Ok(1000) && p.GetListenPort() == Ok(9700)
    ensures p.GetViewRestartTimeout() == Ok(5000) && p.GetDefaultSerialNumber() == Ok(-1)
    ensures p.GetPort() == Ok(9700)
    ensures p.GetPaperHeightForVVPAT() == 322 && p.GetPaperWidthForVVPAT() == 249
    ensures p.GetPrintableHeightForVVPAT() == 311 && p.GetPrintableWidthForVVPAT() == 239
    ensures p.GetPrintableVerticalMargin() == 25 && p.GetPrintableHorizontalMargin() == 25
    ensures p.GetPrinterDefaultDpi() == 300 && p.GetJavaDefaultDpi() == 72
  {
  }

  /** With nothing configured every boolean getter returns its default. */
  lemma EmptyGivesBoolDefaults(p: Params)
    requires p.config == map[]
    ensures p.GetCastBallotEncryptionEnabled() && !p.GetUseEloTouchScreen() && p.GetEnableNIZKs()
    ensures !p.GetUsePiecemealEncryption() && !p.GetUseSimpleTallyView() && !p.GetUseTableTallyView()
    ensures !p.GetUseWindowedView() && p.GetAllowUIScaling() && !p.ShuffleCandidates()
    ensures p.GetUseTwoColumns() && !p.UseScanConfirmation()
  {
  }

  /** An unparsable number: the VVPAT paper, printable-area, margin and DPI
      getters fall back to their defaults, while the port and timeout
      getters fail with NumberFormatException. */
  lemma UnparsableNumbers(p: Params, v: string)
    requires ParseInt(v).None?
    ensures Params(p.config["PAPER_HEIGHT_FOR_VVPAT" := v]).GetPaperHeightForVVPAT() == PaperHeightForVVPAT
    ensures Params(p.config["PRINTER_DEFAULT_DPI" := v]).GetPrinterDefaultDpi() == PrinterDefaultDpi
    ensures Params(p.config["DISCOVER_PORT" := v]).GetDiscoverPort().Err?
    ensures Params(p.config["SERVER_PORT" := v]).GetPort().Err?
  {
  }

  /** getPort() on a file read without error: the value of the last
      SERVER_PORT pair when it parses, an error when it does not, and 9700
      when no content pair has that key. */
  lemma ReadPort(lines: seq<string>)
    requires ReadSpec(Some(lines)).Ok?
    ensures
      var c := Content(lines);
      var port := Load(Some(lines)).value.GetPort();
      ((forall i :: 0 <= i < |c| / 2 ==> c[2 * i] != "SERVER_PORT") ==> port == Ok(9700)) &&
      forall i :: 0 <= i < |c| / 2 && c[2 * i] == "SERVER_PORT" && (forall j :: i < j < |c| / 2 ==> c[2 * j] != "SERVER_PORT") ==>
        (port.Ok? <==> ParseInt(c[2 * i + 1]).Some?) && (port.Ok? ==> port.value == ParseInt(c[2 * i + 1]).value)
  {
    ReadLastWins(lines, "SERVER_PORT");
  }
}
