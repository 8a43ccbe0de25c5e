/** Concrete command lines run through the model: the parser of the
    `time`-like sample (`-f`/`--format` with a required string parameter,
    `-p`/`--portable` without one), and parsers with plain arguments only. */
module Scenarios {
  import opened Wrappers
  import opened Conversion
  import opened Descriptors
  import opened Errors
  import opened ParserFacade
  import opened Text
  import Registry
  import Scanner

  const Format := OptionDescriptor(false, ['f'], ["format"], Parametrized(true, StringParameter))
  const Portable := OptionDescriptor(false, ['p'], ["portable"], NoParameter)

  const SampleRegistry := Registry.OptionSet([Format, Portable], map['f' := 0, 'p' := 1], map["format" := 0, "portable" := 1], [])

  lemma SampleShortsExact()
    ensures Registry.IndexExact(SampleRegistry.byShort, Registry.ShortNames(SampleRegistry.options))
  {
    assert Registry.ShortNames(SampleRegistry.options) == [['f'], ['p']];
  }

  lemma SampleLongsExact()
    ensures Registry.IndexExact(SampleRegistry.byLong, Registry.LongNames(SampleRegistry.options))
  {
    assert Registry.LongNames(SampleRegistry.options) == [["format"], ["portable"]];
  }

  lemma SampleOptionsValid()
    ensures Registry.Valid(SampleRegistry)
  {
    SampleShortsExact();
    SampleLongsExact();
  }

  /** `-f`/`--format` under handle 0 and `-p`/`--portable` under handle 1. */
  function SampleOptions(): (r: Registry.OptionSet)
    ensures Registry.Valid(r) && r == SampleRegistry
  {
    SampleOptionsValid();
    SampleRegistry
  }

  /** The sample parser: both options registered, nothing stored yet. */
  function Sample(): (p: Parser)
    ensures Valid(p) && p.options == SampleOptions() && p.plainArguments == []
    ensures p.optionSlots == [Empty, Empty] && p.plainSlots == []
  {
    SampleOptionsValid();
    Parser(SampleOptions(), [], [Empty, Empty], [], None, None)
  }

  const SampleCfg := Scanner.Config(SampleOptions(), [])

  lemma SampleValid()
    ensures Valid(Sample())
  {
    SampleOptionsValid();
  }

  /** The scanner's starting state for the sample parser. */
  function Start(): (p: Scanner.Processor)
    ensures Scanner.Inv(SampleCfg, p) && p == Scanner.Start([Empty, Empty], [])
  {
    SampleOptionsValid();
    Scanner.StartInv(SampleCfg, [Empty, Empty], []);
    Scanner.Start([Empty, Empty], [])
  }

  lemma StartInv()
    ensures Scanner.Inv(SampleCfg, Start())
  {
  }

  /** One scanner step inside a run. */
  lemma RunStep(cfg: Scanner.Config, p: Scanner.Processor, arguments: seq<string>, q: Scanner.Processor)
    requires Scanner.Inv(cfg, p) && |arguments| > 0
    requires Scanner.ProcessArgument(cfg, p, arguments[0]) == Ok(q)
    ensures Scanner.ProcessAll(cfg, p, arguments) == Scanner.ProcessAll(cfg, q, arguments[1..])
  {
  }

  /** A rejected token ends the run with its error. */
  lemma RunStop(cfg: Scanner.Config, p: Scanner.Processor, arguments: seq<string>, e: ParserError)
    requires Scanner.Inv(cfg, p) && |arguments| > 0
    requires Scanner.ProcessArgument(cfg, p, arguments[0]) == Err(e)
    ensures Scanner.ProcessAll(cfg, p, arguments) == Err(e)
  {
  }

  /** The sample parser's parse is the scan of the sample configuration. */
  lemma SampleParse(arguments: seq<string>)
    ensures Valid(Sample())
    ensures ScanPrefix(Sample(), arguments) == Scanner.ProcessAll(SampleCfg, Start(), arguments)
    ensures Scan(Sample(), arguments) ==
              match Scanner.ProcessAll(SampleCfg, Start(), arguments)
              case Err(e) => Err(e)
              case Ok(q) => Scanner.FinalizeProcessing(SampleCfg, q)
  {
    SampleOptionsValid();
  }

  const AfterPortable := Start().(optionsToTakeAction := {1})

  lemma StepPortable()
    ensures Scanner.Inv(SampleCfg, Start())
    ensures Scanner.ProcessArgument(SampleCfg, Start(), "-p") == Ok(AfterPortable)
  {
    assert Registry.FindShort(SampleCfg.options, 'p') == Some(1);
    Scanner.ShortOptionStep(SampleCfg, Start(), 'p', 1);
    assert "-p" == ['-', 'p'];
    assert Start().optionsToTakeAction + {1} == {1};
  }

  const AwaitingFormat := AfterPortable.(optionAwaitingParameter := Some(0))

  lemma StepFormat()
    ensures Scanner.Inv(SampleCfg, AfterPortable)
    ensures Scanner.ProcessArgument(SampleCfg, AfterPortable, "-f") == Ok(AwaitingFormat)
  {
    StepPortable();
    assert Registry.FindShort(SampleCfg.options, 'f') == Some(0);
    Scanner.ShortOptionStep(SampleCfg, AfterPortable, 'f', 0);
    assert "-f" == ['-', 'f'];
  }

  /** A token the scanner reads as a value rather than as an identifier. */
  predicate ValueToken(v: string)
  {
    |v| < 2 || v[0] != '-'
  }

  function ValueSlot(v: string): Slot
  {
    Stored(Single(StrVal(v)))
  }

  /** `-p` ready and `-f` ready holding `v`. */
  function AfterValue(v: string): Scanner.Processor
  {
    AfterPortable.(optionsToTakeAction := {0, 1}, optionSlots := [ValueSlot(v), Empty])
  }

  lemma StepValue(v: string)
    requires ValueToken(v)
    ensures Scanner.Inv(SampleCfg, AwaitingFormat)
    ensures Scanner.ProcessArgument(SampleCfg, AwaitingFormat, v) == Ok(AfterValue(v))
  {
    StepFormat();
    assert Scanner.DetermineArgumentType(v) == Scanner.ArgumentType.Other;
    StringParameterStoresVerbatim(Empty, v);
    Scanner.ParameterArrives(SampleCfg, AwaitingFormat, v);
    assert AwaitingFormat.optionSlots[0 := ValueSlot(v)] == [ValueSlot(v), Empty];
    assert AwaitingFormat.optionsToTakeAction + {0} == {0, 1};
  }

  function ValueResult(v: string): Scanner.ArgumentProcessingResult
  {
    Scanner.ArgumentProcessingResult({0, 1}, {}, [], [ValueSlot(v), Empty], [])
  }

  lemma RunValue(v: string)
    requires ValueToken(v)
    ensures Valid(Sample())
    ensures Scan(Sample(), ["-p", "-f", v]) == Ok(ValueResult(v))
  {
    var args := ["-p", "-f", v];
    StepPortable();
    StepFormat();
    StepValue(v);
    RunStep(SampleCfg, Start(), args, AfterPortable);
    RunStep(SampleCfg, AfterPortable, args[1..], AwaitingFormat);
    RunStep(SampleCfg, AwaitingFormat, args[2..], AfterValue(v));
    assert args[2..][1..] == [];
    SampleParse(args);
    FinalizeValue(v);
  }

  lemma FinalizeValue(v: string)
    requires ValueToken(v)
    ensures Scanner.Inv(SampleCfg, AfterValue(v))
    ensures Scanner.FinalizeProcessing(SampleCfg, AfterValue(v)) == Ok(ValueResult(v))
  {
    StepValue(v);
    assert Scanner.MandatoryPlainArguments([]) == [];
  }

  /** `-p -f format`, and likewise any other value token after `-f`: both
      options fire, `-f` with that token, and nothing is left over. */
  lemma ShortOptionWithParameter(v: string)
    requires ValueToken(v)
    ensures var r := ParseCommandLine(Sample(), ["-p", "-f", v]);
            && r.ok && r.plainFirings == [] && r.parser.remainingPlainArguments.None?
            && Firing(0, Some(Single(StrVal(v)))) in r.optionFirings && Firing(1, None) in r.optionFirings
  {
    RunValue(v);
    assert ParseCommandLine(Sample(), ["-p", "-f", v]) == Commit(Sample(), ValueResult(v));
    ReadyOptionFires(Sample(), ValueResult(v), 0);
    ReadyOptionFires(Sample(), ValueResult(v), 1);
  }

  /** The test's own command line, `-p -f format`. */
  lemma TwoOptions()
    ensures var r := ParseCommandLine(Sample(), ["-p", "-f", "format"]);
            r.ok && Firing(0, Some(Single(StrVal("format")))) in r.optionFirings && Firing(1, None) in r.optionFirings
  {
    ShortOptionWithParameter("format");
  }

  /** A ready option fires with the value it stored, or none if it takes no parameter. */
  lemma ReadyOptionFires(p: Parser, res: Scanner.ArgumentProcessingResult, h: nat)
    requires Valid(p) && Fits(p, res) && h in res.optionsToTakeAction
    ensures h < |p.options.options|
    ensures Firing(h, if p.options.options[h].IsParametrized() then SlotValue(res.optionSlots[h]) else None)
              in Commit(p, res).optionFirings
  {
    var fs := Commit(p, res).optionFirings;
    assert FiresAt(fs, h);
    var k :| 0 <= k < |fs| && fs[k].index == h;
  }

  /** The sample parser rejects `arguments` with `e`, firing nothing. */
  predicate SampleRejects(arguments: seq<string>, e: ParserError)
  {
    SampleOptionsValid();
    var r := ParseCommandLine(Sample(), arguments);
    !r.ok && r.parser.error == Some(e) && r.optionFirings == [] && r.plainFirings == []
  }

  /** A scan that stops with `e` is a rejected parse. */
  lemma ScanRejects(arguments: seq<string>, e: ParserError)
    requires Scanner.ProcessAll(SampleCfg, Start(), arguments) == Err(e)
    ensures SampleRejects(arguments, e)
  {
    SampleParse(arguments);
    assert Scan(Sample(), arguments) == Err(e);
    var r := ParseCommandLine(Sample(), arguments);
    assert r == Outcome(false, Sample().(remainingPlainArguments := None, error := Some(e)), [], []);
  }

  /** A long-option token read back into its identifier and inline value. */
  lemma LongToken(token: string, identifier: string, inline: Option<string>)
    requires '=' !in identifier && |identifier| > 0
    requires token == if inline.Some? then "--" + identifier + "=" + inline.value else "--" + identifier
    ensures |token| > 2 && token[..2] == "--"
    ensures Scanner.DetermineArgumentType(token) == Scanner.LongOptionIdentifier
    ensures Scanner.LongIdentifier(token) == (identifier, inline)
  {
    Scanner.LongIdentifierRoundTrip(identifier, inline);
  }

  /** `-p -x`: an unknown letter after a valid option still fails the whole parse. */
  lemma UnknownAfterValid()
    ensures SampleRejects(["-p", "-x"], ParserError(InvalidOptionIdentifier, NoSubject))
  {
    var args := ["-p", "-x"];
    StepPortable();
    assert Scanner.DetermineArgumentType("-x") == Scanner.ShortOptionIdentifier;
    assert "-x"[1] == 'x' && |"-x"| == 2;
    assert Registry.FindShort(SampleCfg.options, "-x"[1]).None?;
    RunStep(SampleCfg, Start(), args, AfterPortable);
    RunStop(SampleCfg, AfterPortable, args[1..], ParserError(InvalidOptionIdentifier, NoSubject));
    SampleParse(args);
  }

  /** `-pf=format`: short options cannot be grouped or given an inline value. */
  lemma GroupedShortRejected()
    ensures SampleRejects(["-pf=format"], ParserError(InvalidOptionIdentifier, NoSubject))
  {
    var args := ["-pf=format"];
    StartInv();
    assert args[0][..1] == "-" && args[0][1] == 'p';
    assert Scanner.DetermineArgumentType(args[0]) == Scanner.ShortOptionIdentifier;
    RunStop(SampleCfg, Start(), args, ParserError(InvalidOptionIdentifier, NoSubject));
    SampleParse(args);
  }

  /** `-p -f json -p`: the second `-p` is a repeated occurrence. */
  lemma RepeatedAfterParameter()
    ensures SampleRejects(["-p", "-f", "json", "-p"], ParserError(RepeatedOccurenceOfOption, OptionSubject(1)))
  {
    var args := ["-p", "-f", "json", "-p"];
    var e := ParserError(RepeatedOccurenceOfOption, OptionSubject(1));
    StepPortable();
    StepFormat();
    StepValue("json");
    StepRepeated("json");
    RunStep(SampleCfg, Start(), args, AfterPortable);
    RunStep(SampleCfg, AfterPortable, args[1..], AwaitingFormat);
    RunStep(SampleCfg, AwaitingFormat, args[2..], AfterValue("json"));
    RunStop(SampleCfg, AfterValue("json"), args[3..], e);
    ScanRejects(args, e);
  }

  lemma StepRepeated(v: string)
    requires ValueToken(v)
    ensures Scanner.Inv(SampleCfg, AfterValue(v))
    ensures Scanner.ProcessArgument(SampleCfg, AfterValue(v), "-p") == Err(ParserError(RepeatedOccurenceOfOption, OptionSubject(1)))
  {
    FinalizeValue(v);
    assert Scanner.DetermineArgumentType("-p") == Scanner.ShortOptionIdentifier;
    assert "-p"[1] == 'p' && |"-p"| == 2;
    assert Registry.FindShort(SampleCfg.options, "-p"[1]) == Some(1);
  }

  /** `-f` at the end: the required parameter never came. */
  lemma MissingShortParameter()
    ensures SampleRejects(["-f"], ParserError(MissingOptionParameter, OptionSubject(0)))
  {
    var args := ["-f"];
    StartInv();
    var awaiting := Start().(optionAwaitingParameter := Some(0));
    assert Scanner.DetermineArgumentType("-f") == Scanner.ShortOptionIdentifier;
    assert "-f"[1] == 'f' && |"-f"| == 2;
    assert Registry.FindShort(SampleCfg.options, "-f"[1]) == Some(0);
    var r := Scanner.HandleShortOptionIdentifier(SampleCfg, Start(), "-f");
    assert r.Ok? && r.value == awaiting;
    RunStep(SampleCfg, Start(), args, awaiting);
    assert args[1..] == [];
    SampleParse(args);
  }

  /** `--format json`: a required long parameter must be given with `=`. */
  lemma LongRequiresEquals()
    ensures SampleRejects(["--format", "json"], ParserError(MissingOptionParameter, OptionSubject(0)))
  {
    var args := ["--format", "json"];
    var e := ParserError(MissingOptionParameter, OptionSubject(0));
    StepBareFormat("--format");
    RunStop(SampleCfg, Start(), args, e);
    ScanRejects(args, e);
  }

  lemma StepBareFormat(token: string)
    requires token == "--" + "format"
    ensures Scanner.Inv(SampleCfg, Start())
    ensures Scanner.ProcessArgument(SampleCfg, Start(), token) == Err(ParserError(MissingOptionParameter, OptionSubject(0)))
  {
    StartInv();
    LongToken(token, "format", None);
    assert Registry.FindLong(SampleCfg.options, "format") == Some(0);
  }

  /** The scan of the single long token `--format=<value>`. */
  lemma RunInlineFormat(token: string, value: string)
    requires token == "--format=" + value
    ensures Valid(Sample())
    ensures Scan(Sample(), [token]) ==
              Ok(Scanner.ArgumentProcessingResult({0}, {}, [], [Stored(Single(StrVal(value))), Empty], []))
  {
    var args := [token];
    assert token == "--" + "format" + "=" + value;
    StepInlineFormat(value);
    RunStep(SampleCfg, Start(), args, InlineFormat(value));
    assert args[1..] == [];
    FinalizeInlineFormat(value);
    SampleParse(args);
  }

  /** The processor once `--format=<value>` has been read. */
  function InlineFormat(value: string): Scanner.Processor
  {
    Start().(optionsToTakeAction := {0}, optionSlots := [Stored(Single(StrVal(value))), Empty])
  }

  lemma StepInlineFormat(value: string)
    ensures Scanner.Inv(SampleCfg, Start())
    ensures Scanner.ProcessArgument(SampleCfg, Start(), "--" + "format" + "=" + value) == Ok(InlineFormat(value))
  {
    assert Registry.FindLong(SampleCfg.options, "format") == Some(0);
    StringParameterStoresVerbatim(Empty, value);
    Scanner.InlineValueStored(SampleCfg, Start(), "format", value, 0);
    assert Start().optionSlots[0 := Stored(Single(StrVal(value)))] == [Stored(Single(StrVal(value))), Empty];
    assert Start().optionsToTakeAction + {0} == {0};
  }

  lemma FinalizeInlineFormat(value: string)
    ensures Scanner.Inv(SampleCfg, InlineFormat(value))
    ensures Scanner.FinalizeProcessing(SampleCfg, InlineFormat(value)) ==
              Ok(Scanner.ArgumentProcessingResult({0}, {}, [], [Stored(Single(StrVal(value))), Empty], []))
  {
    StepInlineFormat(value);
    assert Scanner.MandatoryPlainArguments([]) == [];
  }

  /** `--format=equals=notation`: the value is everything after the first `=`. */
  lemma InlineValueAfterFirstEquals()
    ensures var r := ParseCommandLine(Sample(), ["--format=equals=notation"]);
            r.ok && r.optionFirings == [Firing(0, Some(Single(StrVal("equals=notation"))))]
  {
    var token := "--format=equals=notation";
    assert token == "--format=" + "equals=notation";
    InlineFires(token, "equals=notation");
  }

  /** `--format=`: the value is the empty string. */
  lemma InlineValueEmpty()
    ensures var r := ParseCommandLine(Sample(), ["--format="]);
            r.ok && r.optionFirings == [Firing(0, Some(Single(StrVal(""))))]
  {
    var token := "--format=";
    assert token == "--format=" + "";
    InlineFires(token, "");
  }

  lemma InlineFires(token: string, value: string)
    requires token == "--format=" + value
    ensures var r := ParseCommandLine(Sample(), [token]);
            r.ok && r.optionFirings == [Firing(0, Some(Single(StrVal(value))))]
  {
    RunInlineFormat(token, value);
    var res := Scanner.ArgumentProcessingResult({0}, {}, [], [Stored(Single(StrVal(value))), Empty], []);
    assert ParseCommandLine(Sample(), [token]) == Commit(Sample(), res);
    SingleReadyOptionFires(Sample(), res, 0);
  }

  lemma StepPortableInline(token: string, value: string)
    requires token == "--portable=" + value
    ensures Scanner.Inv(SampleCfg, Start())
    ensures Scanner.ProcessArgument(SampleCfg, Start(), token) == Ok(AfterPortable)
  {
    assert token == "--" + "portable" + "=" + value;
    assert Registry.FindLong(SampleCfg.options, "portable") == Some(1);
    Scanner.ParameterlessLongReady(SampleCfg, Start(), "portable", Some(value), 1);
    assert {} + {1} == {1};
  }

  const PortableResult := Scanner.ArgumentProcessingResult({1}, {}, [], [Empty, Empty], [])

  lemma RunPortableInline()
    ensures Valid(Sample())
    ensures Scan(Sample(), ["--portable=yes"]) == Ok(PortableResult)
  {
    var args := ["--portable=yes"];
    StepPortableInline(args[0], "yes");
    RunStep(SampleCfg, Start(), args, AfterPortable);
    assert args[1..] == [];
    assert Scanner.MandatoryPlainArguments([]) == [];
    SampleParse(args);
  }

  /** `--portable=yes`: a parameterless long option ignores its inline value. */
  lemma ParameterlessIgnoresInline()
    ensures var r := ParseCommandLine(Sample(), ["--portable=yes"]);
            r.ok && r.optionFirings == [Firing(1, None)]
  {
    RunPortableInline();
    assert ParseCommandLine(Sample(), ["--portable=yes"]) == Commit(Sample(), PortableResult);
    SingleReadyOptionFires(Sample(), PortableResult, 1);
  }

  lemma EmptySetValid()
    ensures Registry.Valid(Registry.EmptySet)
  {
    assert Registry.ShortNames([]) == [] && Registry.LongNames([]) == [];
  }

  /** With no options, no plain arguments and no tokens, parsing succeeds. */
  lemma EmptyCommandLine()
    ensures var r := ParseCommandLine(NewEmptyParser(), []);
            r.ok && r.optionFirings == [] && r.plainFirings == [] && r.parser.remainingPlainArguments.None?
  {
    var p := NewEmptyParser();
    var cfg := ConfigOf(p);
    EmptySetValid();
    Scanner.StartInv(cfg, [], []);
    assert Scanner.MandatoryPlainArguments([]) == [];
    var res := Scanner.ArgumentProcessingResult({}, {}, [], [], []);
    assert Scan(p, []) == Ok(res);
  }

  const Surprise: seq<string> := ["--", "--", "--", "surprise"]

  lemma RunSurprise()
    ensures Valid(NewEmptyParser())
    ensures Scan(NewEmptyParser(), Surprise) == Ok(Scanner.ArgumentProcessingResult({}, {}, Surprise[1..], [], []))
  {
    var p := NewEmptyParser();
    var cfg := ConfigOf(p);
    EmptySetValid();
    Scanner.StartInv(cfg, [], []);
    var start := Scanner.Start([], []);
    var delimited := start.(state := Scanner.PlainArguments);
    Scanner.DelimiterSwitchesMode(cfg, start);
    RunStep(cfg, start, Surprise, delimited);
    Scanner.AfterDelimiterAllExcess(cfg, delimited, Surprise[1..]);
    var done := delimited.(excessivePlainArgumentsEntries := Surprise[1..]);
    assert [] + Surprise[1..] == Surprise[1..];
    assert Scanner.ProcessAll(cfg, start, Surprise) == Ok(done);
    assert Scanner.MandatoryPlainArguments([]) == [];
  }

  /** `-- -- -- surprise` with no plain arguments declared: the first `--`
      is the delimiter and every later token, `--` included, is left over. */
  lemma DelimitersAfterDelimiter()
    ensures var r := ParseCommandLine(NewEmptyParser(), Surprise);
            r.ok && r.parser.remainingPlainArguments == Some(["--", "--", "surprise"])
  {
    RunSurprise();
  }

  const MandatoryString := CreatePlainArgument(StringKind, true)
  const DashSlot := Stored(Single(StrVal("--")))
  const WordArgs: seq<string> := ["--", "--", "Kraftfahrzeug-Haftpflichtversicherung"]

  const WordCfg := Scanner.Config(Registry.EmptySet, [MandatoryString])
  const WordStart := Scanner.Start([], [Empty])
  const WordDelimited := WordStart.(state := Scanner.PlainArguments)
  const WordFilled := WordDelimited.(nextPlainArgumentPosition := 1, plainSlots := [DashSlot], plainArgumentsToTakeAction := {0})

  lemma StepWordDelimiter()
    ensures Scanner.Inv(WordCfg, WordStart)
    ensures Scanner.ProcessArgument(WordCfg, WordStart, "--") == Ok(WordDelimited)
  {
    EmptySetValid();
    Scanner.StartInv(WordCfg, [], [Empty]);
    Scanner.DelimiterSwitchesMode(WordCfg, WordStart);
  }

  lemma StepWordValue()
    ensures Scanner.Inv(WordCfg, WordDelimited)
    ensures Scanner.ProcessArgument(WordCfg, WordDelimited, "--") == Ok(WordFilled)
  {
    StepWordDelimiter();
    assert WordCfg.plainArguments[0] == MandatoryString;
    assert Parse(MandatoryString.paramClass, "--") == Some(Single(StrVal("--")));
    Scanner.PlainTokenFillsNextSlot(WordCfg, WordDelimited, "--");
    assert WordDelimited.plainSlots[0 := DashSlot] == [DashSlot];
    assert WordDelimited.plainArgumentsToTakeAction + {0} == {0};
  }

  const WordDone := WordFilled.(excessivePlainArgumentsEntries := ["Kraftfahrzeug-Haftpflichtversicherung"])

  lemma ScanWord()
    ensures Scanner.Inv(WordCfg, WordStart)
    ensures Scanner.ProcessAll(WordCfg, WordStart, WordArgs) == Ok(WordDone)
  {
    StepWordDelimiter();
    StepWordValue();
    RunStep(WordCfg, WordStart, WordArgs, WordDelimited);
    RunStep(WordCfg, WordDelimited, WordArgs[1..], WordFilled);
    Scanner.AfterDelimiterAllExcess(WordCfg, WordFilled, WordArgs[2..]);
    assert [] + WordArgs[2..] == ["Kraftfahrzeug-Haftpflichtversicherung"];
  }

  const WordResult := Scanner.ArgumentProcessingResult({}, {0}, ["Kraftfahrzeug-Haftpflichtversicherung"], [], [DashSlot])

  lemma FinalizeWord()
    ensures Scanner.Inv(WordCfg, WordDone)
    ensures Scanner.FinalizeProcessing(WordCfg, WordDone) == Ok(WordResult)
  {
    ScanWord();
    assert Scanner.MandatoryPlainArguments([MandatoryString]) == [0];
  }

  /** The parser of one mandatory string plain argument, as the corrected
      constructor builds it. */
  function WordParser(): (p: Parser)
    ensures Valid(p) && ConfigOf(p) == WordCfg
    ensures p.plainSlots == [Empty] && p.optionSlots == [] && p.plainArguments == [MandatoryString]
    ensures p.remainingPlainArguments.None? && p.error.None?
    ensures NewParser([MandatoryString]) == Some(p)
  {
    EmptySetValid();
    assert Scanner.MandatoryFirst([MandatoryString]);
    assert EmptySlots(1) == [Empty];
    Parser(Registry.EmptySet, [MandatoryString], [], [Empty], None, None)
  }

  lemma RunWord()
    ensures Valid(WordParser())
    ensures Scan(WordParser(), WordArgs) == Ok(WordResult)
  {
    ScanWord();
    FinalizeWord();
  }

  /** `-- -- Kraftfahrzeug-Haftpflichtversicherung` with one mandatory string plain argument: the second `--`
      is that argument's value and the last token is left over. */
  lemma DelimiterAsPlainValue()
    ensures var r := ParseCommandLine(WordParser(), WordArgs);
            && r.ok && r.plainFirings == [Firing(0, Some(Single(StrVal("--"))))]
            && r.parser.remainingPlainArguments == Some(["Kraftfahrzeug-Haftpflichtversicherung"])
  {
    RunWord();
    assert ParseCommandLine(WordParser(), WordArgs) == Commit(WordParser(), WordResult);
    CommitWord();
  }

  lemma CommitWord()
    ensures Valid(WordParser()) && Fits(WordParser(), WordResult)
    ensures var r := Commit(WordParser(), WordResult);
            && r.ok && r.plainFirings == [Firing(0, Some(Single(StrVal("--"))))]
            && r.parser.remainingPlainArguments == Some(["Kraftfahrzeug-Haftpflichtversicherung"])
  {
    RunWord();
    OnePlainCommitted(WordParser(), WordResult, 0);
    assert SlotValue(WordResult.plainSlots[0]) == Some(Single(StrVal("--")));
  }

  /** A successful scan that readied one plain argument and left some
      entries over: that argument alone fires, and the entries remain. */
  lemma OnePlainCommitted(p: Parser, res: Scanner.ArgumentProcessingResult, i: nat)
    requires Valid(p) && Fits(p, res) && res.plainArgumentsToTakeAction == {i}
    requires |res.excessivePlainArgumentsEntries| > 0
    ensures i < |res.plainSlots|
    ensures var r := Commit(p, res);
            && r.ok && r.plainFirings == [Firing(i, SlotValue(res.plainSlots[i]))]
            && r.parser.remainingPlainArguments == Some(res.excessivePlainArgumentsEntries)
  {
    SingleReadyPlainFires(p, res, i);
  }

  const OptionalString := CreatePlainArgument(StringKind, false)
  const Misordered: seq<PlainArgument> := [OptionalString, MandatoryString]
  const MisCfg := Scanner.Config(Registry.EmptySet, Misordered)
  const MisStart := Scanner.Start([], [Empty, Empty])
  const ASlot := Stored(Single(StrVal("a")))
  const MisFilled := MisStart.(nextPlainArgumentPosition := 1, plainSlots := [ASlot, Empty], plainArgumentsToTakeAction := {0})

  lemma StepMisordered()
    ensures Scanner.Inv(MisCfg, MisStart)
    ensures Scanner.ProcessAll(MisCfg, MisStart, ["a"]) == Ok(MisFilled)
  {
    EmptySetValid();
    Scanner.StartInv(MisCfg, [], [Empty, Empty]);
    assert MisCfg.plainArguments[0] == OptionalString;
    assert Parse(OptionalString.paramClass, "a") == Some(Single(StrVal("a")));
    assert Scanner.DetermineArgumentType("a") == Scanner.ArgumentType.Other;
    Scanner.PlainTokenFillsNextSlot(MisCfg, MisStart, "a");
    assert MisStart.plainSlots[0 := ASlot] == [ASlot, Empty];
    assert MisStart.plainArgumentsToTakeAction + {0} == {0};
    RunStep(MisCfg, MisStart, ["a"], MisFilled);
    assert ["a"][1..] == [];
  }

  lemma FinalizeMisordered()
    ensures Scanner.Inv(MisCfg, MisFilled)
    ensures Scanner.FinalizeProcessing(MisCfg, MisFilled) == Err(ParserError(MissingMandatoryPlainArgument, PlainSubject(1)))
  {
    StepMisordered();
    assert Scanner.MandatoryPlainArguments(Misordered) == [1];
    assert Scanner.MandatoryPlainArguments(Misordered[..1]) == [];
  }

  /** The constructor as written accepts an optional plain argument before a
      mandatory one; the single token `a` then fills the optional slot and
      the parse fails for want of the mandatory argument that was, by
      count, supplied. The corrected constructor refuses the list. */
  lemma MisorderedPlainArguments()
    ensures !Scanner.MandatoryFirst(Misordered) && NewParser(Misordered).None?
    ensures var r := ParseCommandLine(NewParserAsWritten(Misordered), ["a"]);
            !r.ok && r.parser.error == Some(ParserError(MissingMandatoryPlainArgument, PlainSubject(1)))
  {
    assert Misordered[1].mandatory && !Misordered[0].mandatory;
    var p := NewParserAsWritten(Misordered);
    assert p.plainSlots == [Empty, Empty];
    assert p.optionSlots == [];
    assert ConfigOf(p) == MisCfg;
    StepMisordered();
    FinalizeMisordered();
  }
}
