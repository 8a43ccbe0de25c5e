# ArgumentParsing engine and Numactl id lists, in Dafny

This project is a functional model of the argument-processing engine of the
`ArgumentParsing` command-line library, together with the `IdList` parser and
the `NumaConfig.HasConflict` check of the numactl example. The model proves
properties of both.

The engine has four parts:

- **Option registry** (`OptionSet`). It maps short synonyms (`-f`) and long
  synonyms (`--format`) to options. It refuses nameless options and any option
  whose synonym is already taken.
- **Descriptors.** Options and plain arguments convert a parameter token into a
  value and keep it in a slot until their action runs.
  - `NoParameterOption` takes no parameter.
  - `GenericParameterOption`, `GenericMultipleParameterOption`, `StringOption`,
    `MultipleStringOption`, `EnumOption` and `MultipleEnumOption` take one.
- **Scanner** (`Parser.ArgumentProcessor`). A single pass over the tokens.
  - It classifies each token as short option, long option, the `--` delimiter,
    or other.
  - It remembers at most one option that is still waiting for its parameter.
  - It fills the declared plain-argument slots in order and keeps surplus
    tokens.
  - It stops at the first error.
  - `FinalizeProcessing` then resolves a waiting option and checks the
    mandatory options and the mandatory plain arguments.
- **Parser façade** (`ParseCommandLine`). It runs the scanner over the command
  line and finalizes. Only when both succeed does it fire the ready options and
  then the ready plain arguments. A failed parse fires nothing.

How the model represents these:

- An option is known by a handle: its position in the registry. The source's
  reference-identity `HashSet`s become sets of handles.
- A callback becomes a `Firing(position, value)` record in the outcome.
- The value a descriptor keeps between `ProcessParameter` and `TakeAction` is a
  `Slot`. The slots live in the parser, parallel to its descriptors.
- Each scanner step is a pure function on an immutable processor state, and
  `ProcessAll` folds it over the command line.

Modules, one per file:

| module | file | what it models |
|---|---|---|
| `Wrappers` | `wrappers.dfy` | `Option` and `Result` |
| `Text` | `text.dfy` | `IndexOf`, .NET `String.Split(char)`, `Join`, ordinal ASCII lower-casing |
| `Conversion` | `conversion.dfy` | `Int32.TryParse`, `bool.TryParse`, `Enum.TryParse` over a name list, bounds, multi-value conversion |
| `Descriptors` | `descriptors.dfy` | the option classes, `ProcessParameter`, `TakeAction`, the plain-argument factories |
| `Errors` | `errors.dfy` | `ParserErrorType` and `ParserError` |
| `Registry` | `registry.dfy` | `OptionSet` |
| `Scanner` | `scanner.dfy` | `ArgumentProcessor` |
| `ParserFacade` | `parser.dfy` | `Parser` |
| `IdLists` | `id_list.dfy` | `Numactl.IdList` |
| `Numa` | `numa.dfy` | `NumaConfig.HasConflict` |
| `Scenarios` | `scenarios.dfy` | concrete command lines from the repository's API tests, worked through the model |

## Where the sources disagree, and what the model follows

- **Body-less members.**
  - `OptionSet.Add` and both `Find` methods throw `NotImplementedException`.
    The model follows their doc comments (`ArgumentParsing/OptionSet/OptionSet.cs:17-48`)
    and `ApiTests/ParserSetupTests.cs`.
  - `ParseCommandLine` stops after the token loop, with TODOs for finalizing
    and for handing over the excess entries (`ArgumentParsing/Parser.cs:149`, `:161-162`).
    The model completes it: scan, `FinalizeProcessing`, then fire.
  - Both plain-argument factories (`ArgumentParsing/IOption.cs:118-160`) build
    through `OptionBuilder`, whose `WithMultipleParametersAction` throws
    `NotImplementedException` (`ArgumentParsing/OptionBuilder.cs:94-97`) and whose
    `CreateParticularOptionForRegistration` is not defined. The model's
    `CreatePlainArgument`, `CreateMultipleParametersPlainArgument` and
    `MultiplePlainArgumentSplits` follow the factories' documentation.
  - `OptionSet.MandatoryOptions` is read by `FinalizeProcessing` but is not
    declared. The registry keeps the mandatory handles in registration order.
- **Separator of a multi-value parse delegate.** `GenericMultipleParameterOption`
  calls its delegate without a separator (`ArgumentParsing/Option/Option.cs:201`),
  so a delegate that used its separator parameter (`Option.cs:115`) would always
  get the default `','`. The model splits on the option's stored separator, which
  is what the only converters in the source do: they split on the builder's own
  separator (`ArgumentParsing/OptionBuilder.cs:238-264`).
- **Int and bool options with nothing stored.** The builder registers int and
  bool options as `GenericStructParameterOption<int>`/`<bool>` with
  `Action<int?>`/`Action<bool?>` (`ArgumentParsing/OptionBuilder.cs:204`, `:212`),
  a class that is not defined. `GenericParameterOption<T>` (`ArgumentParsing/Option/Option.cs:122-124`)
  declares `T? parserResult` over an unconstrained `T`, which for `int` or `bool`
  is the plain value type, so an optional one firing with nothing stored would
  pass 0 or false. The model follows the builder's nullable actions: a descriptor
  with nothing stored passes no value, whatever its kind.
- **Clearing after firing.** The completed `ParseCommandLine` fires through the
  corrected `Descriptors.TakeAction`, which clears every parametrized slot,
  including a `GenericParameterOption`'s that `Option.cs:161` keeps (see
  "## Findings"). That is why `ParserFacade.FireReady`, `ParserFacade.Commit`
  and `ParserFacade.ParseLeavesNoValues` state cleared slots;
  `Descriptors.TakeActionAsWritten` keeps the code as written.
- **Missing error kind.** `RepeatedOccurenceOfOption` is raised by the
  argument processor, but `ParserErrorType` does not declare it. The model's
  error type includes it.
- **`RemainingPlainArguments` when there is no excess.** It is null, as its doc
  comment says (`ArgumentParsing/Parser.cs:100`). Some API tests instead read
  `Length` 0 in that case, for example `ApiTests/PlainargumentsTests.cs:243`.
- **Error subject.** `CouldNotParseTheParameter` raised for a plain argument or
  for a long option's inline value names `optionAwaitingParameter`. That is null
  at that point in the code, so the model's error names no subject
  (`ArgumentParsing/ArgumentHandler.cs:196`, `:261`).
- **Mandatory plain argument taken by an option.** `ApiTests/PlainargumentsTests.cs:333-363`
  expects `foo -p bar` to succeed with two mandatory plain arguments. `-p` takes
  `bar` as its parameter, so the second mandatory plain argument stays unfilled
  and the code, like the model, fails with `MissingMandatoryPlainArgument`.
- **Integer bounds.** `WithLowerBound`, `WithUpperBound` and `WithBounds`
  (`ArgumentParsing/OptionBuilder.cs:146-175`) store bounds, but the int
  conversion (`:236`) is a plain `Int32.TryParse` and registration never reads
  them. The model applies the bounds, as their documentation describes; an
  int kind without bounds behaves exactly as the code does.
- **Splitting `""`.** .NET `Split` gives one empty piece; the model uses that
  rule everywhere. `ApiTests/MultiArgsTests.cs` expects zero pieces.
- **Firing order.** The ready options fire before the ready plain arguments.
  Within each kind the order is ascending position, since the source's
  `HashSet` order is unspecified.

## Model

| member | source | states |
|---|---|---|
| Conversion.ParseInt | ArgumentParsing/OptionBuilder.cs:236 | a token converts exactly when it is an optionally signed run of decimal digits whose value lies in the 32-bit range, and the result is that value |
| Conversion.ParseIntFormatInt | ArgumentParsing/OptionBuilder.cs:236 | every 32-bit integer, rendered in decimal, converts back to itself |
| Conversion.ParseBoolCaseVariants | ArgumentParsing/OptionBuilder.cs:251 | a token converts to `b` exactly when it spells `true` or `false` (the word for `b`) with letters in either case; `0`, `1`, `t`, `on`, `""` and `truex` are not such spellings |
| Conversion.ParseEnum | ArgumentParsing/Option/ConcreteOptionClasses.cs:375-385 | an enum token converts exactly when it is, case-sensitively, one of the member names, and the result is the position of that name |
| Conversion.Convert | ArgumentParsing/OptionBuilder.cs:224-251 | String always converts to the token itself. Int converts exactly when the 32-bit parse succeeds and, if the kind carries bounds, the value lies within them, and then gives that value. Bool converts exactly when `Conversion.ParseBool` accepts and gives the parsed truth value. Enum converts exactly when the token is a member name and gives its position. With no bounds, int conversion is `Conversion.ParseInt`, the model of `Int32.TryParse`; the whitespace and culture handling those parsers leave out is listed under "## Left out" |
| Conversion.ConvertEach | ArgumentParsing/OptionBuilder.cs:238-264 | a list of pieces converts exactly when every piece does; the result then has one value per piece, each the conversion of its piece, and on failure no partial array exists |
| Conversion.MultipleStringsAlwaysConvert | ArgumentParsing/OptionBuilder.cs:230-234 | multi-value string conversion never fails and yields one more piece than the separator occurs in the token |
| Conversion.ConvertMultipleAtomic | ArgumentParsing/OptionBuilder.cs:240-246 | a single piece that does not convert makes the whole multi-value token fail |
| Text.JoinSplit | ArgumentParsing/OptionBuilder.cs:232 | splitting loses nothing: joining the pieces with the separator gives back the token |
| Text.SplitCount | ArgumentParsing/Option/ConcreteOptionClasses.cs:434 | a split yields one more piece than there are separators, so `,,,` gives 4 pieces and `""` gives one |
| Descriptors.ProcessParameter | ArgumentParsing/Option/Option.cs:154-159 | returns true exactly when the converter accepts the token, and only then stores the converted value. On failure the stored value is kept, except that `MultipleEnumOption` resets it to null |
| Descriptors.StringParameterStoresVerbatim | ArgumentParsing/Option/ConcreteOptionClasses.cs:191-195 | `StringOption` accepts every token and stores it unchanged |
| Descriptors.MultipleStringIgnoresSeparator | ArgumentParsing/Option/ConcreteOptionClasses.cs:235-239 | `MultipleStringOption` splits on a comma whatever its separator, and always succeeds |
| Descriptors.MultipleEnumFailureClears | ArgumentParsing/Option/ConcreteOptionClasses.cs:432-446 | one piece that names no member makes `MultipleEnumOption` fail and leaves it holding no array |
| Descriptors.TakeActionAsWritten | ArgumentParsing/Option/Option.cs:161 | every parametrized class passes its stored value to its action. `GenericParameterOption` keeps that value afterwards; every other class clears it |
| Descriptors.StaleValueAsWritten | ArgumentParsing/Option/Option.cs:154-161 | a `GenericParameterOption` that stored `json` hands `json` to its action again when fired a second time with no new parameter |
| Descriptors.TakeAction | ArgumentParsing/Option/Option.cs:207-211 | a parameterless option fires with no value; a parametrized descriptor passes its stored value and is left empty |
| Descriptors.NoStaleValue | ArgumentParsing/Option/Option.cs:207-211 | with clearing, a second firing without a new parameter sees no value |
| Descriptors.MultiplePlainArgumentSplits | ArgumentParsing/IOption.cs:146-160 | a multi-value plain argument keeps `isMandatory`, and accepts a token exactly when every piece of its split on the given separator converts |
| Registry.FindShort | ArgumentParsing/OptionSet/OptionSet.cs:30-38 | a short synonym is found exactly when some registered option declares it, and the handle found is such an option |
| Registry.FindLong | ArgumentParsing/OptionSet/OptionSet.cs:40-48 | the same, for long synonyms |
| Registry.Add | ArgumentParsing/OptionSet/OptionSet.cs:17-28 | accepts exactly a named option none of whose short or long synonyms is already registered, and appends it under the next handle; a refusal leaves the registry unchanged; the registry stays valid either way |
| Registry.RegisterValid | ArgumentParsing/OptionSet/OptionSet.cs:9-15 | registering a named option with free synonyms keeps each index exact, so no synonym names two options, and keeps the mandatory list exact |
| Registry.SynonymsUnique | ArgumentParsing/OptionSet/OptionSet.cs:9-11 | in a valid registry two distinct options never share a short or a long synonym |
| Registry.AddThenFind | ArgumentParsing/OptionSet/OptionSet.cs:17-48 | after a successful `Add` each new synonym finds the new option, and every other lookup answers as before (identifiers are compared case-sensitively) |
| Scanner.DetermineArgumentType | ArgumentParsing/ArgumentHandler.cs:370-377 | exactly `--` is the delimiter; a longer token starting `--` is a long option; one starting with a single `-` and at least 2 long is a short option; a token shorter than 2 or not starting with `-` (such as `-`) is other |
| Scanner.ProcessPossibleWaitingOption | ArgumentParsing/ArgumentHandler.cs:160-180 | fails with `MissingOptionParameter` exactly when a waiting option requires its parameter; otherwise makes the waiting option ready without a value and clears the wait |
| Scanner.PassArgumentToWaitingOption | ArgumentParsing/ArgumentHandler.cs:142-154 | the token is the waiting option's parameter: `CouldNotParseTheParameter` exactly when it does not convert, otherwise the option is ready and nothing waits |
| Scanner.HandlePlainArgument | ArgumentParsing/ArgumentHandler.cs:182-202 | with every slot filled the token is appended to the excess entries. Otherwise it fails exactly when the next slot's descriptor refuses it; on success that slot stores the value and the cursor advances by one |
| Scanner.HandleShortOptionIdentifier | ArgumentParsing/ArgumentHandler.cs:204-222 | only a two-character token is looked up, so `-pp` and `-pf=format` are invalid. A new parametrized option starts waiting; a new parameterless one becomes ready |
| Scanner.SplitOptionIdentifierParameterPair | ArgumentParsing/ArgumentHandler.cs:271-289 | the token is cut at its first `=` only: identifier, `=`, value rebuild it and the identifier has no `=`; without `=` the token is returned whole |
| Scanner.LongIdentifier | ArgumentParsing/ArgumentHandler.cs:227-229 | `--`, the identifier and the inline value (if any, after `=`) rebuild the token |
| Scanner.LongIdentifierRoundTrip | ArgumentParsing/ArgumentHandler.cs:271-289 | a token built as `--name` or `--name=value` from a name without `=` reads back as exactly that name and value |
| Scanner.HandleLongOptionIdentifier | ArgumentParsing/ArgumentHandler.cs:224-269 | a long option: unknown or repeated identifiers fail; a parameterless option becomes ready and ignores any inline value. A parametrized option with an inline value fails exactly when it does not convert, with `CouldNotParseTheParameter` and no subject; otherwise it stores the converted value and becomes ready. Without `=` it fails with `MissingOptionParameter` if the parameter is required, else becomes ready with no value. The next token is never consumed |
| Scanner.ProcessPlainArgumentDelimiter | ArgumentParsing/ArgumentHandler.cs:315-319 | the delimiter switches the scanner to plain-argument mode and keeps its invariant |
| Scanner.HandleIdentifier | ArgumentParsing/ArgumentHandler.cs:85-89 | an identifier token, once no option waits, keeps the invariant and enters plain-argument mode exactly when it is `--` |
| Scanner.ProcessArgument | ArgumentParsing/ArgumentHandler.cs:78-94 | in plain-argument mode every token is a plain argument. A waiting option takes the next other token; with nothing waiting, such a token is a plain argument. Any identifier first resolves the waiting option: on its error the step stops with it, otherwise the identifier is handled with that option ready (an optional one without a value). Success keeps the invariant, only grows what is ready, and enters plain-argument mode for good at `--` |
| Scanner.ProcessAll | ArgumentParsing/Parser.cs:152-159 | the left-to-right fold keeps the invariant, and its errors are always one of the specific kinds, never `Other` |
| Scanner.FirstMissing | ArgumentParsing/ArgumentHandler.cs:105-116 | nothing is missing exactly when every listed handle is ready; otherwise the answer is the first listed one that is not |
| Scanner.MandatoryPlainArguments | ArgumentParsing/ArgumentHandler.cs:118-129 | lists exactly the positions of the mandatory plain arguments, in strictly ascending order, so the first one missing is the leftmost |
| Scanner.FinalizeProcessing | ArgumentParsing/ArgumentHandler.cs:96-141 | checks in order: the waiting option, then the first missing mandatory option, then the first missing mandatory plain argument, reporting its position. It succeeds exactly when all three pass. On success every mandatory option and plain argument is ready, and what is handed over is exactly what the scan collected plus a resolved waiting option |
| Scanner.ProcessAllAppend | ArgumentParsing/Parser.cs:152-158 | scanning a concatenation is scanning the first part and continuing from where it stopped; a rejection is final whatever follows |
| Scanner.AfterDelimiterAllExcess | ArgumentParsing/ArgumentHandler.cs:80-83 | after the delimiter, with all slots filled, every later token, `--` and `-v` included, is appended to the excess entries in order |
| Scanner.DelimiterSwitchesMode | ArgumentParsing/ArgumentHandler.cs:89 | with nothing waiting, `--` changes only the mode |
| Scanner.ShortOptionStep | ArgumentParsing/ArgumentHandler.cs:204-222 | `-c` for a registered option not yet seen makes it wait if it is parametrized and ready otherwise, and changes nothing else |
| Scanner.ParameterArrives | ArgumentParsing/ArgumentHandler.cs:142-154 | a converting token after a waiting option is stored in that option's slot and the option becomes ready, ahead of any plain slot |
| Scanner.InlineValueStored | ArgumentParsing/ArgumentHandler.cs:256-268 | `--name=value` for a parametrized option whose value converts stores the value, makes the option ready and changes nothing else |
| Scanner.ParameterlessLongReady | ArgumentParsing/ArgumentHandler.cs:238-242 | `--name` and `--name=anything` for a parameterless option both just make it ready |
| Scanner.PlainTokenFillsNextSlot | ArgumentParsing/ArgumentHandler.cs:182-202 | a converting plain token is stored in the next slot, marks it ready and advances the cursor |
| Scanner.MandatoryPlainCheck | ArgumentParsing/IOption.cs:81-86 | with mandatory plain arguments listed first, the mandatory check passes exactly when the filled prefix reaches past the last mandatory one |
| ParserFacade.NewEmptyParser | ArgumentParsing/Parser.cs:112-115 | a new parser has no options, no plain arguments, no remaining arguments and no error |
| ParserFacade.NewParserAsWritten | ArgumentParsing/Parser.cs:126-129 | the constructor as written accepts any plain-argument list and gives each an empty slot |
| ParserFacade.NewParser | ArgumentParsing/Parser.cs:120-129 | a parser exists exactly when mandatory plain arguments precede optional ones, and it then holds that list |
| ParserFacade.Add | ArgumentParsing/Parser.cs:139 | returns exactly the registry's verdict; an accepted option is appended with an empty slot, and a refused one changes nothing |
| ParserFacade.AddRegistersSynonyms | ArgumentParsing/Parser.cs:139 | after a successful `Add` every short and long synonym of the option finds it |
| ParserFacade.FireReady | ArgumentParsing/ArgumentHandler.cs:131-134 | exactly the ready descriptors fire, each once, in ascending order, each with the value its `TakeAction` passes; fired parametrized descriptors are left empty and all others keep their slot |
| ParserFacade.Scan | ArgumentParsing/Parser.cs:150-159 | a successful scan-and-finalize hands over ready positions in range, and values only for descriptors that became ready; its errors are never `Other` |
| ParserFacade.Commit | ArgumentParsing/Parser.cs:99-102 | after a successful scan, exactly the ready options fire, then exactly the ready plain arguments, each with its stored value. Fired parametrized descriptors are cleared. `RemainingPlainArguments` is the excess entries, or null when there are none |
| ParserFacade.SingleReadyOptionFires | ArgumentParsing/ArgumentHandler.cs:131-134 | when one option is ready, exactly one option action runs: that option's, with the value it stored |
| ParserFacade.SingleReadyPlainFires | ArgumentParsing/ArgumentHandler.cs:131-134 | when one plain argument is ready, exactly one plain action runs: that argument's, with its value |
| ParserFacade.ParseCommandLine | ArgumentParsing/Parser.cs:147-164 | succeeds exactly when the scan and finalization succeed, and then is the firing of what they made ready (exactly the ready descriptors, with their values, `RemainingPlainArguments` the excess). It succeeds exactly when no error is recorded. A failure fires nothing, leaves every descriptor's slot as it was, and records the scan's error. A success fires every mandatory option and plain argument, each descriptor at most once |
| ParserFacade.ParseStopsAtFirstRejection | ArgumentParsing/Parser.cs:152-158 | once a prefix of the command line is rejected, the parse fails with that error and fires nothing, whatever the rest of the line holds |
| ParserFacade.ParseLeavesNoValues | ArgumentParsing/Parser.cs:147 | a parser whose descriptors hold no values holds none after a parse, successful or not |
| IdLists.Wrap32 | Numactl/IdList.cs:57 | the result is the 32-bit value congruent to its argument modulo 2^32, and equals it when it already fits |
| IdLists.ParseId | Numactl/IdList.cs:14-19 | `int.Parse`: a malformed number is a format error, a well-formed one outside 32 bits an overflow error, otherwise its value |
| IdLists.Range | Numactl/IdList.cs:51 | `count` consecutive ids from `start`; a negative count or one running past the 32-bit maximum is a range error |
| IdLists.ParseItem | Numactl/IdList.cs:45-60 | an item split on `-` into more than two pieces is a format error |
| IdLists.JoinResults | Numactl/IdList.cs:30-34 | succeeds exactly when every result does, and otherwise gives the error of the first failing one; a single result is passed through unchanged |
| IdLists.ParseItems | Numactl/IdList.cs:28-35 | succeeds exactly when every item parses, and otherwise reports the first failing item's error; a single item gives exactly that item's result |
| IdLists.ParseIdList | Numactl/IdList.cs:20-36 | `all` is the whole range; any other list succeeds exactly when every comma-separated item parses, and then holds the items' ids concatenated in input order; otherwise it fails with the first failing item's error |
| IdLists.ParseItemsAppend | Numactl/IdList.cs:30-34 | the ids of a concatenation of item lists are the ids of the first list followed by those of the second |
| IdLists.ParseItemsIds | Numactl/IdList.cs:28-35 | a list whose items all parse gives each item's ids, laid end to end in input order |
| IdLists.TooManyDashes | Numactl/IdList.cs:59 | an item with two or more `-` is a format error |
| IdLists.SingleItem | Numactl/IdList.cs:48-52 | an item without `-` yields exactly the one id it spells, and fails exactly when it is not a 32-bit number |
| IdLists.RangeItem | Numactl/IdList.cs:53-58 | `A-B` yields the B − A + 1 consecutive ids from A to B |
| IdLists.DescendingRangeRefused | Numactl/IdList.cs:57 | `A-B` with B more than one below A is a range error |
| IdLists.FullRangeWraps | Numactl/IdList.cs:57 | `0-2147483647` is refused, because the id count 2^31 wraps to a negative 32-bit value |
| IdLists.NegativeIdRefused | Numactl/IdList.cs:53-56 | `-1` is a format error: the piece before the dash is empty |
| IdLists.EmptyItemRefused | Numactl/IdList.cs:29-33 | `1,,2` is a format error: the empty item is not a number |
| Numa.NodeOptionCount | Numactl/Numa.cs:74-77 | the count is at most 3, and 0 exactly when none of interleave, preferred and membind is set |
| Numa.HasConflict | Numactl/Numa.cs:72-79 | a conflict exactly when some two of interleave, preferred and membind are set |
| Numa.PhyscpubindIrrelevant | Numactl/Numa.cs:72-79 | the CPU binding never changes the verdict |
| Numa.SingleNodeOptionAccepted | Numactl/Numa.cs:72-79 | at most one node-placement option set is never a conflict |
| Numa.SecondNodeOptionConflicts | Numactl/Numa.cs:72-79 | adding membind to a configuration that already sets one node-placement option is a conflict |
| Scenarios.ShortOptionWithParameter | ApiTests/SimpleOptionsTest.cs:155-167 | `-p -f v` succeeds for every token `v` that is not an identifier: `-p` fires without a value and `-f` with `v`, with nothing left over |
| Scenarios.TwoOptions | ApiTests/SimpleOptionsTest.cs:155-167 | the test's own command line `-p -f format` succeeds, `-p` firing without a value and `-f` with `format` |
| Scenarios.ReadyOptionFires | ArgumentParsing/ArgumentHandler.cs:131-134 | every option that is ready when parsing ends runs its action, with its stored value if it takes a parameter and with none otherwise |
| Scenarios.UnknownAfterValid | ApiTests/SimpleOptionsTest.cs:281-292 | `-p -x` fails with `InvalidOptionIdentifier` and fires nothing, not even `-p` |
| Scenarios.GroupedShortRejected | ApiTests/SimpleOptionsTest.cs:170-182 | `-pf=format` fails with `InvalidOptionIdentifier` and fires nothing |
| Scenarios.RepeatedAfterParameter | ApiTests/SimpleOptionsTest.cs:326-337 | `-p -f json -p` fails with `RepeatedOccurenceOfOption` for `-p` and fires nothing |
| Scenarios.MissingShortParameter | ApiTests/SimpleOptionsTest.cs:126-137 | `-f` alone fails with `MissingOptionParameter` |
| Scenarios.LongRequiresEquals | ArgumentParsing/ArgumentHandler.cs:247-254 | `--format json` fails with `MissingOptionParameter`: a required long parameter must follow `=` |
| Scenarios.InlineValueAfterFirstEquals | ApiTests/SimpleOptionsTest.cs:382-391 | `--format=equals=notation` fires `--format` once with `equals=notation` |
| Scenarios.InlineValueEmpty | ApiTests/SimpleOptionsTest.cs:395-404 | `--format=` fires `--format` once with the empty string |
| Scenarios.ParameterlessIgnoresInline | ArgumentParsing/ArgumentHandler.cs:238-242 | `--portable=yes` fires `--portable` once, without a value |
| Scenarios.EmptyCommandLine | ApiTests/ParserSetupTests.cs:12-23 | a parser with nothing declared accepts the empty command line and fires nothing |
| Scenarios.DelimitersAfterDelimiter | ApiTests/PlainargumentsTests.cs:183-199 | `-- -- -- surprise` leaves `--`, `--`, `surprise` as the remaining plain arguments |
| Scenarios.DelimiterAsPlainValue | ApiTests/PlainargumentsTests.cs:203-217 | `-- -- Kraftfahrzeug-Haftpflichtversicherung` with one mandatory string plain argument gives that argument `--` and leaves `Kraftfahrzeug-Haftpflichtversicherung` over |
| Scenarios.MisorderedPlainArguments | ApiTests/ParserSetupTests.cs:114-131 | the corrected constructor refuses an optional plain argument before a mandatory one; the constructor as written accepts it, and then `a` fails with `MissingMandatoryPlainArgument` |

## Left out

- Help text (`GetHelpString`, `SetPlainArgumentHelpString`, `HelpString`, `WithHelpString`): unimplemented text rendering.
- Error messages (`CreateErrorMessage`): `ParserError` keeps its type and subject only.
- The fluent `OptionBuilder` chaining (`With*`, `Reset`, `RegisterOption`, `CreateParticularOptionForRegistration`): an incomplete draft. Only its conversion functions, separator and bounds are modelled, as `ValueKind` and `ParamClass`.
- The `IsParameterRequired = IsParameterRequired` self-assignment in the concrete option constructors: requiredness is modelled as the constructor argument.
- `IntOption`, `MultipleIntOption`, `BoolOption` and `MultipleBoolOption`: their bodies throw `NotImplementedException`. Int and bool options are modelled as the builder registers them, with actions over nullable values (see "Where the sources disagree").
- Callbacks: modelled as `Firing` records, not delegate calls. The firing order within options, and within plain arguments, is fixed as ascending position; the source's `HashSet` order is unspecified.
- Conversion.ParseInt: no leading or trailing whitespace or culture-specific signs, which `Int32.TryParse` accepts.
- Conversion.ParseBool: no whitespace trimming, which `bool.TryParse` performs.
- Scanner.DetermineArgumentType: the `--` prefix test is ordinal, while `argument.StartsWith("--")` (`ArgumentParsing/ArgumentHandler.cs:374`) compares under the current culture, which skips ignorable characters such as the soft hyphen U+00AD; so a token like U+00AD followed by `--x` is a plain token in the model but a long option in the source. The same holds for the culture-sensitive `IndexOf("=")` behind `Scanner.SplitOptionIdentifierParameterPair` (`:273`). The single-dash test takes a `char` and is ordinal in both.
- Conversion.ParseEnum: numeric and comma-separated flag strings, and names surrounded by white space, which `Enum.TryParse` also accepts, are not modelled; only exact member names are.
- Conversion.ParseBoolCaseVariants: case-insensitivity is ASCII only; culture-aware case folding of other letters is not modelled.
- The non-whitespace requirement on separators (`ArgumentParsing/IOption.cs:66`): it is documented but nowhere enforced, so the model accepts any separator character.
- Clearing of the scanner's accumulators at the end of `FinalizeProcessing`: the model builds a fresh processor for every parse, so the clearing is not observable.
- ParserFacade.ParseCommandLine: a failed parse leaves every descriptor's slot as it was before the parse. The source has only a TODO for this restoration (`ArgumentParsing/Parser.cs:147`), and the contract states the intended behaviour.
- ParserFacade.ParseCommandLine: `RemainingPlainArguments` is null after a failed parse, while `ApiTests/PlainargumentsTests.cs:397` reads its `Length`.
- Concurrency: none exists; the engine is single-threaded.
- The superseded drafts under `CommandLineParser/`, and the host and example programs (`Numactl/Program.cs`, `NewExample`, `CommandParserExampleProgram`, `datetime_converter`, `DateConverter`): console I/O and date formatting.
- The printing and command running in `Numactl/Numa.cs` (`PrintHardwareConfiguration`, `PrintConfiguration`, `RunCommand`): console output and process launch.
- IdLists.ParseId: `int.Parse` whitespace and culture handling, as for `Conversion.ParseInt`. `Enumerable.Range` throwing on a descending range is modelled as `RangeError` rather than excluded by a precondition.

## Findings

| source | as written | input that shows it | evidently intended | confidence | as-written member | corrected member |
|---|---|---|---|---|---|---|
| ArgumentParsing/Option/Option.cs:161 | `GenericParameterOption.TakeAction` passes its stored value and keeps it, while every other parametrized class clears it after firing | a `GenericParameterOption` with an optional string parameter, fired after storing `json`, then fired again in a later parse where it occurs with no parameter: the action receives `json` again | clear the value after passing it, as `GenericMultipleParameterOption.TakeAction` does (`Option.cs:207-211`), so a parser can be reused | high, not executed | Descriptors.StaleValueAsWritten | Descriptors.TakeAction |
| ArgumentParsing/Parser.cs:126-129 | the constructor stores any plain-argument list, though its documentation requires mandatory plain arguments first | plain arguments `[optional string, mandatory string]` with the command line `a`: `a` fills the optional slot and the parse fails with `MissingMandatoryPlainArgument` | refuse such a list at construction, as `ApiTests/ParserSetupTests.cs:114-131` expects | medium, not executed | Scenarios.MisorderedPlainArguments | ParserFacade.NewParser |
