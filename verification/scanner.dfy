/** `Parser.ArgumentProcessor`: the single-pass token scanner. It classifies
    each token, routes it to the registry or to the next plain-argument slot,
    remembers at most one option still waiting for its parameter, and
    accumulates the options and plain arguments that are ready to fire. The
    first error stops the scan. */
module Scanner {
  import opened Wrappers
  import opened Text
  import opened Descriptors
  import opened Errors
  import Registry

  datatype ArgumentType = ShortOptionIdentifier | LongOptionIdentifier | PlainArgumentsDelimiter | Other

  datatype ParsingState = PlainArguments | Mixed

  /** What the processor reads from its parser: the registry and the declared plain arguments. */
  datatype Config = Config(options: Registry.OptionSet, plainArguments: seq<PlainArgument>)

  /** The run state of one `ArgumentProcessor`, together with the value
      slots of the descriptors it feeds. */
  datatype Processor = Processor(
    state: ParsingState,
    optionAwaitingParameter: Option<nat>,
    nextPlainArgumentPosition: nat,
    optionsToTakeAction: set<nat>,
    plainArgumentsToTakeAction: set<nat>,
    excessivePlainArgumentsEntries: seq<string>,
    optionSlots: seq<Slot>,
    plainSlots: seq<Slot>)

  /** `ArgumentProcessingResult`, with the slots the ready descriptors hold. */
  datatype ArgumentProcessingResult = ArgumentProcessingResult(
    optionsToTakeAction: set<nat>,
    plainArgumentsToTakeAction: set<nat>,
    excessivePlainArgumentsEntries: seq<string>,
    optionSlots: seq<Slot>,
    plainSlots: seq<Slot>)

  /** A fresh processor over the descriptors' current slots. */
  function Start(optionSlots: seq<Slot>, plainSlots: seq<Slot>): Processor
  {
    Processor(Mixed, None, 0, {}, {}, [], optionSlots, plainSlots)
  }

  /** `ready` holds exactly the positions below `n`. */
  predicate PositionsBelow(ready: set<nat>, n: nat)
  {
    (forall i :: i in ready ==> i < n) && (forall i: nat :: i < n ==> i in ready)
  }

  /** The invariant every reachable processor keeps. */
  predicate Inv(cfg: Config, p: Processor)
  {
    && Registry.Valid(cfg.options)
    && |p.optionSlots| == |cfg.options.options|
    && |p.plainSlots| == |cfg.plainArguments|
    && p.nextPlainArgumentPosition <= |cfg.plainArguments|
    && PositionsBelow(p.plainArgumentsToTakeAction, p.nextPlainArgumentPosition)
    && (forall h :: h in p.optionsToTakeAction ==> h < |cfg.options.options|)
    && (p.optionAwaitingParameter.Some? ==>
          && p.optionAwaitingParameter.value < |cfg.options.options|
          && cfg.options.options[p.optionAwaitingParameter.value].IsParametrized()
          && p.optionAwaitingParameter.value !in p.optionsToTakeAction)
    && (p.state == PlainArguments ==> p.optionAwaitingParameter.None?)
    && ParameterlessHoldNothing(cfg.options.options, p.optionSlots)
  }

  /** A parameterless option never holds a value. */
  predicate ParameterlessHoldNothing(options: seq<OptionDescriptor>, optionSlots: seq<Slot>)
    requires |optionSlots| == |options|
  {
    forall h :: 0 <= h < |options| && options[h].behaviour.NoParameter? ==> optionSlots[h] == Empty
  }

  lemma StartInv(cfg: Config, optionSlots: seq<Slot>, plainSlots: seq<Slot>)
    requires Registry.Valid(cfg.options)
    requires |optionSlots| == |cfg.options.options| && |plainSlots| == |cfg.plainArguments|
    requires ParameterlessHoldNothing(cfg.options.options, optionSlots)
    ensures Inv(cfg, Start(optionSlots, plainSlots))
  {
  }

  /** `q` is reachable from `p` by successful steps: the delimiter is never
      undone, ready sets and the overflow only grow, and a slot changes only
      for a descriptor that has become ready. */
  predicate Follows(p: Processor, q: Processor)
  {
    && (p.state == PlainArguments ==> q.state == PlainArguments)
    && p.optionsToTakeAction <= q.optionsToTakeAction
    && p.nextPlainArgumentPosition <= q.nextPlainArgumentPosition
    && p.excessivePlainArgumentsEntries <= q.excessivePlainArgumentsEntries
    && |q.optionSlots| == |p.optionSlots|
    && |q.plainSlots| == |p.plainSlots|
    && (forall h :: 0 <= h < |q.optionSlots| && h !in q.optionsToTakeAction ==> q.optionSlots[h] == p.optionSlots[h])
    && (forall i :: q.nextPlainArgumentPosition <= i < |q.plainSlots| ==> q.plainSlots[i] == p.plainSlots[i])
  }

  lemma FollowsTransitive(p: Processor, q: Processor, r: Processor)
    requires Follows(p, q) && Follows(q, r)
    ensures Follows(p, r)
  {
    forall h | 0 <= h < |r.optionSlots| && h !in r.optionsToTakeAction
      ensures r.optionSlots[h] == p.optionSlots[h]
    {
      assert h !in q.optionsToTakeAction;
    }
  }

  /** `DetermineArgumentType`. */
  function DetermineArgumentType(argument: string): (r: ArgumentType)
    ensures r == PlainArgumentsDelimiter <==> argument == "--"
    ensures r == LongOptionIdentifier ==> |argument| > 2 && argument[..2] == "--"
    ensures r == ShortOptionIdentifier ==> |argument| >= 2 && argument[0] == '-' && argument[1] != '-'
    ensures r == ArgumentType.Other <==> |argument| < 2 || argument[0] != '-'
  {
    if argument == "--" then PlainArgumentsDelimiter
    else if |argument| > 2 && StartsWith(argument, "--") then LongOptionIdentifier
    else if |argument| >= 2 && StartsWith(argument, "-") then ShortOptionIdentifier
    else ArgumentType.Other
  }

  function OptionAt(cfg: Config, h: nat): OptionDescriptor
    requires h < |cfg.options.options|
  {
    cfg.options.options[h]
  }

  function SubjectOf(option: Option<nat>): Subject
  {
    match option
    case Some(h) => OptionSubject(h)
    case None => NoSubject
  }

  /** `ProcessPossibleWaitingOption`: an option still waiting for its
      parameter when none can follow fails if the parameter is required and
      otherwise becomes ready without a value. */
  function ProcessPossibleWaitingOption(cfg: Config, p: Processor): (r: Result<Processor, ParserError>)
    requires Inv(cfg, p)
    ensures r.Err? <==> p.optionAwaitingParameter.Some? && OptionAt(cfg, p.optionAwaitingParameter.value).behaviour.required
    ensures r.Err? ==> r.error == ParserError(MissingOptionParameter, OptionSubject(p.optionAwaitingParameter.value))
    ensures r.Ok? ==> Inv(cfg, r.value) && Follows(p, r.value) && r.value.optionAwaitingParameter.None?
    ensures r.Ok? ==> r.value == p.(optionAwaitingParameter := None,
                                    optionsToTakeAction := p.optionsToTakeAction + SetOf(p.optionAwaitingParameter))
  {
    match p.optionAwaitingParameter
    case None => Ok(p)
    case Some(h) =>
      if OptionAt(cfg, h).behaviour.required then Err(ParserError(MissingOptionParameter, OptionSubject(h)))
      else Ok(p.(optionsToTakeAction := p.optionsToTakeAction + {h}, optionAwaitingParameter := None))
  }

  function SetOf(o: Option<nat>): set<nat>
  {
    match o
    case Some(h) => {h}
    case None => {}
  }

  /** `PassArgumentToWaitingOption`: the token is the waiting option's
      parameter; it converts, or the scan fails. */
  function PassArgumentToWaitingOption(cfg: Config, p: Processor, argument: string): (r: Result<Processor, ParserError>)
    requires Inv(cfg, p) && p.optionAwaitingParameter.Some?
    ensures var h := p.optionAwaitingParameter.value;
            r.Err? <==> !ProcessParameter(OptionAt(cfg, h).behaviour.paramClass, p.optionSlots[h], argument).ok
    ensures r.Err? ==> r.error == ParserError(CouldNotParseTheParameter, OptionSubject(p.optionAwaitingParameter.value))
    ensures r.Ok? ==> Inv(cfg, r.value) && Follows(p, r.value)
    ensures r.Ok? ==>
      && r.value.optionAwaitingParameter.None?
      && r.value.optionsToTakeAction == p.optionsToTakeAction + {p.optionAwaitingParameter.value}
      && r.value.nextPlainArgumentPosition == p.nextPlainArgumentPosition
      && r.value.excessivePlainArgumentsEntries == p.excessivePlainArgumentsEntries
  {
    var h := p.optionAwaitingParameter.value;
    var processed := ProcessParameter(OptionAt(cfg, h).behaviour.paramClass, p.optionSlots[h], argument);
    if !processed.ok then Err(ParserError(CouldNotParseTheParameter, OptionSubject(h)))
    else
      Ok(p.(optionSlots := p.optionSlots[h := processed.slot],
            optionsToTakeAction := p.optionsToTakeAction + {h},
            optionAwaitingParameter := None))
  }

  /** `HandlePlainArgument`: the token fills the next declared slot, or is
      kept as an excess entry once all slots are filled. */
  function HandlePlainArgument(cfg: Config, p: Processor, argument: string): (r: Result<Processor, ParserError>)
    requires Inv(cfg, p)
    ensures r.Ok? ==> Inv(cfg, r.value) && Follows(p, r.value)
    ensures p.nextPlainArgumentPosition == |cfg.plainArguments| ==>
      r == Ok(p.(excessivePlainArgumentsEntries := p.excessivePlainArgumentsEntries + [argument]))
    ensures p.nextPlainArgumentPosition < |cfg.plainArguments| ==>
      var i := p.nextPlainArgumentPosition;
      && (r.Err? <==> !ProcessParameter(cfg.plainArguments[i].paramClass, p.plainSlots[i], argument).ok)
      && (r.Ok? ==> r.value.nextPlainArgumentPosition == i + 1
                    && r.value.plainSlots[i] == ProcessParameter(cfg.plainArguments[i].paramClass, p.plainSlots[i], argument).slot
                    && r.value.excessivePlainArgumentsEntries == p.excessivePlainArgumentsEntries)
    ensures r.Err? ==> r.error == ParserError(CouldNotParseTheParameter, SubjectOf(p.optionAwaitingParameter))
    ensures r.Ok? ==> r.value.optionsToTakeAction == p.optionsToTakeAction
                      && r.value.optionAwaitingParameter == p.optionAwaitingParameter
                      && r.value.state == p.state
  {
    if |cfg.plainArguments| <= p.nextPlainArgumentPosition then
      Ok(p.(excessivePlainArgumentsEntries := p.excessivePlainArgumentsEntries + [argument]))
    else
      var i := p.nextPlainArgumentPosition;
      var processed := ProcessParameter(cfg.plainArguments[i].paramClass, p.plainSlots[i], argument);
      if !processed.ok then Err(ParserError(CouldNotParseTheParameter, SubjectOf(p.optionAwaitingParameter)))
      else
        var q := p.(nextPlainArgumentPosition := i + 1,
                    plainSlots := p.plainSlots[i := processed.slot],
                    plainArgumentsToTakeAction := p.plainArgumentsToTakeAction + {i});
        Ok(q)
  }

  /** `CheckFindResult`: an unknown identifier, or an option already ready. */
  function CheckFindResult(cfg: Config, p: Processor, found: Option<nat>): (r: Option<ParserError>)
    ensures r.None? <==> found.Some? && found.value !in p.optionsToTakeAction
    ensures r.Some? ==> r.value.errorType == (if found.None? then InvalidOptionIdentifier else RepeatedOccurenceOfOption)
    ensures r.Some? ==> r.value.subject == (if found.None? then NoSubject else OptionSubject(found.value))
  {
    match found
    case None => Some(ParserError(InvalidOptionIdentifier, NoSubject))
    case Some(h) =>
      if h in p.optionsToTakeAction then Some(ParserError(RepeatedOccurenceOfOption, OptionSubject(h)))
      else None
  }

  /** `HandleShortOptionIdentifier`: only a two-character token is looked up. */
  function HandleShortOptionIdentifier(cfg: Config, p: Processor, identifier: string): (r: Result<Processor, ParserError>)
    requires Inv(cfg, p) && p.state == Mixed && p.optionAwaitingParameter.None?
    ensures |identifier| != 2 ==> r == Err(ParserError(InvalidOptionIdentifier, NoSubject))
    ensures |identifier| == 2 ==>
      var found := Registry.FindShort(cfg.options, identifier[1]);
      && (found.None? ==> r == Err(ParserError(InvalidOptionIdentifier, NoSubject)))
      && (found.Some? && found.value in p.optionsToTakeAction ==>
            r == Err(ParserError(RepeatedOccurenceOfOption, OptionSubject(found.value))))
      && (found.Some? && found.value !in p.optionsToTakeAction ==>
            r.Ok? &&
            (if OptionAt(cfg, found.value).IsParametrized()
             then r.value == p.(optionAwaitingParameter := found)
             else r.value == p.(optionsToTakeAction := p.optionsToTakeAction + {found.value})))
    ensures r.Ok? ==> Inv(cfg, r.value) && Follows(p, r.value)
  {
    var found := if |identifier| == 2 then Registry.FindShort(cfg.options, identifier[1]) else None;
    match CheckFindResult(cfg, p, found)
    case Some(e) => Err(e)
    case None =>
      var h := found.value;
      if OptionAt(cfg, h).IsParametrized() then Ok(p.(optionAwaitingParameter := Some(h)))
      else Ok(p.(optionsToTakeAction := p.optionsToTakeAction + {h}))
  }

  /** `SplitOptionIdentifierParameterPair`: cut at the first `=` only. */
  function SplitOptionIdentifierParameterPair(optionIdentifier: string): (r: (string, Option<string>))
    ensures r.1.None? ==> r.0 == optionIdentifier && '=' !in optionIdentifier
    ensures r.1.Some? ==> r.0 + "=" + r.1.value == optionIdentifier && '=' !in r.0
  {
    match IndexOf(optionIdentifier, '=')
    case None => (optionIdentifier, None)
    case Some(i) =>
      assert optionIdentifier == optionIdentifier[..i] + "=" + optionIdentifier[i + 1..];
      (optionIdentifier[..i], Some(optionIdentifier[i + 1..]))
  }

  /** The long identifier a long-option token names, and its inline value. */
  function LongIdentifier(argument: string): (r: (string, Option<string>))
    requires |argument| > 2 && argument[..2] == "--"
    ensures r.1.None? ==> "--" + r.0 == argument
    ensures r.1.Some? ==> "--" + r.0 + "=" + r.1.value == argument && '=' !in r.0
  {
    var split := SplitOptionIdentifierParameterPair(argument);
    var head := split.0;
    assert |head| >= 2 && head[..2] == "--" by {
      if split.1.Some? {
        assert argument == head + "=" + split.1.value;
        assert argument[|head|] == '=';
      }
    }
    assert head == "--" + head[2..];
    (head[2..], split.1)
  }

  /** Reading back a long token built from an identifier without `=`: the
      identifier, and the inline value when there is one. */
  lemma {:induction false} LongIdentifierRoundTrip(identifier: string, inline: Option<string>)
    requires '=' !in identifier && |identifier| > 0
    ensures var token := if inline.Some? then "--" + identifier + "=" + inline.value else "--" + identifier;
            |token| > 2 && token[..2] == "--" && LongIdentifier(token) == (identifier, inline)
  {
    var token := if inline.Some? then "--" + identifier + "=" + inline.value else "--" + identifier;
    var head := "--" + identifier;
    assert token[..2] == "--";
    assert '=' !in head by {
      forall k | 0 <= k < |head| ensures head[k] != '=' {
        if k >= 2 { assert head[k] == identifier[k - 2]; }
      }
    }
    match inline
    case None =>
    case Some(value) =>
      assert token[|head|] == '=' && token[..|head|] == head;
      Text.IndexOfFirst(token, '=', |head|);
      assert token[|head| + 1..] == value;
  }

  /** `HandleLongOptionIdentifier`: a parameterless option becomes ready and
      ignores any inline value; a parametrized one converts its inline
      value, or without one fails if its parameter is required and otherwise
      becomes ready with no value. The next token is never consumed. */
  function HandleLongOptionIdentifier(cfg: Config, p: Processor, argument: string): (r: Result<Processor, ParserError>)
    requires Inv(cfg, p) && p.optionAwaitingParameter.None?
    requires |argument| > 2 && argument[..2] == "--"
    ensures r.Ok? ==> Inv(cfg, r.value) && Follows(p, r.value)
    ensures var (identifier, inline) := LongIdentifier(argument);
            var found := Registry.FindLong(cfg.options, identifier);
            && (found.None? ==> r == Err(ParserError(InvalidOptionIdentifier, NoSubject)))
            && (found.Some? && found.value in p.optionsToTakeAction ==>
                  r == Err(ParserError(RepeatedOccurenceOfOption, OptionSubject(found.value))))
            && (found.Some? && found.value !in p.optionsToTakeAction ==>
                  var b := OptionAt(cfg, found.value).behaviour;
                  && (b.NoParameter? ==> r == Ok(p.(optionsToTakeAction := p.optionsToTakeAction + {found.value})))
                  && (b.Parametrized? && inline.None? && b.required ==>
                        r == Err(ParserError(MissingOptionParameter, OptionSubject(found.value))))
                  && (b.Parametrized? && inline.None? && !b.required ==>
                        r == Ok(p.(optionsToTakeAction := p.optionsToTakeAction + {found.value})))
                  && (b.Parametrized? && inline.Some? ==>
                        var processed := ProcessParameter(b.paramClass, p.optionSlots[found.value], inline.value);
                        && (r.Err? <==> !processed.ok)
                        && (r.Err? ==> r.error == ParserError(CouldNotParseTheParameter, NoSubject))
                        && (r.Ok? ==> r.value.optionSlots[found.value] == processed.slot
                                      && found.value in r.value.optionsToTakeAction)))
    ensures r.Ok? ==> r.value.optionAwaitingParameter.None?
                      && r.value.nextPlainArgumentPosition == p.nextPlainArgumentPosition
                      && r.value.excessivePlainArgumentsEntries == p.excessivePlainArgumentsEntries
  {
    var (identifier, inline) := LongIdentifier(argument);
    var found := Registry.FindLong(cfg.options, identifier);
    match CheckFindResult(cfg, p, found)
    case Some(e) => Err(e)
    case None =>
      var h := found.value;
      match OptionAt(cfg, h).behaviour
      case NoParameter => Ok(p.(optionsToTakeAction := p.optionsToTakeAction + {h}))
      case Parametrized(required, pc) =>
        match inline
        case None =>
          if required then Err(ParserError(MissingOptionParameter, OptionSubject(h)))
          else Ok(p.(optionsToTakeAction := p.optionsToTakeAction + {h}))
        case Some(value) =>
          var processed := ProcessParameter(pc, p.optionSlots[h], value);
          if !processed.ok then Err(ParserError(CouldNotParseTheParameter, SubjectOf(p.optionAwaitingParameter)))
          else Ok(p.(optionSlots := p.optionSlots[h := processed.slot],
                     optionsToTakeAction := p.optionsToTakeAction + {h}))
  }

  /** `ProcessPlainArgumentDelimiter`. */
  function ProcessPlainArgumentDelimiter(cfg: Config, p: Processor): (r: Processor)
    requires Inv(cfg, p) && p.optionAwaitingParameter.None?
    ensures Inv(cfg, r) && Follows(p, r) && r.state == PlainArguments
  {
    p.(state := PlainArguments)
  }

  /** The three identifier branches of `ProcessArgument` once a waiting
      option has been resolved: a short or long option, or the delimiter. */
  function HandleIdentifier(cfg: Config, p: Processor, argument: string): (r: Result<Processor, ParserError>)
    requires Inv(cfg, p) && p.state == Mixed && p.optionAwaitingParameter.None?
    requires DetermineArgumentType(argument) != ArgumentType.Other
    ensures r.Ok? ==> Inv(cfg, r.value) && Follows(p, r.value)
    ensures r.Err? ==> r.error.errorType != ParserErrorType.Other
    ensures r.Ok? ==> (r.value.state == PlainArguments <==> argument == "--")
  {
    match DetermineArgumentType(argument)
    case ShortOptionIdentifier => HandleShortOptionIdentifier(cfg, p, argument)
    case LongOptionIdentifier => HandleLongOptionIdentifier(cfg, p, argument)
    case PlainArgumentsDelimiter => Ok(ProcessPlainArgumentDelimiter(cfg, p))
  }

  /** `ProcessArgument`: one step of the scanner. */
  function ProcessArgument(cfg: Config, p: Processor, argument: string): (r: Result<Processor, ParserError>)
    requires Inv(cfg, p)
    ensures p.state == PlainArguments ==> r == HandlePlainArgument(cfg, p, argument)
    ensures p.state == Mixed && p.optionAwaitingParameter.Some? && DetermineArgumentType(argument) == ArgumentType.Other ==>
      r == PassArgumentToWaitingOption(cfg, p, argument)
    ensures p.state == Mixed && DetermineArgumentType(argument) != ArgumentType.Other ==>
      var resolved := ProcessPossibleWaitingOption(cfg, p);
      && (resolved.Err? ==> r == Err(resolved.error))
      && (resolved.Ok? ==> r == HandleIdentifier(cfg, resolved.value, argument))
    ensures p.state == Mixed && p.optionAwaitingParameter.None? && DetermineArgumentType(argument) == ArgumentType.Other ==>
      r == HandlePlainArgument(cfg, p, argument)
    ensures r.Ok? ==> Inv(cfg, r.value) && Follows(p, r.value)
    ensures r.Err? ==> r.error.errorType != ParserErrorType.Other
    ensures r.Ok? ==> (r.value.state == PlainArguments <==> p.state == PlainArguments || argument == "--")
  {
    if p.state == PlainArguments then HandlePlainArgument(cfg, p, argument)
    else if DetermineArgumentType(argument) == ArgumentType.Other then
      if p.optionAwaitingParameter.Some? then PassArgumentToWaitingOption(cfg, p, argument)
      else HandlePlainArgument(cfg, p, argument)
    else
      var q :- ProcessPossibleWaitingOption(cfg, p);
      var r := HandleIdentifier(cfg, q, argument);
      if r.Ok? then FollowsTransitive(p, q, r.value); r else r
  }

  /** The parser's loop: feed the tokens left to right, stopping at the first rejection. */
  function ProcessAll(cfg: Config, p: Processor, arguments: seq<string>): (r: Result<Processor, ParserError>)
    requires Inv(cfg, p)
    ensures r.Ok? ==> Inv(cfg, r.value) && Follows(p, r.value)
    ensures r.Err? ==> r.error.errorType != ParserErrorType.Other
    decreases |arguments|
  {
    if |arguments| == 0 then Ok(p)
    else
      var q :- ProcessArgument(cfg, p, arguments[0]);
      var r := ProcessAll(cfg, q, arguments[1..]);
      if r.Ok? then FollowsTransitive(p, q, r.value); r else r
  }

  /** The first listed handle that is not ready. */
  function FirstMissing(required: seq<nat>, ready: set<nat>): (r: Option<nat>)
    ensures r.None? <==> forall k :: 0 <= k < |required| ==> required[k] in ready
    ensures r.Some? ==> exists k :: 0 <= k < |required| && required[k] == r.value && r.value !in ready
                                    && forall j :: 0 <= j < k ==> required[j] in ready
  {
    if |required| == 0 then None
    else if required[0] !in ready then Some(required[0])
    else
      match FirstMissing(required[1..], ready)
      case None => None
      case Some(h) =>
        var k :| 0 <= k < |required[1..]| && required[1..][k] == h && h !in ready
                 && forall j :: 0 <= j < k ==> required[1..][j] in ready;
        assert required[k + 1] == h;
        Some(h)
  }

  /** The positions of the mandatory plain arguments, in order. */
  function MandatoryPlainArguments(plainArguments: seq<PlainArgument>): (r: seq<nat>)
    ensures forall k :: 0 <= k < |r| ==> r[k] < |plainArguments| && plainArguments[r[k]].mandatory
    ensures forall i :: 0 <= i < |plainArguments| && plainArguments[i].mandatory ==> i in r
    ensures forall j, k :: 0 <= j < k < |r| ==> r[j] < r[k]
    decreases |plainArguments|
  {
    if |plainArguments| == 0 then []
    else
      var last := |plainArguments| - 1;
      var prefix := MandatoryPlainArguments(plainArguments[..last]);
      assert forall k :: 0 <= k < |prefix| ==> plainArguments[..last][prefix[k]] == plainArguments[prefix[k]];
      prefix + (if plainArguments[last].mandatory then [last] else [])
  }

  /** `FinalizeProcessing`: resolve a waiting option, then check the
      mandatory options, then the mandatory plain arguments; on success
      hand over what is ready to fire and the excess entries. */
  function FinalizeProcessing(cfg: Config, p: Processor): (r: Result<ArgumentProcessingResult, ParserError>)
    requires Inv(cfg, p)
    ensures var resolved := ProcessPossibleWaitingOption(cfg, p);
            && (resolved.Err? ==> r == Err(resolved.error))
            && (resolved.Ok? && FirstMissing(cfg.options.mandatory, resolved.value.optionsToTakeAction).Some? ==>
                  r == Err(ParserError(MissingMandatoryOption,
                                       OptionSubject(FirstMissing(cfg.options.mandatory, resolved.value.optionsToTakeAction).value))))
            && (resolved.Ok? && FirstMissing(cfg.options.mandatory, resolved.value.optionsToTakeAction).None? ==>
                  var missing := FirstMissing(MandatoryPlainArguments(cfg.plainArguments), resolved.value.plainArgumentsToTakeAction);
                  && (r.Ok? <==> missing.None?)
                  && (missing.Some? ==> r == Err(ParserError(MissingMandatoryPlainArgument, PlainSubject(missing.value)))))
    ensures r.Err? ==> r.error.errorType in {MissingOptionParameter, MissingMandatoryOption, MissingMandatoryPlainArgument}
    ensures r.Ok? ==>
      && r.value.optionsToTakeAction == p.optionsToTakeAction + SetOf(p.optionAwaitingParameter)
      && r.value.plainArgumentsToTakeAction == p.plainArgumentsToTakeAction
      && r.value.excessivePlainArgumentsEntries == p.excessivePlainArgumentsEntries
      && r.value.optionSlots == p.optionSlots
      && r.value.plainSlots == p.plainSlots
      && (forall h :: 0 <= h < |cfg.options.options| && OptionAt(cfg, h).mandatory ==> h in r.value.optionsToTakeAction)
      && (forall i :: 0 <= i < |cfg.plainArguments| && cfg.plainArguments[i].mandatory ==> i in r.value.plainArgumentsToTakeAction)
  {
    var q :- ProcessPossibleWaitingOption(cfg, p);
    match FirstMissing(cfg.options.mandatory, q.optionsToTakeAction)
    case Some(h) => Err(ParserError(MissingMandatoryOption, OptionSubject(h)))
    case None =>
      match FirstMissing(MandatoryPlainArguments(cfg.plainArguments), q.plainArgumentsToTakeAction)
      case Some(i) => Err(ParserError(MissingMandatoryPlainArgument, PlainSubject(i)))
      case None =>
        Ok(ArgumentProcessingResult(
          q.optionsToTakeAction, q.plainArgumentsToTakeAction, q.excessivePlainArgumentsEntries,
          q.optionSlots, q.plainSlots))
  }

  /** Scanning a concatenation is scanning the first part and then, unless
      it was rejected, the second from where the first stopped; in
      particular a rejection is final whatever follows it. */
  lemma {:induction false} ProcessAllAppend(cfg: Config, p: Processor, first: seq<string>, second: seq<string>)
    requires Inv(cfg, p)
    ensures ProcessAll(cfg, p, first + second) ==
              match ProcessAll(cfg, p, first)
              case Err(e) => Err(e)
              case Ok(q) => ProcessAll(cfg, q, second)
    decreases |first|
  {
    if |first| == 0 {
      assert first + second == second;
    } else {
      assert (first + second)[0] == first[0];
      assert (first + second)[1..] == first[1..] + second;
      match ProcessArgument(cfg, p, first[0])
      case Err(_) =>
      case Ok(q) => ProcessAllAppend(cfg, q, first[1..], second);
    }
  }

  /** Once the delimiter has been seen and every plain slot is filled, every
      further token, whatever it looks like, is kept as an excess entry. */
  lemma {:induction false} AfterDelimiterAllExcess(cfg: Config, p: Processor, arguments: seq<string>)
    requires Inv(cfg, p) && p.state == PlainArguments
    requires p.nextPlainArgumentPosition == |cfg.plainArguments|
    ensures ProcessAll(cfg, p, arguments) ==
              Ok(p.(excessivePlainArgumentsEntries := p.excessivePlainArgumentsEntries + arguments))
    decreases |arguments|
  {
    if |arguments| > 0 {
      var q := p.(excessivePlainArgumentsEntries := p.excessivePlainArgumentsEntries + [arguments[0]]);
      assert ProcessArgument(cfg, p, arguments[0]) == Ok(q);
      AfterDelimiterAllExcess(cfg, q, arguments[1..]);
      assert ProcessAll(cfg, p, arguments) == ProcessAll(cfg, q, arguments[1..]);
      assert p.excessivePlainArgumentsEntries + [arguments[0]] + arguments[1..]
          == p.excessivePlainArgumentsEntries + arguments;
    } else {
      assert p.excessivePlainArgumentsEntries + arguments == p.excessivePlainArgumentsEntries;
    }
  }

  /** In `Mixed` state with nothing pending, `--` only switches to plain-argument mode. */
  lemma DelimiterSwitchesMode(cfg: Config, p: Processor)
    requires Inv(cfg, p) && p.state == Mixed && p.optionAwaitingParameter.None?
    ensures ProcessArgument(cfg, p, "--") == Ok(p.(state := PlainArguments))
  {
  }

  /** `-c` naming an option not yet seen: a parametrized option waits for
      the next token, a parameterless one becomes ready. */
  lemma ShortOptionStep(cfg: Config, p: Processor, c: char, h: nat)
    requires Inv(cfg, p) && p.state == Mixed && p.optionAwaitingParameter.None?
    requires c != '-' && Registry.FindShort(cfg.options, c) == Some(h) && h !in p.optionsToTakeAction
    ensures ProcessArgument(cfg, p, ['-', c]) ==
              Ok(if OptionAt(cfg, h).IsParametrized() then p.(optionAwaitingParameter := Some(h))
                 else p.(optionsToTakeAction := p.optionsToTakeAction + {h}))
  {
    assert ['-', c][1] == c;
  }

  /** The token after a waiting option, if not an identifier, is its
      parameter: when it converts, the option becomes ready holding the
      converted value and no option waits any more. */
  lemma ParameterArrives(cfg: Config, p: Processor, argument: string)
    requires Inv(cfg, p) && p.state == Mixed && p.optionAwaitingParameter.Some?
    requires DetermineArgumentType(argument) == ArgumentType.Other
    requires var h := p.optionAwaitingParameter.value;
             Parse(OptionAt(cfg, h).behaviour.paramClass, argument).Some?
    ensures var h := p.optionAwaitingParameter.value;
            ProcessArgument(cfg, p, argument) ==
              Ok(p.(optionSlots := p.optionSlots[h := Stored(Parse(OptionAt(cfg, h).behaviour.paramClass, argument).value)],
                    optionsToTakeAction := p.optionsToTakeAction + {h},
                    optionAwaitingParameter := None))
  {
  }

  /** `--name=value` naming a parametrized option not yet seen, whose value
      converts: the option becomes ready holding the converted value, and
      nothing else changes. */
  lemma InlineValueStored(cfg: Config, p: Processor, identifier: string, value: string, h: nat)
    requires Inv(cfg, p) && p.state == Mixed && p.optionAwaitingParameter.None?
    requires '=' !in identifier && |identifier| > 0
    requires Registry.FindLong(cfg.options, identifier) == Some(h) && h !in p.optionsToTakeAction
    requires OptionAt(cfg, h).behaviour.Parametrized?
    requires Parse(OptionAt(cfg, h).behaviour.paramClass, value).Some?
    ensures ProcessArgument(cfg, p, "--" + identifier + "=" + value) ==
              Ok(p.(optionSlots := p.optionSlots[h := Stored(Parse(OptionAt(cfg, h).behaviour.paramClass, value).value)],
                    optionsToTakeAction := p.optionsToTakeAction + {h}))
  {
    LongIdentifierRoundTrip(identifier, Some(value));
  }

  /** `--name` or `--name=anything` naming a parameterless option not yet
      seen: the option becomes ready and the inline value is ignored. */
  lemma ParameterlessLongReady(cfg: Config, p: Processor, identifier: string, inline: Option<string>, h: nat)
    requires Inv(cfg, p) && p.state == Mixed && p.optionAwaitingParameter.None?
    requires '=' !in identifier && |identifier| > 0
    requires Registry.FindLong(cfg.options, identifier) == Some(h) && h !in p.optionsToTakeAction
    requires OptionAt(cfg, h).behaviour.NoParameter?
    ensures var token := if inline.Some? then "--" + identifier + "=" + inline.value else "--" + identifier;
            ProcessArgument(cfg, p, token) == Ok(p.(optionsToTakeAction := p.optionsToTakeAction + {h}))
  {
    LongIdentifierRoundTrip(identifier, inline);
  }

  /** A plain token that converts fills the next declared slot and marks it ready. */
  lemma PlainTokenFillsNextSlot(cfg: Config, p: Processor, argument: string)
    requires Inv(cfg, p) && p.nextPlainArgumentPosition < |cfg.plainArguments|
    requires p.state == PlainArguments || (p.optionAwaitingParameter.None? && DetermineArgumentType(argument) == ArgumentType.Other)
    requires Parse(cfg.plainArguments[p.nextPlainArgumentPosition].paramClass, argument).Some?
    ensures var i := p.nextPlainArgumentPosition;
            ProcessArgument(cfg, p, argument) ==
              Ok(p.(nextPlainArgumentPosition := i + 1,
                    plainSlots := p.plainSlots[i := Stored(Parse(cfg.plainArguments[i].paramClass, argument).value)],
                    plainArgumentsToTakeAction := p.plainArgumentsToTakeAction + {i}))
  {
  }

  /** The declared plain arguments list every mandatory one before every optional one. */
  predicate MandatoryFirst(plainArguments: seq<PlainArgument>)
  {
    forall i, j :: 0 <= i < j < |plainArguments| && plainArguments[j].mandatory ==> plainArguments[i].mandatory
  }

  /** With mandatory arguments first, the plain-argument check of
      `FinalizeProcessing` passes exactly when the filled prefix covers every
      mandatory position. */
  lemma MandatoryPlainCheck(plainArguments: seq<PlainArgument>, ready: set<nat>, n: nat)
    requires MandatoryFirst(plainArguments) && n <= |plainArguments| && PositionsBelow(ready, n)
    ensures FirstMissing(MandatoryPlainArguments(plainArguments), ready).None?
            <==> (n == |plainArguments| || !plainArguments[n].mandatory)
  {
    var required := MandatoryPlainArguments(plainArguments);
    if n < |plainArguments| && plainArguments[n].mandatory {
      assert n in required && n !in ready;
    }
    if n == |plainArguments| || !plainArguments[n].mandatory {
      forall k | 0 <= k < |required| ensures required[k] in ready {
        var i := required[k];
        assert plainArguments[i].mandatory;
      }
    }
  }
}
