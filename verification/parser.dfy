/** `Parser`: the façade that owns the registry and the declared plain
    arguments, runs the scanner over a command line, finalizes it, and only
    then fires the actions of everything that became ready. A firing is an
    emitted `(position, value)` record in place of a delegate call. */
module ParserFacade {
  import opened Wrappers
  import opened Descriptors
  import opened Errors
  import Registry
  import Scanner

  datatype Parser = Parser(
    options: Registry.OptionSet,
    plainArguments: seq<PlainArgument>,
    optionSlots: seq<Slot>,
    plainSlots: seq<Slot>,
    remainingPlainArguments: Option<seq<string>>,
    error: Option<ParserError>)

  /** One action invocation: the descriptor's position and the value handed to it. */
  datatype Firing = Firing(index: nat, value: Option<Payload>)

  /** What `ParseCommandLine` returns, the parser after the call, and the
      actions it ran: options first, then plain arguments. */
  datatype Outcome = Outcome(ok: bool, parser: Parser, optionFirings: seq<Firing>, plainFirings: seq<Firing>)

  predicate Valid(p: Parser)
  {
    && Registry.Valid(p.options)
    && |p.optionSlots| == |p.options.options|
    && |p.plainSlots| == |p.plainArguments|
    && Scanner.ParameterlessHoldNothing(p.options.options, p.optionSlots)
  }

  function ConfigOf(p: Parser): Scanner.Config
  {
    Scanner.Config(p.options, p.plainArguments)
  }

  function EmptySlots(n: nat): (slots: seq<Slot>)
    ensures |slots| == n && forall i :: 0 <= i < n ==> slots[i] == Empty
  {
    seq(n, _ => Empty)
  }

  /** `new Parser()`: no options yet and no plain arguments declared. */
  function NewEmptyParser(): (p: Parser)
    ensures Valid(p) && p.options.options == [] && p.plainArguments == []
    ensures p.remainingPlainArguments.None? && p.error.None?
  {
    Parser(Registry.EmptySet, [], [], [], None, None)
  }

  /** `new Parser(plainArguments)` as written: any list is accepted. */
  function NewParserAsWritten(plainArguments: seq<PlainArgument>): (p: Parser)
    ensures Valid(p) && p.options.options == [] && p.plainArguments == plainArguments
    ensures forall i :: 0 <= i < |p.plainSlots| ==> p.plainSlots[i] == Empty
  {
    Parser(Registry.EmptySet, plainArguments, [], EmptySlots(|plainArguments|), None, None)
  }

  /** `new Parser(plainArguments)` with the documented requirement enforced:
      a list in which an optional plain argument precedes a mandatory one is
      refused (`None` stands for the constructor throwing). */
  function NewParser(plainArguments: seq<PlainArgument>): (r: Option<Parser>)
    ensures r.Some? <==> Scanner.MandatoryFirst(plainArguments)
    ensures r.Some? ==> Valid(r.value) && r.value.plainArguments == plainArguments && r.value.options.options == []
  {
    if Scanner.MandatoryFirst(plainArguments) then Some(NewParserAsWritten(plainArguments)) else None
  }

  /** `Add`: the registry's verdict; an accepted option gets an empty slot. */
  function Add(p: Parser, option: OptionDescriptor): (r: (bool, Parser))
    requires Valid(p)
    ensures Valid(r.1)
    ensures r.0 == Registry.Add(p.options, option).ok
    ensures !r.0 ==> r.1 == p
    ensures r.0 ==> r.1.options.options == p.options.options + [option]
                    && r.1.optionSlots == p.optionSlots + [Empty]
                    && r.1.plainArguments == p.plainArguments
  {
    var added := Registry.Add(p.options, option);
    if !added.ok then (false, p)
    else
      var q := p.(options := added.registry, optionSlots := p.optionSlots + [Empty]);
      assert forall h :: 0 <= h < |p.options.options| ==> q.options.options[h] == p.options.options[h];
      (true, q)
  }

  function OptionBehaviours(options: seq<OptionDescriptor>): (bs: seq<Behaviour>)
    ensures |bs| == |options| && forall h :: 0 <= h < |options| ==> bs[h] == options[h].behaviour
  {
    seq(|options|, h requires 0 <= h < |options| => options[h].behaviour)
  }

  /** A plain argument fires like a parametrized option of its class. */
  function PlainBehaviours(plainArguments: seq<PlainArgument>): (bs: seq<Behaviour>)
    ensures |bs| == |plainArguments|
    ensures forall i :: 0 <= i < |plainArguments| ==> bs[i] == Parametrized(true, plainArguments[i].paramClass)
  {
    seq(|plainArguments|, i requires 0 <= i < |plainArguments| => Parametrized(true, plainArguments[i].paramClass))
  }

  /** Some firing in `fs` is the action of descriptor `h`. */
  predicate FiresAt(fs: seq<Firing>, h: nat)
  {
    exists k :: 0 <= k < |fs| && fs[k].index == h
  }

  /** Positions strictly ascend along `fs`, so none fires twice. */
  predicate Ascending(fs: seq<Firing>)
  {
    forall j, k :: 0 <= j < k < |fs| ==> fs[j].index < fs[k].index
  }

  /** The position fired `k`-th, or -1 past the end. */
  function IndexAt(fs: seq<Firing>, k: int): int
  {
    if 0 <= k < |fs| then fs[k].index else -1
  }

  /** The actions of the ready descriptors among the first `n`, fired in
      ascending order, each once, with the value its `TakeAction` passes. */
  function Firings(behaviours: seq<Behaviour>, ready: set<nat>, slots: seq<Slot>, n: nat): (r: seq<Firing>)
    requires n <= |behaviours| == |slots|
    ensures forall k :: 0 <= k < |r| ==>
              r[k].index < n && r[k].index in ready
              && r[k].value == TakeAction(behaviours[r[k].index], slots[r[k].index]).value
    ensures forall i :: 0 <= i < n && i in ready ==> FiresAt(r, i)
    ensures Ascending(r)
    decreases n
  {
    if n == 0 then []
    else
      var firings := Firings(behaviours, ready, slots, n - 1);
      var h := n - 1;
      if h in ready then
        var last := Firing(h, TakeAction(behaviours[h], slots[h]).value);
        var firings' := firings + [last];
        assert forall k :: 0 <= k < |firings| ==> firings'[k] == firings[k];
        assert firings'[|firings|] == last;
        assert Ascending(firings') by {
          forall j, k | 0 <= j < k < |firings'|
            ensures firings'[j].index < firings'[k].index
          {
            assert firings'[j] == firings[j];
          }
        }
        forall i | 0 <= i < h && i in ready
          ensures FiresAt(firings', i)
        {
          var k :| 0 <= k < |firings| && firings[k].index == i;
        }
        firings'
      else firings
  }

  /** The slots once the ready descriptors have fired: a fired
      parametrized descriptor is cleared, every other slot is kept. */
  function AfterFiring(behaviours: seq<Behaviour>, ready: set<nat>, slots: seq<Slot>): (r: seq<Slot>)
    requires |behaviours| == |slots|
    ensures |r| == |slots|
    ensures forall i :: 0 <= i < |slots| ==>
              r[i] == (if i in ready && behaviours[i].Parametrized? then Empty else slots[i])
  {
    seq(|slots|, i requires 0 <= i < |slots| => if i in ready then TakeAction(behaviours[i], slots[i]).slot else slots[i])
  }

  /** The firings of one kind of descriptor and the slots they leave. */
  datatype Round = Round(firings: seq<Firing>, slots: seq<Slot>)

  /** Fires every ready descriptor once, in ascending order, each with the
      value its `TakeAction` passes, and clears the fired parametrized ones. */
  function FireReady(behaviours: seq<Behaviour>, ready: set<nat>, slots: seq<Slot>): (r: Round)
    requires |behaviours| == |slots| && forall h :: h in ready ==> h < |slots|
    ensures forall h :: h in ready <==> FiresAt(r.firings, h)
    ensures Ascending(r.firings)
    ensures forall k :: 0 <= k < |r.firings| ==>
              r.firings[k].index < |slots|
              && r.firings[k].value == TakeAction(behaviours[r.firings[k].index], slots[r.firings[k].index]).value
    ensures |r.slots| == |slots|
    ensures forall i :: 0 <= i < |slots| ==>
              r.slots[i] == (if i in ready && behaviours[i].Parametrized? then Empty else slots[i])
  {
    Round(Firings(behaviours, ready, slots, |slots|), AfterFiring(behaviours, ready, slots))
  }

  /** What a successful scan of `p`'s command line hands over: ready
      positions in range, values only where the scan stored them. */
  predicate Fits(p: Parser, res: Scanner.ArgumentProcessingResult)
    requires Valid(p)
  {
    && |res.optionSlots| == |p.options.options|
    && |res.plainSlots| == |p.plainArguments|
    && Scanner.ParameterlessHoldNothing(p.options.options, res.optionSlots)
    && (forall h :: h in res.optionsToTakeAction ==> h < |p.options.options|)
    && (forall i :: i in res.plainArgumentsToTakeAction ==> i < |p.plainArguments|)
    && (forall h :: 0 <= h < |p.options.options| && h !in res.optionsToTakeAction ==>
          res.optionSlots[h] == p.optionSlots[h])
    && (forall i :: 0 <= i < |p.plainArguments| && i !in res.plainArgumentsToTakeAction ==>
          res.plainSlots[i] == p.plainSlots[i])
  }

  /** The scan of a command line followed by `FinalizeProcessing`. */
  function Scan(p: Parser, arguments: seq<string>): (r: Result<Scanner.ArgumentProcessingResult, ParserError>)
    requires Valid(p)
    ensures r.Err? ==> r.error.errorType != ParserErrorType.Other
    ensures r.Ok? ==> Fits(p, r.value)
  {
    var cfg := ConfigOf(p);
    Scanner.StartInv(cfg, p.optionSlots, p.plainSlots);
    var start := Scanner.Start(p.optionSlots, p.plainSlots);
    match Scanner.ProcessAll(cfg, start, arguments)
    case Err(e) => Err(e)
    case Ok(q) => Scanner.FinalizeProcessing(cfg, q)
  }

  /** The scanner's run over a prefix of the command line. */
  function ScanPrefix(p: Parser, arguments: seq<string>): Result<Scanner.Processor, ParserError>
    requires Valid(p)
  {
    var cfg := ConfigOf(p);
    Scanner.StartInv(cfg, p.optionSlots, p.plainSlots);
    Scanner.ProcessAll(cfg, Scanner.Start(p.optionSlots, p.plainSlots), arguments)
  }

  /** Firing after a successful scan: exactly the ready options fire, in
      ascending order, then exactly the ready plain arguments; each passes
      the value its descriptor stored and a fired parametrized descriptor is
      cleared; the excess entries become `RemainingPlainArguments`, which is
      null when there are none. */
  function Commit(p: Parser, res: Scanner.ArgumentProcessingResult): (r: Outcome)
    requires Valid(p) && Fits(p, res)
    ensures r.ok && Valid(r.parser) && r.parser.error.None?
    ensures r.parser.options == p.options && r.parser.plainArguments == p.plainArguments
    ensures forall h :: h in res.optionsToTakeAction <==> FiresAt(r.optionFirings, h)
    ensures forall i :: i in res.plainArgumentsToTakeAction <==> FiresAt(r.plainFirings, i)
    ensures Ascending(r.optionFirings) && Ascending(r.plainFirings)
    ensures forall k :: 0 <= k < |r.optionFirings| ==>
              var h := r.optionFirings[k].index;
              h < |p.options.options| &&
              r.optionFirings[k].value ==
                (if p.options.options[h].IsParametrized() then SlotValue(res.optionSlots[h]) else None)
    ensures forall k :: 0 <= k < |r.plainFirings| ==>
              var i := r.plainFirings[k].index;
              i < |p.plainArguments| && r.plainFirings[k].value == SlotValue(res.plainSlots[i])
    ensures forall h :: 0 <= h < |p.options.options| ==>
              r.parser.optionSlots[h] ==
                (if h in res.optionsToTakeAction && p.options.options[h].IsParametrized() then Empty else res.optionSlots[h])
    ensures forall i :: 0 <= i < |p.plainArguments| ==>
              r.parser.plainSlots[i] == (if i in res.plainArgumentsToTakeAction then Empty else res.plainSlots[i])
    ensures r.parser.remainingPlainArguments ==
              (if |res.excessivePlainArgumentsEntries| == 0 then None else Some(res.excessivePlainArgumentsEntries))
  {
    var optionBehaviours := OptionBehaviours(p.options.options);
    var options := FireReady(optionBehaviours, res.optionsToTakeAction, res.optionSlots);
    var plain := FireReady(PlainBehaviours(p.plainArguments), res.plainArgumentsToTakeAction, res.plainSlots);
    var remaining := res.excessivePlainArgumentsEntries;
    var q := p.(optionSlots := options.slots, plainSlots := plain.slots,
                remainingPlainArguments := if |remaining| == 0 then None else Some(remaining),
                error := None);
    assert Scanner.ParameterlessHoldNothing(p.options.options, options.slots) by {
      forall h | 0 <= h < |p.options.options| && p.options.options[h].behaviour.NoParameter?
        ensures options.slots[h] == Empty
      {
        assert res.optionSlots[h] == Empty;
      }
    }
    Outcome(true, q, options.firings, plain.firings)
  }

  /** When exactly one option is ready, exactly one option action runs:
      that option's, with the value it stored. */
  lemma SingleReadyOptionFires(p: Parser, res: Scanner.ArgumentProcessingResult, h: nat)
    requires Valid(p) && Fits(p, res) && res.optionsToTakeAction == {h}
    ensures h < |p.options.options|
    ensures Commit(p, res).optionFirings ==
              [Firing(h, if p.options.options[h].IsParametrized() then SlotValue(res.optionSlots[h]) else None)]
  {
    var fs := Commit(p, res).optionFirings;
    forall k | 0 <= k < |fs| ensures fs[k].index == h {
      assert FiresAt(fs, fs[k].index);
    }
    assert FiresAt(fs, h);
    assert |fs| > 1 ==> IndexAt(fs, 0) < IndexAt(fs, 1);
  }

  /** When exactly one plain argument is ready, exactly one plain action
      runs: that argument's, with the value it stored. */
  lemma SingleReadyPlainFires(p: Parser, res: Scanner.ArgumentProcessingResult, i: nat)
    requires Valid(p) && Fits(p, res) && res.plainArgumentsToTakeAction == {i}
    ensures i < |p.plainArguments|
    ensures Commit(p, res).plainFirings == [Firing(i, SlotValue(res.plainSlots[i]))]
  {
    var fs := Commit(p, res).plainFirings;
    forall k | 0 <= k < |fs| ensures fs[k].index == i {
      assert FiresAt(fs, fs[k].index);
    }
    assert FiresAt(fs, i);
    assert |fs| > 1 ==> IndexAt(fs, 0) < IndexAt(fs, 1);
  }

  /** `ParseCommandLine`, completed: scan every token, finalize, and only on
      success fire the ready options and then the ready plain arguments.
      A failed parse fires nothing, records its error and leaves every
      descriptor as it was. */
  function ParseCommandLine(p: Parser, arguments: seq<string>): (r: Outcome)
    requires Valid(p)
    ensures Valid(r.parser)
    ensures r.parser.options == p.options && r.parser.plainArguments == p.plainArguments
    ensures r.ok <==> r.parser.error.None?
    ensures !r.ok ==>
      && r.optionFirings == [] && r.plainFirings == []
      && r.parser.optionSlots == p.optionSlots && r.parser.plainSlots == p.plainSlots
      && r.parser.remainingPlainArguments.None?
      && r.parser.error.value.errorType != ParserErrorType.Other
    ensures r.ok ==>
      && (forall k :: 0 <= k < |r.optionFirings| ==> r.optionFirings[k].index < |p.options.options|)
      && (forall h :: 0 <= h < |p.options.options| && p.options.options[h].mandatory ==> FiresAt(r.optionFirings, h))
      && (forall i :: 0 <= i < |p.plainArguments| && p.plainArguments[i].mandatory ==> FiresAt(r.plainFirings, i))
      && Ascending(r.optionFirings) && Ascending(r.plainFirings)
    ensures r.ok <==> Scan(p, arguments).Ok?
    ensures r.ok ==> r == Commit(p, Scan(p, arguments).value)
    ensures !r.ok ==> r.parser.error == Some(Scan(p, arguments).error)
  {
    match Scan(p, arguments)
    case Err(e) => Outcome(false, p.(remainingPlainArguments := None, error := Some(e)), [], [])
    case Ok(res) => Commit(p, res)
  }

  /** Parsing stops at the first rejected token: whatever follows it, the
      parse fails with that token's error and fires nothing. */
  lemma ParseStopsAtFirstRejection(p: Parser, arguments: seq<string>, k: nat)
    requires Valid(p) && k <= |arguments| && ScanPrefix(p, arguments[..k]).Err?
    ensures var r := ParseCommandLine(p, arguments);
            !r.ok && r.parser.error == Some(ScanPrefix(p, arguments[..k]).error)
            && r.optionFirings == [] && r.plainFirings == []
  {
    var cfg := ConfigOf(p);
    Scanner.StartInv(cfg, p.optionSlots, p.plainSlots);
    var start := Scanner.Start(p.optionSlots, p.plainSlots);
    Scanner.ProcessAllAppend(cfg, start, arguments[..k], arguments[k..]);
    assert arguments[..k] + arguments[k..] == arguments;
  }

  /** Reuse: a parser whose descriptors hold no values holds none after a
      parse, successful or not, so a second parse cannot see stale values. */
  lemma ParseLeavesNoValues(p: Parser, arguments: seq<string>)
    requires Valid(p)
    requires forall h :: 0 <= h < |p.optionSlots| ==> p.optionSlots[h] == Empty
    requires forall i :: 0 <= i < |p.plainSlots| ==> p.plainSlots[i] == Empty
    ensures var q := ParseCommandLine(p, arguments).parser;
            && (forall h :: 0 <= h < |q.optionSlots| ==> q.optionSlots[h] == Empty)
            && (forall i :: 0 <= i < |q.plainSlots| ==> q.plainSlots[i] == Empty)
  {
  }

  /** `Add` on a parser returns exactly the registry's verdict, and an
      accepted option is then found under every synonym it declares. */
  lemma AddRegistersSynonyms(p: Parser, option: OptionDescriptor, c: char, n: string)
    requires Valid(p) && Add(p, option).0
    ensures var q := Add(p, option).1;
            && (c in option.shortSynonyms ==> Registry.FindShort(q.options, c) == Some(|p.options.options|))
            && (n in option.longSynonyms ==> Registry.FindLong(q.options, n) == Some(|p.options.options|))
  {
    Registry.AddThenFind(p.options, option, c, n);
  }
}
