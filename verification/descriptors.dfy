/** Option and plain-argument descriptors: what an option is called, whether
    it is mandatory, whether and how it takes a parameter, and the slot in
    which a parametrized descriptor keeps its converted value between
    `ProcessParameter` and `TakeAction`. */
module Descriptors {
  import opened Wrappers
  import opened Text
  import opened Conversion

  /** Separator used by multi-value descriptors unless another is given. */
  const DefaultSeparator: char := ','

  /** What a parametrized descriptor stores and hands to its action. */
  datatype Payload = Single(value: Value) | Multiple(values: seq<Value>)

  /** The stored-value field (`parserResult`, `parameter`, `parsedValue`, ...);
      `Empty` is the C# `null`. */
  datatype Slot = Empty | Stored(payload: Payload)

  /** The implemented parametrized option classes. */
  datatype ParamClass =
      /** `GenericParameterOption<T>` over a parse delegate of the given kind. */
    | GenericParameter(kind: ValueKind)
      /** `GenericMultipleParameterOption<T>`: split, then convert every piece. */
    | GenericMultipleParameter(kind: ValueKind, separator: char)
      /** `StringOption`. */
    | StringParameter
      /** `MultipleStringOption`; its separator property is not used when splitting. */
    | MultipleStringParameter(separator: char)
      /** `EnumOption<TEnum>` over the member names of `TEnum`. */
    | EnumParameter(names: seq<string>)
      /** `MultipleEnumOption<TEnum>`. */
    | MultipleEnumParameter(names: seq<string>, separator: char)

  /** `NoParameterOption`, or a `ParameterOption` whose parameter may be required. */
  datatype Behaviour = NoParameter | Parametrized(required: bool, paramClass: ParamClass)

  /** `IOption`: identified by short synonyms (`-f`) and long synonyms (`--size`). */
  datatype OptionDescriptor = OptionDescriptor(
    mandatory: bool,
    shortSynonyms: seq<char>,
    longSynonyms: seq<string>,
    behaviour: Behaviour)
  {
    predicate IsParametrized()
    {
      behaviour.Parametrized?
    }
  }

  /** `IPlainArgument`: a positional slot with the parameter protocol and no names. */
  datatype PlainArgument = PlainArgument(mandatory: bool, paramClass: ParamClass)

  datatype Processed = Processed(ok: bool, slot: Slot)

  /** What `TakeAction` passes to the action, and the slot it leaves behind. */
  datatype Fired = Fired(value: Option<Payload>, slot: Slot)

  /** The converter's verdict for one token. */
  function Parse(pc: ParamClass, token: string): (r: Option<Payload>)
    ensures pc.StringParameter? ==> r == Some(Single(StrVal(token)))
    ensures pc.EnumParameter? ==> (r.Some? <==> token in pc.names)
  {
    match pc
    case GenericParameter(kind) =>
      (match Convert(kind, token)
       case Some(v) => Some(Single(v))
       case None => None)
    case GenericMultipleParameter(kind, separator) =>
      (match ConvertMultiple(kind, separator, token)
       case Some(vs) => Some(Multiple(vs))
       case None => None)
    case StringParameter => Some(Single(StrVal(token)))
    case MultipleStringParameter(_) =>
      Some(Multiple(ConvertMultiple(StringKind, ',', token).value))
    case EnumParameter(names) =>
      (match ParseEnum(names, token)
       case Some(i) => Some(Single(EnumVal(i)))
       case None => None)
    case MultipleEnumParameter(names, separator) =>
      (match ConvertMultiple(EnumKind(names), separator, token)
       case Some(vs) => Some(Multiple(vs))
       case None => None)
  }

  /** `ProcessParameter`: true exactly when the token converts; the converted
      value is stored only then. On failure the slot is left as it was,
      except that `MultipleEnumOption` resets it to null. */
  function ProcessParameter(pc: ParamClass, slot: Slot, token: string): (r: Processed)
    ensures r.ok <==> Parse(pc, token).Some?
    ensures r.ok ==> r.slot == Stored(Parse(pc, token).value)
    ensures !r.ok && !pc.MultipleEnumParameter? ==> r.slot == slot
    ensures !r.ok && pc.MultipleEnumParameter? ==> r.slot == Empty
  {
    match Parse(pc, token)
    case Some(p) => Processed(true, Stored(p))
    case None => Processed(false, if pc.MultipleEnumParameter? then Empty else slot)
  }

  function SlotValue(slot: Slot): Option<Payload>
  {
    match slot
    case Empty => None
    case Stored(p) => Some(p)
  }

  /** `TakeAction` as the classes are written: every parametrized class
      passes its stored value and then clears it, except
      `GenericParameterOption`, which keeps it. */
  function TakeActionAsWritten(b: Behaviour, slot: Slot): (r: Fired)
    ensures b.NoParameter? ==> r.value.None?
    ensures b.Parametrized? ==> r.value == SlotValue(slot)
    ensures b.Parametrized? && b.paramClass.GenericParameter? ==> r.slot == slot
    ensures b.Parametrized? && !b.paramClass.GenericParameter? ==> r.slot == Empty
  {
    match b
    case NoParameter => Fired(None, slot)
    case Parametrized(_, GenericParameter(_)) => Fired(SlotValue(slot), slot)
    case Parametrized(_, _) => Fired(SlotValue(slot), Empty)
  }

  /** `TakeAction` with the stored value cleared by every parametrized class,
      so that a descriptor can be reused by the next parse. */
  function TakeAction(b: Behaviour, slot: Slot): (r: Fired)
    ensures b.NoParameter? ==> r == Fired(None, slot)
    ensures b.Parametrized? ==> r.value == SlotValue(slot) && r.slot == Empty
  {
    match b
    case NoParameter => Fired(None, slot)
    case Parametrized(_, _) => Fired(SlotValue(slot), Empty)
  }

  /** Reusing a `GenericParameterOption` as written: a value stored by one
      parse is handed to the action again by a later parse in which the
      option occurs without a parameter. */
  lemma StaleValueAsWritten()
    ensures var b := Parametrized(false, GenericParameter(StringKind));
            var first := ProcessParameter(b.paramClass, Empty, "json");
            var fired1 := TakeActionAsWritten(b, first.slot);
            var fired2 := TakeActionAsWritten(b, fired1.slot);
            fired1.value == Some(Single(StrVal("json"))) && fired2.value == Some(Single(StrVal("json")))
  {
  }

  /** The same sequence with `TakeAction`: the second firing sees no value. */
  lemma NoStaleValue(b: Behaviour, slot: Slot)
    requires b.Parametrized?
    ensures TakeAction(b, TakeAction(b, slot).slot).value.None?
  {
  }

  /** `StringOption` accepts every token and stores it verbatim. */
  lemma StringParameterStoresVerbatim(slot: Slot, token: string)
    ensures ProcessParameter(StringParameter, slot, token) == Processed(true, Stored(Single(StrVal(token))))
  {
  }

  /** `MultipleStringOption` always splits on a comma, whatever its separator. */
  lemma MultipleStringIgnoresSeparator(separator: char, token: string)
    ensures Parse(MultipleStringParameter(separator), token) == Parse(GenericMultipleParameter(StringKind, ','), token)
    ensures |Parse(MultipleStringParameter(separator), token).value.values| == multiset(token)[','] + 1
  {
    MultipleStringsAlwaysConvert(',', token);
  }

  /** A multi-value enum option that fails leaves no array behind. */
  lemma MultipleEnumFailureClears(names: seq<string>, separator: char, slot: Slot, token: string, i: nat)
    requires i < |Split(token, separator)| && Split(token, separator)[i] !in names
    ensures ProcessParameter(MultipleEnumParameter(names, separator), slot, token) == Processed(false, Empty)
  {
    ConvertMultipleAtomic(EnumKind(names), separator, token, i);
  }

  /** `IPlainArgument.CreatePlainArgument`: a single-value plain argument of the given kind. */
  function CreatePlainArgument(kind: ValueKind, isMandatory: bool): PlainArgument
  {
    PlainArgument(isMandatory, GenericParameter(kind))
  }

  /** `IPlainArgument.CreateMultipleParametersPlainArgument`. */
  function CreateMultipleParametersPlainArgument(kind: ValueKind, isMandatory: bool, separator: char := DefaultSeparator): PlainArgument
  {
    PlainArgument(isMandatory, GenericMultipleParameter(kind, separator))
  }

  /** A multi-value plain argument splits its token on its own separator and
      converts each piece; one failing piece rejects the token. */
  lemma MultiplePlainArgumentSplits(kind: ValueKind, isMandatory: bool, separator: char, token: string)
    ensures var a := CreateMultipleParametersPlainArgument(kind, isMandatory, separator);
            a.mandatory == isMandatory &&
            (Parse(a.paramClass, token).Some? <==>
               forall i :: 0 <= i < |Split(token, separator)| ==> Convert(kind, Split(token, separator)[i]).Some?)
  {
    var a := CreateMultipleParametersPlainArgument(kind, isMandatory, separator);
    assert Parse(a.paramClass, token) == (match ConvertEach(kind, Split(token, separator))
                                          case Some(vs) => Some(Multiple(vs))
                                          case None => None);
  }
}
