/** The value-conversion protocol: every conversion takes one token and
    either produces a value or fails, and multi-value conversion splits the
    token on a separator and converts every piece, failing as a whole. */
module Conversion {
  import opened Wrappers
  import opened Text

  const Int32Min: int := -0x8000_0000
  const Int32Max: int := 0x7FFF_FFFF

  predicate InInt32(n: int)
  {
    Int32Min <= n <= Int32Max
  }

  predicate IsDigit(c: char)
  {
    '0' as int <= c as int <= '9' as int
  }

  predicate AllDigits(s: string)
  {
    forall i :: 0 <= i < |s| ==> IsDigit(s[i])
  }

  function DigitValue(c: char): nat
    requires IsDigit(c)
  {
    (c as int) - ('0' as int)
  }

  function DigitChar(d: nat): char
    requires d < 10
  {
    ('0' as int + d) as char
  }

  /** The number a non-empty run of decimal digits denotes, read from the left. */
  function DigitsValue(s: string): nat
    requires AllDigits(s)
    decreases |s|
  {
    if |s| == 0 then 0 else DigitsValue(s[..|s| - 1]) * 10 + DigitValue(s[|s| - 1])
  }

  /** A whole token that is an optional `+` or `-` followed by at least one
      decimal digit, with the integer it denotes (unbounded). */
  function ParseDecimal(s: string): Option<int>
  {
    if |s| > 0 && (s[0] == '-' || s[0] == '+') then
      var digits := s[1..];
      if |digits| > 0 && AllDigits(digits) then
        var magnitude: int := DigitsValue(digits);
        Some(if s[0] == '-' then -magnitude else magnitude)
      else None
    else if |s| > 0 && AllDigits(s) then Some(DigitsValue(s))
    else None
  }

  /** `Int32.TryParse`: a signed decimal token whose value fits in 32 bits. */
  function ParseInt(s: string): (r: Option<int>)
    ensures r.Some? ==> InInt32(r.value) && ParseDecimal(s) == r
    ensures r.None? ==> ParseDecimal(s).None? || !InInt32(ParseDecimal(s).value)
  {
    match ParseDecimal(s)
    case Some(n) => if InInt32(n) then Some(n) else None
    case None => None
  }

  /** Decimal rendering of a natural number, without leading zeros. */
  function FormatNat(n: nat): (s: string)
    ensures |s| > 0 && AllDigits(s) && DigitsValue(s) == n
    decreases n
  {
    if n < 10 then [DigitChar(n)]
    else
      var s := FormatNat(n / 10) + [DigitChar(n % 10)];
      assert s[..|s| - 1] == FormatNat(n / 10);
      s
  }

  /** `int.ToString()` under the invariant culture. */
  function FormatInt(n: int): string
  {
    if n < 0 then "-" + FormatNat(-n) else FormatNat(n)
  }

  /** Every 32-bit integer survives rendering and re-parsing. */
  lemma ParseIntFormatInt(n: int)
    requires InInt32(n)
    ensures ParseInt(FormatInt(n)) == Some(n)
  {
    if n < 0 {
      var s := FormatInt(n);
      assert s[1..] == FormatNat(-n);
    }
  }

  /** ASCII upper-casing of a lower-case letter. */
  function UpperChar(c: char): char
  {
    if 'a' <= c <= 'z' then (c as int - 32) as char else c
  }

  /** `s` spells the lower-case word `w` with any letters in either case. */
  predicate CaseVariantOf(s: string, w: string)
  {
    |s| == |w| && forall i :: 0 <= i < |s| ==> s[i] == w[i] || s[i] == UpperChar(w[i])
  }

  function BoolWord(b: bool): string
  {
    if b then "true" else "false"
  }

  /** `bool.TryParse`: exactly the words true and false, ignoring case. */
  function ParseBool(s: string): Option<bool>
  {
    var lower := LowerAscii(s);
    if lower == "true" then Some(true)
    else if lower == "false" then Some(false)
    else None
  }

  /** A token parses as `b` exactly when it is a case variant of `b`'s word. */
  lemma ParseBoolCaseVariants(s: string, b: bool)
    ensures ParseBool(s) == Some(b) <==> CaseVariantOf(s, BoolWord(b))
  {
    var w := BoolWord(b);
    assert forall i :: 0 <= i < |w| ==> 'a' <= w[i] <= 'z';
    if |s| == |w| {
      var lower := LowerAscii(s);
      assert (lower == w) <==> (forall i :: 0 <= i < |s| ==> lower[i] == w[i]);
      forall i | 0 <= i < |s|
        ensures lower[i] == w[i] <==> (s[i] == w[i] || s[i] == UpperChar(w[i]))
      {
        assert lower[i] == LowerChar(s[i]);
      }
    }
    if ParseBool(s) == Some(b) {
      assert LowerAscii(s) == w;
    }
  }

  /** `Enum.TryParse` over a closed list of member names: the position of the
      member whose name is exactly the token. */
  function ParseEnum(names: seq<string>, s: string): (r: Option<nat>)
    ensures r.None? <==> s !in names
    ensures r.Some? ==> r.value < |names| && names[r.value] == s
  {
    IndexOf(names, s)
  }

  /** The built-in value kinds: String, Int with optional inclusive bounds,
      Bool, and a closed set of names standing for an enum type. */
  datatype ValueKind =
    | StringKind
    | IntKind(lower: Option<int>, upper: Option<int>)
    | BoolKind
    | EnumKind(names: seq<string>)

  datatype Value = StrVal(s: string) | IntVal(i: int) | BoolVal(b: bool) | EnumVal(index: nat)

  predicate WithinBounds(n: int, lower: Option<int>, upper: Option<int>)
  {
    (lower.None? || lower.value <= n) && (upper.None? || n <= upper.value)
  }

  /** One value of the given kind, or `None` when the token does not convert. */
  function Convert(kind: ValueKind, token: string): (r: Option<Value>)
    ensures kind.StringKind? ==> r == Some(StrVal(token))
    ensures kind.IntKind? ==>
      (r.Some? <==> ParseInt(token).Some? && WithinBounds(ParseInt(token).value, kind.lower, kind.upper))
    ensures kind.IntKind? && r.Some? ==> r.value == IntVal(ParseInt(token).value)
    ensures kind.BoolKind? ==> (r.Some? <==> ParseBool(token).Some?)
    ensures kind.BoolKind? && r.Some? ==> r.value == BoolVal(ParseBool(token).value)
    ensures kind.EnumKind? ==> (r.Some? <==> token in kind.names)
    ensures kind.EnumKind? && r.Some? ==> r.value.EnumVal? && r.value.index < |kind.names| && kind.names[r.value.index] == token
  {
    match kind
    case StringKind => Some(StrVal(token))
    case IntKind(lower, upper) =>
      (match ParseInt(token)
       case Some(n) => if WithinBounds(n, lower, upper) then Some(IntVal(n)) else None
       case None => None)
    case BoolKind =>
      (match ParseBool(token)
       case Some(b) => Some(BoolVal(b))
       case None => None)
    case EnumKind(names) =>
      (match ParseEnum(names, token)
       case Some(i) => Some(EnumVal(i))
       case None => None)
  }

  /** Converts every piece, or nothing at all: no partial array is produced. */
  function ConvertEach(kind: ValueKind, pieces: seq<string>): (r: Option<seq<Value>>)
    ensures r.Some? <==> forall i :: 0 <= i < |pieces| ==> Convert(kind, pieces[i]).Some?
    ensures r.Some? ==> |r.value| == |pieces|
    ensures r.Some? ==> forall i :: 0 <= i < |pieces| ==> r.value[i] == Convert(kind, pieces[i]).value
    decreases |pieces|
  {
    if |pieces| == 0 then Some([])
    else
      match Convert(kind, pieces[0])
      case None => None
      case Some(v) =>
        match ConvertEach(kind, pieces[1..])
        case None => None
        case Some(vs) => Some([v] + vs)
  }

  /** The multi-value conversion: split on the separator, then convert each piece. */
  function ConvertMultiple(kind: ValueKind, separator: char, token: string): Option<seq<Value>>
  {
    ConvertEach(kind, Split(token, separator))
  }

  /** String pieces always convert; there is one more piece than separators. */
  lemma MultipleStringsAlwaysConvert(separator: char, token: string)
    ensures ConvertMultiple(StringKind, separator, token).Some?
    ensures |ConvertMultiple(StringKind, separator, token).value| == multiset(token)[separator] + 1
  {
    SplitCount(token, separator);
  }

  /** A multi-value token converts exactly when each of its pieces does on its own. */
  lemma ConvertMultipleAtomic(kind: ValueKind, separator: char, token: string, i: nat)
    requires i < |Split(token, separator)|
    requires Convert(kind, Split(token, separator)[i]).None?
    ensures ConvertMultiple(kind, separator, token).None?
  {
  }
}
