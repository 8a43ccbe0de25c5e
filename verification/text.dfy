/** Character-level string operations the engine relies on: `IndexOf`,
    `String.Split(char)` with the .NET rule that every separator produces a
    cut (so `""` splits into one empty piece), and ordinal ASCII case folding. */
module Text {
  import opened Wrappers

  /** Position of the first occurrence of `c` in `s`, if any. */
  function IndexOf<T(==)>(s: seq<T>, c: T): (r: Option<nat>)
    ensures r.None? <==> c !in s
    ensures r.Some? ==> r.value < |s| && s[r.value] == c && c !in s[..r.value]
  {
    if |s| == 0 then None
    else if s[0] == c then Some(0)
    else
      match IndexOf(s[1..], c)
      case None => None
      case Some(i) =>
        assert s[..i + 1] == [s[0]] + s[1..][..i];
        Some(i + 1)
  }

  /** `s.Split(sep)`: the maximal separator-free pieces between the
      occurrences of `sep`, including empty ones. */
  function Split(s: string, sep: char): (pieces: seq<string>)
    ensures |pieces| >= 1
    ensures forall k :: 0 <= k < |pieces| ==> sep !in pieces[k]
    decreases |s|
  {
    match IndexOf(s, sep)
    case None => [s]
    case Some(i) => [s[..i]] + Split(s[i + 1..], sep)
  }

  /** `string.Join(sep, pieces)`: the inverse of `Split`. */
  function Join(pieces: seq<string>, sep: char): string
  {
    if |pieces| == 0 then ""
    else if |pieces| == 1 then pieces[0]
    else pieces[0] + [sep] + Join(pieces[1..], sep)
  }

  /** Joining the pieces of a split gives back the original string. */
  lemma {:induction false} JoinSplit(s: string, sep: char)
    ensures Join(Split(s, sep), sep) == s
    decreases |s|
  {
    match IndexOf(s, sep)
    case None =>
    case Some(i) =>
      var rest := s[i + 1..];
      assert s == s[..i] + [sep] + rest;
      var tail := Split(rest, sep);
      JoinSplit(rest, sep);
      var pieces := [s[..i]] + tail;
      assert Split(s, sep) == pieces;
      assert pieces[1..] == tail;
      assert Join(pieces, sep) == s[..i] + [sep] + Join(tail, sep);
  }

  /** `IndexOf` finds the first occurrence it is shown. */
  lemma {:induction false} IndexOfFirst<T>(s: seq<T>, c: T, i: nat)
    requires i < |s| && s[i] == c && c !in s[..i]
    ensures IndexOf(s, c) == Some(i)
  {
    if i > 0 {
      assert s[0] in s[..i];
      var t := s[1..][..i - 1];
      assert c !in t by {
        forall k | 0 <= k < |t| ensures t[k] != c {
          assert t[k] == s[..i][k + 1];
        }
      }
      IndexOfFirst(s[1..], c, i - 1);
    }
  }

  /** Splitting a join of separator-free pieces gives back the pieces. */
  lemma {:induction false} SplitJoin(pieces: seq<string>, sep: char)
    requires |pieces| >= 1
    requires forall k :: 0 <= k < |pieces| ==> sep !in pieces[k]
    ensures Split(Join(pieces, sep), sep) == pieces
    decreases |pieces|
  {
    if |pieces| == 1 {
      assert IndexOf(pieces[0], sep).None?;
    } else {
      var s := Join(pieces, sep);
      var tail := Join(pieces[1..], sep);
      var p := pieces[0];
      assert s == p + [sep] + tail;
      assert s[..|p|] == p;
      IndexOfFirst(s, sep, |p|);
      assert s[|p| + 1..] == tail;
      SplitJoin(pieces[1..], sep);
      assert Split(s, sep) == [p] + pieces[1..];
    }
  }

  /** A split yields one more piece than there are separators in the input. */
  lemma {:induction false} SplitCount(s: string, sep: char)
    ensures |Split(s, sep)| == multiset(s)[sep] + 1
    decreases |s|
  {
    match IndexOf(s, sep)
    case None =>
    case Some(i) =>
      var rest := s[i + 1..];
      SplitCount(rest, sep);
      assert s == s[..i] + [sep] + rest;
      assert multiset(s) == multiset(s[..i]) + multiset{sep} + multiset(rest);
      assert multiset(s[..i])[sep] == 0;
  }

  /** Ordinal ASCII lower-casing of one character. */
  function LowerChar(c: char): char
  {
    if 'A' <= c <= 'Z' then (c as int + 32) as char else c
  }

  /** Ordinal ASCII lower-casing of a string. */
  function LowerAscii(s: string): string
  {
    seq(|s|, i requires 0 <= i < |s| => LowerChar(s[i]))
  }

  /** `s` begins with `prefix`, compared character by character (ordinally),
      where the string overload of .NET `StartsWith` uses the current culture. */
  predicate StartsWith(s: string, prefix: string)
  {
    |prefix| <= |s| && s[..|prefix|] == prefix
  }
}
