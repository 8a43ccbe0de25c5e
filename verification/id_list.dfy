/** `Numactl.IdList`: the id-list syntax of the numactl example, `all` or a
    comma-separated list of items, each a single id `N` or an inclusive
    range `A-B`. The exceptions the constructor can throw become the error
    values of a `Result`. */
module IdLists {
  import opened Wrappers
  import opened Text
  import opened Conversion

  /** `Ids == null` stands for the whole available range. */
  datatype IdList = All | Ids(ids: seq<int>)

  /** `FormatException`, `OverflowException`, and the
      `ArgumentOutOfRangeException` of `Enumerable.Range`. */
  datatype IdListError = FormatError | OverflowError | RangeError

  /** Two's-complement wrap-around of 32-bit `int` arithmetic. */
  function Wrap32(n: int): (r: int)
    ensures InInt32(r) && (r - n) % 0x1_0000_0000 == 0
    ensures InInt32(n) ==> r == n
  {
    (n - Int32Min) % 0x1_0000_0000 + Int32Min
  }

  /** `int.Parse`: a malformed token is a format error, a well-formed one
      outside 32 bits an overflow. */
  function ParseId(s: string): (r: Result<int, IdListError>)
    ensures r.Ok? <==> ParseInt(s).Some?
    ensures r.Ok? ==> r.value == ParseInt(s).value
    ensures r == Err(FormatError) <==> ParseDecimal(s).None?
    ensures r == Err(OverflowError) <==> ParseDecimal(s).Some? && !InInt32(ParseDecimal(s).value)
  {
    match ParseDecimal(s)
    case None => Err(FormatError)
    case Some(n) => if InInt32(n) then Ok(n) else Err(OverflowError)
  }

  /** `Enumerable.Range(start, count)`: `count` consecutive ids from `start`;
      a negative count, or one running past the 32-bit maximum, is refused. */
  function Range(start: int, count: int): (r: Result<seq<int>, IdListError>)
    ensures r.Err? <==> count < 0 || start + count - 1 > Int32Max
    ensures r.Err? ==> r.error == RangeError
    ensures r.Ok? ==> |r.value| == count && forall i :: 0 <= i < count ==> r.value[i] == start + i
  {
    if count < 0 || start + count - 1 > Int32Max then Err(RangeError)
    else Ok(seq(count, i requires 0 <= i < count => start + i))
  }

  /** `ParseItem`: one id, or the range from the first to the second id with
      the count computed in 32-bit arithmetic; more than one `-` is a
      format error. */
  function ParseItem(item: string): (r: Result<seq<int>, IdListError>)
    ensures |Split(item, '-')| > 2 ==> r == Err(FormatError)
  {
    var splits := Split(item, '-');
    if |splits| == 1 then
      var value :- ParseId(splits[0]);
      Range(value, 1)
    else if |splits| == 2 then
      var start :- ParseId(splits[0]);
      var end :- ParseId(splits[1]);
      Range(start, Wrap32(Wrap32(end - start) + 1))
    else Err(FormatError)
  }

  /** The ids of every result in order, or the first error. */
  function JoinResults(results: seq<Result<seq<int>, IdListError>>): (r: Result<seq<int>, IdListError>)
    ensures r.Ok? <==> forall k :: 0 <= k < |results| ==> results[k].Ok?
    ensures r.Err? ==> exists k :: 0 <= k < |results| && results[k] == Err(r.error)
                                   && forall j :: 0 <= j < k ==> results[j].Ok?
    ensures |results| == 1 ==> r == results[0]
    decreases |results|
  {
    if |results| == 0 then Ok([])
    else
      match results[0]
      case Err(e) => Err(e)
      case Ok(first) =>
        match JoinResults(results[1..])
        case Err(e) =>
          var k :| 0 <= k < |results| - 1 && results[1..][k] == Err(e)
                   && forall j :: 0 <= j < k ==> results[1..][j].Ok?;
          assert results[k + 1] == Err(e);
          Err(e)
        case Ok(rest) =>
          assert |results| == 1 ==> rest == [] && first + rest == first;
          Ok(first + rest)
  }

  lemma {:induction false} JoinResultsAppend(first: seq<Result<seq<int>, IdListError>>, second: seq<Result<seq<int>, IdListError>>)
    requires JoinResults(first).Ok? && JoinResults(second).Ok?
    ensures JoinResults(first + second) == Ok(JoinResults(first).value + JoinResults(second).value)
    decreases |first|
  {
    if |first| == 0 {
      assert first + second == second;
      assert [] + JoinResults(second).value == JoinResults(second).value;
    } else {
      var whole := first + second;
      assert whole[0] == first[0];
      assert whole[1..] == first[1..] + second;
      JoinResultsAppend(first[1..], second);
      var head := first[0].value;
      assert head + (JoinResults(first[1..]).value + JoinResults(second).value)
          == head + JoinResults(first[1..]).value + JoinResults(second).value;
    }
  }

  function ItemResults(items: seq<string>): (results: seq<Result<seq<int>, IdListError>>)
    ensures |results| == |items| && forall k :: 0 <= k < |items| ==> results[k] == ParseItem(items[k])
  {
    seq(|items|, k requires 0 <= k < |items| => ParseItem(items[k]))
  }

  /** Every item is well-formed and within range. */
  predicate AllItemsParse(items: seq<string>)
  {
    forall k :: 0 <= k < |items| ==> ParseItem(items[k]).Ok?
  }

  /** The items in order, their ids concatenated; the first failing item's
      error otherwise. */
  function ParseItems(items: seq<string>): (r: Result<seq<int>, IdListError>)
    ensures r.Ok? <==> AllItemsParse(items)
    ensures r.Err? ==> exists k :: 0 <= k < |items| && ParseItem(items[k]) == Err(r.error)
                                   && forall j :: 0 <= j < k ==> ParseItem(items[j]).Ok?
    ensures |items| > 0 && ParseItem(items[0]).Err? ==> r == ParseItem(items[0])
    ensures |items| == 1 ==> r == ParseItem(items[0])
  {
    JoinResults(ItemResults(items))
  }

  /** The `IdList(string)` constructor. */
  function ParseIdList(s: string): (r: Result<IdList, IdListError>)
    ensures s == "all" ==> r == Ok(All)
    ensures s != "all" ==> (r.Ok? <==> AllItemsParse(Split(s, ',')))
    ensures s != "all" && r.Ok? ==> r == Ok(Ids(Concat(ItemIds(Split(s, ',')))))
    ensures s != "all" && r.Err? ==> r.error == ParseItems(Split(s, ',')).error
  {
    if s == "all" then Ok(All)
    else
      var parsed := ParseItems(Split(s, ','));
      if parsed.Ok? then
        ParseItemsIds(Split(s, ','));
        Ok(Ids(parsed.value))
      else Err(parsed.error)
  }

  /** The ids of each item of a list whose items all parse. */
  function ItemIds(items: seq<string>): (ids: seq<seq<int>>)
    requires AllItemsParse(items)
    ensures |ids| == |items| && forall k :: 0 <= k < |items| ==> ParseItem(items[k]) == Ok(ids[k])
  {
    seq(|items|, k requires 0 <= k < |items| && AllItemsParse(items) => ParseItem(items[k]).value)
  }

  /** The parts laid end to end, built from the last part backwards. */
  function Concat(parts: seq<seq<int>>): seq<int>
  {
    if |parts| == 0 then [] else Concat(parts[..|parts| - 1]) + parts[|parts| - 1]
  }

  /** A list whose items all parse gives the items' ids concatenated in input order. */
  lemma {:induction false} ParseItemsIds(items: seq<string>)
    requires AllItemsParse(items)
    ensures ParseItems(items) == Ok(Concat(ItemIds(items)))
    decreases |items|
  {
    if |items| == 0 {
    } else {
      var n := |items| - 1;
      var front := items[..n];
      ItemsPrefix(items, n);
      ParseItemsIds(front);
      LastItem(items);
    }
  }

  lemma ItemsPrefix(items: seq<string>, n: nat)
    requires AllItemsParse(items) && n <= |items|
    ensures AllItemsParse(items[..n]) && ItemIds(items[..n]) == ItemIds(items)[..n]
  {
    assert forall k :: 0 <= k < n ==> items[..n][k] == items[k];
  }

  /** Appending the last item appends its ids. */
  lemma LastItem(items: seq<string>)
    requires AllItemsParse(items) && |items| > 0
    requires AllItemsParse(items[..|items| - 1])
    requires ParseItems(items[..|items| - 1]) == Ok(Concat(ItemIds(items[..|items| - 1])))
    ensures ParseItems(items) == Ok(Concat(ItemIds(items)))
  {
    var n := |items| - 1;
    ItemsPrefix(items, n);
    assert ParseItems([items[n]]) == ParseItem(items[n]) == Ok(ItemIds(items)[n]);
    assert items[..n] + [items[n]] == items;
    ParseItemsAppend(items[..n], [items[n]]);
  }

  /** Item results are concatenated in input order. */
  lemma ParseItemsAppend(first: seq<string>, second: seq<string>)
    requires ParseItems(first).Ok? && ParseItems(second).Ok?
    ensures ParseItems(first + second) == Ok(ParseItems(first).value + ParseItems(second).value)
  {
    var whole := ItemResults(first + second);
    var parts := ItemResults(first) + ItemResults(second);
    assert |whole| == |parts|;
    forall k | 0 <= k < |whole| ensures whole[k] == parts[k] {
      if k < |first| { assert (first + second)[k] == first[k]; }
      else { assert (first + second)[k] == second[k - |first|]; }
    }
    assert whole == parts;
    JoinResultsAppend(ItemResults(first), ItemResults(second));
  }

  /** An item with more than one `-` is a format error. */
  lemma TooManyDashes(item: string)
    requires multiset(item)['-'] >= 2
    ensures ParseItem(item) == Err(FormatError)
  {
    SplitCount(item, '-');
  }

  /** An item without `-` is exactly one id: the 32-bit value it spells. */
  lemma SingleItem(item: string)
    requires '-' !in item
    ensures ParseItem(item).Ok? <==> ParseInt(item).Some?
    ensures ParseItem(item).Ok? ==> ParseItem(item).value == [ParseInt(item).value]
  {
    assert Split(item, '-') == [item];
  }

  /** `A-B` with `A - 1 <= B` and at most `2^31 - 1` ids is the inclusive
      range from A to B: `B - A + 1` consecutive ids. */
  lemma RangeItem(a: nat, b: nat)
    requires InInt32(a) && InInt32(b) && a <= b + 1 && b - a + 1 <= Int32Max
    ensures var r := ParseItem(FormatNat(a) + "-" + FormatNat(b));
            && r.Ok? && |r.value| == b - a + 1
            && forall i :: 0 <= i < |r.value| ==> r.value[i] == a + i
  {
    RangeSplit(a, b);
    ParseIntFormatInt(a);
    ParseIntFormatInt(b);
  }

  /** A range item whose second id is below the first by more than one is refused. */
  lemma DescendingRangeRefused(a: nat, b: nat)
    requires InInt32(a) && InInt32(b) && b + 1 < a
    ensures ParseItem(FormatNat(a) + "-" + FormatNat(b)) == Err(RangeError)
  {
    RangeSplit(a, b);
    ParseIntFormatInt(a);
    ParseIntFormatInt(b);
  }

  /** `0-2147483647`: the count `2^31` wraps to a negative 32-bit value and
      the range is refused. */
  lemma FullRangeWraps()
    ensures ParseItem(FormatNat(0) + "-" + FormatNat(Int32Max)) == Err(RangeError)
  {
    RangeSplit(0, Int32Max);
    ParseIntFormatInt(0);
    ParseIntFormatInt(Int32Max);
    assert Wrap32(Int32Max - 0) == Int32Max;
    assert Wrap32(Int32Max + 1) == Int32Min;
  }

  lemma RangeSplit(a: nat, b: nat)
    ensures Split(FormatNat(a) + "-" + FormatNat(b), '-') == [FormatNat(a), FormatNat(b)]
  {
    var x := FormatNat(a);
    var y := FormatNat(b);
    NoDash(x);
    NoDash(y);
    assert Join([x, y], '-') == x + "-" + y;
    SplitJoin([x, y], '-');
  }

  lemma NoDash(s: string)
    requires AllDigits(s)
    ensures '-' !in s
  {
  }

  /** `-1`: the empty piece before the dash is not a number. */
  lemma NegativeIdRefused()
    ensures ParseIdList("-1") == Err(FormatError)
  {
    assert Split("-1", ',') == ["-1"];
    assert "-1"[0] == '-' && "-1"[1..] == "1";
    Text.IndexOfFirst("-1", '-', 0);
    assert Split("-1", '-') == [""] + Split("1", '-');
    assert Split("-1", '-')[0] == "";
  }

  lemma SplitOneEmptyTwo()
    ensures Split("1,,2", ',') == ["1", "", "2"]
  {
    var s := "1,,2";
    Text.IndexOfFirst(s, ',', 1);
    assert s[..1] == "1" && s[2..] == ",2";
    Text.IndexOfFirst(",2", ',', 0);
    assert ",2"[..0] == "" && ",2"[1..] == "2";
    assert Split("2", ',') == ["2"];
    assert Split(",2", ',') == ["", "2"];
  }

  lemma ItemOne()
    ensures ParseItem("1") == Ok([1])
  {
    assert Split("1", '-') == ["1"];
    assert DigitsValue("1") == DigitsValue("") * 10 + DigitValue('1');
    assert ParseId("1") == Ok(1);
    var one := Range(1, 1);
    assert one.Ok? && |one.value| == 1 && one.value[0] == 1;
    assert one.value == [1];
  }

  lemma ItemEmpty()
    ensures ParseItem("") == Err(FormatError)
  {
    assert Split("", '-') == [""];
  }

  /** `1,,2`: the empty item between the commas is not a number. */
  lemma EmptyItemRefused()
    ensures ParseIdList("1,,2") == Err(FormatError)
  {
    SplitOneEmptyTwo();
    ItemOne();
    ItemEmpty();
    var items := ["1", "", "2"];
    assert ParseItem(items[0]).Ok? && ParseItem(items[1]).Err?;
  }
}
