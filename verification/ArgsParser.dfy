/**
 The agent's option string: `key=value` items separated by commas. The loop of
 `parseProfilerOptions` is compared, on every string, with splitting the string
 at commas and each item at its first '='.
 */
module ArgsParser {
  import opened Basics
  import Decimal

  datatype Error = NoEqualsSign | BadMethod | BadNumber | MethodMissing

  datatype Result<+T> = Ok(value: T) | Failed(error: Error)

  /** What has been read so far; times are in nanoseconds. */
  datatype Settings = Settings(
    target: Option<(string, string)>,    // class and method
    period: int,
    threshold: int,
    jarPath: Option<string>,
    outputPath: Option<string>)

  datatype ProfilerOptions = ProfilerOptions(
    className: string,
    methodName: string,
    period: int,
    threshold: int,
    jarPath: Option<string>,
    outputPath: string)

  const DEFAULTS := Settings(None, 1_000_000, 0, None, None)

  // ---------- strings ----------

  /** `s.find(c, from)`; the length stands for `npos`. */
  function Find(s: string, c: char, from: nat): (k: nat)
    requires from <= |s|
    ensures from <= k <= |s|
    ensures k < |s| ==> s[k] == c
    ensures forall i :: from <= i < k ==> s[i] != c
    decreases |s| - from
  {
    if from == |s| || s[from] == c then from else Find(s, c, from + 1)
  }

  /** `s.substr(from, count)` with an unsigned count: a negative one wraps around and means the rest. */
  function Substr(s: string, from: nat, count: int): string
    requires from <= |s|
  {
    if 0 <= count <= |s| - from then s[from..from + count] else s[from..]
  }

  predicate IsSpace(c: char) {
    c == ' ' || '\t' <= c <= '\r'
  }

  predicate IsDigit(c: char) {
    '0' <= c <= '9'
  }

  function SkipSpace(s: string): string {
    if s != [] && IsSpace(s[0]) then SkipSpace(s[1..]) else s
  }

  /** The digits at the beginning of a string. */
  function LeadingDigits(s: string): (d: string)
    ensures d <= s && forall i :: 0 <= i < |d| ==> IsDigit(d[i])
  {
    if s != [] && IsDigit(s[0]) then [s[0]] + LeadingDigits(s[1..]) else []
  }

  function DigitValue(c: char): nat
    requires IsDigit(c)
  {
    c as int - '0' as int
  }

  function DigitsValue(d: string): nat
    requires forall i :: 0 <= i < |d| ==> IsDigit(d[i])
  {
    if d == [] then 0 else 10 * DigitsValue(d[..|d| - 1]) + DigitValue(d[|d| - 1])
  }

  /** `std::stoi`: leading space, a sign, digits; what follows is ignored. Fails outside 32 bits. */
  function Stoi(s: string): Result<int> {
    var t := SkipSpace(s);
    var signed := t != [] && (t[0] == '-' || t[0] == '+');
    var digits := LeadingDigits(if signed then t[1..] else t);
    var n := if signed && t[0] == '-' then 0 - DigitsValue(digits) else DigitsValue(digits) as int;
    if digits == [] || !(-0x8000_0000 <= n < 0x8000_0000) then Failed(BadNumber) else Ok(n)
  }

  // ---------- options ----------

  /** Splits at the first '.'. */
  function ParseMethod(option: string): Result<(string, string)> {
    var k := Find(option, '.', 0);
    if k == |option| then Failed(BadMethod) else Ok((option[..k], option[k + 1..]))
  }

  function ParsePeriod(option: string): Result<int> {
    Stoi(option)
  }

  /** Milliseconds to nanoseconds, which fits in 64 bits. */
  function ParseThreshold(option: string): (r: Result<int>)
    ensures r.Ok? ==> -0x8000_0000_0000_0000 <= r.value < 0x8000_0000_0000_0000
  {
    match Stoi(option)
    case Ok(n) => Ok(n * 1_000_000)
    case Failed(e) => Failed(e)
  }

  /** The effect of one key and value; unknown keys have none. */
  function SetOption(s: Settings, key: string, value: string): Result<Settings> {
    if key == "method" then
      match ParseMethod(value)
      case Ok(t) => Ok(s.(target := Some(t)))
      case Failed(e) => Failed(e)
    else if key == "period" then
      match ParsePeriod(value)
      case Ok(n) => Ok(s.(period := n))
      case Failed(e) => Failed(e)
    else if key == "jarPath" then Ok(s.(jarPath := Some(value)))
    else if key == "outputPath" then Ok(s.(outputPath := Some(value)))
    else if key == "threshold" then
      match ParseThreshold(value)
      case Ok(n) => Ok(s.(threshold := n))
      case Failed(e) => Failed(e)
    else Ok(s)
  }

  /** The method is required; the output path defaults to the working directory. */
  function Finish(r: Result<Settings>, workingDirectory: string): Result<ProfilerOptions> {
    match r
    case Failed(e) => Failed(e)
    case Ok(s) =>
      if s.target.None? then Failed(MethodMissing) else
      Ok(ProfilerOptions(s.target.value.0, s.target.value.1, s.period, s.threshold, s.jarPath,
                         if s.outputPath.Some? then s.outputPath.value else workingDirectory))
  }

  // ---------- the reference: items between commas ----------

  /** The items of a string; nothing follows a comma at the end. */
  function Items(s: string): (items: seq<string>)
    ensures items != []
    decreases |s|
  {
    var k := Find(s, ',', 0);
    if k + 1 >= |s| then [s[..k]] else [s[..k]] + Items(s[k + 1..])
  }

  /** Some item has an '='. */
  predicate AnyEquals(items: seq<string>) {
    items != [] && ('=' in items[0] || AnyEquals(items[1..]))
  }

  /**
   Reads items one after the other. An item without '=' is skipped if an '=' comes
   later, and an error otherwise.
   */
  function ReadItems(items: seq<string>, s: Settings): Result<Settings> {
    if items == [] then Ok(s) else
    var k := Find(items[0], '=', 0);
    if k == |items[0]| then
      if AnyEquals(items[1..]) then ReadItems(items[1..], s) else Failed(NoEqualsSign)
    else
      match SetOption(s, items[0][..k], items[0][k + 1..])
      case Ok(t) => ReadItems(items[1..], t)
      case Failed(e) => Failed(e)
  }

  // ---------- the loop ----------

  method ParseProfilerOptions(options: string, workingDirectory: string) returns (r: Result<ProfilerOptions>)
    ensures r == Finish(ReadItems(Items(options), DEFAULTS), workingDirectory)
  {
    hide ReadItems, Items, SetOption;
    var settings := DEFAULTS;
    var position := 0;
    var again := true;
    assert options[0..] == options;
    while again
      invariant position <= |options| || !again
      invariant again ==> ReadItems(Items(options[position..]), settings) == ReadItems(Items(options), DEFAULTS)
      invariant !again ==> Ok(settings) == ReadItems(Items(options), DEFAULTS)
      decreases again, |options| - position
    {
      var delimiter := Find(options, ',', position);
      var equals := Find(options, '=', position);
      if equals == |options| {
        NoEqualsLeft(options, position, settings);
        return Failed(NoEqualsSign);
      }
      var key := Substr(options, position, equals - position);
      var value := Substr(options, equals + 1, delimiter - equals - 1);
      OneItem(options, position, settings, delimiter, equals);
      var next := SetOption(settings, key, value);
      if next.Failed? {
        return Failed(next.error);
      }
      settings := next.value;
      position := delimiter + 1;
      again := position < |options|;
    }
    r := Finish(Ok(settings), workingDirectory);
  }

  /** The first occurrence is the only place that can be the result. */
  lemma {:induction false} FindIs(s: string, c: char, from: nat, k: nat)
    requires from <= k <= |s| && (k < |s| ==> s[k] == c) && forall i :: from <= i < k ==> s[i] != c
    ensures Find(s, c, from) == k
  {
  }

  lemma {:induction false} ItemsOfOne(item: string)
    requires ',' !in item
    ensures Items(item) == [item]
  {
    FindIs(item, ',', 0, |item|);
    assert item[..|item|] == item;
  }

  lemma {:induction false} ItemsOfMore(item: string, rest: string)
    requires ',' !in item && rest != []
    ensures Items(item + "," + rest) == [item] + Items(rest)
  {
    var s := item + "," + rest;
    FindIs(s, ',', 0, |item|);
    assert s[..|item|] == item && s[|item| + 1..] == rest;
  }

  lemma {:induction false} ItemsOfLast(item: string)
    requires ',' !in item
    ensures Items(item + ",") == [item]
  {
    FindIs(item + ",", ',', 0, |item|);
    assert (item + ",")[..|item|] == item;
  }

  /** The items of the rest of the string begin with what lies before the next comma. */
  lemma {:induction false} FirstItem(s: string, from: nat)
    requires from <= |s|
    ensures var d := Find(s, ',', from);
      Items(s[from..]) == [s[from..d]] + (if d + 1 >= |s| then [] else Items(s[d + 1..]))
  {
    hide Items;
    var d := Find(s, ',', from);
    var item := s[from..d];
    if d == |s| {
      assert s[from..] == item;
      ItemsOfOne(item);
    } else if d + 1 == |s| {
      assert s[from..] == item + ",";
      ItemsOfLast(item);
    } else {
      assert s[from..] == item + "," + s[d + 1..];
      ItemsOfMore(item, s[d + 1..]);
    }
  }

  /** An '=' is in the string exactly if it is in one of its items. */
  lemma {:induction false} EqualsInItems(s: string)
    ensures '=' in s <==> AnyEquals(Items(s))
    decreases |s|
  {
    var d := Find(s, ',', 0);
    if d + 1 >= |s| {
      assert s == s[..d] || s == s[..d] + [','];
      assert Items(s) == [s[..d]];
      assert Items(s)[1..] == [];
    } else {
      var rest := s[d + 1..];
      EqualsInItems(rest);
      assert s == s[..d] + [','] + rest;
      assert Items(s) == [s[..d]] + Items(rest);
      assert Items(s)[1..] == Items(rest);
    }
  }

  lemma {:induction false} NoEqualsLeft(s: string, from: nat, settings: Settings)
    requires from <= |s| && Find(s, '=', from) == |s|
    ensures ReadItems(Items(s[from..]), settings) == Failed(NoEqualsSign)
  {
    hide SetOption;
    assert '=' !in s[from..];
    EqualsInItems(s[from..]);
    var items := Items(s[from..]);
    FindIs(items[0], '=', 0, |items[0]|);
  }

  /** What reading an item with an '=' does, and one without that is not the last such. */
  lemma {:induction false} ReadOne(item: string, rest: seq<string>, s: Settings)
    requires Find(item, '=', 0) < |item| || AnyEquals(rest)
    ensures var k := Find(item, '=', 0);
      ReadItems([item] + rest, s) ==
      if k == |item| then ReadItems(rest, s) else
      match SetOption(s, item[..k], item[k + 1..])
      case Ok(t) => ReadItems(rest, t)
      case Failed(e) => Failed(e)
  {
    hide SetOption, AnyEquals;
    assert ([item] + rest)[1..] == rest;
  }

  /** One turn of the loop reads one item. */
  lemma {:induction false} OneItem(s: string, from: nat, settings: Settings, delimiter: nat, equals: nat)
    requires from <= |s| && delimiter == Find(s, ',', from) && equals == Find(s, '=', from) < |s|
    ensures var next := SetOption(settings, Substr(s, from, equals - from),
      Substr(s, equals + 1, delimiter - equals - 1));
      ReadItems(Items(s[from..]), settings) ==
      match next
      case Failed(e) => Failed(e)
      case Ok(t) => if delimiter + 1 >= |s| then Ok(t) else ReadItems(Items(s[delimiter + 1..]), t)
  {
    hide SetOption, Items, AnyEquals, ReadItems, Find, Substr;
    FirstItem(s, from);
    var item := s[from..delimiter];
    var rest := if delimiter + 1 >= |s| then [] else Items(s[delimiter + 1..]);
    NothingToRead();
    if equals < delimiter {
      SplitItem(s, from, delimiter, equals);
    } else {
      SkippedItem(s, from, delimiter, equals);
      CommaInKey(settings, Substr(s, from, equals - from), Substr(s, equals + 1, delimiter - equals - 1));
    }
    ReadOne(item, rest, settings);
  }

  lemma {:induction false} NothingToRead()
    ensures forall s :: ReadItems([], s) == Ok(s)
  {
  }

  lemma {:induction false} FindIn(s: string, c: char, from: nat, to: nat)
    requires from <= to <= |s| && Find(s, c, from) < to
    ensures Find(s[from..to], c, 0) == Find(s, c, from) - from
  {
    FindIs(s[from..to], c, 0, Find(s, c, from) - from);
  }

  lemma {:induction false} SplitItem(s: string, from: nat, delimiter: nat, equals: nat)
    requires from <= delimiter <= |s| && equals == Find(s, '=', from) < delimiter
    ensures var item := s[from..delimiter];
      var k := Find(item, '=', 0);
      && k == equals - from < |item|
      && Substr(s, from, equals - from) == item[..k]
      && Substr(s, equals + 1, delimiter - equals - 1) == item[k + 1..]
  {
    FindIn(s, '=', from, delimiter);
  }

  /** A key that swallows a comma is unknown. */
  lemma {:induction false} CommaInKey(settings: Settings, key: string, value: string)
    requires ',' in key
    ensures SetOption(settings, key, value) == Ok(settings)
  {
    assert ',' !in "method" && ',' !in "period" && ',' !in "jarPath" && ',' !in "outputPath" && ',' !in "threshold";
  }

  lemma {:induction false} SkippedItem(s: string, from: nat, delimiter: nat, equals: nat)
    requires from <= |s| && delimiter == Find(s, ',', from) < equals == Find(s, '=', from) < |s|
    ensures ',' in Substr(s, from, equals - from)
    ensures Find(s[from..delimiter], '=', 0) == delimiter - from
    ensures delimiter + 1 < |s| && AnyEquals(Items(s[delimiter + 1..]))
  {
    assert Substr(s, from, equals - from)[delimiter - from] == ',';
    FindIs(s[from..delimiter], '=', 0, delimiter - from);
    assert s[delimiter + 1..][equals - delimiter - 1] == '=';
    EqualsInItems(s[delimiter + 1..]);
  }

  // ---------- printing and parsing ----------

  type Pair = (string, string)

  /** Keys without ',' and '=', values without ','. */
  ghost predicate Printable(p: Pair) {
    ',' !in p.0 && '=' !in p.0 && ',' !in p.1
  }

  function Print(p: Pair): string {
    p.0 + "=" + p.1
  }

  function PrintAll(ps: seq<Pair>): string
    requires ps != []
  {
    if |ps| == 1 then Print(ps[0]) else Print(ps[0]) + "," + PrintAll(ps[1..])
  }

  function Printed(ps: seq<Pair>): (items: seq<string>)
    ensures |items| == |ps| && forall i :: 0 <= i < |ps| ==> items[i] == Print(ps[i])
  {
    seq(|ps|, i requires 0 <= i < |ps| => Print(ps[i]))
  }

  /** Sets the options of a list one after the other. */
  function SetAll(ps: seq<Pair>, s: Settings): Result<Settings> {
    if ps == [] then Ok(s) else
    match SetOption(s, ps[0].0, ps[0].1)
    case Ok(t) => SetAll(ps[1..], t)
    case Failed(e) => Failed(e)
  }

  lemma {:induction false} PrintHasNoComma(p: Pair)
    requires Printable(p)
    ensures ',' !in Print(p) && |Print(p)| > 0
    ensures Find(Print(p), '=', 0) == |p.0|
  {
    FindIs(Print(p), '=', 0, |p.0|);
  }

  lemma {:induction false} ItemsOfPrint(ps: seq<Pair>)
    requires ps != [] && forall i :: 0 <= i < |ps| ==> Printable(ps[i])
    ensures |PrintAll(ps)| > 0
    ensures Items(PrintAll(ps)) == Printed(ps)
  {
    hide Items, Print;
    PrintHasNoComma(ps[0]);
    if |ps| == 1 {
      ItemsOfOne(Print(ps[0]));
    } else {
      ItemsOfPrint(ps[1..]);
      ItemsOfMore(Print(ps[0]), PrintAll(ps[1..]));
      assert Printed(ps) == [Print(ps[0])] + Printed(ps[1..]);
    }
  }

  lemma {:induction false} ReadPrinted(ps: seq<Pair>, s: Settings)
    requires forall i :: 0 <= i < |ps| ==> Printable(ps[i])
    ensures ReadItems(Printed(ps), s) == SetAll(ps, s)
  {
    hide SetOption;
    if ps != [] {
      var items, p := Printed(ps), ps[0];
      PrintHasNoComma(p);
      assert items[0] == Print(p) && items[1..] == Printed(ps[1..]);
      assert items[0][..|p.0|] == p.0 && items[0][|p.0| + 1..] == p.1;
      var next := SetOption(s, p.0, p.1);
      if next.Ok? { ReadPrinted(ps[1..], next.value); }
    }
  }

  /** The value of the last pair with a key. */
  function LastValue(ps: seq<Pair>, key: string): Option<string> {
    if ps == [] then None else
    if ps[|ps| - 1].0 == key then Some(ps[|ps| - 1].1) else LastValue(ps[..|ps| - 1], key)
  }

  lemma {:induction false} SetAllConcat(ps: seq<Pair>, p: Pair, s: Settings)
    ensures SetAll(ps + [p], s) ==
      match SetAll(ps, s)
      case Ok(t) => SetOption(t, p.0, p.1)
      case Failed(e) => Failed(e)
  {
    hide SetOption;
    if ps == [] {
      assert ([] + [p])[1..] == [];
    } else {
      assert (ps + [p])[1..] == ps[1..] + [p];
      var next := SetOption(s, ps[0].0, ps[0].1);
      if next.Ok? { SetAllConcat(ps[1..], p, next.value); }
    }
  }

  /** A value that its key accepts. */
  predicate GoodValue(key: string, value: string) {
    && (key == "method" ==> '.' in value)
    && (key == "period" || key == "threshold" ==> Stoi(value).Ok?)
  }

  lemma {:induction false} SetOptionOkIff(s: Settings, key: string, value: string)
    ensures SetOption(s, key, value).Ok? <==> GoodValue(key, value)
    ensures SetOption(s, key, value).Failed? ==> SetOption(s, key, value).error != NoEqualsSign
  {
    hide SkipSpace, LeadingDigits, DigitsValue;
    ParseMethodMeans(value);
  }

  /** The options are set exactly if every value is good, also one that a later value replaces. */
  lemma {:induction false} SetAllOkIff(ps: seq<Pair>, s: Settings)
    ensures SetAll(ps, s).Ok? <==> forall i :: 0 <= i < |ps| ==> GoodValue(ps[i].0, ps[i].1)
  {
    hide SetOption, GoodValue;
    if ps != [] {
      var next := SetOption(s, ps[0].0, ps[0].1);
      SetOptionOkIff(s, ps[0].0, ps[0].1);
      assert forall i :: 0 <= i < |ps| ==> ps[i] == if i == 0 then ps[0] else ps[1..][i - 1];
      if next.Ok? {
        SetAllOkIff(ps[1..], next.value);
        assert forall i :: 0 <= i < |ps[1..]| ==> ps[1..][i] == ps[i + 1];
      }
    }
  }

  /** The settings are the last values that were given, or the defaults. */
  ghost predicate LastValues(ps: seq<Pair>, s: Settings) {
    && (var v := LastValue(ps, "method"); if v.None? then s.target.None? else
          ParseMethod(v.value).Ok? && s.target == Some(ParseMethod(v.value).value))
    && (var v := LastValue(ps, "period"); if v.None? then s.period == 1_000_000 else Stoi(v.value) == Ok(s.period))
    && (var v := LastValue(ps, "threshold"); if v.None? then s.threshold == 0 else
          Stoi(v.value).Ok? && s.threshold == Stoi(v.value).value * 1_000_000)
    && s.jarPath == LastValue(ps, "jarPath")
    && s.outputPath == LastValue(ps, "outputPath")
  }

  /** Of several values for a key the last one counts. */
  lemma {:induction false} LastValueWins(ps: seq<Pair>)
    ensures var r := SetAll(ps, DEFAULTS); r.Ok? ==> LastValues(ps, r.value)
  {
    hide Stoi, ParseMethod;
    if ps != [] {
      var front, p := ps[..|ps| - 1], ps[|ps| - 1];
      assert ps == front + [p];
      LastValueWins(front);
      SetAllConcat(front, p, DEFAULTS);
    }
  }

  lemma {:induction false} ParseMethodMeans(option: string)
    ensures ParseMethod(option).Ok? <==> '.' in option
    ensures ParseMethod(option).Ok? ==>
      var (className, methodName) := ParseMethod(option).value;
      className + "." + methodName == option && '.' !in className
  {
  }

  /** The options that a list of pairs stands for: of every key the last value, or the default. */
  ghost predicate StandFor(o: ProfilerOptions, ps: seq<Pair>, workingDirectory: string) {
    && LastValue(ps, "method") == Some(o.className + "." + o.methodName) && '.' !in o.className
    && (var v := LastValue(ps, "period"); if v.None? then o.period == 1_000_000 else Stoi(v.value) == Ok(o.period))
    && (var v := LastValue(ps, "threshold");
        if v.None? then o.threshold == 0 else
        Stoi(v.value).Ok? && o.threshold == 1_000_000 * Stoi(v.value).value)
    && o.jarPath == LastValue(ps, "jarPath")
    && o.outputPath == (var v := LastValue(ps, "outputPath"); if v.Some? then v.value else workingDirectory)
  }

  lemma {:induction false} FinishMeans(ps: seq<Pair>, s: Settings, workingDirectory: string)
    requires LastValues(ps, s)
    ensures var r := Finish(Ok(s), workingDirectory);
      && (r.Ok? <==> LastValue(ps, "method").Some?)
      && (r.Ok? ==> StandFor(r.value, ps, workingDirectory))
  {
    hide Stoi, ParseMethod, LastValue;
    var v := LastValue(ps, "method");
    if v.Some? { ParseMethodMeans(v.value); }
  }

  /**
   Parsing undoes printing, for every list of pairs: it succeeds exactly if every value is
   good and a method is given, and then yields the last value of every option.
   */
  method ParsePrinted(ps: seq<Pair>, workingDirectory: string) returns (r: Result<ProfilerOptions>)
    requires ps != [] && forall i :: 0 <= i < |ps| ==> Printable(ps[i])
    ensures r == Finish(SetAll(ps, DEFAULTS), workingDirectory)
    ensures r.Ok? <==> LastValue(ps, "method").Some? && forall i :: 0 <= i < |ps| ==> GoodValue(ps[i].0, ps[i].1)
    ensures r.Ok? ==> StandFor(r.value, ps, workingDirectory)
  {
    hide Items, ReadItems, SetAll, GoodValue, Printable, LastValues, StandFor, LastValue;
    ItemsOfPrint(ps);
    ReadPrinted(ps, DEFAULTS);
    SetAllOkIff(ps, DEFAULTS);
    LastValueWins(ps);
    r := ParseProfilerOptions(PrintAll(ps), workingDirectory);
    var all := SetAll(ps, DEFAULTS);
    if all.Ok? { FinishMeans(ps, all.value, workingDirectory); }
  }

  // ---------- items without '=' ----------

  predicate GoodItem(item: string) {
    var k := Find(item, '=', 0);
    k < |item| ==> GoodValue(item[..k], item[k + 1..])
  }

  lemma {:induction false} AnyEqualsLast(items: seq<string>)
    requires items != [] && '=' in items[|items| - 1]
    ensures AnyEquals(items)
  {
    if |items| > 1 { AnyEqualsLast(items[1..]); }
  }

  /** If no value is bad, a list of items is rejected exactly if its last item has no '='. */
  lemma {:induction false} RejectedIff(items: seq<string>, s: Settings)
    requires items != [] && forall i :: 0 <= i < |items| ==> GoodItem(items[i])
    ensures ReadItems(items, s).Failed? <==> '=' !in items[|items| - 1]
    ensures ReadItems(items, s).Failed? ==> ReadItems(items, s) == Failed(NoEqualsSign)
  {
    hide SetOption, GoodValue;
    var rest, k := items[1..], Find(items[0], '=', 0);
    assert GoodItem(items[0]) && forall i :: 0 <= i < |rest| ==> rest[i] == items[i + 1];
    if k < |items[0]| { SetOptionOkIff(s, items[0][..k], items[0][k + 1..]); }
    if rest == [] {
      assert AnyEquals(rest) == false;
    } else {
      if '=' in rest[|rest| - 1] { AnyEqualsLast(rest); }
      if k == |items[0]| {
        RejectedIff(rest, s);
      } else {
        RejectedIff(rest, SetOption(s, items[0][..k], items[0][k + 1..]).value);
      }
    }
  }

  /** So a string with an item that lacks '=' is rejected for it exactly if its last item does. */
  lemma {:induction false} MissingEqualsReportedIff(options: string, workingDirectory: string)
    requires forall i :: 0 <= i < |Items(options)| ==> GoodItem(Items(options)[i])
    ensures Finish(ReadItems(Items(options), DEFAULTS), workingDirectory) == Failed(NoEqualsSign)
      <==> '=' !in Items(options)[|Items(options)| - 1]
  {
    hide ReadItems, Items, GoodItem;
    RejectedIff(Items(options), DEFAULTS);
  }

  /** Elsewhere such an item goes unnoticed. */
  lemma {:induction false} ItemSkipped()
    ensures var items := Items("x,method=A.b");
      items == ["x", "method=A.b"] && '=' !in items[0] && ReadItems(items, DEFAULTS).Ok?
  {
    hide Items, ReadItems;
    var item := "method=A.b";
    assert "x,method=A.b" == "x" + "," + item;
    ItemsOfMore("x", item);
    ItemsOfOne(item);
    FindIs("x", '=', 0, 1);
    FindIs(item, '=', 0, 6);
    assert item[..6] == "method" && item[7..] == "A.b";
    FindIs("A.b", '.', 0, 1);
    RejectedIff(["x", item], DEFAULTS);
  }

  // ---------- numbers ----------

  lemma {:induction false} LeadingDigitsAll(d: string)
    requires forall i :: 0 <= i < |d| ==> IsDigit(d[i])
    ensures LeadingDigits(d) == d
  {
    if d != [] {
      LeadingDigitsAll(d[1..]);
      assert d == [d[0]] + d[1..];
    }
  }

  lemma {:induction false} DigitsValueOfText(n: nat)
    ensures DigitsValue(Decimal.DigitsOf(n)) == n
  {
    if n < 10 {
      assert Decimal.DigitsOf(n)[..0] == [];
    } else {
      DigitsValueOfText(n / 10);
      var front := Decimal.DigitsOf(n / 10);
      assert (front + [Decimal.Digit(n % 10)])[..|front|] == front;
    }
  }

  /** Every 32-bit number can be given as an option. */
  lemma {:induction false} StoiOfText(n: int)
    requires -0x8000_0000 <= n < 0x8000_0000
    ensures Stoi(Decimal.ToString(n)) == Ok(n)
  {
    hide Decimal.DigitsOf, LeadingDigits, DigitsValue;
    var m := if n < 0 then -n else n;
    var digits := Decimal.DigitsOf(m);
    DigitsValueOfText(m);
    LeadingDigitsAll(digits);
    assert ("-" + digits)[1..] == digits;
    assert SkipSpace(Decimal.ToString(n)) == Decimal.ToString(n);
  }

  predicate AllSpace(s: string) {
    forall i :: 0 <= i < |s| ==> s[i] == ' ' || '\t' <= s[i] <= '\r'
  }

  predicate AllDigits(s: string) {
    forall i :: 0 <= i < |s| ==> '0' <= s[i] <= '9'
  }

  lemma {:induction false} SpaceSkipped(space: string, s: string)
    requires AllSpace(space) && (s != [] ==> !(s[0] == ' ' || '\t' <= s[0] <= '\r'))
    ensures SkipSpace(space + s) == s
  {
    if space == [] {
      assert space + s == s;
    } else {
      assert (space + s)[1..] == space[1..] + s;
      SpaceSkipped(space[1..], s);
    }
  }

  lemma {:induction false} DigitsTaken(digits: string, rest: string)
    requires AllDigits(digits) && (rest != [] ==> !('0' <= rest[0] <= '9'))
    ensures LeadingDigits(digits + rest) == digits
  {
    if digits == [] {
      assert digits + rest == rest;
    } else {
      assert (digits + rest)[1..] == digits[1..] + rest;
      DigitsTaken(digits[1..], rest);
      assert digits == [digits[0]] + digits[1..];
    }
  }

  /** White space, an optional sign and digits are read, up to the first other character. */
  lemma {:induction false} StoiReads(space: string, sign: string, digits: string, rest: string)
    requires AllSpace(space) && (sign == "" || sign == "-" || sign == "+") && AllDigits(digits) && digits != []
    requires rest != [] ==> !('0' <= rest[0] <= '9')
    ensures var n := if sign == "-" then 0 - DigitsValue(digits) else DigitsValue(digits);
      Stoi(space + (sign + (digits + rest)))
      == if -0x8000_0000 <= n < 0x8000_0000 then Ok(n) else Failed(BadNumber)
  {
    hide SkipSpace, LeadingDigits, DigitsValue;
    var t := sign + (digits + rest);
    SpaceSkipped(space, t);
    DigitsTaken(digits, rest);
    if sign == "" {
      assert t == digits + rest;
    } else {
      assert t[1..] == digits + rest;
    }
  }

  lemma {:induction false} SkipSplits(s: string) returns (space: string)
    ensures s == space + SkipSpace(s) && AllSpace(space)
    ensures SkipSpace(s) != [] ==> !(SkipSpace(s)[0] == ' ' || '\t' <= SkipSpace(s)[0] <= '\r')
  {
    if s != [] && IsSpace(s[0]) {
      var more := SkipSplits(s[1..]);
      space := [s[0]] + more;
    } else {
      space := [];
    }
  }

  lemma {:induction false} DigitsSplit(s: string)
    ensures AllDigits(LeadingDigits(s)) && s == LeadingDigits(s) + s[|LeadingDigits(s)|..]
    ensures var rest := s[|LeadingDigits(s)|..]; rest != [] ==> !('0' <= rest[0] <= '9')
  {
    if s != [] && IsDigit(s[0]) { DigitsSplit(s[1..]); }
  }

  /** Every text that is read as a number has that form. */
  lemma {:induction false} StoiSplits(s: string) returns (space: string, sign: string, digits: string, rest: string)
    requires Stoi(s).Ok?
    ensures s == space + (sign + (digits + rest))
    ensures AllSpace(space) && (sign == "" || sign == "-" || sign == "+") && AllDigits(digits) && digits != []
    ensures rest != [] ==> !('0' <= rest[0] <= '9')
  {
    hide SkipSpace, LeadingDigits, DigitsValue;
    space := SkipSplits(s);
    var t := SkipSpace(s);
    var signed := t != [] && (t[0] == '-' || t[0] == '+');
    sign := if signed then [t[0]] else [];
    var u := if signed then t[1..] else t;
    DigitsSplit(u);
    digits, rest := LeadingDigits(u), u[|LeadingDigits(u)|..];
    assert t == sign + u;
  }
}
