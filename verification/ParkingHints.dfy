/**
 Parking hints: the device hints "park:<n>@<context>" of a parking lot, built from the "parkpos" range text of
 res_parking.conf.
 */
module ParkingHints {
  import opened Basics
  import opened Text

  /** MissingKey is the exception of the YAML library, NotANumber and TooLarge are those of std::stoi. */
  datatype Problem = MissingKey | NotANumber | TooLarge | LoopOverflow

  datatype Result<+T> = Ok(value: T) | Err(problem: Problem)

  /** The section of the lot in one configuration event: its scalar keys. */
  type Section = map<string, string>

  function Hint(n: int, context: string): string {
    "park:" + Decimal(n) + "@" + context
  }

  function HintSet(context: string, first: int, last: int): set<string> {
    set n | first <= n <= last :: Hint(n, context)
  }

  function ReadInt(s: string): Result<int> {
    match Stoi(s)
    case Number(v) => Ok(v)
    case NoNumber => Err(NotANumber)
    case OutOfRange => Err(TooLarge)
  }

  /** First and last extension. The separator is looked for from the first character, so a sign counts as one. */
  function Range(parkPos: string): Result<(int, int)> {
    var dash := Find(parkPos, '-', 0);
    var start := ReadInt(parkPos);
    var end := if start.Ok? && dash < |parkPos| then ReadInt(parkPos[dash + 1..]) else start;
    if start.Err? then Err(start.problem)
    else if end.Err? then Err(end.problem)
    else Ok((start.value, end.value))
  }

  function SectionHints(section: Section): Result<set<string>> {
    if "context" !in section || "parkpos" !in section then Err(MissingKey)
    else
      match Range(section["parkpos"])
      case Err(problem) => Err(problem)
      case Ok(range) =>
        // The loop counter is an int: it cannot pass the largest one.
        if range.1 == INT_MAX then Err(LoopOverflow)
        else Ok(HintSet(section["context"], range.0, range.1))
  }

  method AddHints(hints: set<string>, context: string, first: int, last: int) returns (all: set<string>)
    ensures all == hints + HintSet(context, first, last)
  {
    all := hints;
    var pos := first;
    assert HintSet(context, first, first - 1) == {};
    while pos <= last
      invariant first <= pos && (pos <= last + 1 || pos == first)
      invariant all == hints + HintSet(context, first, pos - 1)
    {
      ghost var before := HintSet(context, first, pos - 1);
      assert HintSet(context, first, pos) == before + {Hint(pos, context)};
      all := all + {Hint(pos, context)};
      pos := pos + 1;
    }
    assert HintSet(context, first, pos - 1) == HintSet(context, first, last);
  }

  function AddSection(hints: set<string>, section: Option<Section>): Result<set<string>> {
    match section
    case None => Ok(hints)
    case Some(keys) =>
      match SectionHints(keys)
      case Ok(more) => Ok(hints + more)
      case Err(problem) => Err(problem)
  }

  function Collected(sections: seq<Option<Section>>): Result<set<string>> {
    if sections == [] then Ok({})
    else
      match Collected(sections[..|sections| - 1])
      case Ok(hints) => AddSection(hints, sections[|sections| - 1])
      case Err(problem) => Err(problem)
  }

  lemma {:induction false} ProblemStays(sections: seq<Option<Section>>, i: nat)
    requires i <= |sections| && Collected(sections[..i]).Err?
    ensures Collected(sections) == Collected(sections[..i])
    decreases |sections| - i
  {
    if i == |sections| {
      assert sections[..i] == sections;
    } else {
      assert sections[..i + 1][..i] == sections[..i];
      ProblemStays(sections, i + 1);
    }
  }

  /** getParkingHints: a refused configuration request gives no hints, an event without the lot is skipped. */
  method GetParkingHints(success: bool, sections: seq<Option<Section>>) returns (r: Result<set<string>>)
    ensures r == if success then Collected(sections) else Ok({})
  {
    hide HintSet, Range;
    if !success {
      return Ok({});
    }
    var hints: set<string> := {};
    var i := 0;
    while i < |sections|
      invariant 0 <= i <= |sections|
      invariant Collected(sections[..i]) == Ok(hints)
    {
      assert sections[..i + 1][..i] == sections[..i];
      if sections[i].Some? {
        var section := sections[i].value;
        if "context" !in section || "parkpos" !in section {
          ProblemStays(sections, i + 1);
          return Err(MissingKey);
        }
        var range := Range(section["parkpos"]);
        if range.Err? {
          ProblemStays(sections, i + 1);
          return Err(range.problem);
        }
        if range.value.1 == INT_MAX {
          ProblemStays(sections, i + 1);
          return Err(LoopOverflow);
        }
        hints := AddHints(hints, section["context"], range.value.0, range.value.1);
      }
      i := i + 1;
    }
    assert sections[..i] == sections;
    r := Ok(hints);
  }

  predicate Gives(section: Option<Section>, h: string) {
    section.Some? && SectionHints(section.value).Ok? && h in SectionHints(section.value).value
  }

  ghost predicate SomeGives(sections: seq<Option<Section>>, h: string) {
    exists i :: 0 <= i < |sections| && Gives(sections[i], h)
  }

  predicate Refuses(section: Option<Section>, problem: Problem) {
    section.Some? && SectionHints(section.value) == Err(problem)
  }

  predicate Readable(section: Option<Section>) {
    section.Some? ==> SectionHints(section.value).Ok?
  }

  /** The first section that cannot be read decides the exception; without one, all sections' hints are collected. */
  lemma {:induction false} CollectedExactly(sections: seq<Option<Section>>)
    ensures match Collected(sections)
            case Ok(hints) =>
              && (forall i :: 0 <= i < |sections| ==> Readable(sections[i]))
              && forall h :: h in hints <==> SomeGives(sections, h)
            case Err(problem) =>
              exists i :: && 0 <= i < |sections| && Refuses(sections[i], problem)
                          && forall j :: 0 <= j < i ==> Readable(sections[j])
  {
    hide SectionHints;
    if sections != [] {
      var n := |sections| - 1;
      var front := sections[..n];
      CollectedExactly(front);
      assert forall i :: 0 <= i < n ==> front[i] == sections[i];
      match Collected(sections) {
        case Ok(hints) =>
          forall h ensures h in hints <==> SomeGives(sections, h) {
            assert SomeGives(sections, h) <==> SomeGives(front, h) || Gives(sections[n], h);
            assert h in hints <==> h in Collected(front).value || Gives(sections[n], h);
          }
        case Err(problem) =>
          if Collected(front).Ok? {
            assert Refuses(sections[n], problem);
          } else {
            var i :| 0 <= i < n && Refuses(front[i], problem) && forall j :: 0 <= j < i ==> Readable(front[j]);
            assert Refuses(sections[i], problem);
          }
      }
    }
  }

  lemma DecimalPlain(n: int)
    ensures '@' !in Decimal(n)
    ensures n >= 0 ==> '-' !in Decimal(n)
  {
    assert AllDigits(Digits(if n < 0 then -n else n));
  }

  lemma DashAfter(a: string, b: string)
    requires '-' !in a
    ensures var s := a + ("-" + b); Find(s, '-', 0) == |a| && s[|a| + 1..] == b
  {
    var s := a + ("-" + b);
    assert s[0..|a|] == a;
    FindAt(s, '-', 0, |a|);
  }

  lemma CutAt(a: string, b: string, c: string, d: string, sep: char)
    requires sep !in a && sep !in c && a + [sep] + b == c + [sep] + d
    ensures a == c && b == d
  {
    var s := a + [sep] + b;
    var t := c + [sep] + d;
    assert s[..|a|] == a && t[..|c|] == c;
    FindAt(s, sep, 0, |a|);
    FindAt(t, sep, 0, |c|);
    assert s[|a| + 1..] == b && t[|c| + 1..] == d;
  }

  /** Different extensions or contexts never share a hint. */
  lemma HintInjective(m: int, c: string, n: int, d: string)
    requires Hint(m, c) == Hint(n, d)
    ensures m == n && c == d
  {
    hide Decimal;
    assert Hint(m, c)[5..] == Decimal(m) + "@" + c;
    assert Hint(n, d)[5..] == Decimal(n) + "@" + d;
    DecimalPlain(m);
    DecimalPlain(n);
    CutAt(Decimal(m), c, Decimal(n), d, '@');
    DecimalInjective(m, n);
  }

  /** One hint per extension of the range. */
  lemma {:induction false} HintCount(context: string, first: int, last: int)
    ensures |HintSet(context, first, last)| == if first <= last then last - first + 1 else 0
    decreases last - first
  {
    if first <= last {
      HintCount(context, first, last - 1);
      var before := HintSet(context, first, last - 1);
      assert HintSet(context, first, last) == before + {Hint(last, context)};
      if Hint(last, context) in before {
        var n :| first <= n <= last - 1 && Hint(n, context) == Hint(last, context);
        HintInjective(n, context, last, context);
      }
    } else {
      assert HintSet(context, first, last) == {};
    }
  }

  lemma RangeFrom(p: string, dash: nat, a: int, b: int)
    requires dash < |p| && Find(p, '-', 0) == dash
    requires Stoi(p) == Ranged(a) && Stoi(p[dash + 1..]) == Ranged(b)
    ensures InInt(a) && InInt(b) ==> Range(p) == Ok((a, b))
    ensures !InInt(a) || !InInt(b) ==> Range(p) == Err(TooLarge)
  {
    hide Stoi, Find;
  }

  lemma SignFirst(a: int, rest: string)
    requires a < 0
    ensures var s := Decimal(a) + rest; s != "" && Find(s, '-', 0) == 0 && s[1..] == Decimal(-a) + rest
  {
  }

  /** A negative first number: its own sign is taken for the dash. */
  lemma RangeOfNegative(a: int, rest: string)
    requires INT_MIN <= a < 0 && (rest == "" || !IsDigit(rest[0]))
    ensures Range(Decimal(a) + rest) == if a == INT_MIN then Err(TooLarge) else Ok((a, -a))
  {
    hide Stoi, Range, Decimal;
    ScanDecimal(a, rest);
    ScanDecimal(-a, rest);
    SignFirst(a, rest);
    RangeFrom(Decimal(a) + rest, 0, a, -a);
  }

  /** What cannot be read: text without a number before or after the dash, and numbers beyond 32 bits. */
  lemma RangeRefusals(n: nat, big: nat)
    requires n <= 2147483647 && big > 2147483647
    ensures Range("") == Range("x") == Range("x-" + Decimal(n)) == Err(NotANumber)
    ensures Range(Decimal(n) + "-") == Range(Decimal(n) + "-x") == Err(NotANumber)
    ensures Range(Decimal(big)) == Range(Decimal(n) + "-" + Decimal(big)) == Err(TooLarge)
  {
    hide Range, Decimal;
    NothingToRead(Decimal(n));
    EndRefused(n, "");
    EndRefused(n, "x");
    assert Decimal(n) + "-" + "" == Decimal(n) + "-";
    assert Decimal(n) + "-" + "x" == Decimal(n) + "-x";
    TooBig(n, big);
  }

  lemma TooBig(n: nat, big: nat)
    requires n <= 2147483647 && big > 2147483647
    ensures Range(Decimal(big)) == Range(Decimal(n) + "-" + Decimal(big)) == Err(TooLarge)
  {
    hide Stoi, Decimal;
    ScanLimits(big);
    PlainDash(n, Decimal(big));
    assert Decimal(n) + "-" + Decimal(big) == Decimal(n) + ("-" + Decimal(big));
  }

  lemma NothingToRead(rest: string)
    ensures Range("") == Range("x") == Range("x-" + rest) == Err(NotANumber)
  {
    assert SkipSpaces("x") == "x" && SkipSpaces("x-" + rest) == "x-" + rest;
  }

  /** A plain number, a dash and anything at all: the number is the start, and what is behind the dash is the end. */
  lemma PlainDash(n: nat, end: string)
    requires n <= 2147483647
    ensures Range(Decimal(n) + ("-" + end)) == match ReadInt(end) case Ok(last) => Ok((n, last)) case Err(p) => Err(p)
  {
    hide Stoi, Decimal;
    DecimalPlain(n);
    DashAfter(Decimal(n), end);
    assert !IsDigit(("-" + end)[0]);
    ScanDecimal(n, "-" + end);
  }

  lemma EndRefused(n: nat, end: string)
    requires n <= 2147483647 && (end == "" || end == "x")
    ensures Range(Decimal(n) + "-" + end) == Err(NotANumber)
  {
    assert SkipSpaces(end) == end;
    PlainDash(n, end);
    assert Decimal(n) + "-" + end == Decimal(n) + ("-" + end);
  }

  /** "-1-2" is read as the range from -1 to 1. */
  lemma SignedRangeExample()
    ensures Decimal(-1) + "-" + Decimal(2) == "-1-2" && Range("-1-2") == Ok((-1, 1))
  {
    assert Decimal(-1) == "-1" && Decimal(2) == "2";
    assert "-1" + "-2" == "-1-2" && "-" + "2" == "-2";
    RangeOfNegative(-1, "-2");
  }

  /** A number on its own is a range of one extension exactly when it has no sign. */
  lemma RangeOfNumberExactly(n: int)
    requires InInt(n)
    ensures Range(Decimal(n)) == Ok((n, n)) <==> n >= 0
  {
    hide Stoi, Decimal;
    assert Decimal(n) + "" == Decimal(n);
    if n < 0 {
      RangeOfNegative(n, "");
    } else {
      ScanDecimal(n, "");
      DecimalPlain(n);
    }
  }

  lemma RangeOfPlain(a: nat, b: int)
    requires InInt(a) && InInt(b)
    ensures Range(Decimal(a) + ("-" + Decimal(b))) == Ok((a, b))
  {
    hide Stoi, Decimal, Range;
    var tail := "-" + Decimal(b);
    DecimalPlain(a);
    DashAfter(Decimal(a), Decimal(b));
    assert !IsDigit(tail[0]);
    ScanDecimal(a, tail);
    ScanDecimal(b, "");
    assert Decimal(b) + "" == Decimal(b);
    RangeFrom(Decimal(a) + tail, |Decimal(a)|, a, b);
  }

  /**
   Two numbers joined by a dash are read back as that range exactly when the first has no sign or the second is its
   opposite; a leading sign is otherwise taken for the dash.
   */
  lemma RangeOfPairExactly(a: int, b: int)
    requires InInt(a) && InInt(b)
    ensures Range(Decimal(a) + "-" + Decimal(b)) == Ok((a, b)) <==> a >= 0 || b == -a
  {
    hide Stoi, Decimal, Range, Find;
    var tail := "-" + Decimal(b);
    assert Decimal(a) + "-" + Decimal(b) == Decimal(a) + tail;
    assert tail[0] == '-' && !IsDigit(tail[0]);
    if a < 0 {
      RangeOfNegative(a, tail);
    } else {
      RangeOfPlain(a, b);
    }
  }

  lemma HintsAreTexts(context: string, first: int, last: int)
    ensures forall h :: h in HintSet(context, first, last) ==>
              exists m :: first <= m <= last && h == "park:" + Decimal(m) + "@" + context
  {
    hide Decimal;
    forall h | h in HintSet(context, first, last)
      ensures exists m :: first <= m <= last && h == "park:" + Decimal(m) + "@" + context
    {
      var m :| first <= m <= last && h == Hint(m, context);
      assert h == "park:" + Decimal(m) + "@" + context;
    }
  }

  /** A hint of the context belongs to the range exactly when its extension does. */
  lemma HintSetExactly(context: string, first: int, last: int, n: int)
    ensures Hint(n, context) in HintSet(context, first, last) <==> first <= n <= last
    ensures "park:" + Decimal(n) + "@" + context in HintSet(context, first, last) <==> first <= n <= last
    ensures forall h :: h in HintSet(context, first, last) ==>
              exists m :: first <= m <= last && h == "park:" + Decimal(m) + "@" + context
  {
    assert Hint(n, context) == "park:" + Decimal(n) + "@" + context;
    HintsAreTexts(context, first, last);
    hide Hint;
    if Hint(n, context) in HintSet(context, first, last) {
      var m :| first <= m <= last && Hint(m, context) == Hint(n, context);
      HintInjective(m, context, n, context);
    }
  }

  /**
   A lot configured with "a-b" gets one hint for each extension from a to b, and nothing else, exactly when the last
   extension is not the largest int and the first has no sign or is the opposite of the last.
   */
  lemma HintsOfLotExactly(context: string, a: int, b: int)
    requires InInt(a) && InInt(b)
    ensures var section := map["context" := context, "parkpos" := Decimal(a) + "-" + Decimal(b)];
            SectionHints(section) == Ok(HintSet(context, a, b)) <==> b < INT_MAX && (a >= 0 || b == -a)
  {
    var tail := "-" + Decimal(b);
    assert Decimal(a) + "-" + Decimal(b) == Decimal(a) + tail;
    assert !IsDigit(tail[0]);
    RangeOfPairExactly(a, b);
    hide Range, HintSet, Decimal;
    if a < 0 {
      RangeOfNegative(a, tail);
      HintSetExactly(context, a, -a, -a);
      HintSetExactly(context, a, b, -a);
      HintSetExactly(context, a, -a, b);
      HintSetExactly(context, a, b, b);
    }
  }
}
