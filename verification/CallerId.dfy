/**
 Caller ID extraction: the leftmost match of the pattern "([^"]*)" <([0-9]*)> and its two captures, both empty when
 there is no match.
 */
module CallerId {
  import opened Basics
  import opened Text

  datatype Details = Details(name: string, number: string)

  const QUOTE: char := '"'

  /** The text that the pattern matches with these captures. */
  function Format(name: string, number: string): string {
    [QUOTE] + name + [QUOTE, ' ', '<'] + number + ['>']
  }

  /** The pattern matches at position `i` with these captures. */
  predicate MatchAt(s: string, i: int, d: Details) {
    && QUOTE !in d.name && AllDigits(d.number)
    && 0 <= i <= |s| - |Format(d.name, d.number)|
    && s[i..i + |Format(d.name, d.number)|] == Format(d.name, d.number)
  }

  /** Matches the pattern at one position, left to right. */
  function TryAt(s: string, i: nat): Option<Details>
    requires i <= |s|
  {
    if i == |s| || s[i] != QUOTE then None
    else
      var q := Find(s, QUOTE, i + 1);
      if q + 3 > |s| || s[q + 1] != ' ' || s[q + 2] != '<' then None
      else
        var k := DigitRun(s[q + 3..]);
        if q + 3 + k == |s| || s[q + 3 + k] != '>' then None
        else Some(Details(s[i + 1..q], s[q + 3..q + 3 + k]))
  }

  /** regex_search: the first position that matches decides. */
  function SearchFrom(s: string, i: nat): Details
    requires i <= |s|
    decreases |s| - i
  {
    match TryAt(s, i)
    case Some(d) => d
    case None => if i == |s| then Details("", "") else SearchFrom(s, i + 1)
  }

  function Extract(s: string): Details {
    SearchFrom(s, 0)
  }

  /** A match determines where its parts lie. */
  lemma MatchParts(s: string, i: int, d: Details)
    requires MatchAt(s, i, d)
    ensures QUOTE !in d.name && AllDigits(d.number)
    ensures i + 5 + |d.name| + |d.number| <= |s|
    ensures var q := i + 1 + |d.name|;
            && s[i] == QUOTE && s[i + 1..q] == d.name && s[q] == QUOTE && s[q + 1] == ' ' && s[q + 2] == '<'
            && s[q + 3..q + 3 + |d.number|] == d.number && s[q + 3 + |d.number|] == '>'
  {
    var f := Format(d.name, d.number);
    var part := s[i..i + |f|];
    var n := |d.name|;
    assert forall k :: 0 <= k < |f| ==> s[i + k] == f[k];
    assert f[0] == QUOTE && f[n + 1] == QUOTE && f[n + 2] == ' ' && f[n + 3] == '<' && f[n + 4 + |d.number|] == '>';
    assert f[1..n + 1] == d.name && f[n + 4..n + 4 + |d.number|] == d.number;
  }

  lemma MatchFromParts(s: string, i: nat, q: nat, k: nat)
    requires i < q && q + 3 + k < |s|
    requires s[i] == QUOTE && s[q] == QUOTE && s[q + 1] == ' ' && s[q + 2] == '<' && s[q + 3 + k] == '>'
    requires QUOTE !in s[i + 1..q] && AllDigits(s[q + 3..q + 3 + k])
    ensures MatchAt(s, i, Details(s[i + 1..q], s[q + 3..q + 3 + k]))
  {
    var whole := s[i..q + 4 + k];
    assert whole == [s[i]] + s[i + 1..q] + [s[q], s[q + 1], s[q + 2]] + s[q + 3..q + 3 + k] + [s[q + 3 + k]];
    assert whole == Format(s[i + 1..q], s[q + 3..q + 3 + k]);
  }

  lemma TryAtSound(s: string, i: nat)
    requires i <= |s| && TryAt(s, i).Some?
    ensures MatchAt(s, i, TryAt(s, i).value)
  {
    hide MatchAt, Format;
    var q := Find(s, QUOTE, i + 1);
    var k := DigitRun(s[q + 3..]);
    assert s[q + 3..][..k] == s[q + 3..q + 3 + k];
    MatchFromParts(s, i, q, k);
  }

  lemma DigitRunAt(s: string, from: nat, to: nat)
    requires from <= to < |s| && AllDigits(s[from..to]) && !IsDigit(s[to])
    ensures DigitRun(s[from..]) == to - from
  {
    assert s[from..] == s[from..to] + s[to..];
    DigitRunUnique(s[from..to], s[to..]);
  }

  lemma TryAtFromParts(s: string, i: nat, q: nat, k: nat)
    requires i < q && q + 3 + k < |s|
    requires s[i] == QUOTE && s[q] == QUOTE && s[q + 1] == ' ' && s[q + 2] == '<' && s[q + 3 + k] == '>'
    requires QUOTE !in s[i + 1..q] && AllDigits(s[q + 3..q + 3 + k])
    ensures TryAt(s, i) == Some(Details(s[i + 1..q], s[q + 3..q + 3 + k]))
  {
    hide Find, DigitRun, AllDigits;
    FindAt(s, QUOTE, i + 1, q);
    DigitRunAt(s, q + 3, q + 3 + k);
  }

  lemma TryAtComplete(s: string, i: nat, d: Details)
    requires MatchAt(s, i, d)
    ensures TryAt(s, i) == Some(d)
  {
    hide *;
    MatchParts(s, i, d);
    TryAtFromParts(s, i, i + 1 + |d.name|, |d.number|);
  }

  /** At one position the captures are unique, and the scanner finds them exactly when they exist. */
  lemma TryAtExactly(s: string, i: nat, d: Details)
    requires i <= |s|
    ensures TryAt(s, i) == Some(d) <==> MatchAt(s, i, d)
  {
    hide MatchAt, TryAt;
    if TryAt(s, i) == Some(d) {
      TryAtSound(s, i);
    }
    if MatchAt(s, i, d) {
      TryAtComplete(s, i, d);
    }
  }

  ghost predicate NoMatchBefore(s: string, from: int, to: int) {
    forall i, d :: from <= i < to ==> !MatchAt(s, i, d)
  }

  /** Position `at` has the first match at or after `from`, and its captures are `d`. */
  ghost predicate LeftmostAt(s: string, from: int, at: int, d: Details) {
    MatchAt(s, at, d) && NoMatchBefore(s, from, at)
  }

  ghost predicate LeftmostFrom(s: string, from: int, d: Details) {
    exists at :: from <= at <= |s| && LeftmostAt(s, from, at, d)
  }

  lemma NoMatchThere(s: string, i: nat)
    requires i <= |s| && TryAt(s, i) == None
    ensures forall d :: !MatchAt(s, i, d)
  {
    forall d ensures !MatchAt(s, i, d) {
      TryAtExactly(s, i, d);
    }
  }

  lemma {:induction false} SearchFromLeftmost(s: string, i: nat)
    requires i <= |s|
    ensures || (SearchFrom(s, i) == Details("", "") && NoMatchBefore(s, i, |s| + 1))
            || LeftmostFrom(s, i, SearchFrom(s, i))
    decreases |s| - i
  {
    if TryAt(s, i).Some? {
      TryAtExactly(s, i, SearchFrom(s, i));
      assert LeftmostAt(s, i, i, SearchFrom(s, i));
    } else {
      NoMatchThere(s, i);
      if i < |s| {
        SearchFromLeftmost(s, i + 1);
        var d := SearchFrom(s, i + 1);
        if LeftmostFrom(s, i + 1, d) {
          var at :| i + 1 <= at <= |s| && LeftmostAt(s, i + 1, at, d);
          assert LeftmostAt(s, i, at, d);
        }
      }
    }
  }

  /** The captures are those of the leftmost match, or both empty when nothing in the text matches. */
  lemma ExtractIsLeftmost(s: string)
    ensures || (Extract(s) == Details("", "") && NoMatchBefore(s, 0, |s| + 1))
            || LeftmostFrom(s, 0, Extract(s))
  {
    SearchFromLeftmost(s, 0);
  }

  /**
   A formatted caller ID, with any text that has no quote before it and any text after it, is read back exactly when
   the name has no quote and the number is digits.
   */
  lemma FormatExtractExactly(before: string, d: Details, after: string)
    requires QUOTE !in before
    ensures Extract(before + Format(d.name, d.number) + after) == d <==> QUOTE !in d.name && AllDigits(d.number)
  {
    var f := Format(d.name, d.number);
    var s := before + f + after;
    ExtractIsLeftmost(s);
    if QUOTE !in d.name && AllDigits(d.number) {
      assert s[|before|..|before| + |f|] == f;
      assert MatchAt(s, |before|, d);
      forall i, e | 0 <= i < |before| ensures !MatchAt(s, i, e) {
        assert s[i] == before[i];
        if MatchAt(s, i, e) {
          MatchParts(s, i, e);
        }
      }
      var at :| 0 <= at <= |s| && LeftmostAt(s, 0, at, Extract(s));
      assert at == |before|;
      TryAtExactly(s, |before|, d);
      TryAtExactly(s, |before|, Extract(s));
    }
  }

  /** Written out: the quoted name, a blank, and the number in angle brackets. */
  lemma WrittenOut(name: string, number: string)
    requires QUOTE !in name && AllDigits(number)
    ensures Extract("\"" + name + "\" <" + number + ">") == Details(name, number)
  {
    hide Extract, AllDigits;
    var text := "\"" + name + "\" <" + number + ">";
    assert text == Format(name, number);
    assert "" + Format(name, number) + "" == Format(name, number);
    FormatExtractExactly("", Details(name, number), "");
  }

  /** A quote inside the name hides what is before it. */
  lemma QuotedNameExample()
    ensures Format("a\"b", "1") == "\"a\"b\" <1>" && Extract("\"a\"b\" <1>") == Details("b", "1")
  {
    var s := "\"a\"b\" <1>";
    FindAt(s, QUOTE, 1, 2);
    assert TryAt(s, 0) == None && TryAt(s, 1) == None;
    assert s[2..9] == Format("b", "1");
    TryAtComplete(s, 2, Details("b", "1"));
    assert SearchFrom(s, 2) == Details("b", "1");
    assert SearchFrom(s, 1) == Details("b", "1");
  }
}
