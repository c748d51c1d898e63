/**
 Text handling used by the program: splitting at a separator (std::views::split), decimal printing (fmt) and the
 two longest-prefix decimal readers std::from_chars and std::stoi over a 32-bit int.
 */
module Text {
  const INT_MIN: int := -0x8000_0000
  const INT_MAX: int := 0x7fff_ffff

  predicate InInt(n: int) {
    INT_MIN <= n <= INT_MAX
  }

  // ---------- Splitting and joining ----------

  /** The parts of `s` between occurrences of `sep`; one part more than there are separators. */
  function Parts(s: string, sep: char): (parts: seq<string>)
    ensures |parts| >= 1
  {
    if s == "" then [""]
    else if s[0] == sep then [""] + Parts(s[1..], sep)
    else
      var rest := Parts(s[1..], sep);
      [[s[0]] + rest[0]] + rest[1..]
  }

  /** std::views::split: the empty text has no parts at all. */
  function Split(s: string, sep: char): seq<string> {
    if s == "" then [] else Parts(s, sep)
  }

  function Join(parts: seq<string>, sep: char): string {
    if parts == [] then ""
    else if |parts| == 1 then parts[0]
    else parts[0] + [sep] + Join(parts[1..], sep)
  }

  lemma {:induction false} JoinParts(s: string, sep: char)
    ensures Join(Parts(s, sep), sep) == s
    ensures forall p :: p in Parts(s, sep) ==> sep !in p
  {
    if s == "" {
    } else {
      JoinParts(s[1..], sep);
      var rest := Parts(s[1..], sep);
      if s[0] == sep {
        assert ([""] + rest)[1..] == rest;
        assert s == [sep] + s[1..];
      } else {
        var joined := [[s[0]] + rest[0]] + rest[1..];
        assert joined[1..] == rest[1..];
        assert s == [s[0]] + s[1..];
        assert Join(joined, sep) == [s[0]] + Join(rest, sep);
      }
    }
  }

  /** Joining the fields of any text gives the text back and no field holds a separator. */
  lemma JoinSplit(s: string, sep: char)
    ensures Join(Split(s, sep), sep) == s
    ensures forall p :: p in Split(s, sep) ==> sep !in p
  {
    JoinParts(s, sep);
  }

  lemma {:induction false} PartsHead(head: string, rest: string, sep: char)
    requires sep !in head
    ensures Parts(head + [sep] + rest, sep) == [head] + Parts(rest, sep)
  {
    var s := head + [sep] + rest;
    if head == "" {
      assert s[0] == sep && s[1..] == rest;
    } else {
      PartsHead(head[1..], rest, sep);
      assert s[0] == head[0] != sep;
      assert s[1..] == head[1..] + [sep] + rest;
      assert [head[0]] + head[1..] == head;
    }
  }

  lemma {:induction false} PartsWhole(s: string, sep: char)
    requires sep !in s
    ensures Parts(s, sep) == [s]
  {
    if s != "" {
      PartsWhole(s[1..], sep);
      assert [s[0]] + s[1..] == s;
    }
  }

  lemma {:induction false} PartsJoin(parts: seq<string>, sep: char)
    requires parts != [] && forall p :: p in parts ==> sep !in p
    ensures Parts(Join(parts, sep), sep) == parts
  {
    if |parts| == 1 {
      PartsWhole(parts[0], sep);
    } else {
      PartsJoin(parts[1..], sep);
      PartsHead(parts[0], Join(parts[1..], sep), sep);
    }
  }

  /** A joined text is empty only when there is nothing to separate. */
  lemma JoinEmpty(parts: seq<string>, sep: char)
    ensures Join(parts, sep) == "" <==> parts == [] || parts == [""]
  {
    if |parts| == 1 {
      assert parts == [parts[0]];
    } else if |parts| > 1 {
      assert |Join(parts, sep)| >= 1;
    }
  }

  /** Splitting a joined text gives the fields back exactly when no field holds a separator and they are not just [""]. */
  lemma SplitJoinExactly(parts: seq<string>, sep: char)
    ensures Split(Join(parts, sep), sep) == parts <==> parts != [""] && forall p :: p in parts ==> sep !in p
  {
    hide Join, Parts;
    JoinEmpty(parts, sep);
    JoinSplit(Join(parts, sep), sep);
    if parts != [] && forall p :: p in parts ==> sep !in p {
      PartsJoin(parts, sep);
    }
  }

  /** std::string::find from position `i`; the length of the text when the character is not there. */
  function Find(s: string, c: char, i: nat): (q: nat)
    requires i <= |s|
    ensures i <= q <= |s|
    ensures forall k :: i <= k < q ==> s[k] != c
    ensures q < |s| ==> s[q] == c
    decreases |s| - i
  {
    if i == |s| || s[i] == c then i else Find(s, c, i + 1)
  }

  lemma FindAt(s: string, c: char, i: nat, q: nat)
    requires i <= q < |s| && c !in s[i..q] && s[q] == c
    ensures Find(s, c, i) == q
  {
    assert forall k :: i <= k < q ==> s[k] == s[i..q][k - i];
  }

  // ---------- Decimal text ----------

  predicate IsDigit(c: char) {
    '0' <= c <= '9'
  }

  predicate AllDigits(s: string) {
    forall i :: 0 <= i < |s| ==> IsDigit(s[i])
  }

  function DigitValue(c: char): nat
    requires IsDigit(c)
  {
    c as int - '0' as int
  }

  function DigitChar(d: nat): (c: char)
    requires d < 10
    ensures IsDigit(c) && DigitValue(c) == d
  {
    ('0' as int + d) as char
  }

  /** Decimal digits of a natural number, without leading zeros. */
  function Digits(n: nat): (s: string)
    ensures s != "" && AllDigits(s)
  {
    if n < 10 then [DigitChar(n)] else Digits(n / 10) + [DigitChar(n % 10)]
  }

  /** What fmt prints for an int under "{}". */
  function Decimal(n: int): string {
    if n < 0 then "-" + Digits(-n) else Digits(n)
  }

  function Value(s: string): nat
    requires AllDigits(s)
  {
    if s == "" then 0 else 10 * Value(s[..|s| - 1]) + DigitValue(s[|s| - 1])
  }

  lemma {:induction false} ValueDigits(n: nat)
    ensures Value(Digits(n)) == n
  {
    if n >= 10 {
      ValueDigits(n / 10);
      var s := Digits(n);
      assert s[..|s| - 1] == Digits(n / 10);
    } else {
      assert Digits(n)[..0] == "";
    }
  }

  /** Number of digits at the front of `s`. */
  function DigitRun(s: string): (k: nat)
    ensures k <= |s| && AllDigits(s[..k])
    ensures k < |s| ==> !IsDigit(s[k])
  {
    if s == "" || !IsDigit(s[0]) then 0
    else
      var k := 1 + DigitRun(s[1..]);
      assert s[..k] == [s[0]] + s[1..][..k - 1];
      k
  }

  lemma DigitRunUnique(digits: string, rest: string)
    requires AllDigits(digits)
    requires rest == "" || !IsDigit(rest[0])
    ensures DigitRun(digits + rest) == |digits|
    ensures (digits + rest)[..|digits|] == digits
  {
    var s := digits + rest;
    assert s[..|digits|] == digits;
    assert forall i :: 0 <= i < |digits| ==> s[i] == digits[i];
    assert forall i :: 0 <= i < DigitRun(s) ==> s[i] == s[..DigitRun(s)][i];
  }

  datatype Scanned = Number(value: int) | NoNumber | OutOfRange

  function Signed(negative: bool, v: int): int {
    if negative then -v else v
  }

  /** An int that fits is read as itself; one that does not is reported. */
  function Ranged(v: int): Scanned {
    if InInt(v) then Number(v) else OutOfRange
  }

  function ScanDigits(s: string, negative: bool): Scanned {
    var k := DigitRun(s);
    if k == 0 then NoNumber
    else Ranged(Signed(negative, Value(s[..k])))
  }

  /** std::from_chars into an int: optional minus sign, then the longest run of digits. */
  function FromChars(s: string): Scanned {
    if s != "" && s[0] == '-' then ScanDigits(s[1..], true) else ScanDigits(s, false)
  }

  predicate IsSpace(c: char) {
    c == ' ' || 9 <= c as int <= 13
  }

  function SkipSpaces(s: string): string {
    if s != "" && IsSpace(s[0]) then SkipSpaces(s[1..]) else s
  }

  /** std::stoi: leading white space, an optional sign, then the longest run of digits. */
  function Stoi(s: string): Scanned {
    var t := SkipSpaces(s);
    if t != "" && t[0] == '-' then ScanDigits(t[1..], true)
    else if t != "" && t[0] == '+' then ScanDigits(t[1..], false)
    else ScanDigits(t, false)
  }

  lemma ScanText(digits: string, rest: string, negative: bool)
    requires digits != "" && AllDigits(digits)
    requires rest == "" || !IsDigit(rest[0])
    ensures ScanDigits(digits + rest, negative) == Ranged(Signed(negative, Value(digits)))
  {
    DigitRunUnique(digits, rest);
  }

  lemma ScanSigned(negative: bool, digits: string, rest: string)
    requires digits != "" && AllDigits(digits)
    requires rest == "" || !IsDigit(rest[0])
    ensures var s := (if negative then "-" else "") + digits + rest;
            FromChars(s) == Stoi(s) == Ranged(Signed(negative, Value(digits)))
  {
    var s := (if negative then "-" else "") + digits + rest;
    assert IsDigit(digits[0]);
    if negative {
      assert s[0] == '-' && s[1..] == digits + rest;
    } else {
      assert s == digits + rest;
    }
    assert SkipSpaces(s) == s;
    ScanText(digits, rest, negative);
  }

  /** Reading back printed decimal text, whatever non-digit follows it, gives the number or reports the overflow. */
  lemma ScanDecimal(n: int, rest: string)
    requires rest == "" || !IsDigit(rest[0])
    ensures FromChars(Decimal(n) + rest) == Ranged(n)
    ensures Stoi(Decimal(n) + rest) == Ranged(n)
  {
    var digits := Digits(if n < 0 then -n else n);
    ValueDigits(if n < 0 then -n else n);
    ScanSigned(n < 0, digits, rest);
    assert Decimal(n) == (if n < 0 then "-" else "") + digits;
  }

  /** Decimal text, digit by digit; there are ten digits. */
  lemma DecimalDigits(n: nat, d: nat)
    requires d < 10
    ensures forall c :: IsDigit(c) <==> c in "0123456789"
    ensures Decimal(d) == ["0123456789"[d]]
    ensures n > 0 ==> Decimal(10 * n + d) == Decimal(n) + ["0123456789"[d]]
    ensures n > 0 ==> Decimal(0 - n) == "-" + Decimal(n)
  {
    assert "0123456789"[d] == DigitChar(d);
    assert (10 * n + d) / 10 == n && (10 * n + d) % 10 == d;
  }

  /** The ints are those of 32 bits: what std::from_chars and std::stoi make of printed numbers, at the limits. */
  lemma ScanLimits(n: int)
    ensures FromChars(Decimal(n)) == Number(n) <==> -2147483648 <= n <= 2147483647
    ensures Stoi(Decimal(n)) == Number(n) <==> -2147483648 <= n <= 2147483647
    ensures !(-2147483648 <= n <= 2147483647) ==> FromChars(Decimal(n)) == Stoi(Decimal(n)) == OutOfRange
  {
    ScanDecimal(n, "");
    assert Decimal(n) + "" == Decimal(n);
  }

  /** Where the two readers differ: only std::stoi passes over white space and a plus sign. */
  lemma ScanPrefixes(s: string, c: char)
    ensures c == ' ' || 9 <= c as int <= 13 ==> Stoi([c] + s) == Stoi(s) && FromChars([c] + s) == NoNumber
    ensures FromChars("+" + s) == NoNumber
    ensures s != "" && '0' <= s[0] <= '9' ==> Stoi("+" + s) == Stoi(s) == FromChars(s)
    ensures s == "" ==> Stoi(s) == FromChars(s) == NoNumber
  {
    var t := [c] + s;
    assert t[1..] == s;
    assert ("+" + s)[1..] == s;
  }

  /** `s` starts with a numeral worth `v`: an optional minus sign, digits up to `k`, and no digit after them. */
  predicate Shows(s: string, negative: bool, k: nat, v: int) {
    var i := if negative then 1 else 0;
    && i < k <= |s|
    && (negative ==> s[0] == '-')
    && AllDigits(s[i..k])
    && (k < |s| ==> !IsDigit(s[k]))
    && v == Signed(negative, Value(s[i..k]))
  }

  /** Exactly the texts that from_chars reads as `v`. */
  lemma FromCharsExactly(s: string, v: int)
    ensures FromChars(s) == Number(v) <==> InInt(v) && exists negative, k: nat :: Shows(s, negative, k, v)
  {
    var signed := s != "" && s[0] == '-';
    var i := if signed then 1 else 0;
    if FromChars(s) == Number(v) {
      var k := DigitRun(s[i..]) + i;
      assert s[i..k] == s[i..][..k - i];
      assert Shows(s, signed, k, v);
    }
    forall negative, k: nat | Shows(s, negative, k, v) ensures FromChars(s) == Ranged(v) {
      assert !negative ==> IsDigit(s[0..k][0]);
      assert s[i..] == s[i..k] + s[k..];
      ScanText(s[i..k], s[k..], signed);
    }
  }

  lemma DecimalInjective(m: int, n: int)
    requires Decimal(m) == Decimal(n)
    ensures m == n
  {
    ValueDigits(if m < 0 then -m else m);
    ValueDigits(if n < 0 then -n else n);
    assert m < 0 ==> Decimal(m)[0] == '-' && Decimal(m)[1..] == Digits(-m);
    assert n < 0 ==> Decimal(n)[0] == '-' && Decimal(n)[1..] == Digits(-n);
  }
}
