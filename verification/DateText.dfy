/** Dates as text and as seconds: strtol, toTime, compareDayStr and datePlusOf in MyTime.h, and the
    date list of a request (GetReqDateList in LightPlan.cpp). */
module DateText {
  import opened Calendar
  import UrlCode

  // Numbers in text

  ghost predicate Digits(s: string) { forall i :: 0 <= i < |s| ==> UrlCode.Digit(s[i]) }

  function DigitOf(c: char): (n: int)
    requires UrlCode.Digit(c)
    ensures 0 <= n <= 9
  {
    c as int - '0' as int
  }

  function Numeral(n: int): (c: char)
    requires 0 <= n <= 9
    ensures UrlCode.Digit(c) && DigitOf(c) == n
  {
    (n + 48) as char
  }

  function ReadFrom(acc: int, s: string): int
    requires Digits(s)
    decreases |s|
  {
    if s == "" then acc else ReadFrom(acc * 10 + DigitOf(s[0]), s[1..])
  }

  function Read(s: string): int
    requires Digits(s)
  {
    ReadFrom(0, s)
  }

  lemma {:induction false} ReadNext(acc: int, s: string, c: char)
    requires Digits(s + [c])
    ensures Digits(s) && UrlCode.Digit(c)
    ensures ReadFrom(acc, s + [c]) == ReadFrom(acc, s) * 10 + DigitOf(c)
    decreases |s|
  {
    assert forall i :: 0 <= i < |s| ==> (s + [c])[i] == s[i];
    assert (s + [c])[|s|] == c;
    if s == "" {
      assert (s + [c])[1..] == "";
    } else {
      assert (s + [c])[1..] == s[1..] + [c];
      ReadNext(acc * 10 + DigitOf(s[0]), s[1..], c);
    }
  }

  /** isspace. */
  predicate Blank(c: char) { c == ' ' || 9 <= c as int <= 13 }

  /** Where the blanks from i on end. */
  function AfterBlanks(s: string, i: nat): (j: nat)
    requires i <= |s|
    ensures i <= j <= |s| && (forall k :: i <= k < j ==> Blank(s[k])) && (j < |s| ==> !Blank(s[j]))
    decreases |s| - i
  {
    if i < |s| && Blank(s[i]) then AfterBlanks(s, i + 1) else i
  }

  function AfterSign(s: string, i: nat): (j: nat)
    requires i <= |s|
    ensures i <= j <= |s|
  {
    if i < |s| && (s[i] == '+' || s[i] == '-') then i + 1 else i
  }

  /** Where the digits from i on end. */
  function AfterDigits(s: string, i: nat): (j: nat)
    requires i <= |s|
    ensures i <= j <= |s| && Digits(s[i..j]) && (j < |s| ==> !UrlCode.Digit(s[j]))
    decreases |s| - i
  {
    if i < |s| && UrlCode.Digit(s[i]) then AfterDigits(s, i + 1) else i
  }

  /** strtol from i: blanks, a sign, digits; without digits it reads 0 and stays at i. */
  function NumberAt(s: string, i: nat): (r: (int, nat))
    requires i <= |s|
    ensures i <= r.1 <= |s|
  {
    var j := AfterBlanks(s, i);
    var d := AfterSign(s, j);
    var e := AfterDigits(s, d);
    if e == d then (0, i)
    else if s[j] == '-' then (-Read(s[d..e]), e)
    else (Read(s[d..e]), e)
  }

  method StrTol(s: string, i: nat) returns (v: int, next: nat)
    requires i <= |s|
    ensures (v, next) == NumberAt(s, i)
  {
    var j := i;
    while j < |s| && Blank(s[j])
      invariant i <= j <= |s| && AfterBlanks(s, j) == AfterBlanks(s, i)
    {
      j := j + 1;
    }
    var negative := j < |s| && s[j] == '-';
    var d := if j < |s| && (s[j] == '+' || s[j] == '-') then j + 1 else j;
    v, next := ReadRun(s, d);
    if next == d {
      next := i;
    } else if negative {
      v := -v;
    }
  }

  method ReadRun(s: string, d: nat) returns (v: int, next: nat)
    requires d <= |s|
    ensures next == AfterDigits(s, d) && v == Read(s[d..next])
  {
    v, next := 0, d;
    while next < |s| && UrlCode.Digit(s[next])
      invariant d <= next <= |s| && AfterDigits(s, next) == AfterDigits(s, d)
      invariant Digits(s[d..next]) && v == Read(s[d..next])
    {
      assert s[d..next + 1] == s[d..next] + [s[next]];
      ReadNext(0, s[d..next], s[next]);
      v := v * 10 + DigitOf(s[next]);
      next := next + 1;
    }
  }

  /** A run of digits is read as it is. */
  lemma NumberIs(s: string, from: nat, to: nat)
    requires from <= to <= |s| && Digits(s[from..to])
    requires to < |s| ==> !UrlCode.Digit(s[to]) && (from < to || !(Blank(s[from]) || s[from] == '+' || s[from] == '-'))
    ensures NumberAt(s, from) == (Read(s[from..to]), to)
  {
    assert from < to ==> s[from] == s[from..to][0];
    DigitsEnd(s, from, to);
  }

  lemma {:induction false} DigitsEnd(s: string, from: nat, to: nat)
    requires from <= to <= |s| && Digits(s[from..to]) && (to < |s| ==> !UrlCode.Digit(s[to]))
    ensures AfterDigits(s, from) == to
    decreases |s| - from
  {
    if from < to {
      assert s[from] == s[from..to][0] && s[from + 1..to] == s[from..to][1..];
      DigitsEnd(s, from + 1, to);
    }
  }

  /** std::string's order. */
  predicate LexLe(a: string, b: string) {
    if a == "" then true
    else if b == "" then false
    else if a[0] != b[0] then a[0] < b[0]
    else LexLe(a[1..], b[1..])
  }

  /** Between numbers of the same length, the order of texts is the order of numbers. */
  lemma {:induction false} LexIsNumeric(acc: int, a: string, b: string)
    requires Digits(a) && Digits(b) && |a| == |b|
    ensures LexLe(a, b) <==> ReadFrom(acc, a) <= ReadFrom(acc, b)
    decreases |a|
  {
    if a != "" {
      var x, y := acc * 10 + DigitOf(a[0]), acc * 10 + DigitOf(b[0]);
      if x == y {
        LexIsNumeric(x, a[1..], b[1..]);
      } else if x < y {
        LargerHead(x, y, a[1..], b[1..]);
      } else {
        LargerHead(y, x, b[1..], a[1..]);
      }
    }
  }

  lemma {:induction false} LargerHead(x: int, y: int, a: string, b: string)
    requires Digits(a) && Digits(b) && |a| == |b| && x < y
    ensures ReadFrom(x, a) < ReadFrom(y, b)
    decreases |a|
  {
    if a != "" {
      LargerHead(x * 10 + DigitOf(a[0]), y * 10 + DigitOf(b[0]), a[1..], b[1..]);
    }
  }

  // Days in text

  predicate Shown(d: Date) { Valid(d) && 0 <= d.year <= 9999 }

  function Four(n: int): (s: string)
    requires 0 <= n <= 9999
    ensures |s| == 4
  {
    [Numeral(n / 1000), Numeral(n / 100 % 10), Numeral(n / 10 % 10), Numeral(n % 10)]
  }

  /** The format of a day, YYYYMMDD. */
  function Print(d: Date): (s: string)
    requires Shown(d)
    ensures |s| == 8 && Digits(s)
  {
    Four(d.year) + Four(d.month * 100 + d.day)
  }

  lemma ReadFour(acc: int, n: int)
    requires 0 <= n <= 9999
    ensures Digits(Four(n)) && ReadFrom(acc, Four(n)) == acc * 10000 + n
  {
    var s := Four(n);
    ReadDigits(acc, s[0], s[1], s[2], s[3]);
    DecimalDigits(n);
  }

  lemma ReadDigits(acc: int, a: char, b: char, c: char, d: char)
    requires Digits([a, b, c, d])
    ensures UrlCode.Digit(a) && UrlCode.Digit(b) && UrlCode.Digit(c) && UrlCode.Digit(d)
    ensures ReadFrom(acc, [a, b, c, d]) ==
        (((acc * 10 + DigitOf(a)) * 10 + DigitOf(b)) * 10 + DigitOf(c)) * 10 + DigitOf(d)
  {
    assert [a, b, c, d][0] == a && [a, b, c, d][1] == b && [a, b, c, d][2] == c && [a, b, c, d][3] == d;
    ReadNext(acc, [a, b, c], d) by {
      assert [a, b, c] + [d] == [a, b, c, d];
    }
    ReadNext(acc, [a, b], c) by {
      assert [a, b] + [c] == [a, b, c];
    }
    ReadNext(acc, [a], b) by {
      assert [a] + [b] == [a, b];
    }
    ReadNext(acc, "", a) by {
      assert "" + [a] == [a];
    }
    assert [a, b, c] + [d] == [a, b, c, d] && [a, b] + [c] == [a, b, c] && [a] + [b] == [a, b] && "" + [a] == [a];
  }

  lemma DecimalDigits(n: int)
    requires 0 <= n <= 9999
    ensures ((n / 1000 * 10 + n / 100 % 10) * 10 + n / 10 % 10) * 10 + n % 10 == n
  {
  }

  lemma {:induction false} ReadConcat(acc: int, a: string, b: string)
    requires Digits(a) && Digits(b)
    ensures Digits(a + b) && ReadFrom(acc, a + b) == ReadFrom(ReadFrom(acc, a), b)
    decreases |a|
  {
    if a == "" {
      assert a + b == b;
    } else {
      assert (a + b)[1..] == a[1..] + b;
      ReadConcat(acc * 10 + DigitOf(a[0]), a[1..], b);
    }
  }

  function DayNumber(d: Date): int { d.year * 10000 + d.month * 100 + d.day }

  lemma ReadPrint(d: Date)
    requires Shown(d)
    ensures Read(Print(d)) == DayNumber(d)
  {
    ReadEight(d.year, d.month * 100 + d.day);
  }

  lemma ReadEight(a: int, b: int)
    requires 0 <= a <= 9999 && 0 <= b <= 9999
    ensures Digits(Four(a) + Four(b)) && Read(Four(a) + Four(b)) == a * 10000 + b
  {
    var s, t := Four(a), Four(b);
    ReadFour(0, a);
    ReadFour(a, b);
    ReadConcat(0, s, t);
  }

  /** Days are ordered as their texts are, and as their day counts are. */
  lemma TextOrder(a: Date, b: Date)
    requires Shown(a) && Shown(b)
    ensures LexLe(Print(a), Print(b)) <==> DayNo(a) <= DayNo(b)
    ensures Print(a) == Print(b) <==> a == b
  {
    ReadPrint(a);
    ReadPrint(b);
    LexIsNumeric(0, Print(a), Print(b));
    DayNoOrder(a, b);
    DayNoOrder(b, a);
    NumberOrder(a, b);
  }

  lemma NumberOrder(a: Date, b: Date)
    requires Valid(a) && Valid(b)
    ensures DayNumber(a) <= DayNumber(b) <==> !Before(b, a)
    ensures DayNumber(a) == DayNumber(b) <==> a == b
  {
  }

  /** After blanks and an optional sign, the longest run of digits is read, and a '-' negates it; without a
      digit there the number is 0 and nothing was read. */
  lemma NumberMeans(s: string, i: nat, j: nat, d: nat, e: nat)
    requires i <= j <= d <= e <= |s| && Digits(s[d..e]) && (e < |s| ==> !UrlCode.Digit(s[e]))
    requires (forall k :: i <= k < j ==> s[k] in {' ', '\t', '\n', 11 as char, 12 as char, '\r'})
    requires (d == j + 1 && s[j] in {'+', '-'}) ||
             (d == j && (j < |s| ==> s[j] !in {'+', '-', ' ', '\t', '\n', 11 as char, 12 as char, '\r'}))
    ensures NumberAt(s, i) == if d == e then (0, i) else if s[j] == '-' then (-Read(s[d..e]), e) else (Read(s[d..e]), e)
  {
    BlanksEnd(s, i, j);
    DigitsEnd(s, d, e);
  }

  lemma {:induction false} BlanksEnd(s: string, i: nat, j: nat)
    requires i <= j <= |s| && (forall k :: i <= k < j ==> Blank(s[k])) && (j < |s| ==> !Blank(s[j]))
    ensures AfterBlanks(s, i) == j
    decreases j - i
  {
    if i < j {
      BlanksEnd(s, i + 1, j);
    }
  }

  /** The last digit is the one that counts once. */
  lemma ReadMeans(s: string, c: char)
    requires Digits(s) && UrlCode.Digit(c)
    ensures Digits(s + [c]) && Read("") == 0 && Read(s + [c]) == 10 * Read(s) + (c as int - '0' as int)
  {
    ReadNext(0, s, c);
  }
}
