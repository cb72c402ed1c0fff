/**
 * The whole-second branch of main.py's `print_time`: a number of seconds is
 * split into hours, minutes and seconds, and written as an optional "<h>h",
 * an optional two-digit "<mm>m" and a mandatory two-digit "<ss>s", joined
 * without separators ("1h00m05s", "02m30s", "07s").
 */
module ElapsedTime {
  import opened Options

  /** Python's divmod for a positive divisor. */
  function DivMod(a: int, b: int): (r: (int, int))
    requires b > 0
    ensures a == b * r.0 + r.1 && 0 <= r.1 < b
  {
    (a / b, a % b)
  }

  predicate IsDigit(c: char) { '0' <= c <= '9' }

  predicate AllDigits(t: string) { forall i :: 0 <= i < |t| ==> IsDigit(t[i]) }

  function DigitChar(d: nat): (c: char)
    requires d < 10
    ensures IsDigit(c) && DigitValue(c) == d
  {
    (('0' as int) + d) as char
  }

  function DigitValue(c: char): nat
    requires IsDigit(c)
  {
    (c as int) - ('0' as int)
  }

  /** The number a string of decimal digits denotes, read most significant first. */
  function NumeralValue(t: string): nat
    requires AllDigits(t)
    decreases |t|
  {
    if t == [] then 0 else NumeralValue(t[..|t| - 1]) * 10 + DigitValue(t[|t| - 1])
  }

  /** `str(n)` for a non-negative int: its decimal numeral, without leading zeros. */
  function Decimal(n: nat): (r: string)
    ensures 1 <= |r| && AllDigits(r)
    ensures NumeralValue(r) == n
    ensures |r| > 1 ==> r[0] != '0'
    decreases n
  {
    if n < 10 then [DigitChar(n)]
    else
      var r := Decimal(n / 10) + [DigitChar(n % 10)];
      assert r[..|r| - 1] == Decimal(n / 10);
      r
  }

  /** `f"{v:02}"` for a non-negative int: the numeral, filled with zeros on the
      left to at least two characters. */
  function Pad2(v: nat): (r: string)
    ensures AllDigits(r) && NumeralValue(r) == v
    ensures v < 100 ==> |r| == 2
    ensures |r| >= 2
  {
    if v < 10 then
      var r := "0" + Decimal(v);
      assert r[..|r| - 1] == "0";
      r
    else
      assert v < 100 ==> |Decimal(v / 10)| == 1;
      Decimal(v)
  }

  /** `"".join(parts)`: the parts concatenated in order, with no separator. */
  function Join(parts: seq<string>): (r: string)
    ensures parts == [] ==> r == ""
    ensures |parts| == 1 ==> r == parts[0]
    ensures |parts| == 2 ==> r == parts[0] + parts[1]
    ensures |parts| == 3 ==> r == parts[0] + parts[1] + parts[2]
    decreases |parts|
  {
    if parts == [] then ""
    else
      var init := parts[..|parts| - 1];
      assert |parts| >= 2 ==> init[0] == parts[0];
      assert |parts| == 3 ==> init[1] == parts[1];
      Join(init) + parts[|parts| - 1]
  }

  /** The string print_time returns for n whole seconds: hours appear only when
      there is at least one, minutes when there is at least one minute in all
      (so "00m" follows any hours), seconds always. */
  function FormatElapsed(n: nat): (r: string)
    ensures |r| >= 3 && r[|r| - 1] == 's'
    ensures n < 60 ==> |r| == 3
    ensures 60 <= n < 3600 ==> |r| == 6
    ensures 3600 <= n ==> |r| == |Decimal(n / 3600)| + 7
  {
    var h, m, s := n / 3600, n / 60 % 60, n % 60;
    (if h > 0 then Decimal(h) + "h" else "")
    + (if n >= 60 then Pad2(m) + "m" else "")
    + Pad2(s) + "s"
  }

  /** The integer branch of print_time: two divmods, then a list of segments
      appended one by one and joined. */
  method PrintTime(elapsedSeconds: nat) returns (r: string)
    ensures r == FormatElapsed(elapsedSeconds)
  {
    var (q, s) := DivMod(elapsedSeconds, 60);
    var (h, m) := DivMod(q, 60);
    DecompositionAgrees(elapsedSeconds);
    FormatElapsedShape(elapsedSeconds);
    var elapsedTime: seq<string> := [];
    if h > 0 {
      elapsedTime := elapsedTime + [Decimal(h) + "h"];
    }
    if !(h == 0 && m == 0) {
      elapsedTime := elapsedTime + [Pad2(m) + "m"];
    }
    elapsedTime := elapsedTime + [Pad2(s) + "s"];
    r := Join(elapsedTime);
  }

  /** The two divmods of print_time recover hours, minutes and seconds of n. */
  lemma DecompositionAgrees(n: nat)
    ensures DivMod(n, 60).0 == n / 60 && DivMod(n, 60).1 == n % 60
    ensures DivMod(DivMod(n, 60).0, 60) == (n / 3600, n / 60 % 60)
    ensures (n / 3600) * 3600 + (n / 60 % 60) * 60 + n % 60 == n
    ensures 0 <= n / 60 % 60 < 60 && 0 <= n % 60 < 60
    ensures n / 3600 > 0 <==> n >= 3600
    ensures (n / 3600 == 0 && n / 60 % 60 == 0) <==> n < 60
  {
    var q := n / 60;
    assert n == 60 * q + n % 60;
    assert q == 60 * (q / 60) + q % 60;
    assert n == 3600 * (q / 60) + 60 * (q % 60) + n % 60;
    assert q / 60 == n / 3600;
  }

  /** One "<number><unit>" segment of a formatted duration. */
  datatype Segment = Segment(value: nat, unit: char)

  /** The length of the run of digits at the front of t. */
  function DigitRun(t: string): (k: nat)
    ensures k <= |t| && AllDigits(t[..k])
    ensures k < |t| ==> !IsDigit(t[k])
    decreases |t|
  {
    if t == [] || !IsDigit(t[0]) then 0
    else
      var k := 1 + DigitRun(t[1..]);
      assert t[..k] == [t[0]] + t[1..][..k - 1];
      k
  }

  /** Splits t into segments, each a non-empty run of digits followed by one
      non-digit unit character; None if t is not of that shape. */
  function Segments(t: string): Option<seq<Segment>>
    decreases |t|
  {
    if t == [] then Some([])
    else
      var k := DigitRun(t);
      if k == 0 || k == |t| then None
      else
        match Segments(t[k + 1..])
        case None => None
        case Some(rest) => Some([Segment(NumeralValue(t[..k]), t[k])] + rest)
  }

  /** Reads back a duration written as "<h>h<m>m<s>s", "<m>m<s>s" or "<s>s". */
  function ParseElapsed(t: string): Option<nat>
  {
    match Segments(t)
    case None => None
    case Some(ss) => Interpret(ss)
  }

  function Interpret(ss: seq<Segment>): Option<nat>
  {
    if |ss| == 3 && ss[0].unit == 'h' && ss[1].unit == 'm' && ss[2].unit == 's' then
      Some(ss[0].value * 3600 + ss[1].value * 60 + ss[2].value)
    else if |ss| == 2 && ss[0].unit == 'm' && ss[1].unit == 's' then
      Some(ss[0].value * 60 + ss[1].value)
    else if |ss| == 1 && ss[0].unit == 's' then
      Some(ss[0].value)
    else None
  }

  lemma {:induction false} DigitRunOfNumeral(digits: string, unit: char, rest: string)
    requires AllDigits(digits) && !IsDigit(unit)
    ensures DigitRun(digits + [unit] + rest) == |digits|
    decreases |digits|
  {
    if digits != [] {
      var t := digits + [unit] + rest;
      assert t[1..] == digits[1..] + [unit] + rest;
      DigitRunOfNumeral(digits[1..], unit, rest);
    }
  }

  /** A numeral followed by a unit character is read as one segment. */
  lemma SegmentsCons(t: string, digits: string, unit: char, rest: string)
    requires t == digits + [unit] + rest
    requires 1 <= |digits| && AllDigits(digits) && !IsDigit(unit)
    requires Segments(rest).Some?
    ensures Segments(t) == Some([Segment(NumeralValue(digits), unit)] + Segments(rest).value)
  {
    DigitRunOfNumeral(digits, unit, rest);
    assert t[..|digits|] == digits;
    assert t[|digits| + 1..] == rest;
  }

  lemma SecondsSegments(s: nat)
    ensures Segments(Pad2(s) + "s") == Some([Segment(s, 's')])
  {
    var none: string := [];
    assert Segments(none) == Some([]);
    SegmentsCons(Pad2(s) + "s", Pad2(s), 's', none);
    assert [Segment(s, 's')] + [] == [Segment(s, 's')];
  }

  lemma MinutesSegments(m: nat, s: nat)
    ensures Segments(Pad2(m) + "m" + (Pad2(s) + "s")) == Some([Segment(m, 'm'), Segment(s, 's')])
  {
    var sec := Pad2(s) + "s";
    SecondsSegments(s);
    SegmentsCons(Pad2(m) + "m" + sec, Pad2(m), 'm', sec);
    assert [Segment(m, 'm')] + [Segment(s, 's')] == [Segment(m, 'm'), Segment(s, 's')];
  }

  lemma HoursSegments(h: nat, m: nat, s: nat)
    ensures Segments(Decimal(h) + "h" + (Pad2(m) + "m" + (Pad2(s) + "s")))
         == Some([Segment(h, 'h'), Segment(m, 'm'), Segment(s, 's')])
  {
    var ms := Pad2(m) + "m" + (Pad2(s) + "s");
    MinutesSegments(m, s);
    SegmentsCons(Decimal(h) + "h" + ms, Decimal(h), 'h', ms);
    assert [Segment(h, 'h')] + [Segment(m, 'm'), Segment(s, 's')] == [Segment(h, 'h'), Segment(m, 'm'), Segment(s, 's')];
  }

  lemma ParseOfSegments(t: string, ss: seq<Segment>)
    requires Segments(t) == Some(ss)
    ensures ParseElapsed(t) == Interpret(ss)
  {
  }

  lemma ParseSeconds(s: nat)
    ensures ParseElapsed(Pad2(s) + "s") == Some(s)
  {
    var t := Pad2(s) + "s";
    SecondsSegments(s);
    ParseOfSegments(t, [Segment(s, 's')]);
  }

  lemma ParseMinutes(m: nat, s: nat)
    ensures ParseElapsed(Pad2(m) + "m" + (Pad2(s) + "s")) == Some(m * 60 + s)
  {
    var t := Pad2(m) + "m" + (Pad2(s) + "s");
    MinutesSegments(m, s);
    ParseOfSegments(t, [Segment(m, 'm'), Segment(s, 's')]);
  }

  lemma ParseHours(h: nat, m: nat, s: nat)
    ensures ParseElapsed(Decimal(h) + "h" + (Pad2(m) + "m" + (Pad2(s) + "s"))) == Some(h * 3600 + m * 60 + s)
  {
    var t := Decimal(h) + "h" + (Pad2(m) + "m" + (Pad2(s) + "s"));
    HoursSegments(h, m, s);
    ParseOfSegments(t, [Segment(h, 'h'), Segment(m, 'm'), Segment(s, 's')]);
    InterpretHours(h, m, s);
  }

  lemma InterpretHours(h: nat, m: nat, s: nat)
    ensures Interpret([Segment(h, 'h'), Segment(m, 'm'), Segment(s, 's')]) == Some(h * 3600 + m * 60 + s)
  {
  }

  /** The three shapes print_time's result takes. */
  lemma FormatElapsedShape(n: nat)
    ensures n < 60 ==> FormatElapsed(n) == Pad2(n % 60) + "s"
    ensures 60 <= n < 3600 ==> FormatElapsed(n) == Pad2(n / 60 % 60) + "m" + (Pad2(n % 60) + "s")
    ensures 3600 <= n ==> FormatElapsed(n) == Decimal(n / 3600) + "h" + (Pad2(n / 60 % 60) + "m" + (Pad2(n % 60) + "s"))
  {
    var h, m, s := n / 3600, n / 60 % 60, n % 60;
    assert h > 0 <==> n >= 3600;
    var hs := if h > 0 then Decimal(h) + "h" else "";
    var ms := if n >= 60 then Pad2(m) + "m" else "";
    assert FormatElapsed(n) == hs + ms + (Pad2(s) + "s");
  }

  lemma RoundTripSeconds(n: nat)
    requires n < 60
    ensures ParseElapsed(FormatElapsed(n)) == Some(n)
  {
    FormatElapsedShape(n);
    assert n % 60 == n;
    ParseSeconds(n);
  }

  lemma RoundTripMinutes(n: nat)
    requires 60 <= n < 3600
    ensures ParseElapsed(FormatElapsed(n)) == Some(n)
  {
    DecompositionAgrees(n);
    FormatElapsedShape(n);
    ParseMinutes(n / 60 % 60, n % 60);
  }

  lemma RoundTripHours(n: nat)
    requires 3600 <= n
    ensures ParseElapsed(FormatElapsed(n)) == Some(n)
  {
    DecompositionAgrees(n);
    FormatElapsedShape(n);
    ParseHours(n / 3600, n / 60 % 60, n % 60);
  }

  /** print_time's output determines its input: reading it back gives n. */
  lemma FormatElapsedRoundTrip(n: nat)
    ensures ParseElapsed(FormatElapsed(n)) == Some(n)
  {
    if n < 60 {
      RoundTripSeconds(n);
    } else if n < 3600 {
      RoundTripMinutes(n);
    } else {
      RoundTripHours(n);
    }
  }

  /** Distinct durations are printed differently. */
  lemma FormatElapsedInjective(a: nat, b: nat)
    ensures FormatElapsed(a) == FormatElapsed(b) <==> a == b
  {
    FormatElapsedRoundTrip(a);
    FormatElapsedRoundTrip(b);
  }

  lemma NoUnitInDigits(t: string, c: char)
    requires AllDigits(t) && !IsDigit(c)
    ensures c !in t
  {
  }

  /** The hours segment appears exactly when there is at least one hour, the
      minutes segment exactly when there is at least one minute (in particular
      always after an hours segment), and the string always ends with the
      two-digit seconds followed by 's'. */
  lemma FormatElapsedSegments(n: nat)
    ensures 'h' in FormatElapsed(n) <==> n / 3600 > 0
    ensures 'm' in FormatElapsed(n) <==> n / 3600 > 0 || n / 60 % 60 > 0
    ensures var r := FormatElapsed(n);
            |r| >= 3 && r[|r| - 3..] == Pad2(n % 60) + "s" && NumeralValue(r[|r| - 3..|r| - 1]) == n % 60
  {
    DecompositionAgrees(n);
    var h, m, s := n / 3600, n / 60 % 60, n % 60;
    var hs := if h > 0 then Decimal(h) + "h" else "";
    var ms := if n >= 60 then Pad2(m) + "m" else "";
    var ss := Pad2(s) + "s";
    var r := FormatElapsed(n);
    assert r == hs + ms + ss;
    NoUnitInDigits(Decimal(h), 'h');
    NoUnitInDigits(Decimal(h), 'm');
    NoUnitInDigits(Pad2(m), 'h');
    NoUnitInDigits(Pad2(m), 'm');
    NoUnitInDigits(Pad2(s), 'h');
    NoUnitInDigits(Pad2(s), 'm');
    assert 'h' !in ms && 'h' !in ss && 'm' !in ss && 'm' !in hs;
    assert h > 0 ==> hs[|hs| - 1] == 'h';
    assert n >= 60 ==> ms[|ms| - 1] == 'm';
    assert n >= 60 <==> h > 0 || m > 0;
    assert r[|r| - 3..] == ss;
    assert r[|r| - 3..|r| - 1] == Pad2(s);
  }
}
