/** The values a spreadsheet cell can hold once openpyxl has read it, and the
    two Python built-ins the helpers in app.py apply to them: truthiness
    (`if value`) and `str(value)`. */
module Cells {

  // The ranges of Python's `datetime` fields.
  type Year = y: int | 1 <= y <= 9999 witness 1
  type Month = m: int | 1 <= m <= 12 witness 1
  type Day = d: int | 1 <= d <= 31 witness 1
  type Hour = h: int | 0 <= h <= 23
  type Sexagesimal = m: int | 0 <= m <= 59

  datatype DateTime = DateTime(year: Year, month: Month, day: Day,
                               hour: Hour, minute: Sexagesimal, second: Sexagesimal)

  /** A cell value: `None`, the float NaN, a string, an integer or a datetime. */
  datatype Cell =
    | Empty
    | NaN
    | Text(s: string)
    | Int(i: int)
    | Timestamp(dt: DateTime)

  /** Python truthiness: `None`, `""` and `0` are false; NaN is true. */
  predicate Truthy(v: Cell)
  {
    match v
    case Empty => false
    case NaN => true
    case Text(s) => s != ""
    case Int(i) => i != 0
    case Timestamp(_) => true
  }

  predicate IsDigit(c: char)
  {
    '0' <= c <= '9'
  }

  /** The characters for which Python's `str.isspace()` holds. */
  predicate IsSpace(c: char)
  {
    var n := c as int;
    n == 0x20 || 0x09 <= n <= 0x0D || 0x1C <= n <= 0x1F || n == 0x85 || n == 0xA0
    || n == 0x1680 || 0x2000 <= n <= 0x200A || n == 0x2028 || n == 0x2029
    || n == 0x202F || n == 0x205F || n == 0x3000
  }

  function DigitChar(d: int): (c: char)
    requires 0 <= d < 10
    ensures IsDigit(c) && c as int - '0' as int == d
  {
    ('0' as int + d) as char
  }

  /** Decimal digits of `n` without leading zeros. */
  function NatToString(n: nat): (r: string)
    ensures 1 <= |r|
    ensures forall i :: 0 <= i < |r| ==> IsDigit(r[i])
    ensures n > 0 ==> r[0] != '0'
    ensures n < 10 ==> |r| == 1
    ensures n < 100 ==> |r| <= 2
    ensures n < 1000 ==> |r| <= 3
    ensures n < 10000 ==> |r| <= 4
  {
    if n < 10 then [DigitChar(n)] else NatToString(n / 10) + [DigitChar(n % 10)]
  }

  /** The number a string of decimal digits denotes. */
  function DigitsValue(s: string): nat
  {
    if s == [] then 0
    else
      var d := s[|s| - 1] as int - '0' as int;
      DigitsValue(s[..|s| - 1]) * 10 + (if 0 <= d < 10 then d else 0)
  }

  lemma {:induction false} NatToStringValue(n: nat)
    ensures DigitsValue(NatToString(n)) == n
  {
    if n >= 10 {
      var p := NatToString(n / 10);
      var s := p + [DigitChar(n % 10)];
      assert s[..|s| - 1] == p;
      NatToStringValue(n / 10);
    }
  }

  function Zeros(k: nat): (r: string)
    ensures |r| == k && forall i :: 0 <= i < k ==> r[i] == '0'
  {
    seq(k, _ => '0')
  }

  lemma {:induction false} LeadingZerosValue(k: nat, s: string)
    ensures DigitsValue(Zeros(k) + s) == DigitsValue(s)
    decreases |s|
  {
    if s == [] {
      ZerosValue(k);
      assert Zeros(k) + s == Zeros(k);
    } else {
      var t := Zeros(k) + s;
      assert t[..|t| - 1] == Zeros(k) + s[..|s| - 1];
      LeadingZerosValue(k, s[..|s| - 1]);
    }
  }

  lemma {:induction false} ZerosValue(k: nat)
    ensures DigitsValue(Zeros(k)) == 0
  {
    if k > 0 {
      assert Zeros(k)[..k - 1] == Zeros(k - 1);
      ZerosValue(k - 1);
    }
  }

  /** `n` left-padded with zeros to `width` characters, as `%04d` does. */
  function Pad(n: nat, width: nat): (r: string)
    ensures |NatToString(n)| <= width ==> |r| == width
    ensures forall i :: 0 <= i < |r| ==> IsDigit(r[i])
    ensures DigitsValue(r) == n
  {
    var s := NatToString(n);
    NatToStringValue(n);
    if |s| >= width then s
    else
      LeadingZerosValue(width - |s|, s);
      Zeros(width - |s|) + s
  }

  /** `datetime.strftime("%Y-%m-%d")`. */
  function DateText(dt: DateTime): (r: string)
    ensures |r| == 10 && r[4] == '-' && r[7] == '-'
    ensures forall i :: 0 <= i < 10 && i != 4 && i != 7 ==> IsDigit(r[i])
    ensures DigitsValue(r[..4]) == dt.year
    ensures DigitsValue(r[5..7]) == dt.month
    ensures DigitsValue(r[8..]) == dt.day
  {
    var y, m, d := Pad(dt.year, 4), Pad(dt.month, 2), Pad(dt.day, 2);
    var r := y + "-" + m + "-" + d;
    assert r[..4] == y && r[5..7] == m && r[8..] == d;
    r
  }

  /** `str(n)` for a Python integer. */
  function IntToString(i: int): (r: string)
    ensures r != [] && (i < 0 <==> r[0] == '-')
    ensures forall k :: 0 < k < |r| ==> IsDigit(r[k])
    ensures i >= 0 ==> IsDigit(r[0])
    ensures i >= 0 && |r| > 1 ==> r[0] != '0'
    ensures i < 0 ==> |r| >= 2 && r[1] != '0'
    ensures i >= 0 ==> DigitsValue(r) == i
    ensures i < 0 ==> DigitsValue(r[1..]) == -i
  {
    if i < 0 then
      var s := NatToString(-i);
      NatToStringValue(-i);
      assert ("-" + s)[1..] == s;
      "-" + s
    else
      NatToStringValue(i);
      NatToString(i)
  }

  /** Python `str(value)`; a datetime prints as `YYYY-MM-DD HH:MM:SS`. */
  function Str(v: Cell): (r: string)
    ensures v.Timestamp? ==>
      && |r| == 19 && r[..10] == DateText(v.dt) && r[10] == ' ' && r[13] == ':' && r[16] == ':'
      && (forall i :: 11 <= i < 19 && i != 13 && i != 16 ==> IsDigit(r[i]))
      && DigitsValue(r[11..13]) == v.dt.hour
      && DigitsValue(r[14..16]) == v.dt.minute
      && DigitsValue(r[17..]) == v.dt.second
  {
    match v
    case Empty => "None"
    case NaN => "nan"
    case Text(s) => s
    case Int(i) => IntToString(i)
    case Timestamp(dt) => DateTimeText(dt)
  }

  /** `str(datetime)`: `YYYY-MM-DD HH:MM:SS`. */
  function DateTimeText(dt: DateTime): (r: string)
    ensures |r| == 19 && r[..10] == DateText(dt) && r[10] == ' ' && r[13] == ':' && r[16] == ':'
    ensures forall i :: 11 <= i < 19 && i != 13 && i != 16 ==> IsDigit(r[i])
    ensures DigitsValue(r[11..13]) == dt.hour
    ensures DigitsValue(r[14..16]) == dt.minute
    ensures DigitsValue(r[17..]) == dt.second
  {
    var d, t := DateText(dt), TimeText(dt);
    SpaceJoined(d, t);
    d + " " + t
  }

  /** Where the date and the time parts land in `str(datetime)`. */
  lemma SpaceJoined(d: string, t: string)
    requires |d| == 10 && |t| == 8
    ensures var r := d + " " + t;
      && |r| == 19 && r[..10] == d && r[10] == ' '
      && (forall i :: 11 <= i < 19 ==> r[i] == t[i - 11])
      && r[11..13] == t[..2] && r[14..16] == t[3..5] && r[17..] == t[6..]
  {
    var r := d + " " + t;
    assert r[..10] == d;
    assert r[11..] == t;
  }

  /** `HH:MM:SS`, the time part of `str(datetime)`. */
  function TimeText(dt: DateTime): (r: string)
    ensures |r| == 8 && r[2] == ':' && r[5] == ':'
    ensures forall i :: 0 <= i < 8 && i != 2 && i != 5 ==> IsDigit(r[i])
    ensures DigitsValue(r[..2]) == dt.hour
    ensures DigitsValue(r[3..5]) == dt.minute
    ensures DigitsValue(r[6..]) == dt.second
  {
    var h, mi, se := Pad(dt.hour, 2), Pad(dt.minute, 2), Pad(dt.second, 2);
    assert |h| == 2 && |mi| == 2 && |se| == 2;
    var r := h + ":" + mi + ":" + se;
    assert r[..2] == h && r[3..5] == mi && r[6..] == se;
    r
  }
}
