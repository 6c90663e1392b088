/** How times and IP ranges are written in a SAS (azfile/zc_sas_query_params.go). A time stands for
    its wall clock fields; an IP is an IPv4 address. Parsing is that of Go 1.17 on. */
module SasFormats {
  import opened Text
  import Decimal

  // ----- Times -----

  datatype Time = Time(year: nat, month: nat, day: nat, hour: nat, minute: nat, second: nat, nano: nat)
  {
    predicate IsZero() {
      this == ZERO_TIME
    }
  }

  /** time.Time{} is the first instant of the year one. */
  const ZERO_TIME := Time(1, 1, 1, 0, 0, 0, 0)

  function DaysIn(year: nat, month: nat): nat {
    if month == 2 then (if year % 4 == 0 && (year % 100 != 0 || year % 400 == 0) then 29 else 28)
    else if month in {4, 6, 9, 11} then 30
    else 31
  }

  /** The Gregorian calendar, by its table of months. */
  lemma DaysInMeans(year: nat, month: nat)
    requires 1 <= month <= 12
    ensures month in {1, 3, 5, 7, 8, 10, 12} <==> DaysIn(year, month) == 31
    ensures month == 2 <==> DaysIn(year, month) < 30
    ensures 28 <= DaysIn(year, month) <= 31
  {
  }

  lemma LeapYears(century: nat, n: nat)
    requires n < 100
    ensures DaysIn(100 * century + n, 2) == 29 <==> if n == 0 then century % 4 == 0 else n % 4 == 0
  {
    var year := 100 * century + n;
    assert year == 4 * (25 * century) + n && year % 100 == n;
    if n == 0 {
      assert year == 400 * (century / 4) + 100 * (century % 4);
    }
  }

  predicate ValidTime(t: Time) {
    && t.year <= 9999 && 1 <= t.month <= 12 && 1 <= t.day <= DaysIn(t.year, t.month)
    && t.hour < 24 && t.minute < 60 && t.second < 60 && t.nano < 1_000_000_000
  }

  lemma TimesInRange(t: Time)
    ensures ValidTime(t) <==> t.year < 10000 && 0 < t.month < 13 && 0 < t.day && t.day < DaysIn(t.year, t.month) + 1
                              && t.hour <= 23 && t.minute <= 59 && t.second <= 59 && t.nano <= 999_999_999
  {
  }

  /** The layouts of SASTimeFormats, and the empty layout. None of them shows a part of a second. */
  datatype Layout = NoLayout | Seconds | Minutes | Days

  function Two(n: nat): Text
    requires n < 100
  {
    [Decimal.Digit(n / 10), Decimal.Digit(n % 10)]
  }

  function FormatDate(t: Time): Text
    requires ValidTime(t)
  {
    Two(t.year / 100) + Two(t.year % 100) + "-" + Two(t.month) + "-" + Two(t.day)
  }

  function FormatClock(t: Time, seconds: bool): Text
    requires ValidTime(t)
  {
    "T" + (Two(t.hour) + (":" + (Two(t.minute) + if seconds then ":" + (Two(t.second) + "Z") else "Z")))
  }

  /** formatSASTime: without a layout the one with seconds is used. */
  function FormatTime(t: Time, layout: Layout): Text
    requires ValidTime(t)
  {
    if layout == Days then FormatDate(t) else FormatDate(t) + FormatClock(t, layout != Minutes)
  }

  /** formatSASTimeWithDefaultFormat, and nothing at all for the zero time. */
  function FormatForSigning(t: Time): Text
    requires ValidTime(t)
  {
    if t.IsZero() then "" else FormatTime(t, Seconds)
  }

  function ParseTwo(s: Text): Option<nat> {
    if |s| == 2 then Decimal.ParseNat(s) else None
  }

  function Checked(t: Time): Option<Time> {
    if ValidTime(t) then Some(t) else None
  }

  function ParseDate(s: Text): Option<Time> {
    if |s| != 10 || s[4] != '-' || s[7] != '-' then None else
    match (ParseTwo(s[0..2]), ParseTwo(s[2..4]), ParseTwo(s[5..7]), ParseTwo(s[8..10]))
    case (Some(c), Some(y), Some(m), Some(d)) => Checked(Time(100 * c + y, m, d, 0, 0, 0, 0))
    case _ => None
  }

  /** A number at the head of a text, and what follows it. */
  datatype Scan = Scan(n: nat, rest: Text)

  /** One literal character of a layout. */
  function Skip(s: Text, c: Octet): Option<Text> {
    if s != [] && s[0] == c then Some(s[1..]) else None
  }

  /** Go's getnum: two digits, or one where the layout does not ask for a leading zero. */
  function ScanTwo(s: Text, fixed: bool): Option<Scan> {
    if |s| >= 2 && Decimal.AllDigits(s[..2]) then Some(Scan(Decimal.Value(s[..2]), s[2..]))
    else if !fixed && |s| >= 1 && Decimal.AllDigits(s[..1]) then Some(Scan(Decimal.Value(s[..1]), s[1..]))
    else None
  }

  /** A lone digit is a number where no leading zero is asked for, and only there; without a digit there
      is no number. */
  lemma ScanOneOf(c: Octet, rest: Text, fixed: bool)
    requires rest == "" || !Decimal.IsDigit(rest[0])
    ensures ScanTwo([c] + rest, fixed) ==
            if Decimal.IsDigit(c) && !fixed then Some(Scan(c as int - '0' as int, rest)) else None
    ensures ScanTwo("", fixed) == None
  {
    var s := [c] + rest;
    assert s[..1] == [c] && s[1..] == rest && [c][..0] == [];
    assert Decimal.AllDigits([c]) <==> Decimal.IsDigit(c) by {
      assert c in [c];
    }
    if Decimal.IsDigit(c) {
      assert Decimal.Value([]) == 0 && [c][|[c]| - 1] == c;
      assert Decimal.Value([c]) == c as int - 48;
    }
    if |s| >= 2 {
      assert s[..2][1] == rest[0] && s[..2][1] in s[..2];
    }
  }

  /** How many digits a text begins with. */
  function Digits(s: Text): (n: nat)
    ensures n <= |s| && Decimal.AllDigits(s[..n])
  {
    if s != [] && Decimal.IsDigit(s[0]) then
      var n := 1 + Digits(s[1..]);
      assert s[..n] == [s[0]] + s[1..][..n - 1];
      n
    else 0
  }

  function Scale(n: nat, digits: nat): nat
    decreases 9 - digits
  {
    if digits >= 9 then n else Scale(10 * n, digits + 1)
  }

  /** The fraction that Go accepts after the seconds although no layout has one: its first nine
      digits count. */
  function ScanFraction(s: Text): Scan {
    if s != [] && (s[0] == '.' || s[0] == ',') && Digits(s[1..]) > 0 then
      var n := Digits(s[1..]);
      var kept := if n <= 9 then n else 9;
      assert s[1..][..kept] == s[1..][..n][..kept];
      Scan(Scale(Decimal.Value(s[1..][..kept]), kept), s[1..][n..])
    else Scan(0, s)
  }

  function Power10(n: nat): nat {
    if n == 0 then 1 else 10 * Power10(n - 1)
  }

  lemma {:induction false} ScaleMeans(n: nat, digits: nat)
    ensures Scale(n, digits) == n * (if digits <= 9 then Power10(9 - digits) else 1)
    decreases 9 - digits
  {
    if digits < 9 {
      ScaleMeans(10 * n, digits + 1);
      TenTimes(n, Power10(8 - digits));
      assert Power10(9 - digits) == 10 * Power10(8 - digits);
      hide Power10;
    }
  }

  lemma TenTimes(n: nat, m: nat)
    ensures 10 * n * m == n * (10 * m)
  {
  }

  lemma {:induction false} DigitsOf(digits: Text, rest: Text)
    requires Decimal.AllDigits(digits) && (rest != "" ==> !Decimal.IsDigit(rest[0]))
    ensures Digits(digits + rest) == |digits|
  {
    if digits != [] {
      assert (digits + rest)[1..] == digits[1..] + rest && (digits + rest)[0] == digits[0];
      DigitsOf(digits[1..], rest);
    } else {
      assert digits + rest == rest;
    }
  }

  /** A fraction of a second is read in nanoseconds, as far as its first nine digits go. */
  lemma FractionMeans(point: Octet, digits: Text, rest: Text)
    requires Decimal.AllDigits(digits) && (rest != "" ==> !Decimal.IsDigit(rest[0]))
    ensures var kept := if |digits| <= 9 then digits else digits[..9];
            ScanFraction([point] + digits + rest) ==
            if digits != "" && (point == '.' || point == ',') then Scan(Decimal.Value(kept) * Power10(9 - |kept|), rest)
            else Scan(0, [point] + digits + rest)
  {
    var s := [point] + digits + rest;
    assert s[1..] == digits + rest;
    DigitsOf(digits, rest);
    var n := if |digits| <= 9 then |digits| else 9;
    assert s[1..][..n] == digits[..n] && s[1..][|digits|..] == rest;
    assert |digits| <= 9 ==> digits[..n] == digits;
    ScaleMeans(Decimal.Value(digits[..n]), n);
    hide Decimal.Value, Scale;
  }

  function ParseClock(date: Time, s: Text, seconds: bool): Option<Time> {
    match Skip(s, 'T')
    case None => None
    case Some(s1) =>
      match ScanTwo(s1, false)
      case None => None
      case Some(Scan(hour, s2)) =>
        match Skip(s2, ':')
        case None => None
        case Some(s3) =>
          match ScanTwo(s3, true)
          case None => None
          case Some(Scan(minute, s4)) =>
            var t := date.(hour := hour, minute := minute);
            if seconds then ParseSeconds(t, s4) else if s4 == "Z" then Checked(t) else None
  }

  function ParseSeconds(t: Time, s: Text): Option<Time> {
    match Skip(s, ':')
    case None => None
    case Some(s1) =>
      match ScanTwo(s1, true)
      case None => None
      case Some(Scan(second, s2)) =>
        var fraction := ScanFraction(s2);
        if fraction.rest == "Z" then Checked(t.(second := second, nano := fraction.n)) else None
  }

  /** time.Parse with one of the layouts. */
  function ParseTime(layout: Layout, s: Text): Option<Time> {
    if layout == NoLayout then None
    else if layout == Days then ParseDate(s)
    else if |s| < 10 then None
    else
      match ParseDate(s[..10])
      case None => None
      case Some(date) => ParseClock(date, s[10..], layout == Seconds)
  }

  datatype SasTime = SasTime(time: Time, layout: Layout)

  /** parseSASTimeString, its error ignored as the callers do: the layouts are tried in order. */
  function ParseSasTime(s: Text): SasTime {
    match ParseTime(Seconds, s)
    case Some(t) => SasTime(t, Seconds)
    case None =>
      match ParseTime(Minutes, s)
      case Some(t) => SasTime(t, Minutes)
      case None =>
        match ParseTime(Days, s)
        case Some(t) => SasTime(t, Days)
        case None => SasTime(ZERO_TIME, NoLayout)
  }

  /** What is left of a time once it was written down in a layout. */
  function Printed(t: SasTime): SasTime {
    match t.layout
    case Days => SasTime(t.time.(hour := 0, minute := 0, second := 0, nano := 0), Days)
    case Minutes => SasTime(t.time.(second := 0, nano := 0), Minutes)
    case _ => SasTime(t.time.(nano := 0), Seconds)
  }

  lemma TwoDigits(n: nat)
    requires n < 100
    ensures Decimal.AllDigits(Two(n)) && Decimal.Value(Two(n)) == n && ParseTwo(Two(n)) == Some(n)
  {
    var s := Two(n);
    assert s[..1] == [Decimal.Digit(n / 10)] && s[..1][..0] == [];
    assert Decimal.Value(s[..1][..0]) == 0;
    assert Decimal.Value(s[..1]) == n / 10;
  }

  lemma ScanTwoOf(n: nat, rest: Text, fixed: bool)
    requires n < 100
    ensures ScanTwo(Two(n) + rest, fixed) == Some(Scan(n, rest))
  {
    TwoDigits(n);
    assert (Two(n) + rest)[..2] == Two(n) && (Two(n) + rest)[2..] == rest;
    hide Two;
  }

  lemma SkipOne(c: Octet, rest: Text)
    ensures Skip([c] + rest, c) == Some(rest)
  {
    assert ([c] + rest)[1..] == rest;
  }

  lemma ParseFormatDate(t: Time)
    requires ValidTime(t)
    ensures |FormatDate(t)| == 10
    ensures ParseDate(FormatDate(t)) == Some(Time(t.year, t.month, t.day, 0, 0, 0, 0))
  {
    var s := FormatDate(t);
    TwoDigits(t.year / 100);
    TwoDigits(t.year % 100);
    TwoDigits(t.month);
    TwoDigits(t.day);
    assert s[0..2] == Two(t.year / 100) && s[2..4] == Two(t.year % 100) && s[5..7] == Two(t.month) &&
           s[8..10] == Two(t.day);
    hide ParseTwo, Two;
  }

  lemma ParseFormatSeconds(t: Time)
    requires ValidTime(t)
    ensures ParseSeconds(t.(second := 0, nano := 0), ":" + (Two(t.second) + "Z")) == Some(t.(nano := 0))
    ensures ":" + (Two(t.second) + "Z") != "Z"
  {
    ScanTwoOf(t.second, "Z", true);
    SkipOne(':', Two(t.second) + "Z");
    assert ScanFraction("Z") == Scan(0, "Z");
    hide Two, ScanTwo, ScanFraction;
  }

  /** The hour and the minute are scanned; the tail is left. */
  lemma ParseClockHead(t: Time, tail: Text, seconds: bool)
    requires ValidTime(t)
    ensures var date := Time(t.year, t.month, t.day, 0, 0, 0, 0);
            ParseClock(date, "T" + (Two(t.hour) + (":" + (Two(t.minute) + tail))), seconds) ==
            var toMinutes := t.(second := 0, nano := 0);
            if seconds then ParseSeconds(toMinutes, tail) else if tail == "Z" then Checked(toMinutes) else None
  {
    ScanTwoOf(t.minute, tail, true);
    SkipOne(':', Two(t.minute) + tail);
    ScanTwoOf(t.hour, ":" + (Two(t.minute) + tail), false);
    SkipOne('T', Two(t.hour) + (":" + (Two(t.minute) + tail)));
    hide Two, ScanTwo, Skip, ParseSeconds, Checked;
  }

  /** The clock with seconds and the one without are not mistaken for each other. */
  lemma ParseFormatClock(t: Time, seconds: bool)
    requires ValidTime(t)
    ensures var date := Time(t.year, t.month, t.day, 0, 0, 0, 0);
            && ParseClock(date, FormatClock(t, seconds), seconds) ==
               Some(if seconds then t.(nano := 0) else t.(second := 0, nano := 0))
            && ParseClock(date, FormatClock(t, seconds), !seconds) == None
  {
    var tail: Text := if seconds then ":" + (Two(t.second) + "Z") else "Z";
    ParseFormatSeconds(t);
    ParseClockHead(t, tail, true);
    ParseClockHead(t, tail, false);
    assert !seconds ==> Skip(tail, ':') == None;
    hide Two, ParseClock;
  }

  lemma ParseFormatDays(t: Time)
    requires ValidTime(t)
    ensures var s := FormatTime(t, Days);
            && ParseTime(Seconds, s) == None && ParseTime(Minutes, s) == None
            && ParseTime(Days, s) == Some(Time(t.year, t.month, t.day, 0, 0, 0, 0))
  {
    var s := FormatTime(t, Days);
    ParseFormatDate(t);
    assert forall date, seconds :: ParseClock(date, [], seconds) == None;
    hide ParseDate, FormatDate, ParseClock, ValidTime;
    assert s[..10] == s && s[10..] == [];
  }

  lemma DateThenClock(t: Time, layout: Layout)
    requires ValidTime(t) && layout != Days && |FormatDate(t)| == 10
    ensures var s := FormatTime(t, layout);
            |s| >= 10 && s[..10] == FormatDate(t) && s[10..] == FormatClock(t, layout != Minutes)
  {
    hide FormatDate, FormatClock, ValidTime;
  }

  lemma ParseFormatHours(t: Time, layout: Layout)
    requires ValidTime(t) && layout != Days
    ensures var s := FormatTime(t, layout);
            if layout == Minutes then
              ParseTime(Seconds, s) == None && ParseTime(Minutes, s) == Some(t.(second := 0, nano := 0))
            else ParseTime(Seconds, s) == Some(t.(nano := 0))
  {
    ParseFormatDate(t);
    ParseFormatClock(t, layout != Minutes);
    DateThenClock(t, layout);
    hide ParseDate, FormatTime, FormatDate, ParseClock, FormatClock, ValidTime;
  }

  /** A printed time is recognised in the layout it was printed in, and comes back as printed. */
  lemma ParseFormatTime(t: SasTime)
    requires ValidTime(t.time)
    ensures ParseSasTime(FormatTime(t.time, t.layout)) == Printed(t)
    ensures FormatTime(t.time, t.layout) != []
  {
    ParseFormatDate(t.time);
    if t.layout == Days {
      ParseFormatDays(t.time);
    } else {
      ParseFormatHours(t.time, t.layout);
    }
    hide ParseTime, FormatDate, FormatClock, ValidTime;
  }

  // ----- IP ranges -----

  datatype Ip = Ip(a: nat, b: nat, c: nat, d: nat)

  predicate ValidIp(ip: Ip) {
    ip.a < 256 && ip.b < 256 && ip.c < 256 && ip.d < 256
  }

  datatype IpRange = IpRange(start: Option<Ip>, end: Option<Ip>)

  predicate ValidIpRange(r: IpRange) {
    (r.start.Some? ==> ValidIp(r.start.value)) && (r.end.Some? ==> ValidIp(r.end.value))
  }

  function FormatIp(ip: Ip): Text {
    Decimal.FormatNat(ip.a) + "." + Decimal.FormatNat(ip.b) + "." + Decimal.FormatNat(ip.c) + "." +
      Decimal.FormatNat(ip.d)
  }

  /** IPRange.String. */
  function FormatIpRange(r: IpRange): Text {
    if r.start.None? then ""
    else if r.end.None? then FormatIp(r.start.value)
    else FormatIp(r.start.value) + "-" + FormatIp(r.end.value)
  }

  /** One number of a dotted address: decimal, below 256, without a leading zero. */
  function ParseOctet(s: Text): Option<nat> {
    match Decimal.ParseNat(s)
    case Some(n) => if n < 256 && s == Decimal.FormatNat(n) then Some(n) else None
    case None => None
  }

  function ParseOctets(s: Text, n: nat): Option<seq<nat>>
    requires n >= 1
  {
    if n == 1 then
      match ParseOctet(s) case Some(x) => Some([x]) case None => None
    else
      var i := IndexOf(s, '.');
      if i == -1 then None else
      match (ParseOctet(s[..i]), ParseOctets(s[i + 1..], n - 1))
      case (Some(x), Some(rest)) => Some([x] + rest)
      case _ => None
  }

  /** net.ParseIP on IPv4 addresses. */
  function ParseIp(s: Text): Option<Ip> {
    match ParseOctets(s, 4)
    case Some(o) => if |o| == 4 then Some(Ip(o[0], o[1], o[2], o[3])) else None
    case None => None
  }

  function ParseIpRange(s: Text): IpRange {
    var dash := IndexOf(s, '-');
    if dash == -1 then IpRange(ParseIp(s), None) else IpRange(ParseIp(s[..dash]), ParseIp(s[dash + 1..]))
  }

  lemma ParseFormatOctet(n: nat)
    requires n < 256
    ensures ParseOctet(Decimal.FormatNat(n)) == Some(n)
    ensures '.' !in Decimal.FormatNat(n) && '-' !in Decimal.FormatNat(n) && Decimal.FormatNat(n) != []
  {
    Decimal.ParseFormat(n);
  }

  lemma ParseOctetThen(n: nat, rest: Text, k: nat, o: seq<nat>)
    requires n < 256 && k >= 1 && ParseOctets(rest, k) == Some(o)
    ensures ParseOctets(Decimal.FormatNat(n) + "." + rest, k + 1) == Some([n] + o)
  {
    ParseFormatOctet(n);
    var head := Decimal.FormatNat(n);
    var s: Text := head + "." + rest;
    assert s == head + ['.'] + rest;
    IndexOfAppend(head, '.', rest);
    assert s[..|head|] == head && s[|head| + 1..] == rest;
    hide ParseOctet, Decimal.FormatNat;
  }

  lemma ParseTwoOctets(c: nat, d: nat)
    requires c < 256 && d < 256
    ensures ParseOctets(Decimal.FormatNat(c) + "." + Decimal.FormatNat(d), 2) == Some([c, d])
  {
    ParseFormatOctet(d);
    ParseOctetThen(c, Decimal.FormatNat(d), 1, [d]);
    assert [c] + [d] == [c, d];
  }

  lemma ParseFormatOctets(ip: Ip)
    requires ValidIp(ip)
    ensures ParseOctets(FormatIp(ip), 4) == Some([ip.a, ip.b, ip.c, ip.d])
  {
    hide ParseOctets, Decimal.FormatNat;
    var cd: Text := Decimal.FormatNat(ip.c) + "." + Decimal.FormatNat(ip.d);
    var bcd: Text := Decimal.FormatNat(ip.b) + "." + cd;
    ParseTwoOctets(ip.c, ip.d);
    ParseOctetThen(ip.b, cd, 2, [ip.c, ip.d]);
    assert [ip.b] + [ip.c, ip.d] == [ip.b, ip.c, ip.d];
    ParseOctetThen(ip.a, bcd, 3, [ip.b, ip.c, ip.d]);
    assert [ip.a] + [ip.b, ip.c, ip.d] == [ip.a, ip.b, ip.c, ip.d];
    assert FormatIp(ip) == Decimal.FormatNat(ip.a) + "." + bcd;
  }

  lemma ParseFormatIp(ip: Ip)
    requires ValidIp(ip)
    ensures ParseIp(FormatIp(ip)) == Some(ip)
    ensures '-' !in FormatIp(ip) && FormatIp(ip) != []
  {
    ParseFormatOctets(ip);
    ParseFormatOctet(ip.a);
    ParseFormatOctet(ip.b);
    ParseFormatOctet(ip.c);
    ParseFormatOctet(ip.d);
    hide ParseOctets, Decimal.FormatNat;
  }

  /** An IP range is read back as it was, but an end without a start is never written. */
  lemma ParseFormatIpRange(r: IpRange)
    requires ValidIpRange(r)
    ensures FormatIpRange(r) == [] <==> r.start.None?
    ensures r.start.Some? ==> ParseIpRange(FormatIpRange(r)) == r
  {
    if r.start.Some? {
      var s := FormatIp(r.start.value);
      ParseFormatIp(r.start.value);
      hide FormatIp, ParseIp;
      if r.end.Some? {
        var e := FormatIp(r.end.value);
        ParseFormatIp(r.end.value);
        assert FormatIpRange(r) == s + ['-'] + e;
        IndexOfAppend(s, '-', e);
        assert FormatIpRange(r)[..|s|] == s && FormatIpRange(r)[|s| + 1..] == e;
      }
    }
  }

  lemma ParsedTimeIsValid(layout: Layout, s: Text)
    ensures ParseTime(layout, s).Some? ==> ValidTime(ParseTime(layout, s).value)
  {
  }

  lemma ParsedIpIsValid(s: Text)
    ensures ParseIp(s).Some? ==> ValidIp(ParseIp(s).value)
  {
    ParsedOctetsBounded(s, 4);
    var o := ParseOctets(s, 4);
    hide ParseOctets;
    if o.Some? && |o.value| == 4 {
      assert o.value[0] in o.value && o.value[1] in o.value && o.value[2] in o.value && o.value[3] in o.value;
    }
  }

  lemma ParsedOctetBounded(s: Text)
    ensures ParseOctet(s).Some? ==> ParseOctet(s).value < 256
  {
  }

  lemma {:induction false} ParsedOctetsBounded(s: Text, n: nat)
    requires n >= 1
    ensures ParseOctets(s, n).Some? ==> forall o :: o in ParseOctets(s, n).value ==> o < 256
  {
    hide ParseOctet;
    if n == 1 {
      ParsedOctetBounded(s);
    } else {
      var i := IndexOf(s, '.');
      if i != -1 {
        ParsedOctetBounded(s[..i]);
        ParsedOctetsBounded(s[i + 1..], n - 1);
      }
    }
  }

  lemma ParsedSasTimeIsValid(s: Text)
    ensures ValidTime(ParseSasTime(s).time)
  {
    ParsedTimeIsValid(Seconds, s);
    ParsedTimeIsValid(Minutes, s);
    ParsedTimeIsValid(Days, s);
    assert ValidTime(ZERO_TIME);
    hide ParseTime, ValidTime;
  }

  lemma ParsedIpRangeIsValid(s: Text)
    ensures ValidIpRange(ParseIpRange(s))
  {
    hide ParseIp, ValidIp;
    var dash := IndexOf(s, '-');
    ParsedIpIsValid(s);
    if dash != -1 {
      ParsedIpIsValid(s[..dash]);
      ParsedIpIsValid(s[dash + 1..]);
    }
  }
}
