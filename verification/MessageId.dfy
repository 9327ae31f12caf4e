/** Message identifiers: Base36 of base64/decoder.cpp and the id generator of server/mailqueue.cpp. */
module MessageId {
  import opened Bytes
  import opened CStrings

  const BASE36 := "0123456789ABCDEFGHIJKLMNOPQRSTUVWXYZ"

  function Digit(d: nat): (c: char)
    requires d < 36
    ensures c as int == if d < 10 then 48 + d else 65 + (d - 10)
  {
    BASE36[d]
  }

  function DigitValue(c: char): nat
    requires '0' <= c <= '9' || 'A' <= c <= 'Z'
  {
    if c <= '9' then c as int - 48 else c as int - 65 + 10
  }

  predicate IsDigits(s: string) {
    forall i :: 0 <= i < |s| ==> '0' <= s[i] <= '9' || 'A' <= s[i] <= 'Z'
  }

  /** The digits of a number in base 36, most significant first. */
  function Digits(v: nat): (s: string)
    ensures s != "" && IsDigits(s)
  {
    if v < 36 then [Digit(v)] else Digits(v / 36) + [Digit(v % 36)]
  }

  function Number(s: string): nat
    requires IsDigits(s)
  {
    if s == "" then 0 else Number(s[..|s| - 1]) * 36 + DigitValue(s[|s| - 1])
  }

  /** strtoul in base 36: a number too large becomes the largest one. */
  function Base36Decode(s: string): nat
    requires IsDigits(s)
  {
    if Number(s) < TWO64 then Number(s) else TWO64 - 1
  }

  lemma {:induction false} NumberOfDigits(v: nat)
    ensures Number(Digits(v)) == v
  {
    hide Digit;
    var s := Digits(v);
    if v < 36 {
      assert s[..0] == "" && Number("") == 0;
    } else {
      NumberOfDigits(v / 36);
      assert s[..|s| - 1] == Digits(v / 36);
    }
  }

  /** Decoding undoes encoding for every 64-bit value. */
  lemma DecodeEncode36(v: nat)
    requires v < TWO64
    ensures Base36Decode(Digits(v)) == v
  {
    NumberOfDigits(v);
  }

  function Power36(k: nat): nat {
    if k == 0 then 1 else 36 * Power36(k - 1)
  }

  lemma {:induction false} DigitsFit(v: nat, k: nat)
    requires k > 0 && v < Power36(k)
    ensures |Digits(v)| <= k
  {
    hide Digit;
    if v >= 36 {
      DigitsFit(v / 36, k - 1);
    }
  }

  /** Thirteen digits are enough for a 64-bit value. */
  lemma ThirteenDigits(v: nat)
    requires v < TWO64
    ensures |Digits(v)| <= 13
  {
    assert Power36(6) == 2176782336;
    assert Power36(12) == 4738381338321616896;
    assert Power36(13) == 170581728179578208256;
    DigitsFit(v, 13);
  }

  /** Fills a 14-character buffer from its end. */
  method Base36Encode(value: nat) returns (text: string)
    requires value < TWO64
    ensures text == Digits(value)
  {
    hide Digit;
    ThirteenDigits(value);
    var buffer := new char[14];
    var offset := 13;
    buffer[offset] := '\0';
    var v := value;
    ghost var done := "";
    while true
      invariant 1 <= offset <= 13 && buffer[offset..13] == done
      invariant Digits(v) + done == Digits(value) && offset + |done| == 13
      invariant |Digits(v)| <= offset
      decreases v
    {
      offset := offset - 1;
      buffer[offset] := Digit(v % 36);
      assert buffer[offset..13] == [Digit(v % 36)] + done;
      done := [Digit(v % 36)] + done;
      if v / 36 == 0 {
        break;
      }
      assert Digits(v) == Digits(v / 36) + [Digit(v % 36)];
      v := v / 36;
    }
    text := buffer[offset..13];
  }

  // ----- time and random parts -------------------------------------------------------------------

  /** struct tm; the year counts from 1900, the month from 0. */
  datatype Tm = Tm(year: int, mon: int, mday: int, hour: int, min: int, sec: int)

  /** Calendar fields with a four-digit year. */
  predicate InRange(t: Tm) {
    && 1000 <= 1900 + t.year <= 9999 && 0 <= t.mon < 12 && 1 <= t.mday <= 31
    && 0 <= t.hour < 24 && 0 <= t.min < 60 && 0 <= t.sec <= 60
  }

  predicate Earlier(a: Tm, b: Tm) {
    if a.year != b.year then a.year < b.year
    else if a.mon != b.mon then a.mon < b.mon
    else if a.mday != b.mday then a.mday < b.mday
    else if a.hour != b.hour then a.hour < b.hour
    else if a.min != b.min then a.min < b.min
    else a.sec < b.sec
  }

  function TimeValue(t: Tm): int {
    t.sec + t.min * 100 + t.hour * 10000 + t.mday * 1000000 + t.mon * 100000000
    + (1900 + t.year) * 10000000000
  }

  /** Time values order as the times do, so they also tell times apart. */
  lemma TimeValueOrder(a: Tm, b: Tm)
    requires InRange(a) && InRange(b)
    ensures 0 <= TimeValue(a) < TWO64
    ensures TimeValue(a) < TimeValue(b) <==> Earlier(a, b)
    ensures TimeValue(a) == TimeValue(b) <==> a == b
  {
  }

  /** The value of decimal digits, least significant first. */
  function RandomValue(digits: seq<nat>): nat
    requires forall i :: 0 <= i < |digits| ==> digits[i] < 10
  {
    if digits == [] then 0 else digits[0] + 10 * RandomValue(digits[1..])
  }

  function Power10(k: nat): nat {
    if k == 0 then 1 else 10 * Power10(k - 1)
  }

  lemma {:induction false} RandomBound(digits: seq<nat>)
    requires forall i :: 0 <= i < |digits| ==> digits[i] < 10
    ensures RandomValue(digits) < Power10(|digits|)
  {
    if digits != [] {
      RandomBound(digits[1..]);
    }
  }

  lemma RandomNone()
    ensures RandomValue([]) == 0
  {
  }

  lemma RandomStep(digits: seq<nat>)
    requires digits != [] && forall i :: 0 <= i < |digits| ==> digits[i] < 10
    ensures RandomValue(digits) == digits[0] + 10 * RandomValue(digits[1..])
  {
  }

  lemma OneMoreDigit(deg: nat, d: nat, rest: nat)
    ensures deg * (d + 10 * rest) == d * deg + deg * 10 * rest
  {
    assert deg * (d + 10 * rest) == deg * d + deg * (10 * rest);
    assert deg * (10 * rest) == deg * 10 * rest;
  }

  /** GetRandValue on the digits the random generator returns. */
  method GetRandValue(digits: seq<nat>) returns (value: nat)
    requires forall i :: 0 <= i < |digits| ==> digits[i] < 10
    ensures value == RandomValue(digits)
  {
    hide RandomValue;
    RandomNone();
    value := 0;
    var deg := 1;
    for i := 0 to |digits|
      invariant deg > 0 && value + deg * RandomValue(digits[i..]) == RandomValue(digits)
    {
      assert digits[i..][1..] == digits[i + 1..];
      RandomStep(digits[i..]);
      OneMoreDigit(deg, digits[i], RandomValue(digits[i + 1..]));
      value := value + digits[i] * deg;
      deg := deg * 10;
    }
    assert digits[|digits|..] == [] && digits[0..] == digits;
  }

  function Id(time: nat, random: nat, domain: string): string {
    Digits(time) + "." + Digits(random) + "@" + domain
  }

  /** The characters before the first separator are the digits. */
  lemma CutDigits(v: nat, c: char, rest: string)
    requires c == '.' || c == '@'
    ensures IndexOf(Digits(v) + [c] + rest, c) == |Digits(v)|
  {
    var s, n := Digits(v) + [c] + rest, |Digits(v)|;
    assert forall i :: 0 <= i < n ==> s[i] == Digits(v)[i];
    IndexOfUnique(s, c, n);
  }

  /** Two ids for one domain are equal only when their times and random parts are. */
  lemma IdsDiffer(domain: string, t1: nat, r1: nat, t2: nat, r2: nat)
    requires Id(t1, r1, domain) == Id(t2, r2, domain)
    ensures t1 == t2 && r1 == r2
  {
    hide Digits;
    var rest1, rest2 := Digits(r1) + "@" + domain, Digits(r2) + "@" + domain;
    assert Id(t1, r1, domain) == Digits(t1) + ['.'] + rest1;
    assert Id(t2, r2, domain) == Digits(t2) + ['.'] + rest2;
    CutDigits(t1, '.', rest1);
    CutDigits(t2, '.', rest2);
    var n := |Digits(t1)|;
    assert Digits(t1) == Id(t1, r1, domain)[..n] == Digits(t2);
    assert rest1 == Id(t1, r1, domain)[n + 1..] == rest2;
    CutDigits(r1, '@', domain);
    CutDigits(r2, '@', domain);
    assert rest1 == Digits(r1) + ['@'] + domain && rest2 == Digits(r2) + ['@'] + domain;
    assert Digits(r1) == rest1[..|Digits(r1)|] == Digits(r2);
    NumberOfDigits(t1);
    NumberOfDigits(t2);
    NumberOfDigits(r1);
    NumberOfDigits(r2);
  }

  /** Ids generated in one domain at different times are different. */
  lemma IdsOfTimesDiffer(domain: string, a: Tm, r1: nat, b: Tm, r2: nat)
    requires InRange(a) && InRange(b) && a != b
    ensures TimeValue(a) >= 0 && TimeValue(b) >= 0
    ensures Id(TimeValue(a), r1, domain) != Id(TimeValue(b), r2, domain)
  {
    hide Id;
    TimeValueOrder(a, b);
    TimeValueOrder(b, a);
    if Id(TimeValue(a), r1, domain) == Id(TimeValue(b), r2, domain) {
      IdsDiffer(domain, TimeValue(a), r1, TimeValue(b), r2);
    }
  }

  method GenerateMessageId(timeinfo: Tm, digits: seq<nat>, domain: string) returns (id: string)
    requires InRange(timeinfo) && |digits| == 16 && forall i :: 0 <= i < 16 ==> digits[i] < 10
    ensures TimeValue(timeinfo) >= 0 && id == Id(TimeValue(timeinfo), RandomValue(digits), domain)
  {
    hide Digits;
    TimeValueOrder(timeinfo, timeinfo);
    RandomBound(digits);
    SixteenDigits();
    var rand := GetRandValue(digits);
    var time36 := Base36Encode(TimeValue(timeinfo));
    var rand36 := Base36Encode(rand);
    id := time36 + "." + rand36 + "@" + domain;
  }

  lemma SixteenDigits()
    ensures Power10(16) == 10000000000000000
  {
    assert Power10(8) == 100000000;
  }

  lemma TwoDigits(x: int, q: int, r: int)
    requires 0 <= r < 100 && x == 100 * q + r
    ensures x / 100 == q && x % 100 == r
  {
  }

  /** The calendar fields stand in the decimal digits of the time value, two digits each and four for the year. */
  lemma TimeFields(t: Tm)
    requires InRange(t)
    ensures var v := TimeValue(t);
            var hours, months := v / 100 / 100, v / 100 / 100 / 100 / 100;
            && v % 100 == t.sec && v / 100 % 100 == t.min && hours % 100 == t.hour && hours / 100 % 100 == t.mday
            && months % 100 == t.mon && months / 100 == 1900 + t.year
  {
    var year := 1900 + t.year;
    var months := 100 * year + t.mon;
    var days := 100 * months + t.mday;
    var hours := 100 * days + t.hour;
    TwoDigits(TimeValue(t), 100 * hours + t.min, t.sec);
    TwoDigits(100 * hours + t.min, hours, t.min);
    TwoDigits(hours, days, t.hour);
    TwoDigits(days, months, t.mday);
    TwoDigits(months, year, t.mon);
  }

  /** A number without its last i decimal digits. */
  function Dropped(v: nat, i: nat): nat {
    if i == 0 then v else Dropped(v / 10, i - 1)
  }

  /** Drawn digit i is decimal digit i of the random value, counted from the end. */
  lemma {:induction false} RandomDigits(digits: seq<nat>, i: nat)
    requires i < |digits| && forall j :: 0 <= j < |digits| ==> digits[j] < 10
    ensures Dropped(RandomValue(digits), i) % 10 == digits[i]
    decreases i
  {
    var v, rest := RandomValue(digits), RandomValue(digits[1..]);
    assert v == digits[0] + 10 * rest && v / 10 == rest && v % 10 == digits[0];
    if i > 0 {
      RandomDigits(digits[1..], i - 1);
    }
  }

  /** One message id, spelled out. */
  lemma KnownId()
    ensures Id(36, 35, "d") == "10.Z@d"
  {
    assert Digits(36) == Digits(1) + [Digit(0)] && Digits(35) == [Digit(35)];
  }
}
