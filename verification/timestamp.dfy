/** The name of the settings record `store_settings` writes
    (deployment/deploy.py:70-72): `settings_` followed by the local time in the
    `strftime` format `%Y-%m-%d_%H-%M-%S` and `.json`.  The clock is a parameter. */
module Timestamp {
  import opened Wrappers

  /** A `datetime.datetime` to the second. */
  datatype DateTime = DateTime(year: nat, month: nat, day: nat, hour: nat, minute: nat, second: nat)

  predicate IsLeapYear(y: nat) {
    (y % 4 == 0 && y % 100 != 0) || y % 400 == 0
  }

  /** The days of a month of the proleptic Gregorian calendar. */
  function DaysInMonth(y: nat, m: nat): nat
    requires 1 <= m <= 12
  {
    if m == 2 then (if IsLeapYear(y) then 29 else 28)
    else if m == 4 || m == 6 || m == 9 || m == 11 then 30
    else 31
  }

  /** A moment `datetime` can represent, with a four-digit year so that `%Y`
      prints exactly four digits. */
  predicate ValidDateTime(t: DateTime) {
    && 1000 <= t.year <= 9999
    && 1 <= t.month <= 12
    && 1 <= t.day <= DaysInMonth(t.year, t.month)
    && t.hour < 24 && t.minute < 60 && t.second < 60
  }

  predicate IsDigit(c: char) {
    '0' <= c <= '9'
  }

  function DigitChar(d: nat): char
    requires d < 10
  {
    ('0' as int + d) as char
  }

  function DigitValue(c: char): nat
    requires IsDigit(c)
  {
    c as int - '0' as int
  }

  /** `%m`, `%d`, `%H`, `%M`, `%S`: two digits, zero-padded. */
  function Pad2(n: nat): string
    requires n < 100
  {
    [DigitChar(n / 10), DigitChar(n % 10)]
  }

  /** `%Y` of a four-digit year. */
  function Pad4(n: nat): string
    requires n < 10000
  {
    Pad2(n / 100) + Pad2(n % 100)
  }

  /** `n.strftime('%Y-%m-%d_%H-%M-%S')`. */
  function Stamp(t: DateTime): string
    requires ValidDateTime(t)
  {
    Pad4(t.year) + "-" + Pad2(t.month) + "-" + Pad2(t.day) + "_"
      + Pad2(t.hour) + "-" + Pad2(t.minute) + "-" + Pad2(t.second)
  }

  /** The file name `store_settings` writes to at time `t`. */
  function SettingsFileName(t: DateTime): string
    requires ValidDateTime(t)
  {
    "settings_" + Stamp(t) + ".json"
  }

  /** Every name has 33 characters: the prefix, 19 characters of time and the
      `.json` suffix. */
  lemma SettingsFileNameShape(t: DateTime)
    requires ValidDateTime(t)
    ensures |SettingsFileName(t)| == 33
    ensures SettingsFileName(t)[..9] == "settings_" && SettingsFileName(t)[28..] == ".json"
  {
  }

  function Num2(a: char, b: char): nat
    requires IsDigit(a) && IsDigit(b)
  {
    10 * DigitValue(a) + DigitValue(b)
  }

  function Num4(a: char, b: char, c: char, d: char): nat
    requires IsDigit(a) && IsDigit(b) && IsDigit(c) && IsDigit(d)
  {
    100 * Num2(a, b) + Num2(c, d)
  }

  /** The characters `from` .. `from + n - 1` of `s` are decimal digits. */
  predicate DigitsAt(s: string, from: nat, n: nat)
    requires from + n <= |s|
  {
    forall i :: from <= i < from + n ==> IsDigit(s[i])
  }

  /** `s` is laid out as a settings file name: the prefix, the suffix, the
      separators where the format puts them and digits everywhere else. */
  predicate NameLayout(s: string) {
    && |s| == 33
    && s[..9] == "settings_" && s[28..] == ".json"
    && s[13] == '-' && s[16] == '-' && s[19] == '_' && s[22] == '-' && s[25] == '-'
    && DigitsAt(s, 9, 4) && DigitsAt(s, 14, 2) && DigitsAt(s, 17, 2)
    && DigitsAt(s, 20, 2) && DigitsAt(s, 23, 2) && DigitsAt(s, 26, 2)
  }

  /** The moment a settings file name records, if it is one. */
  function ParseSettingsFileName(s: string): Option<DateTime> {
    if !NameLayout(s) then None
    else
      var t := DateTime(Num4(s[9], s[10], s[11], s[12]), Num2(s[14], s[15]), Num2(s[17], s[18]),
                        Num2(s[20], s[21]), Num2(s[23], s[24]), Num2(s[26], s[27]));
      if ValidDateTime(t) then Some(t) else None
  }

  lemma Pad2Digits(n: nat)
    requires n < 100
    ensures IsDigit(Pad2(n)[0]) && IsDigit(Pad2(n)[1])
    ensures Num2(Pad2(n)[0], Pad2(n)[1]) == n
  {
  }

  lemma Pad4Digits(n: nat)
    requires n < 10000
    ensures IsDigit(Pad4(n)[0]) && IsDigit(Pad4(n)[1]) && IsDigit(Pad4(n)[2]) && IsDigit(Pad4(n)[3])
    ensures Num4(Pad4(n)[0], Pad4(n)[1], Pad4(n)[2], Pad4(n)[3]) == n
  {
    Pad2Digits(n / 100);
    Pad2Digits(n % 100);
  }

  /** Where each field lands in the time stamp. */
  lemma StampAt(t: DateTime)
    requires ValidDateTime(t)
    ensures var st := Stamp(t);
      && |st| == 19
      && st[4] == '-' && st[7] == '-' && st[10] == '_' && st[13] == '-' && st[16] == '-'
      && st[0] == Pad4(t.year)[0] && st[1] == Pad4(t.year)[1]
      && st[2] == Pad4(t.year)[2] && st[3] == Pad4(t.year)[3]
      && st[5] == Pad2(t.month)[0] && st[6] == Pad2(t.month)[1]
      && st[8] == Pad2(t.day)[0] && st[9] == Pad2(t.day)[1]
      && st[11] == Pad2(t.hour)[0] && st[12] == Pad2(t.hour)[1]
      && st[14] == Pad2(t.minute)[0] && st[15] == Pad2(t.minute)[1]
      && st[17] == Pad2(t.second)[0] && st[18] == Pad2(t.second)[1]
  {
  }

  /** Where each field lands in the name. */
  lemma SettingsFileNameAt(t: DateTime)
    requires ValidDateTime(t)
    ensures var s := SettingsFileName(t);
      && |s| == 33 && s[..9] == "settings_" && s[28..] == ".json"
      && s[13] == '-' && s[16] == '-' && s[19] == '_' && s[22] == '-' && s[25] == '-'
      && s[9] == Pad4(t.year)[0] && s[10] == Pad4(t.year)[1]
      && s[11] == Pad4(t.year)[2] && s[12] == Pad4(t.year)[3]
      && s[14] == Pad2(t.month)[0] && s[15] == Pad2(t.month)[1]
      && s[17] == Pad2(t.day)[0] && s[18] == Pad2(t.day)[1]
      && s[20] == Pad2(t.hour)[0] && s[21] == Pad2(t.hour)[1]
      && s[23] == Pad2(t.minute)[0] && s[24] == Pad2(t.minute)[1]
      && s[26] == Pad2(t.second)[0] && s[27] == Pad2(t.second)[1]
  {
    var st := Stamp(t);
    StampAt(t);
    assert forall k :: 0 <= k < 19 ==> SettingsFileName(t)[9 + k] == st[k];
  }

  /** Reading a name back gives the moment it was written at. */
  lemma ParseSettingsFileNameOfName(t: DateTime)
    requires ValidDateTime(t)
    ensures ParseSettingsFileName(SettingsFileName(t)) == Some(t)
  {
    var s := SettingsFileName(t);
    SettingsFileNameAt(t);
    Pad4Digits(t.year);
    Pad2Digits(t.month);
    Pad2Digits(t.day);
    Pad2Digits(t.hour);
    Pad2Digits(t.minute);
    Pad2Digits(t.second);
  }

  lemma Num2Pad(a: char, b: char)
    requires IsDigit(a) && IsDigit(b)
    ensures Num2(a, b) < 100 && Pad2(Num2(a, b)) == [a, b]
  {
  }

  lemma Num4Pad(a: char, b: char, c: char, d: char)
    requires IsDigit(a) && IsDigit(b) && IsDigit(c) && IsDigit(d)
    ensures Num4(a, b, c, d) < 10000 && Pad4(Num4(a, b, c, d)) == [a, b, c, d]
  {
    var hi, lo := Num2(a, b), Num2(c, d);
    Num2Pad(a, b);
    Num2Pad(c, d);
    assert (100 * hi + lo) / 100 == hi && (100 * hi + lo) % 100 == lo;
  }

  /** A name that reads back as a moment is the name written at that moment:
      the file name and the moment determine each other. */
  lemma {:induction false} SettingsFileNameOfParse(s: string)
    requires ParseSettingsFileName(s).Some?
    ensures SettingsFileName(ParseSettingsFileName(s).value) == s
  {
    var t := ParseSettingsFileName(s).value;
    var n := SettingsFileName(t);
    SettingsFileNameAt(t);
    Num4Pad(s[9], s[10], s[11], s[12]);
    Num2Pad(s[14], s[15]);
    Num2Pad(s[17], s[18]);
    Num2Pad(s[20], s[21]);
    Num2Pad(s[23], s[24]);
    Num2Pad(s[26], s[27]);
    forall i | 0 <= i < 33 ensures n[i] == s[i] {
      if i < 9 {
        assert n[..9][i] == s[..9][i];
      } else if 28 <= i {
        assert n[28..][i - 28] == s[28..][i - 28];
      }
    }
  }

  /** Two moments give the same name only when they are the same moment to the
      second, so `store_settings` overwrites a record only within one second. */
  lemma SettingsFileNameInjective(t1: DateTime, t2: DateTime)
    requires ValidDateTime(t1) && ValidDateTime(t2)
    ensures SettingsFileName(t1) == SettingsFileName(t2) <==> t1 == t2
  {
    ParseSettingsFileNameOfName(t1);
    ParseSettingsFileNameOfName(t2);
  }
}
