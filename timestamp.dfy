/**
 * The capture timestamp: the EXIF form "YYYY:MM:DD HH:MM:SS", the calendar
 * check the parser applies to it, and the file-name form "YYYY-MM-DD HH.MM.SS"
 * it is rewritten into.
 */
module Timestamp {
  import Decimal

  const Width: nat := 19

  /** Positions of the separators in the EXIF form; every other position holds a digit. */
  predicate IsSeparatorPos(i: int) {
    i == 4 || i == 7 || i == 10 || i == 13 || i == 16
  }

  /** "YYYY:MM:DD HH:MM:SS" with every field written out in full width. */
  predicate FixedWidth(s: string) {
    |s| == Width &&
    s[4] == ':' && s[7] == ':' && s[10] == ' ' && s[13] == ':' && s[16] == ':' &&
    forall i :: 0 <= i < Width && !IsSeparatorPos(i) ==> Decimal.IsDigit(s[i])
  }

  /** The number written in s[i..j] of a fixed-width timestamp. */
  function Field(s: string, i: nat, j: nat): nat
    requires FixedWidth(s) && i <= j <= Width
    requires forall k :: i <= k < j ==> !IsSeparatorPos(k)
  {
    Decimal.Value(s[i..j])
  }

  function Year(s: string): nat requires FixedWidth(s) { Field(s, 0, 4) }
  function Month(s: string): nat requires FixedWidth(s) { Field(s, 5, 7) }
  function Day(s: string): nat requires FixedWidth(s) { Field(s, 8, 10) }
  function Hour(s: string): nat requires FixedWidth(s) { Field(s, 11, 13) }
  function Minute(s: string): nat requires FixedWidth(s) { Field(s, 14, 16) }
  function Second(s: string): nat requires FixedWidth(s) { Field(s, 17, 19) }

  /** Leap years of the proleptic Gregorian calendar the parser uses. */
  predicate IsLeapYear(y: nat) {
    y % 4 == 0 && (y % 100 != 0 || y % 400 == 0)
  }

  function DaysInMonth(y: nat, m: nat): nat
    requires 1 <= m <= 12
  {
    if m == 2 then (if IsLeapYear(y) then 29 else 28)
    else if m == 4 || m == 6 || m == 9 || m == 11 then 30
    else 31
  }

  /**
   * A fixed-width timestamp the parser accepts: a year from 1 on, a real
   * month and day of that month, and a time of day with seconds up to 59.
   */
  predicate Valid(s: string) {
    FixedWidth(s) &&
    1 <= Year(s) &&
    1 <= Month(s) <= 12 &&
    1 <= Day(s) <= DaysInMonth(Year(s), Month(s)) &&
    Hour(s) <= 23 && Minute(s) <= 59 && Second(s) <= 59
  }

  /** `startswith('0000')`: the sentinel camera firmware writes for an unknown date. */
  predicate ZeroYear(s: string) {
    |s| >= 4 && s[..4] == "0000"
  }

  /** The character the name form has at position i of a 19-character timestamp. */
  function NameChar(s: string, i: nat): char
    requires i < |s|
  {
    if i == 4 || i == 7 then '-' else if i == 13 || i == 16 then '.' else s[i]
  }

  /**
   * Parsing with '%Y:%m:%d %H:%M:%S' and rewriting with '%Y-%m-%d %H.%M.%S':
   * the digits stay, the date separators become '-' and the time separators '.'.
   */
  function Reformat(s: string): (r: string)
    requires FixedWidth(s)
    ensures |r| == Width
    ensures forall i :: 0 <= i < Width ==> r[i] == NameChar(s, i)
  {
    s[..4] + "-" + s[5..7] + "-" + s[8..13] + "." + s[14..16] + "." + s[17..]
  }

  /** Puts the EXIF separators back into a name-form timestamp. */
  function Restore(r: string): (s: string)
    requires |r| == Width
  {
    r[..4] + ":" + r[5..7] + ":" + r[8..13] + ":" + r[14..16] + ":" + r[17..]
  }

  /** Reformatting loses nothing: the EXIF timestamp can be recovered from the name. */
  lemma RestoreReformat(s: string)
    requires FixedWidth(s)
    ensures Restore(Reformat(s)) == s
  {
    var r := Reformat(s);
    var t := Restore(r);
    assert |t| == Width;
    forall i | 0 <= i < Width
      ensures t[i] == s[i]
    {
      assert r[i] == NameChar(s, i);
    }
  }

  /** Different capture times give different base names. */
  lemma ReformatInjective(s: string, t: string)
    requires FixedWidth(s) && FixedWidth(t)
    requires Reformat(s) == Reformat(t)
    ensures s == t
  {
    RestoreReformat(s);
    RestoreReformat(t);
  }

  /** The fields of a fixed-width timestamp, digit by digit. */
  lemma FieldValues(s: string)
    requires FixedWidth(s)
    ensures Year(s) == ((D(s, 0) * 10 + D(s, 1)) * 10 + D(s, 2)) * 10 + D(s, 3)
    ensures Month(s) == D(s, 5) * 10 + D(s, 6)
    ensures Day(s) == D(s, 8) * 10 + D(s, 9)
    ensures Hour(s) == D(s, 11) * 10 + D(s, 12)
    ensures Minute(s) == D(s, 14) * 10 + D(s, 15)
    ensures Second(s) == D(s, 17) * 10 + D(s, 18)
  {
    Decimal.ValueFour(s[0..4]);
    Decimal.ValueTwo(s[5..7]);
    Decimal.ValueTwo(s[8..10]);
    Decimal.ValueTwo(s[11..13]);
    Decimal.ValueTwo(s[14..16]);
    Decimal.ValueTwo(s[17..19]);
  }

  function D(s: string, i: nat): nat
    requires FixedWidth(s) && i < Width && !IsSeparatorPos(i)
  {
    Decimal.DigitValue(s[i])
  }

  lemma ReformatExample()
    ensures Valid("2024:01:01 10:00:00")
    ensures Reformat("2024:01:01 10:00:00") == "2024-01-01 10.00.00"
  {
    FieldValues("2024:01:01 10:00:00");
  }

  /** The sentinel year is never a valid timestamp, so it never reaches the parser's success path. */
  lemma ZeroYearNotValid(s: string)
    requires ZeroYear(s) && FixedWidth(s)
    ensures !Valid(s)
  {
    FieldValues(s);
    assert s[..4][0] == s[0] && s[..4][1] == s[1] && s[..4][2] == s[2] && s[..4][3] == s[3];
  }
}
