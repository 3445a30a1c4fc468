/** The strings the ammunition UI shows: JavaScript's `Number#toString` on the
    integer counters, the laser read-out `"<magazine>|<reloads>"` and the
    meteor texture key `"ammo_<n>"`. Each projection is paired with a parser
    that recovers the counters, so the text always determines the state it
    was drawn from. */
module Text {
  import opened Options

  predicate IsDigit(c: char) {
    '0' <= c <= '9'
  }

  predicate AllDigits(s: string) {
    forall i :: 0 <= i < |s| ==> IsDigit(s[i])
  }

  function DigitValue(c: char): (d: nat)
    requires IsDigit(c)
    ensures d < 10
  {
    c as int - '0' as int
  }

  function DigitChar(d: nat): (c: char)
    requires d < 10
    ensures IsDigit(c) && DigitValue(c) == d
  {
    ('0' as int + d) as char
  }

  /** Decimal digits of a non-negative integer, most significant first, with
      no leading zero. */
  function NatToString(n: nat): (s: string)
    ensures |s| > 0 && AllDigits(s)
    ensures s[0] == '0' ==> n == 0
    ensures n < 10 <==> |s| == 1
    decreases n
  {
    if n < 10 then [DigitChar(n)] else NatToString(n / 10) + [DigitChar(n % 10)]
  }

  /** `n.toString()` for an integral Number: a minus sign before the digits of
      a negative value. */
  function IntToString(n: int): (s: string)
    ensures |s| > 0
    ensures s[0] == '-' <==> n < 0
    ensures forall i :: 0 < i < |s| ==> IsDigit(s[i])
    ensures n >= 0 ==> AllDigits(s)
  {
    if n < 0 then "-" + NatToString(-n) else NatToString(n)
  }

  /** Value of a string of decimal digits (the empty string reads as 0). */
  function DigitsValue(s: string): nat
    requires AllDigits(s)
  {
    if |s| == 0 then 0 else DigitsValue(s[..|s| - 1]) * 10 + DigitValue(s[|s| - 1])
  }

  function ParseNat(s: string): Option<nat> {
    if |s| > 0 && AllDigits(s) then Some(DigitsValue(s)) else None
  }

  /** Reads back what `IntToString` writes: an optional minus sign and at
      least one digit. */
  function ParseInt(s: string): Option<int> {
    if |s| > 0 && s[0] == '-' then
      match ParseNat(s[1..])
      case Some(v) => Some(-(v as int))
      case None => None
    else
      match ParseNat(s)
      case Some(v) => Some(v as int)
      case None => None
  }

  lemma {:induction false} NatToStringValue(n: nat)
    ensures DigitsValue(NatToString(n)) == n
    decreases n
  {
    if n >= 10 {
      var s := NatToString(n);
      assert s[..|s| - 1] == NatToString(n / 10);
      NatToStringValue(n / 10);
    }
  }

  /** Parsing the printed form of any integer gives the integer back. */
  lemma IntToStringRoundTrip(n: int)
    ensures ParseInt(IntToString(n)) == Some(n)
  {
    var s := IntToString(n);
    if n < 0 {
      var digits := NatToString(-n);
      assert s == "-" + digits;
      assert s[1..] == digits;
      NatToStringValue(-n);
      assert ParseNat(digits) == Some(-n);
    } else {
      assert s == NatToString(n);
      assert s[0] != '-' by { assert IsDigit(s[0]); }
      NatToStringValue(n);
      assert ParseNat(s) == Some(n);
    }
  }

  /** The printed forms of two integers coincide only when the integers do. */
  lemma IntToStringInjective(a: int, b: int)
    ensures IntToString(a) == IntToString(b) <==> a == b
  {
    IntToStringRoundTrip(a);
    IntToStringRoundTrip(b);
  }

  /** Position of the first occurrence of `c` in `s`. */
  function IndexOf(s: string, c: char): (r: Option<nat>)
    ensures r.Some? ==> r.value < |s| && s[r.value] == c
    ensures r.Some? ==> forall j :: 0 <= j < r.value ==> s[j] != c
    ensures r.None? <==> c !in s
  {
    if |s| == 0 then None
    else if s[0] == c then Some(0)
    else
      match IndexOf(s[1..], c)
      case Some(i) => Some(i + 1)
      case None => None
  }

  /** The laser read-out: rounds left in the magazine, a bar, reloads left. */
  function LaserAmmoText(currentMagazineAmmo: int, magazineLimit: int): string {
    IntToString(currentMagazineAmmo) + "|" + IntToString(magazineLimit)
  }

  /** Splits a laser read-out at its first bar and reads both numbers. */
  function ParseLaserAmmoText(t: string): Option<(int, int)> {
    match IndexOf(t, '|')
    case None => None
    case Some(i) =>
      match (ParseInt(t[..i]), ParseInt(t[i + 1..]))
      case (Some(current), Some(limit)) => Some((current, limit))
      case _ => None
  }

  /** The laser read-out names exactly the two counters it was drawn from. */
  lemma LaserAmmoTextRoundTrip(currentMagazineAmmo: int, magazineLimit: int)
    ensures ParseLaserAmmoText(LaserAmmoText(currentMagazineAmmo, magazineLimit))
            == Some((currentMagazineAmmo, magazineLimit))
  {
    var a := IntToString(currentMagazineAmmo);
    var b := IntToString(magazineLimit);
    var t := LaserAmmoText(currentMagazineAmmo, magazineLimit);
    assert '|' !in a by {
      forall i | 0 <= i < |a| ensures a[i] != '|' {
        if i == 0 {
          assert a[0] == '-' || IsDigit(a[0]);
        }
      }
    }
    assert t[|a|] == '|';
    assert t[..|a|] == a;
    assert forall j :: 0 <= j < |a| ==> t[j] == a[j];
    assert IndexOf(t, '|') == Some(|a|);
    assert t[|a| + 1..] == b;
    IntToStringRoundTrip(currentMagazineAmmo);
    IntToStringRoundTrip(magazineLimit);
  }

  /** Prefix of every meteor ammunition texture key. */
  const MeteorTexturePrefix: string := "ammo_"

  /** Texture key of the meteor ammunition indicator for `ammo` shots left. */
  function MeteorTextureKey(ammo: int): string {
    MeteorTexturePrefix + IntToString(ammo)
  }

  function AmmoOfTextureKey(key: string): Option<int> {
    if |key| >= |MeteorTexturePrefix| && key[..|MeteorTexturePrefix|] == MeteorTexturePrefix
    then ParseInt(key[|MeteorTexturePrefix|..])
    else None
  }

  /** The meteor texture key names exactly the shot count it was drawn from. */
  lemma MeteorTextureKeyRoundTrip(ammo: int)
    ensures AmmoOfTextureKey(MeteorTextureKey(ammo)) == Some(ammo)
  {
    var key := MeteorTextureKey(ammo);
    assert key[..|MeteorTexturePrefix|] == MeteorTexturePrefix;
    assert key[|MeteorTexturePrefix|..] == IntToString(ammo);
    IntToStringRoundTrip(ammo);
  }
}
