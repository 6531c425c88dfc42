/** Colours as `#rrggbb` strings: the per-material colour table, hex-channel
    parsing and formatting, and the darkening applied to walls hit on a y grid line. */
module Colors {
  import opened Results

  predicate IsHexDigit(ch: char)
  {
    '0' <= ch <= '9' || 'a' <= ch <= 'f' || 'A' <= ch <= 'F'
  }

  predicate IsLowerHexDigit(ch: char)
  {
    '0' <= ch <= '9' || 'a' <= ch <= 'f'
  }

  predicate AllHexDigits(s: string)
  {
    forall i :: 0 <= i < |s| ==> IsHexDigit(s[i])
  }

  /** A colour in the form the table holds: '#' and six hex digits of either case. */
  predicate IsHexColor(c: string)
  {
    |c| == 7 && c[0] == '#' && forall i :: 1 <= i < 7 ==> IsHexDigit(c[i])
  }

  /** A colour in the form the shading step writes: '#' and six lowercase hex digits. */
  predicate IsLowerHexColor(c: string)
  {
    |c| == 7 && c[0] == '#' && forall i :: 1 <= i < 7 ==> IsLowerHexDigit(c[i])
  }

  /** The sixteen digits in order of value, in the lowercase form the shading
      step writes and in the uppercase form a table colour may also use. */
  const LowerDigits: string := "0123456789abcdef"
  const UpperDigits: string := "0123456789ABCDEF"

  /** The value of one hex digit. */
  function DigitValue(ch: char): (v: nat)
    requires IsHexDigit(ch)
    ensures v < 16
  {
    if '0' <= ch <= '9' then ch as int - '0' as int
    else if 'a' <= ch <= 'f' then ch as int - 'a' as int + 10
    else ch as int - 'A' as int + 10
  }

  /** The lowercase digit of value `v`. */
  function LowerDigit(v: nat): (ch: char)
    requires v < 16
    ensures IsLowerHexDigit(ch)
  {
    if v < 10 then ('0' as int + v) as char else ('a' as int + v - 10) as char
  }

  /** A digit's value is its position in the digit table of its case, and the
      lowercase digit of a value is the one at that position. */
  lemma DigitsInOrder(ch: char, v: nat)
    requires IsHexDigit(ch) && v < 16
    ensures IsLowerHexDigit(ch) ==> LowerDigits[DigitValue(ch)] == ch
    ensures !IsLowerHexDigit(ch) ==> UpperDigits[DigitValue(ch)] == ch
    ensures LowerDigit(v) == LowerDigits[v]
  {
  }

  lemma LowerDigitValue(v: nat)
    requires v < 16
    ensures DigitValue(LowerDigit(v)) == v
  {
  }

  function Pow16(n: nat): (p: nat)
    ensures p >= 1
  {
    if n == 0 then 1 else 16 * Pow16(n - 1)
  }

  /** The value of a string of hex digits, most significant digit first. */
  function HexValue(s: string): (v: nat)
    requires AllHexDigits(s)
    ensures v < Pow16(|s|)
    decreases |s|
  {
    if |s| == 0 then 0
    else HexValue(s[..|s| - 1]) * 16 + DigitValue(s[|s| - 1])
  }

  /** Read from the front, a numeral is its leading digit times the place value
      of that digit plus the value of the digits after it. */
  lemma {:induction false} HexValueLeading(s: string)
    requires AllHexDigits(s) && |s| > 0
    ensures HexValue(s) == DigitValue(s[0]) * Pow16(|s| - 1) + HexValue(s[1..])
    decreases |s|
  {
    var n := |s|;
    if n == 1 {
      assert s[..0] == [] && s[1..] == [];
    } else {
      var init := s[..n - 1];
      HexValueLeading(init);
      assert init[0] == s[0] && init[1..] == s[1..][..n - 2];
      assert s[1..][n - 2] == s[n - 1];
      Regroup(DigitValue(s[0]), Pow16(n - 2), HexValue(init[1..]), DigitValue(s[n - 1]));
    }
  }

  lemma Regroup(d: nat, p: nat, rest: nat, last: nat)
    ensures (d * p + rest) * 16 + last == d * (16 * p) + (rest * 16 + last)
  {
  }

  /** Python's `int(s, 16)` on a plain digit string; None where Python raises ValueError.
      The digits are read most significant first, either case. */
  function ParseHex(s: string): (r: Option<nat>)
    ensures r.Some? <==> |s| > 0 && AllHexDigits(s)
    ensures r.Some? ==> r.value < Pow16(|s|)
  {
    if |s| > 0 && AllHexDigits(s) then
      HexValueLeading(s);
      Some(HexValue(s))
    else None
  }

  /** Python's `f"{n:02x}"` for a value below 256: two lowercase digits, zero-padded. */
  function Hex2(n: nat): (s: string)
    requires n < 256
    ensures |s| == 2 && IsLowerHexDigit(s[0]) && IsLowerHexDigit(s[1])
    // the first digit counts sixteen times its value
    ensures 16 * DigitValue(s[0]) + DigitValue(s[1]) == n
    ensures ParseHex(s) == Some(n)
  {
    var s := [LowerDigit(n / 16), LowerDigit(n % 16)];
    LowerDigitValue(n / 16);
    LowerDigitValue(n % 16);
    TwoDigitValue(s);
    s
  }

  /** A two-digit field parses to sixteen times its first digit plus its second. */
  lemma TwoDigitValue(s: string)
    requires |s| == 2 && AllHexDigits(s)
    ensures ParseHex(s) == Some(16 * DigitValue(s[0]) + DigitValue(s[1]))
  {
    assert s[..1][..0] == [];
    assert HexValue(s[..1]) == DigitValue(s[0]);
  }

  /** Formatting after parsing gives back any two-digit lowercase field. */
  lemma FormatAfterParse(s: string)
    requires |s| == 2 && IsLowerHexDigit(s[0]) && IsLowerHexDigit(s[1])
    ensures ParseHex(s).Some? && ParseHex(s).value < 256
    ensures Hex2(ParseHex(s).value) == s
  {
    var hi := DigitValue(s[0]);
    var lo := DigitValue(s[1]);
    TwoDigitValue(s);
    var n := ParseHex(s).value;
    DivMod16(hi, lo);
    DigitRoundTrip(s[0]);
    DigitRoundTrip(s[1]);
    assert Hex2(n) == [LowerDigit(n / 16), LowerDigit(n % 16)];
    assert [s[0], s[1]] == s;
  }

  /** A lowercase digit is the digit its value is written as. */
  lemma DigitRoundTrip(ch: char)
    requires IsLowerHexDigit(ch)
    ensures LowerDigit(DigitValue(ch)) == ch
  {
  }

  lemma DivMod16(hi: nat, lo: nat)
    requires lo < 16
    ensures (16 * hi + lo) / 16 == hi && (16 * hi + lo) % 16 == lo
  {
  }

  /** Python's `s[lo:hi]` for 0 <= lo <= hi: bounds past the end are clamped. */
  function Slice(s: string, lo: nat, hi: nat): (r: string)
    requires lo <= hi
    ensures |r| <= hi - lo
    ensures hi <= |s| ==> r == s[lo..hi]
    // past the end, the slice is whatever of the string lies from lo on
    ensures hi > |s| ==> r == s[if lo < |s| then lo else |s|..]
    ensures lo >= |s| ==> r == []
  {
    var a := if lo < |s| then lo else |s|;
    var b := if hi < |s| then hi else |s|;
    s[a..b]
  }

  /** The text of channel k (0 red, 1 green, 2 blue): `color[1:3]`, `color[3:5]`, `color[5:7]`. */
  function Field(color: string, k: nat): (f: string)
    requires k < 3
    ensures |f| <= 2
  {
    Slice(color, 1 + 2 * k, 3 + 2 * k)
  }

  /** Channel k of a colour string, None where parsing it raises. */
  function Channel(color: string, k: nat): (v: Option<nat>)
    requires k < 3
    ensures v.Some? ==> v.value < 256
  {
    ParseHex(Field(color, k))
  }

  /** Three channel values, each below 256. */
  datatype Rgb = Rgb(red: nat, green: nat, blue: nat) {

    predicate Valid()
    {
      red < 256 && green < 256 && blue < 256
    }

    function Get(k: nat): nat
      requires k < 3
    {
      if k == 0 then red else if k == 1 then green else blue
    }
  }

  /** A colour written back from its channels: '#' followed by each channel as two
      lowercase hex digits, zero-padded. Parsing each field gives the channel back. */
  function Encode(rgb: Rgb): (s: string)
    requires rgb.Valid()
    ensures IsLowerHexColor(s)
    ensures forall k :: 0 <= k < 3 ==> Channel(s, k) == Some(rgb.Get(k))
  {
    var h0 := Hex2(rgb.red);
    var h1 := Hex2(rgb.green);
    var h2 := Hex2(rgb.blue);
    var s := "#" + h0 + h1 + h2;
    assert Field(s, 0) == s[1..3] == h0;
    assert Field(s, 1) == s[3..5] == h1;
    assert Field(s, 2) == s[5..7] == h2;
    s
  }

  /** The channels of a colour string, None when any field fails to parse. */
  function Decode(color: string): (r: Option<Rgb>)
    ensures r.Some? <==> forall k :: 0 <= k < 3 ==> Channel(color, k).Some?
    ensures r.Some? ==> r.value.Valid()
    ensures r.Some? ==> forall k :: 0 <= k < 3 ==> Channel(color, k) == Some(r.value.Get(k))
  {
    var red := Channel(color, 0);
    var green := Channel(color, 1);
    var blue := Channel(color, 2);
    if red.Some? && green.Some? && blue.Some? then Some(Rgb(red.value, green.value, blue.value))
    else
      assert !(Channel(color, 0).Some? && Channel(color, 1).Some? && Channel(color, 2).Some?);
      None
  }

  /** Decoding an encoded colour gives back its channels. */
  lemma DecodeEncode(rgb: Rgb)
    requires rgb.Valid()
    ensures Decode(Encode(rgb)) == Some(rgb)
  {
    var s := Encode(rgb);
    assert Channel(s, 0) == Some(rgb.red) && Channel(s, 1) == Some(rgb.green) && Channel(s, 2) == Some(rgb.blue);
  }

  /** Encoding a decoded lowercase colour gives back the same string. */
  lemma EncodeDecode(c: string)
    requires IsLowerHexColor(c)
    ensures Decode(c).Some? && Encode(Decode(c).value) == c
  {
    FieldRoundTrip(c, 0);
    FieldRoundTrip(c, 1);
    FieldRoundTrip(c, 2);
    var rgb := Decode(c).value;
    assert Encode(rgb) == "#" + Hex2(rgb.red) + Hex2(rgb.green) + Hex2(rgb.blue);
    assert c == "#" + c[1..3] + c[3..5] + c[5..7];
  }

  lemma FieldRoundTrip(c: string, k: nat)
    requires IsLowerHexColor(c) && k < 3
    ensures Channel(c, k).Some? && Hex2(Channel(c, k).value) == c[1 + 2 * k..3 + 2 * k]
  {
    assert Field(c, k) == c[1 + 2 * k..3 + 2 * k];
    FormatAfterParse(c[1 + 2 * k..3 + 2 * k]);
  }

  /** The darkening for walls hit on a y grid line: every channel shifted
      right by one bit (halved, rounding down) and written back as lowercase hex. */
  function Shade(color: string): (r: Option<string>)
    ensures r.Some? <==> forall k :: 0 <= k < 3 ==> Channel(color, k).Some?
    ensures r.Some? ==> IsLowerHexColor(r.value)
    ensures r.Some? ==> forall k :: 0 <= k < 3 ==>
              Channel(r.value, k) == Some(Channel(color, k).value / 2)
              && Channel(r.value, k).value <= 0x7f
  {
    match Decode(color)
    case None => None
    case Some(rgb) => Some(Encode(Rgb(rgb.red / 2, rgb.green / 2, rgb.blue / 2)))
  }

  /** The value of the k-th pair of digits of a well-formed colour, read as a
      base-16 numeral: the first digit counts sixteen times the second. */
  function PairValue(c: string, k: nat): nat
    requires IsHexColor(c) && k < 3
  {
    16 * DigitValue(c[1 + 2 * k]) + DigitValue(c[2 + 2 * k])
  }

  /** A well-formed table colour always shades, each channel to the halved value
      of its pair of digits. */
  lemma ShadeOfHexColor(c: string)
    requires IsHexColor(c)
    ensures Shade(c).Some?
    ensures forall k :: 0 <= k < 3 ==> Channel(Shade(c).value, k) == Some(PairValue(c, k) / 2)
  {
    forall k | 0 <= k < 3
      ensures Channel(c, k) == Some(PairValue(c, k))
    {
      var f := c[1 + 2 * k..3 + 2 * k];
      assert Field(c, k) == f;
      TwoDigitValue(f);
    }
    HalvedChannels(c);
  }

  lemma HalvedChannels(c: string)
    requires forall k :: 0 <= k < 3 ==> Channel(c, k).Some?
    ensures Shade(c).Some?
    ensures forall k :: 0 <= k < 3 ==> Channel(Shade(c).value, k) == Some(Channel(c, k).value / 2)
  {
  }

  /** The colour table: material id to wall colour, plus floor and ceiling colours. */
  datatype ColorMap = ColorMap(colors: map<int, string>, floor: string, ceiling: string) {

    /** `color_map[key]`, which raises KeyError for a missing key, so callers supply one. */
    function Get(key: int): (c: string)
      requires key in colors
      ensures c in colors.Values
    {
      colors[key]
    }
  }

  /** The colour a wall strip is drawn in: shaded for y-side hits, the base colour otherwise. */
  function WallColor(base: string, side: int): (r: Option<string>)
    ensures side != 1 ==> r == Some(base)
    ensures side == 1 && IsHexColor(base) ==> r.Some? && IsLowerHexColor(r.value)
  {
    if side == 1 then
      if IsHexColor(base) then ShadeOfHexColor(base); Shade(base) else Shade(base)
    else Some(base)
  }
}
