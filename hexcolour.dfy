/**
 * Colour helpers of the route difficulty badge: the light/dark decision
 * for the label text, the darkened outline colours of the hold drawing,
 * and the three-character difficulty label.
 */
module HoldColours {
  import opened Options
  import opened JsText

  // ---------------------------------------------------------------------
  // parseInt(s, 16) and Number.prototype.toString(16)

  predicate IsHexDigit(c: char)
  {
    '0' <= c <= '9' || 'a' <= c <= 'f' || 'A' <= c <= 'F'
  }

  /** The value of a hex digit (0 for any other character). */
  function DigitValue(c: char): (v: nat)
    ensures v < 16
  {
    if '0' <= c <= '9' then c as int - '0' as int
    else if 'a' <= c <= 'f' then c as int - 'a' as int + 10
    else if 'A' <= c <= 'F' then c as int - 'A' as int + 10
    else 0
  }

  /** The lowercase digit of a value below sixteen, as `toString(16)` writes it. */
  function HexDigit(v: nat): (c: char)
    requires v < 16
    ensures IsHexDigit(c) && DigitValue(c) == v
    ensures '0' <= c <= '9' || 'a' <= c <= 'f'
  {
    if v < 10 then ('0' as int + v) as char else ('a' as int + v - 10) as char
  }

  /** The number of leading hex digits of `s`. */
  function DigitPrefix(s: string): nat
  {
    if s == [] || !IsHexDigit(s[0]) then 0 else 1 + DigitPrefix(s[1..])
  }

  /** The value of a string of hex digits, most significant first. */
  function DigitsValue(s: string): nat
  {
    if s == [] then 0 else DigitsValue(s[..|s| - 1]) * 16 + DigitValue(s[|s| - 1])
  }

  /** The white space `parseInt` skips (the ASCII part of it). */
  predicate IsSpace(c: char)
  {
    c == ' ' || c == '\t' || c == '\n' || c == '\r' || c == '\U{B}' || c == '\U{C}'
  }

  function TrimStart(s: string): string
  {
    if s != [] && IsSpace(s[0]) then TrimStart(s[1..]) else s
  }

  /** The string after one leading sign, if any. */
  function Unsigned(t: string): string
  {
    if t != [] && (t[0] == '-' || t[0] == '+') then t[1..] else t
  }

  /** The string after a leading `0x` or `0X`, if any. */
  function WithoutRadix(u: string): string
  {
    if |u| >= 2 && u[0] == '0' && (u[1] == 'x' || u[1] == 'X') then u[2..] else u
  }

  /**
   * `parseInt(s, 16)`, with `None` for NaN: leading white space and one
   * sign are skipped, then a `0x`/`0X` prefix, then the longest run of hex
   * digits is read; no digits at all is NaN.
   */
  function ParseHex(s: string): (n: Option<int>)
  {
    var t := TrimStart(s);
    var digits := WithoutRadix(Unsigned(t));
    var k := DigitPrefix(digits);
    if k == 0 || k > |digits| then None
    else
      var v: int := DigitsValue(digits[..k]);
      Some(if t[0] == '-' then -v else v)
  }

  /** A string of digits is read whole. */
  lemma {:induction false} DigitPrefixAll(s: string)
    requires HexRun(s, |s|)
    ensures DigitPrefix(s) == |s|
  {
    if s != [] {
      DigitPrefixAll(s[1..]);
    }
  }

  /** A run of hex digits is read whole: it has no space or sign, and 'x' is no digit, so no `0x` either. */
  lemma ParseDigits(s: string)
    requires s != [] && HexRun(s, |s|)
    ensures ParseHex(s) == Some(DigitsValue(s))
  {
    NothingSkipped(s);
    DigitPrefixAll(s);
    assert s[..|s|] == s;
  }

  /** Before a run of digits there is no space, sign or radix prefix to skip. */
  lemma NothingSkipped(s: string)
    requires s != [] && HexRun(s, |s|)
    ensures TrimStart(s) == s && WithoutRadix(Unsigned(s)) == s
  {
    assert IsHexDigit(s[0]);
    assert |s| >= 2 ==> IsHexDigit(s[1]);
  }

  /** Two hex digits parse to their base-16 value. */
  lemma ParsePair(a: char, b: char)
    requires IsHexDigit(a) && IsHexDigit(b)
    ensures ParseHex([a, b]) == Some(16 * DigitValue(a) + DigitValue(b))
  {
    ParseDigits([a, b]);
    assert [a, b][..1] == [a];
    assert [a][..0] == [];
    assert DigitsValue([a]) == DigitsValue([]) * 16 + DigitValue(a);
    assert DigitsValue([a, b]) == DigitsValue([a]) * 16 + DigitValue(b);
  }

  /** A lone character that is no hex digit is NaN, a space or a sign included. */
  lemma NoDigitIsNaN(c: char)
    requires !IsHexDigit(c)
    ensures ParseHex([c]) == None
  {
    if IsSpace(c) {
      assert TrimStart([c]) == [];
    } else {
      assert TrimStart([c]) == [c];
    }
  }

  /** `n.toString(16)` for a natural number: lowercase digits, no leading zero. */
  function NatToHex(n: nat): (h: string)
    ensures |h| >= 1 && HexRun(h, |h|)
    ensures forall i :: 0 <= i < |h| ==> '0' <= h[i] <= '9' || 'a' <= h[i] <= 'f'
    ensures n > 0 ==> h[0] != '0'
    ensures DigitsValue(h) == n
  {
    if n < 16 then
      var h := [HexDigit(n)];
      assert h[..0] == [];
      h
    else
      var h := NatToHex(n / 16) + [HexDigit(n % 16)];
      assert h[..|h| - 1] == NatToHex(n / 16);
      h
  }

  /** Writing a natural number in base 16 and parsing it back gives the number. */
  lemma HexRoundTrip(n: nat)
    ensures ParseHex(NatToHex(n)) == Some(n)
  {
    ParseDigits(NatToHex(n));
  }

  /** `x.toString(16)` for a JavaScript number: "NaN", a minus sign, or the digits. */
  function NumberToHex(x: Option<int>): string
  {
    match x
    case None => "NaN"
    case Some(n) => if n < 0 then "-" + NatToHex(-n) else NatToHex(n)
  }

  // ---------------------------------------------------------------------
  // Channels and lightness

  /** The channels read from the first three pairs of `hex`. */
  datatype Channels = Channels(r: Option<int>, g: Option<int>, b: Option<int>)

  function ReadChannels(hex: string): Channels
  {
    Channels(ParseHex(Substring(hex, 0, 2)), ParseHex(Substring(hex, 2, 4)), ParseHex(Substring(hex, 4, 6)))
  }

  /** The first `n` characters of `h` are hex digits. */
  predicate HexRun(h: string, n: nat)
  {
    n <= |h| && forall i :: 0 <= i < n ==> IsHexDigit(h[i])
  }

  /** The colour without its leading '#', if it has one. */
  function Body(hex: string): (h: string)
    ensures StartsWith(hex, "#") ==> h == hex[1..] && h == Substring(hex, 1, |hex|)
    ensures !StartsWith(hex, "#") ==> h == hex
  {
    if StartsWith(hex, "#") then hex[1..] else hex
  }

  /** `#` (optional) followed by at least six hex digits. */
  predicate WellFormed(hex: string)
  {
    HexRun(Body(hex), 6)
  }

  /** The value of a colour pair. */
  function PairValue(h: string, i: nat): (v: nat)
    requires i + 2 <= |h| && IsHexDigit(h[i]) && IsHexDigit(h[i + 1])
    ensures v < 256
  {
    16 * DigitValue(h[i]) + DigitValue(h[i + 1])
  }

  /** The pair at `i` of a run of hex digits parses to its value. */
  lemma ReadPair(h: string, i: nat)
    requires i + 2 <= |h| && IsHexDigit(h[i]) && IsHexDigit(h[i + 1])
    ensures ParseHex(Substring(h, i, i + 2)) == Some(PairValue(h, i))
  {
    assert Substring(h, i, i + 2) == [h[i], h[i + 1]];
    ParsePair(h[i], h[i + 1]);
  }

  /** Six hex digits read as three channels in [0, 255]. */
  lemma ReadWellFormed(h: string)
    requires HexRun(h, 6)
    ensures ReadsAs(h, PairValue(h, 0), PairValue(h, 2), PairValue(h, 4))
  {
    var c := ReadChannels(h);
    assert c.r == Some(PairValue(h, 0)) by { ReadPair(h, 0); }
    assert c.g == Some(PairValue(h, 2)) by { ReadPair(h, 2); }
    assert c.b == Some(PairValue(h, 4)) by { ReadPair(h, 4); }
  }

  /** `h` reads as the three given channel values. */
  predicate ReadsAs(h: string, r: int, g: int, b: int)
  {
    var c := ReadChannels(h);
    c.r == Some(r) && c.g == Some(g) && c.b == Some(b)
  }

  /** The YIQ weighted sum of three channels. */
  function Weighted(r: int, g: int, b: int): int
  {
    r * 299 + g * 587 + b * 114
  }

  /**
   * `isLightColor(color)`: the channels follow the first character and the
   * colour is light when its YIQ brightness is at least 128; a channel
   * that is NaN makes the comparison, and so the answer, false.
   */
  function IsLightColor(color: string): (light: bool)
    ensures var c := ReadChannels(Substring(color, 1, |color|));
      light <==> c.r.Some? && c.g.Some? && c.b.Some? && Weighted(c.r.value, c.g.value, c.b.value) >= 128000
  {
    var c := ReadChannels(Substring(color, 1, |color|));
    c.r.Some? && c.g.Some? && c.b.Some? &&
    (Weighted(c.r.value, c.g.value, c.b.value) as real) / 1000.0 >= 128.0
  }

  /** A colour whose digits after the first character read as r, g, b is light iff their weighted sum reaches 128000. */
  lemma LightIffWeighted(color: string, r: int, g: int, b: int)
    requires |color| >= 1 && ReadsAs(color[1..], r, g, b)
    ensures IsLightColor(color) <==> Weighted(r, g, b) >= 128000
  {
    assert Substring(color, 1, |color|) == color[1..];
  }

  /** White is light. */
  lemma WhiteIsLight()
    ensures IsLightColor("#ffffff")
  {
    var w := "#ffffff";
    assert HexDigit(15) == 'f';
    assert Pair(255) == "ff";
    assert w[1..] == Pair(255) + Pair(255) + Pair(255);
    ReadPairs(255, 255, 255);
    LightIffWeighted("#ffffff", 255, 255, 255);
  }

  /** Black is dark. */
  lemma BlackIsDark()
    ensures !IsLightColor("#000000")
  {
    ReadPairs(0, 0, 0);
    assert Pair(0) == "00";
    assert "#000000"[1..] == Pair(0) + Pair(0) + Pair(0);
    LightIffWeighted("#000000", 0, 0, 0);
  }

  /** The badge text colour: dark grey on a light hold, white on a dark one. */
  function TextColour(color: string): (c: string)
    ensures c == "#1F2937" <==> IsLightColor(color)
    ensures c == "#FFFFFF" <==> !IsLightColor(color)
  {
    if IsLightColor(color) then "#1F2937" else "#FFFFFF"
  }

  // ---------------------------------------------------------------------
  // Darkening

  /** `Math.floor(c * (1 - p))`, NaN staying NaN. */
  function Darken(c: Option<int>, p: real): (d: Option<int>)
    ensures d.Some? <==> c.Some?
  {
    if c.Some? then Some((c.value as real * (1.0 - p)).Floor) else None
  }

  /** A darkened channel stays between 0 and the original value. */
  lemma DarkenBounds(c: nat, p: real)
    requires 0.0 <= p <= 1.0
    ensures 0 <= Darken(Some(c), p).value <= c
  {
    var x := c as real * (1.0 - p);
    assert 0.0 <= x <= c as real by {
      assert c as real * p >= 0.0;
    }
  }

  function Field(c: Option<int>, p: real): string
  {
    PadStart(NumberToHex(Darken(c, p)), 2, '0')
  }

  /**
   * `darkenHexColor(hex, p)`: one leading '#' is dropped, the three
   * channels are each scaled by `1 - p` and floored, and each is written
   * back in base 16, padded to two characters, after a '#'.
   */
  function DarkenHexColor(hex: string, p: real): (out: string)
    ensures |out| >= 7 && out[0] == '#'
  {
    DarkenChannels(ReadChannels(Body(hex)), p)
  }

  /** The darkened colour written from already-read channels. */
  function DarkenChannels(c: Channels, p: real): (out: string)
    ensures |out| >= 7 && out[0] == '#'
  {
    "#" + Field(c.r, p) + Field(c.g, p) + Field(c.b, p)
  }

  /** A value below 256 is written as exactly two lowercase hex digits. */
  lemma TwoDigits(n: nat)
    requires n < 256
    ensures PadStart(NatToHex(n), 2, '0') == [HexDigit(n / 16), HexDigit(n % 16)]
  {
    if n < 16 {
      assert NatToHex(n) == [HexDigit(n)];
      assert HexDigit(n / 16) == '0';
      PadStartOne(HexDigit(n), '0');
    } else {
      assert NatToHex(n / 16) == [HexDigit(n / 16)];
      assert NatToHex(n) == [HexDigit(n / 16), HexDigit(n % 16)];
      PadStartWide(NatToHex(n), 2, '0');
    }
  }

  /** The channel values of a well-formed colour, whether or not it has its '#'. */
  function ChannelsOf(hex: string): (c: (nat, nat, nat))
    requires WellFormed(hex)
    ensures c.0 < 256 && c.1 < 256 && c.2 < 256
  {
    var h := Body(hex);
    (PairValue(h, 0), PairValue(h, 2), PairValue(h, 4))
  }

  /** Two lowercase hex digits for a value below 256. */
  function Pair(d: nat): (h: string)
    requires d < 256
    ensures |h| == 2 && HexRun(h, 2) && PairValue(h, 0) == d
    ensures ('0' <= h[0] <= '9' || 'a' <= h[0] <= 'f') && ('0' <= h[1] <= '9' || 'a' <= h[1] <= 'f')
  {
    [HexDigit(d / 16), HexDigit(d % 16)]
  }

  /** The field written for a channel in [0, 255], darkened by 0 <= p <= 1. */
  lemma FieldShape(c: nat, p: real)
    requires c < 256 && 0.0 <= p <= 1.0
    ensures var d := Darken(Some(c), p).value;
      0 <= d <= c && Field(Some(c), p) == Pair(d)
  {
    DarkenBounds(c, p);
    var d := Darken(Some(c), p).value;
    TwoDigits(d);
  }

  /** Three pairs read back as their three values, all in lowercase. */
  lemma ReadPairs(d0: nat, d1: nat, d2: nat)
    requires d0 < 256 && d1 < 256 && d2 < 256
    ensures |Pair(d0) + Pair(d1) + Pair(d2)| == 6
    ensures ReadsAs(Pair(d0) + Pair(d1) + Pair(d2), d0, d1, d2)
    ensures var h := Pair(d0) + Pair(d1) + Pair(d2);
      forall i :: 0 <= i < 6 ==> '0' <= h[i] <= '9' || 'a' <= h[i] <= 'f'
  {
    var p0, p1, p2 := Pair(d0), Pair(d1), Pair(d2);
    var h := p0 + p1 + p2;
    forall i | 0 <= i < 6
      ensures '0' <= h[i] <= '9' || 'a' <= h[i] <= 'f'
    {
      if i < 2 {
        assert h[i] == p0[i];
      } else if i < 4 {
        assert h[i] == p1[i - 2];
      } else {
        assert h[i] == p2[i - 4];
      }
    }
    assert h[0] == p0[0] && h[1] == p0[1];
    assert h[2] == p1[0] && h[3] == p1[1];
    assert h[4] == p2[0] && h[5] == p2[1];
    assert PairValue(h, 0) == PairValue(p0, 0);
    assert PairValue(h, 2) == PairValue(p1, 0);
    assert PairValue(h, 4) == PairValue(p2, 0);
    ReadWellFormed(h);
  }

  /** Darkening three channels in [0, 255] writes their darkened pairs after the '#'. */
  lemma DarkenChannelsShape(c0: nat, c1: nat, c2: nat, p: real)
    requires c0 < 256 && c1 < 256 && c2 < 256 && 0.0 <= p <= 1.0
    ensures var d0, d1, d2 := Darken(Some(c0), p).value, Darken(Some(c1), p).value, Darken(Some(c2), p).value;
      0 <= d0 <= c0 && 0 <= d1 <= c1 && 0 <= d2 <= c2 &&
      DarkenChannels(Channels(Some(c0), Some(c1), Some(c2)), p) == "#" + Pair(d0) + Pair(d1) + Pair(d2)
  {
    FieldShape(c0, p);
    FieldShape(c1, p);
    FieldShape(c2, p);
  }

  /**
   * For a well-formed colour and 0 <= p <= 1, the darkened colour is '#'
   * and three two-digit lowercase fields, seven characters in all, and each
   * field is the floored, scaled channel, no larger than the original.
   */
  lemma DarkenedShape(hex: string, p: real)
    requires WellFormed(hex) && 0.0 <= p <= 1.0
    ensures var out := DarkenHexColor(hex, p);
      var c := ChannelsOf(hex);
      var d := (Darken(Some(c.0), p).value, Darken(Some(c.1), p).value, Darken(Some(c.2), p).value);
      |out| == 7 &&
      (forall i :: 1 <= i < 7 ==> '0' <= out[i] <= '9' || 'a' <= out[i] <= 'f') &&
      ReadsAs(out[1..], d.0, d.1, d.2) &&
      d.0 <= c.0 && d.1 <= c.1 && d.2 <= c.2
  {
    var c := ChannelsOf(hex);
    DarkenedIsPairs(hex, p);
    HashPairs(Darken(Some(c.0), p).value, Darken(Some(c.1), p).value, Darken(Some(c.2), p).value);
  }

  /** The darkened colour is '#' and the pairs of the darkened channels. */
  lemma DarkenedIsPairs(hex: string, p: real)
    requires WellFormed(hex) && 0.0 <= p <= 1.0
    ensures var c := ChannelsOf(hex);
      var d0, d1, d2 := Darken(Some(c.0), p).value, Darken(Some(c.1), p).value, Darken(Some(c.2), p).value;
      0 <= d0 <= c.0 && 0 <= d1 <= c.1 && 0 <= d2 <= c.2 &&
      DarkenHexColor(hex, p) == "#" + Pair(d0) + Pair(d1) + Pair(d2)
  {
    var c := ChannelsOf(hex);
    ReadWellFormed(Body(hex));
    assert ReadChannels(Body(hex)) == Channels(Some(c.0), Some(c.1), Some(c.2));
    DarkenChannelsShape(c.0, c.1, c.2, p);
  }

  /** '#' and three pairs: seven characters, lowercase digits after the '#', reading as the three values. */
  lemma HashPairs(d0: nat, d1: nat, d2: nat)
    requires d0 < 256 && d1 < 256 && d2 < 256
    ensures var x := "#" + Pair(d0) + Pair(d1) + Pair(d2);
      |x| == 7 &&
      (forall i :: 1 <= i < 7 ==> '0' <= x[i] <= '9' || 'a' <= x[i] <= 'f') &&
      ReadsAs(x[1..], d0, d1, d2)
  {
    var x := "#" + Pair(d0) + Pair(d1) + Pair(d2);
    DropHash(Pair(d0), Pair(d1), Pair(d2));
    ReadPairs(d0, d1, d2);
    forall i | 1 <= i < 7
      ensures '0' <= x[i] <= '9' || 'a' <= x[i] <= 'f'
    {
      assert x[i] == x[1..][i - 1];
    }
  }

  lemma DropHash(a: string, b: string, c: string)
    ensures ("#" + a + b + c)[1..] == a + b + c
  {
  }

  /** Darkening by 0 gives back the same three channels, written in lowercase. */
  lemma DarkenByZeroRoundTrip(hex: string)
    requires WellFormed(hex)
    ensures var c := ChannelsOf(hex);
      ReadsAs(DarkenHexColor(hex, 0.0)[1..], c.0, c.1, c.2)
  {
    DarkenedShape(hex, 0.0);
    var c := ChannelsOf(hex);
    assert Darken(Some(c.0), 0.0).value == c.0;
    assert Darken(Some(c.1), 0.0).value == c.1;
    assert Darken(Some(c.2), 0.0).value == c.2;
  }

  /** Darkening never turns a dark colour light. */
  lemma DarkenedNeverLighter(hex: string, p: real)
    requires WellFormed(hex) && StartsWith(hex, "#") && 0.0 <= p <= 1.0
    ensures IsLightColor(DarkenHexColor(hex, p)) ==> IsLightColor(hex)
  {
    var c := ChannelsOf(hex);
    DarkenedShape(hex, p);
    var out := DarkenHexColor(hex, p);
    LightIffWeighted(out, Darken(Some(c.0), p).value, Darken(Some(c.1), p).value, Darken(Some(c.2), p).value);
    ReadWellFormed(Body(hex));
    LightIffWeighted(hex, c.0, c.1, c.2);
  }

  // ---------------------------------------------------------------------
  // The label

  /** The difficulty shown on the badge: its first three characters at most. */
  function DifficultyLabel(difficulty: string): (label_: string)
    ensures |label_| == if |difficulty| < 3 then |difficulty| else 3
    ensures label_ == difficulty[..|label_|]
  {
    Substring(difficulty, 0, 3)
  }
}
