/** Utilities of the wallpaper generator: the result type used for Python's
    ValueError, mapping a function that may raise over a list, colours,
    `clamp` and the hexadecimal colour parser `hex_to_rgb` (CSS `#rgb` /
    `#rrggbb` notation). */
module Utilities {

  /** The exceptions that the modelled code can raise (all are ValueError in Python). */
  datatype Error =
    | InvalidLiteral(text: string)   // int(text, 16) rejected `text`
    | ZeroStep                       // range(...) was given a step of 0

  datatype Result<T> = Ok(value: T) | Err(error: Error)

  /** A colour as the tuple that hex_to_rgb returns. Channels are plain integers:
      the parser can produce values outside [0,255] (a leading '-'). */
  datatype Rgb = Rgb(r: int, g: int, b: int)

  predicate IsByte(n: int) { 0 <= n <= 255 }

  predicate IsByteColour(c: Rgb) { IsByte(c.r) && IsByte(c.g) && IsByte(c.b) }

  // ---------------------------------------------------------------------
  // clamp
  // ---------------------------------------------------------------------

  /** Python's int(x) on a number: truncation toward zero. */
  function Trunc(x: real): (n: int)
    ensures x >= 0.0 ==> 0 <= n && n as real <= x < n as real + 1.0
    ensures x < 0.0 ==> n <= 0 && n as real - 1.0 < x <= n as real
  {
    if x >= 0.0 then x.Floor else -((-x).Floor)
  }

  /** clamp(x, a=0, b=255) = max(a, min(b, int(x))). */
  function Clamp(x: real, a: int := 0, b: int := 255): (r: int)
    ensures a <= b ==> a <= r <= b
    ensures a <= Trunc(x) <= b ==> r == Trunc(x)
    ensures Trunc(x) < a ==> r == a
    ensures a <= b < Trunc(x) ==> r == b
    ensures b < a ==> r == a
  {
    var t := Trunc(x);
    var m := if b < t then b else t;
    if a < m then m else a
  }

  /** An integer already inside the range comes back unchanged; the default
      range is that of a colour channel. */
  lemma ClampKeepsInRange(n: int, a: int, b: int)
    requires a <= n <= b
    ensures Clamp(n as real, a, b) == n
    ensures IsByte(n) ==> IsByte(Clamp(n as real))
  {
    assert Trunc(n as real) == n;
  }

  /** Clamping twice is clamping once. */
  lemma ClampIdempotent(x: real, a: int, b: int)
    requires a <= b
    ensures Clamp(Clamp(x, a, b) as real, a, b) == Clamp(x, a, b)
  {
    ClampKeepsInRange(Clamp(x, a, b), a, b);
  }

  // ---------------------------------------------------------------------
  // hex_to_rgb
  // ---------------------------------------------------------------------

  predicate IsHexDigit(c: char) {
    ('0' <= c <= '9') || ('a' <= c <= 'f') || ('A' <= c <= 'F')
  }

  function HexValue(c: char): (v: nat)
    requires IsHexDigit(c)
    ensures v < 16
  {
    if '0' <= c <= '9' then (c as int) - ('0' as int)
    else if 'a' <= c <= 'f' then (c as int) - ('a' as int) + 10
    else (c as int) - ('A' as int) + 10
  }

  /** The lower-case digit that Python's format(n, 'x') writes for n < 16. */
  function HexDigit(n: nat): (c: char)
    requires n < 16
    ensures IsHexDigit(c) && HexValue(c) == n
    ensures ('0' <= c <= '9') || ('a' <= c <= 'f')
  {
    if n < 10 then ('0' as int + n) as char else ('a' as int + n - 10) as char
  }

  /** The characters that int() strips around its argument: the ASCII
      whitespace tab, line feed, vertical tab, form feed, carriage return and
      space, and the Unicode whitespace characters from U+0080 on, which int()
      first turns into a space. The ASCII separators U+001C to U+001F are not
      stripped. */
  predicate IsSpace(c: char) {
    ('\U{0009}' <= c <= '\U{000D}') || c == ' ' ||
    c == '\U{0085}' || c == '\U{00A0}' || c == '\U{1680}' ||
    ('\U{2000}' <= c <= '\U{200A}') || c == '\U{2028}' || c == '\U{2029}' ||
    c == '\U{202F}' || c == '\U{205F}' || c == '\U{3000}'
  }

  /** str.lstrip('#'): drops every leading '#'. */
  function LStripHash(s: string): (r: string)
    ensures |r| <= |s| && r == s[|s| - |r|..]
    ensures forall i :: 0 <= i < |s| - |r| ==> s[i] == '#'
    ensures r == [] || r[0] != '#'
  {
    if |s| > 0 && s[0] == '#' then LStripHash(s[1..]) else s
  }

  /** ''.join([c*2 for c in s]) */
  function Doubled(s: string): (r: string)
    ensures |r| == 2 * |s|
    ensures forall i :: 0 <= i < |r| ==> r[i] == s[i / 2]
  {
    if s == [] then [] else [s[0], s[0]] + Doubled(s[1..])
  }

  /** The Python slice s[lo:hi] for 0 <= lo <= hi: bounds past the end are cut back. */
  function Slice(s: string, lo: nat, hi: nat): (r: string)
    requires lo <= hi
    ensures |r| <= hi - lo
    ensures hi <= |s| ==> r == s[lo..hi]
    ensures lo < |s| < hi ==> r == s[lo..]
    ensures |s| <= lo ==> r == []
  {
    var l := if lo < |s| then lo else |s|;
    var h := if hi < |s| then hi else |s|;
    s[l..h]
  }

  /** The whitespace strip int() applies to its argument, for a chunk of at
      most two characters: the result keeps exactly the characters of `c` that
      are not surrounded by whitespace on the outside. */
  function StripChunk(c: string): (r: string)
    requires |c| <= 2
    ensures |r| <= |c|
    ensures r == [] || (!IsSpace(r[0]) && !IsSpace(r[|r| - 1]))
    ensures |c| == 1 ==> r == (if IsSpace(c[0]) then [] else c)
    ensures |c| == 2 && !IsSpace(c[0]) && !IsSpace(c[1]) ==> r == c
  {
    if |c| == 0 then c
    else if IsSpace(c[0]) then (if |c| == 2 && !IsSpace(c[1]) then c[1..] else [])
    else if |c| == 2 && IsSpace(c[1]) then c[..1]
    else c
  }

  /** The strip cuts the chunk at i and j: what it keeps is the piece c[i..j],
      and everything cut off before i and after j is whitespace. Together with
      StripChunk's own ensures (the piece neither starts nor ends with
      whitespace) this determines the result. */
  lemma StripChunkCuts(c: string) returns (i: nat, j: nat)
    requires |c| <= 2
    ensures i <= j <= |c| && StripChunk(c) == c[i..j]
    ensures forall k :: 0 <= k < i ==> IsSpace(c[k])
    ensures forall k :: j <= k < |c| ==> IsSpace(c[k])
  {
    if |c| == 0 {
      i, j := 0, 0;
    } else if IsSpace(c[0]) {
      if |c| == 2 && !IsSpace(c[1]) {
        i, j := 1, 2;
      } else {
        i, j := |c|, |c|;
      }
    } else if |c| == 2 && IsSpace(c[1]) {
      i, j := 0, 1;
    } else {
      i, j := 0, |c|;
    }
  }

  /** int(chunk, 16) for a chunk of at most two characters, as cut by hex_to_rgb:
      surrounding whitespace is ignored, then an optional sign and one or two
      hexadecimal digits; anything else raises ValueError. */
  function ParseChannel(chunk: string): (r: Result<int>)
    requires |chunk| <= 2
    ensures r.Ok? ==> -15 <= r.value <= 255
    ensures r.Err? ==> r.error == InvalidLiteral(chunk)
  {
    var t := StripChunk(chunk);
    if |t| == 1 && IsHexDigit(t[0]) then Ok(HexValue(t[0]))
    else if |t| == 2 && IsHexDigit(t[0]) && IsHexDigit(t[1]) then Ok(16 * HexValue(t[0]) + HexValue(t[1]))
    else if |t| == 2 && t[0] == '+' && IsHexDigit(t[1]) then Ok(HexValue(t[1]))
    else if |t| == 2 && t[0] == '-' && IsHexDigit(t[1]) then Ok(0 - HexValue(t[1]) as int)
    else Err(InvalidLiteral(chunk))
  }

  /** A space around a digit is stripped, an ASCII separator is not:
      int(' a', 16) and int('a ', 16) are 10, while int('\x1ca', 16) raises
      ValueError; the same holds for every hexadecimal digit and every
      separator U+001C to U+001F. */
  lemma SpaceStrippedSeparatorNot(c: char, d: char)
    requires IsHexDigit(d)
    ensures ParseChannel([' ', d]) == Ok(HexValue(d)) && ParseChannel([d, ' ']) == Ok(HexValue(d))
    ensures '\U{001C}' <= c <= '\U{001F}' ==> ParseChannel([c, d]).Err? && ParseChannel([d, c]).Err?
  {
  }

  /** A sign before a digit: int('+d', 16) is d and int('-d', 16) is -d. */
  lemma SignedDigit(d: char)
    requires IsHexDigit(d)
    ensures ParseChannel(['+', d]) == Ok(HexValue(d))
    ensures ParseChannel(['-', d]) == Ok(0 - HexValue(d) as int)
  {
  }

  /** The digits hex_to_rgb reads: '#'s stripped, a 3-character form doubled
      into six, any other length kept as it is. */
  function Expanded(h: string): (t: string)
    ensures |t| == if |LStripHash(h)| == 3 then 6 else |LStripHash(h)|
  {
    var s := LStripHash(h);
    if |s| == 3 then Doubled(s) else s
  }

  /** list(map(f, xs)) for an f that may raise: fails with the error of the
      first element that fails. */
  function MapAll<A, B>(f: A -> Result<B>, xs: seq<A>): (r: Result<seq<B>>)
    ensures r.Ok? <==> forall i :: 0 <= i < |xs| ==> f(xs[i]).Ok?
    ensures r.Ok? ==> |r.value| == |xs| && forall i :: 0 <= i < |xs| ==> f(xs[i]) == Ok(r.value[i])
    ensures r.Err? ==> exists i :: 0 <= i < |xs| && f(xs[i]) == Err(r.error)
                                   && forall k :: 0 <= k < i ==> f(xs[k]).Ok?
  {
    if xs == [] then Ok([])
    else
      match f(xs[0])
      case Err(e) => Err(e)
      case Ok(c) =>
        var rest := MapAll(f, xs[1..]);
        if rest.Err? then
          ghost var i :| 0 <= i < |xs| - 1 && f(xs[1..][i]) == Err(rest.error)
                        && forall k :: 0 <= k < i ==> f(xs[1..][k]).Ok?;
          assert f(xs[i + 1]) == Err(rest.error);
          assert forall k :: 0 <= k < i + 1 ==> f(xs[k]).Ok? by {
            forall k | 0 <= k < i + 1 ensures f(xs[k]).Ok? {
              if k > 0 { assert xs[k] == xs[1..][k - 1]; }
            }
          }
          Err(rest.error)
        else
          assert forall i :: 1 <= i < |xs| ==> xs[i] == xs[1..][i - 1];
          Ok([c] + rest.value)
  }

  /** int(t[i:i+2], 16): the chunk of two characters at offset i. */
  function Chunk(t: string, i: nat): (r: Result<int>)
    ensures r.Ok? ==> -15 <= r.value <= 255
  {
    ParseChannel(Slice(t, i, i + 2))
  }

  /** The generator int(t[i:i+2], 16) for i in offsets, collected in order:
      every chunk parses and the values are theirs, or the first chunk that
      fails raises. */
  function ReadChannels(t: string, offsets: seq<nat>): (res: Result<seq<int>>)
    ensures res.Ok? <==> forall k :: 0 <= k < |offsets| ==> Chunk(t, offsets[k]).Ok?
    ensures res.Ok? ==> |res.value| == |offsets|
    ensures res.Ok? ==> forall k :: 0 <= k < |offsets| ==> Chunk(t, offsets[k]) == Ok(res.value[k])
    ensures res.Ok? ==> forall k :: 0 <= k < |offsets| ==> -15 <= res.value[k] <= 255
    ensures res.Err? ==> exists k :: 0 <= k < |offsets| && Chunk(t, offsets[k]) == Err(res.error)
                                     && forall j :: 0 <= j < k ==> Chunk(t, offsets[j]).Ok?
  {
    MapAll(i => Chunk(t, i), offsets)
  }

  /** hex_to_rgb(h) = tuple(int(t[i:i+2], 16) for i in (0, 2, 4)) over the
      expanded digits t. Every channel it returns lies in [-15, 255]. */
  function HexToRgb(h: string): (res: Result<Rgb>)
    ensures res.Ok? ==> -15 <= res.value.r <= 255 && -15 <= res.value.g <= 255 && -15 <= res.value.b <= 255
  {
    match ReadChannels(Expanded(h), [0, 2, 4])
    case Err(e) => Err(e)
    case Ok(vs) => Ok(Rgb(vs[0], vs[1], vs[2]))
  }

  /** The three chunks of hex_to_rgb, read one after the other. */
  lemma ReadThree(t: string)
    ensures var r, g, b := ParseChannel(Slice(t, 0, 2)), ParseChannel(Slice(t, 2, 4)), ParseChannel(Slice(t, 4, 6));
            ReadChannels(t, [0, 2, 4]) ==
              if r.Err? then Err(r.error)
              else if g.Err? then Err(g.error)
              else if b.Err? then Err(b.error)
              else Ok([r.value, g.value, b.value])
  {
    var offsets := [0, 2, 4];
    var res := ReadChannels(t, offsets);
    assert offsets[0] == 0 && offsets[1] == 2 && offsets[2] == 4;
    var r, g, b := Chunk(t, 0), Chunk(t, 2), Chunk(t, 4);
    if res.Ok? {
      assert res.value == [r.value, g.value, b.value];
    } else {
      ghost var k :| 0 <= k < 3 && Chunk(t, offsets[k]) == Err(res.error)
                     && forall j :: 0 <= j < k ==> Chunk(t, offsets[j]).Ok?;
      assert k == 0 || r.Ok?;
      assert k <= 1 || g.Ok?;
    }
  }

  /** hex_to_rgb fails on every input with fewer than five characters left after
      the '#'s, other than the 3-character shorthand: a chunk is then empty. */
  lemma ShortInputFails(h: string)
    requires |LStripHash(h)| < 5 && |LStripHash(h)| != 3
    ensures HexToRgb(h).Err?
  {
    ReadThree(Expanded(h));
  }

  /** A leading '#' does not matter. */
  lemma HashIgnored(s: string)
    ensures HexToRgb("#" + s) == HexToRgb(s)
  {
    assert ("#" + s)[1..] == s;
    assert Expanded("#" + s) == Expanded(s);
  }

  /** The 3-digit shorthand parses as its doubled 6-digit form (e.g. "#abc" as "#aabbcc"). */
  lemma ShorthandDoubles(h: string)
    requires |LStripHash(h)| == 3
    ensures HexToRgb(h) == HexToRgb(Doubled(LStripHash(h)))
  {
    var d := Doubled(LStripHash(h));
    assert d[0] != '#';
    assert LStripHash(d) == d;
  }

  /** '#' followed by exactly six hexadecimal digits. */
  predicate IsHexColour(s: string) {
    |s| == 7 && s[0] == '#' &&
    IsHexDigit(s[1]) && IsHexDigit(s[2]) && IsHexDigit(s[3]) &&
    IsHexDigit(s[4]) && IsHexDigit(s[5]) && IsHexDigit(s[6])
  }

  function Byte(hi: char, lo: char): (n: int)
    requires IsHexDigit(hi) && IsHexDigit(lo)
    ensures IsByte(n)
  {
    16 * HexValue(hi) + HexValue(lo)
  }

  lemma ChannelOfDigits(hi: char, lo: char)
    requires IsHexDigit(hi) && IsHexDigit(lo)
    ensures ParseChannel([hi, lo]) == Ok(Byte(hi, lo))
  {
  }

  /** A "#rrggbb" colour parses to exactly three channels, each in [0, 255],
      the value of each two-digit pair read in base 16. */
  lemma SixDigitColour(s: string)
    requires IsHexColour(s)
    ensures HexToRgb(s) == Ok(Rgb(Byte(s[1], s[2]), Byte(s[3], s[4]), Byte(s[5], s[6])))
    ensures IsByteColour(HexToRgb(s).value)
  {
    var t := s[1..];
    assert LStripHash(s) == LStripHash(t);
    assert LStripHash(t) == t;
    assert Slice(t, 0, 2) == [s[1], s[2]];
    assert Slice(t, 2, 4) == [s[3], s[4]];
    assert Slice(t, 4, 6) == [s[5], s[6]];
    ReadThree(t);
    ChannelOfDigits(s[1], s[2]);
    ChannelOfDigits(s[3], s[4]);
    ChannelOfDigits(s[5], s[6]);
  }

  /** hex_to_rgb depends on its input only through the expanded digits. */
  lemma SameDigitsSameColour(h1: string, h2: string)
    requires Expanded(h1) == Expanded(h2)
    ensures HexToRgb(h1) == HexToRgb(h2)
  {
  }

  lemma ShorthandExpands(x: char, y: char, z: char)
    requires IsHexDigit(x) && IsHexDigit(y) && IsHexDigit(z)
    ensures Expanded(['#', x, y, z]) == [x, x, y, y, z, z]
    ensures Expanded(['#', x, x, y, y, z, z]) == [x, x, y, y, z, z]
  {
    var short, long := ['#', x, y, z], ['#', x, x, y, y, z, z];
    var t, d := [x, y, z], [x, x, y, y, z, z];
    assert short[1..] == t && long[1..] == d;
    assert LStripHash(t) == t && LStripHash(d) == d;
    assert Doubled(t) == d;
  }

  /** "#abc" parses as "#aabbcc". */
  lemma ShorthandAsLong(x: char, y: char, z: char)
    requires IsHexDigit(x) && IsHexDigit(y) && IsHexDigit(z)
    ensures HexToRgb(['#', x, y, z]) == HexToRgb(['#', x, x, y, y, z, z])
  {
    ShorthandExpands(x, y, z);
    SameDigitsSameColour(['#', x, y, z], ['#', x, x, y, y, z, z]);
  }

  /** "#aabbcc": each doubled digit d gives the channel 17 * d. */
  lemma DoubledDigitsColour(x: char, y: char, z: char)
    requires IsHexDigit(x) && IsHexDigit(y) && IsHexDigit(z)
    ensures HexToRgb(['#', x, x, y, y, z, z]) == Ok(Rgb(17 * HexValue(x), 17 * HexValue(y), 17 * HexValue(z)))
  {
    var long := ['#', x, x, y, y, z, z];
    assert long[1] == x && long[2] == x && long[3] == y && long[4] == y && long[5] == z && long[6] == z;
    DoubledPairs(long);
  }

  lemma DoubledPairs(s: string)
    requires IsHexColour(s) && s[1] == s[2] && s[3] == s[4] && s[5] == s[6]
    ensures HexToRgb(s) == Ok(Rgb(17 * HexValue(s[1]), 17 * HexValue(s[3]), 17 * HexValue(s[5])))
  {
    SixDigitColour(s);
    assert Byte(s[1], s[2]) == 17 * HexValue(s[1]) && Byte(s[3], s[4]) == 17 * HexValue(s[3]);
    assert Byte(s[5], s[6]) == 17 * HexValue(s[5]);
  }

  /** "#abc" is the colour (17a, 17b, 17c). */
  lemma ShorthandColour(x: char, y: char, z: char)
    requires IsHexDigit(x) && IsHexDigit(y) && IsHexDigit(z)
    ensures HexToRgb(['#', x, y, z]) == Ok(Rgb(17 * HexValue(x), 17 * HexValue(y), 17 * HexValue(z)))
  {
    ShorthandAsLong(x, y, z);
    DoubledDigitsColour(x, y, z);
  }

  /** "#rrggbb" for a colour whose channels are bytes (the partner of HexToRgb). */
  function FormatHex(c: Rgb): (s: string)
    requires IsByteColour(c)
    ensures IsHexColour(s)
  {
    ['#', HexDigit(c.r / 16), HexDigit(c.r % 16),
          HexDigit(c.g / 16), HexDigit(c.g % 16),
          HexDigit(c.b / 16), HexDigit(c.b % 16)]
  }

  lemma ByteOfDigits(n: int)
    requires IsByte(n)
    ensures Byte(HexDigit(n / 16), HexDigit(n % 16)) == n
  {
  }

  /** Formatting a byte colour and parsing it back gives the same colour. */
  lemma FormatThenParse(c: Rgb)
    requires IsByteColour(c)
    ensures HexToRgb(FormatHex(c)) == Ok(c)
  {
    var s := FormatHex(c);
    SixDigitColour(s);
    ByteOfDigits(c.r);
    ByteOfDigits(c.g);
    ByteOfDigits(c.b);
    assert Byte(s[1], s[2]) == c.r && Byte(s[3], s[4]) == c.g && Byte(s[5], s[6]) == c.b;
  }

  /** '#' and six lower-case hexadecimal digits. */
  predicate IsLowerHexColour(s: string) {
    IsHexColour(s) && forall i :: 1 <= i < 7 ==> !('A' <= s[i] <= 'F')
  }

  lemma DigitRoundTrip(hi: char, lo: char)
    requires IsHexDigit(hi) && IsHexDigit(lo) && !('A' <= hi <= 'F') && !('A' <= lo <= 'F')
    ensures HexDigit(Byte(hi, lo) / 16) == hi && HexDigit(Byte(hi, lo) % 16) == lo
  {
    assert Byte(hi, lo) / 16 == HexValue(hi);
    assert Byte(hi, lo) % 16 == HexValue(lo);
  }

  lemma SevenElements(s: string)
    requires |s| == 7
    ensures s == [s[0], s[1], s[2], s[3], s[4], s[5], s[6]]
  {
  }

  /** The colour of six lower-case digits formats back to those digits. */
  lemma FormatBytes(r1: char, r2: char, g1: char, g2: char, b1: char, b2: char)
    requires IsHexDigit(r1) && IsHexDigit(r2) && IsHexDigit(g1) && IsHexDigit(g2) && IsHexDigit(b1) && IsHexDigit(b2)
    requires !('A' <= r1 <= 'F') && !('A' <= r2 <= 'F') && !('A' <= g1 <= 'F')
    requires !('A' <= g2 <= 'F') && !('A' <= b1 <= 'F') && !('A' <= b2 <= 'F')
    ensures IsByteColour(Rgb(Byte(r1, r2), Byte(g1, g2), Byte(b1, b2)))
    ensures FormatHex(Rgb(Byte(r1, r2), Byte(g1, g2), Byte(b1, b2))) == ['#', r1, r2, g1, g2, b1, b2]
  {
    DigitRoundTrip(r1, r2);
    DigitRoundTrip(g1, g2);
    DigitRoundTrip(b1, b2);
  }

  /** Parsing a lower-case "#rrggbb" string and formatting the colour gives the string back. */
  lemma ParseThenFormat(s: string)
    requires IsLowerHexColour(s)
    ensures HexToRgb(s).Ok? && IsByteColour(HexToRgb(s).value)
    ensures FormatHex(HexToRgb(s).value) == s
  {
    SixDigitColour(s);
    assert !('A' <= s[1] <= 'F') && !('A' <= s[2] <= 'F') && !('A' <= s[3] <= 'F');
    assert !('A' <= s[4] <= 'F') && !('A' <= s[5] <= 'F') && !('A' <= s[6] <= 'F');
    FormatBytes(s[1], s[2], s[3], s[4], s[5], s[6]);
    SevenElements(s);
  }
}
