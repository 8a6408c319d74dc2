/** Hexadecimal text helpers shared by both record formats: validation,
    decoding to integers and bytes, upper-case rendering, the record checksum,
    white-space removal and splitting a physical line into records.

    Every helper that BaseFunctions.cs writes as a loop over its input is given
    here as a specification function (the reference definition) and as a
    method with the loop, proved equal to it. */
module Hex {
  import opened Wrappers

  type byte = b: int | 0 <= b < 256

  // ---------------------------------------------------------------------------
  // Characters and digit values

  predicate IsHexChar(c: char) {
    '0' <= c <= '9' || 'A' <= c <= 'F' || 'a' <= c <= 'f'
  }

  /** Every character is a hexadecimal digit; the empty string qualifies. */
  predicate AllHex(s: string) {
    forall i :: 0 <= i < |s| ==> IsHexChar(s[i])
  }

  predicate IsUpperHexChar(c: char) {
    '0' <= c <= '9' || 'A' <= c <= 'F'
  }

  predicate AllUpperHex(s: string) {
    forall i :: 0 <= i < |s| ==> IsUpperHexChar(s[i])
  }

  function DigitValue(c: char): (v: nat)
    requires IsHexChar(c)
    ensures v < 16
  {
    if '0' <= c <= '9' then c as int - '0' as int
    else if 'A' <= c <= 'F' then c as int - 'A' as int + 10
    else c as int - 'a' as int + 10
  }

  /** The upper-case digit for a value below 16. */
  function HexDigit(v: nat): (c: char)
    requires v < 16
    ensures IsUpperHexChar(c) && IsHexChar(c) && DigitValue(c) == v
  {
    if v < 10 then ('0' as int + v) as char else ('A' as int + v - 10) as char
  }

  function UpperChar(c: char): char {
    if 'a' <= c <= 'f' then (c as int - 32) as char else c
  }

  /** Upper-cases the hexadecimal letters a-f and leaves every other character alone. */
  function Upper(s: string): (r: string)
    ensures |r| == |s|
    ensures forall i :: 0 <= i < |s| ==> r[i] == UpperChar(s[i])
  {
    seq(|s|, i requires 0 <= i < |s| => UpperChar(s[i]))
  }

  lemma {:induction false} DigitOfValue(c: char)
    requires IsHexChar(c)
    ensures HexDigit(DigitValue(c)) == UpperChar(c)
  {
  }

  // ---------------------------------------------------------------------------
  // Scanning for hexadecimal text (BaseFunc.IsHex)

  /** The loop of BaseFunc.IsHex: stops at the first character that is not a
      hexadecimal digit. */
  method IsHex(s: string) returns (r: bool)
    ensures r <==> AllHex(s)
  {
    var i := 0;
    while i < |s|
      invariant 0 <= i <= |s|
      invariant forall j :: 0 <= j < i ==> IsHexChar(s[j])
    {
      var c := s[i];
      if c < '0' || ('9' < c < 'A') || ('F' < c < 'a') || c > 'f' {
        return false;
      }
      i := i + 1;
    }
    return true;
  }

  // ---------------------------------------------------------------------------
  // Numeric value of hexadecimal text

  function Pow16(n: nat): (p: nat)
    ensures p >= 1
  {
    if n == 0 then 1 else 16 * Pow16(n - 1)
  }

  /** The value of a hexadecimal digit string, most significant digit first. */
  function HexValue(s: string): nat
    requires AllHex(s)
  {
    if s == [] then 0 else 16 * HexValue(s[..|s| - 1]) + DigitValue(s[|s| - 1])
  }

  lemma {:induction false} HexValueBound(s: string)
    requires AllHex(s)
    ensures HexValue(s) < Pow16(|s|)
  {
    if s != [] {
      var p := s[..|s| - 1];
      HexValueBound(p);
      assert HexValue(p) + 1 <= Pow16(|p|);
      assert 16 * (HexValue(p) + 1) <= 16 * Pow16(|p|);
    }
  }

  /** Hexadecimal text is closed under concatenation and slicing. */
  lemma {:induction false} HexAppend(a: string, b: string)
    ensures AllHex(a + b) <==> AllHex(a) && AllHex(b)
    ensures AllUpperHex(a + b) <==> AllUpperHex(a) && AllUpperHex(b)
  {
    if AllHex(a) && AllHex(b) {
      forall i | 0 <= i < |a + b| ensures IsHexChar((a + b)[i]) {
        if i < |a| { assert (a + b)[i] == a[i]; } else { assert (a + b)[i] == b[i - |a|]; }
      }
    }
    if AllUpperHex(a) && AllUpperHex(b) {
      forall i | 0 <= i < |a + b| ensures IsUpperHexChar((a + b)[i]) {
        if i < |a| { assert (a + b)[i] == a[i]; } else { assert (a + b)[i] == b[i - |a|]; }
      }
    }
    if AllHex(a + b) {
      forall i | 0 <= i < |b| ensures IsHexChar(b[i]) { assert b[i] == (a + b)[|a| + i]; }
      forall i | 0 <= i < |a| ensures IsHexChar(a[i]) { assert a[i] == (a + b)[i]; }
    }
    if AllUpperHex(a + b) {
      forall i | 0 <= i < |b| ensures IsUpperHexChar(b[i]) { assert b[i] == (a + b)[|a| + i]; }
      forall i | 0 <= i < |a| ensures IsUpperHexChar(a[i]) { assert a[i] == (a + b)[i]; }
    }
  }

  lemma {:induction false} HexValueAppend(a: string, b: string)
    requires AllHex(a) && AllHex(b)
    ensures AllHex(a + b)
    ensures HexValue(a + b) == HexValue(a) * Pow16(|b|) + HexValue(b)
  {
    HexAppend(a, b);
    if b == [] {
      assert a + b == a;
    } else {
      var p, c := b[..|b| - 1], b[|b| - 1];
      assert b == p + [c];
      assert a + b == (a + p) + [c];
      HexAppend(a, p);
      HexValueAppend(a, p);
      HexValueSnoc(a + p, c);
      HexValueSnoc(p, c);
      assert Pow16(|b|) == 16 * Pow16(|p|);
      ShiftDigit(HexValue(a), Pow16(|p|), HexValue(p));
    }
  }

  /** One more digit multiplies the value by 16 and adds the digit. */
  lemma {:induction false} HexValueSnoc(p: string, c: char)
    requires AllHex(p + [c])
    ensures AllHex(p) && IsHexChar(c)
    ensures HexValue(p + [c]) == 16 * HexValue(p) + DigitValue(c)
  {
    var s := p + [c];
    assert s[..|s| - 1] == p && s[|s| - 1] == c;
    HexAppend(p, [c]);
  }

  /** Shifting a value by one more hexadecimal digit. */
  lemma {:induction false} ShiftDigit(x: int, p: int, y: int)
    ensures 16 * (x * p + y) == x * (16 * p) + 16 * y
  {
  }

  /** HexToInt / HexToInt64: Convert.ToInt32/ToInt64(s, 16) accepts values
      below 2 * half (half being 2^31 or 2^63) and gives those with the top
      bit set as negative numbers; an empty, non-hexadecimal or too wide
      input is the failure that BaseFunc.HexToInt and HexToInt64 report as the MinValue
      sentinel. */
  function HexToSigned(s: string, half: nat): (r: Option<int>)
    ensures r.Some? <==> s != [] && AllHex(s) && HexValue(s) < 2 * half
    ensures r.Some? && HexValue(s) < half ==> r.value == HexValue(s)
    ensures r.Some? && HexValue(s) >= half ==> r.value == HexValue(s) - 2 * half
    ensures r.Some? ==> -(half as int) <= r.value < half
  {
    if s == [] || !AllHex(s) then None
    else
      var v := HexValue(s);
      if v >= 2 * half then None
      else if v >= half then Some(v - 2 * half)
      else Some(v)
  }

  const Half32: nat := 0x8000_0000
  const Half64: nat := 0x8000_0000_0000_0000

  function HexToInt(s: string): Option<int> { HexToSigned(s, Half32) }

  function HexToInt64(s: string): Option<int> { HexToSigned(s, Half64) }

  /** HexToInt64 with its failure sentinel long.MinValue written out. */
  function HexToLong(s: string): int {
    match HexToInt64(s)
    case Some(v) => v
    case None => -(Half64 as int)
  }

  /** HexToLong(data + Zeros(k)), the base an extended address record sets
      (one appended digit for a segment, four for a linear address), written
      on the value of data: shifted by k digits, with ToInt64's negative upper
      half and its MinValue failure. */
  function ShiftedHexToLong(data: string, k: nat): int {
    if |data| + k == 0 || !AllHex(data) then -(Half64 as int)
    else
      var v := HexValue(data) * Pow16(k);
      if v >= 2 * Half64 then -(Half64 as int)
      else if v >= Half64 then v - 2 * Half64
      else v
  }

  /** ShiftedHexToLong is HexToLong of the text with the zero digits appended. */
  lemma {:induction false} ShiftedHexToLongText(data: string, k: nat)
    ensures ShiftedHexToLong(data, k) == HexToLong(data + Zeros(k))
  {
    ZerosValue(k);
    HexAppend(data, Zeros(k));
    if AllHex(data) {
      HexValueAppend(data, Zeros(k));
    }
  }

  /** HexToInt with its failure sentinel int.MinValue written out. */
  function HexToInt32(s: string): int {
    match HexToInt(s)
    case Some(v) => v
    case None => -(Half32 as int)
  }

  // ---------------------------------------------------------------------------
  // Rendering numbers as upper-case hexadecimal (ToString("X") and "X<w>")

  /** The minimal upper-case digits of n; "0" for zero. */
  function Digits(n: nat): (s: string)
    ensures |s| >= 1
  {
    if n < 16 then [HexDigit(n)] else Digits(n / 16) + [HexDigit(n % 16)]
  }

  function Zeros(k: nat): (s: string)
    ensures |s| == k
  {
    seq(k, _ => '0')
  }

  /** ToString("X<w>"): the digits of n, left-padded with '0' to at least w characters. */
  function Render(n: nat, w: nat): (s: string)
  {
    var d := Digits(n);
    if |d| < w then Zeros(w - |d|) + d else d
  }

  lemma {:induction false} DigitsFacts(n: nat)
    ensures AllHex(Digits(n)) && AllUpperHex(Digits(n))
    ensures HexValue(Digits(n)) == n
    decreases n
  {
    if n >= 16 {
      DigitsFacts(n / 16);
      var d := Digits(n / 16);
      var t := [HexDigit(n % 16)];
      HexValueAppend(d, t);
      assert Digits(n) == d + t;
      assert HexValue(t) == n % 16 by { assert t[..0] == []; }
    } else {
      assert Digits(n)[..0] == [];
    }
  }

  lemma {:induction false} DigitsLength(n: nat, w: nat)
    requires w >= 1 && n < Pow16(w)
    ensures |Digits(n)| <= w
    decreases w
  {
    if n >= 16 {
      assert w >= 2;
      assert n / 16 < Pow16(w - 1);
      DigitsLength(n / 16, w - 1);
    }
  }

  lemma {:induction false} ZerosValue(k: nat)
    ensures AllHex(Zeros(k)) && AllUpperHex(Zeros(k)) && HexValue(Zeros(k)) == 0
  {
    if k > 0 {
      assert Zeros(k)[..k - 1] == Zeros(k - 1);
      ZerosValue(k - 1);
    }
  }

  /** A rendered number is upper-case hexadecimal of at least w digits that
      decodes back to the number; it is exactly w digits when the number fits. */
  lemma {:induction false} RenderFacts(n: nat, w: nat)
    ensures AllHex(Render(n, w)) && AllUpperHex(Render(n, w))
    ensures HexValue(Render(n, w)) == n
    ensures |Render(n, w)| >= w
    ensures w >= 1 && n < Pow16(w) ==> |Render(n, w)| == w
  {
    DigitsFacts(n);
    var d := Digits(n);
    if |d| < w {
      ZerosValue(w - |d|);
      HexValueAppend(Zeros(w - |d|), d);
      HexAppend(Zeros(w - |d|), d);
    }
    if w >= 1 && n < Pow16(w) {
      DigitsLength(n, w);
    }
  }

  /** long.ToString("X"): the minimal digits, and the 64-bit two's
      complement for a negative value. */
  function LongText(n: int): (s: string)
    requires -(Half64 as int) <= n < Half64
    ensures HexToLong(s) == n
  {
    var m: nat := if n >= 0 then n else n + 2 * Half64;
    DigitsFacts(m);
    Digits(m)
  }

  /** Two-digit rendering of a byte, digit by digit. */
  lemma {:induction false} RenderByte(b: nat)
    requires b < 256
    ensures Render(b, 2) == [HexDigit(b / 16), HexDigit(b % 16)]
  {
    if b >= 16 {
      assert Digits(b / 16) == [HexDigit(b / 16)];
    } else {
      assert Zeros(1) == [HexDigit(0)];
    }
  }

  // ---------------------------------------------------------------------------
  // Bytes (HexToByteArray, Convert.ToHexString)

  function PairValue(s: string): (v: byte)
    requires |s| == 2 && AllHex(s)
  {
    assert s[..1][..0] == [];
    16 * DigitValue(s[0]) + DigitValue(s[1])
  }

  lemma {:induction false} PairValueIsHexValue(s: string)
    requires |s| == 2 && AllHex(s)
    ensures PairValue(s) == HexValue(s)
  {
    var h := s[..1];
    assert h[..0] == [] && h[0] == s[0];
    assert HexValue(h) == DigitValue(s[0]);
    assert s[..|s| - 1] == h;
  }

  /** Two characters per byte, first pair first. */
  function HexBytes(s: string): (r: seq<byte>)
    requires AllHex(s) && |s| % 2 == 0
    ensures |r| == |s| / 2
  {
    if s == [] then [] else HexBytes(s[..|s| - 2]) + [PairValue(s[|s| - 2..])]
  }

  /** A slice of hexadecimal text is hexadecimal. */
  lemma {:induction false} SliceHex(s: string, a: nat, b: nat)
    requires AllHex(s) && a <= b <= |s|
    ensures AllHex(s[a..b])
  {
    forall j | 0 <= j < b - a ensures IsHexChar(s[a..b][j]) {
      assert s[a..b][j] == s[a + j];
    }
  }

  /** Decoding two more characters of a prefix appends one byte. */
  lemma {:induction false} HexBytesSnoc(s: string, i: nat)
    requires AllHex(s) && i % 2 == 0 && i + 2 <= |s|
    ensures AllHex(s[..i]) && AllHex(s[..i + 2]) && AllHex(s[i..i + 2])
    ensures HexBytes(s[..i + 2]) == HexBytes(s[..i]) + [PairValue(s[i..i + 2])]
  {
    var t := s[..i + 2];
    assert forall k :: 0 <= k < i + 2 ==> t[k] == s[k];
    assert t[..i] == s[..i] && t[i..] == s[i..i + 2];
  }

  lemma {:induction false} HexBytesAt(s: string, i: nat)
    requires AllHex(s) && |s| % 2 == 0 && i < |s| / 2
    ensures HexBytes(s)[i] == PairValue(s[2 * i..2 * i + 2])
  {
    if i < |s| / 2 - 1 {
      var p := s[..|s| - 2];
      HexBytesAt(p, i);
      assert p[2 * i..2 * i + 2] == s[2 * i..2 * i + 2];
    }
  }

  /** Convert.ToHexString: two upper-case digits per byte. */
  function HexOfBytes(b: seq<byte>): (s: string)
    ensures |s| == 2 * |b|
  {
    if b == [] then []
    else
      RenderFacts(b[|b| - 1], 2);
      HexOfBytes(b[..|b| - 1]) + Render(b[|b| - 1], 2)
  }

  lemma {:induction false} HexOfBytesAppend(a: seq<byte>, b: seq<byte>)
    ensures HexOfBytes(a + b) == HexOfBytes(a) + HexOfBytes(b)
  {
    if b == [] {
      assert a + b == a;
    } else {
      var p, x := b[..|b| - 1], b[|b| - 1];
      assert b == p + [x];
      assert a + b == (a + p) + [x];
      HexOfBytesAppend(a, p);
      HexOfBytesSnoc(a + p, x);
      HexOfBytesSnoc(p, x);
      ConcatAssoc(HexOfBytes(a), HexOfBytes(p), Render(x, 2));
    }
  }

  /** One more byte adds its two digits at the end. */
  lemma {:induction false} HexOfBytesSnoc(p: seq<byte>, x: byte)
    ensures HexOfBytes(p + [x]) == HexOfBytes(p) + Render(x, 2)
  {
    var b := p + [x];
    assert b[..|b| - 1] == p;
  }

  lemma {:induction false} ConcatAssoc<T>(x: seq<T>, y: seq<T>, z: seq<T>)
    ensures x + (y + z) == (x + y) + z
  {
  }

  /** The three parts of a joined sequence, sliced back out. */
  lemma {:induction false} ThreeSlices<T>(pre: seq<T>, mid: seq<T>, post: seq<T>)
    ensures var d := pre + mid + post;
      |d| == |pre| + |mid| + |post| && d[..|pre|] == pre &&
      d[|pre|..|pre| + |mid|] == mid && d[|pre| + |mid|..] == post
  {
  }

  /** Overwriting the element after a head and a middle extends the middle
      by that element and drops it from the tail. */
  lemma {:induction false} OverwriteNext<T>(pre: seq<T>, mid: seq<T>, post: seq<T>, v: T)
    requires |post| >= 1
    ensures (pre + mid + post)[|pre| + |mid| := v] == pre + (mid + [v]) + post[1..]
  {
    var d := (pre + mid + post)[|pre| + |mid| := v];
    var e := pre + (mid + [v]) + post[1..];
    assert |d| == |e|;
    forall k | 0 <= k < |d| ensures d[k] == e[k] {
      if k < |pre| + |mid| {
      } else if k > |pre| + |mid| {
        assert d[k] == post[k - |pre| - |mid|] && e[k] == post[1..][k - |pre| - |mid| - 1];
      }
    }
  }

  /** The elements of a sequence with one more at the end. */
  lemma {:induction false} SnocElements<T>(pv: seq<T>, l: T, ls: seq<T>)
    requires ls == pv + [l]
    ensures |ls| == |pv| + 1 && ls[|pv|] == l
    ensures forall i :: 0 <= i < |pv| ==> ls[i] == pv[i]
  {
  }

  /** Three elements in front of a sequence, one at a time. */
  lemma {:induction false} ThreeCons<T>(a: T, b: T, c: T, rest: seq<T>)
    ensures [a, b, c] + rest == [a] + ([b] + ([c] + rest))
  {
  }

  /** A head in front of four joined fields, re-associated. */
  lemma {:induction false} HeadJoin<T>(h: seq<T>, a: seq<T>, b: seq<T>, c: seq<T>, d: seq<T>)
    ensures h + (a + b + c + d) == h + a + b + c + d
  {
    ConcatAssoc(h, a + b + c, d);
    ConcatAssoc(h, a + b, c);
    ConcatAssoc(h, a, b);
  }

  /** Decoding to bytes and re-encoding gives the input in upper case. */
  lemma {:induction false} PairRender(t: string)
    requires |t| == 2 && AllHex(t)
    ensures Render(PairValue(t), 2) == Upper(t)
  {
    var v := PairValue(t);
    RenderByte(v);
    DigitOfValue(t[0]);
    DigitOfValue(t[1]);
    assert v / 16 == DigitValue(t[0]) && v % 16 == DigitValue(t[1]);
  }

  lemma {:induction false} UpperAppend(a: string, b: string)
    ensures Upper(a + b) == Upper(a) + Upper(b)
  {
  }

  lemma {:induction false} HexOfHexBytes(s: string)
    requires AllHex(s) && |s| % 2 == 0
    ensures HexOfBytes(HexBytes(s)) == Upper(s)
  {
    if s != [] {
      var p := s[..|s| - 2];
      var t := s[|s| - 2..];
      assert s == p + t;
      HexAppend(p, t);
      var hb := HexBytes(s);
      assert hb == HexBytes(p) + [PairValue(t)];
      assert hb[..|hb| - 1] == HexBytes(p);
      assert HexOfBytes(hb) == HexOfBytes(HexBytes(p)) + Render(PairValue(t), 2);
      HexOfHexBytes(p);
      PairRender(t);
      UpperAppend(p, t);
    }
  }

  /** BaseFunc.HexToByteArray. A non-hexadecimal input gives an empty array;
      an odd-length hexadecimal input makes BaseFunc.HexToByteArray throw on its last
      two-character Substring, reported here as ok == false. */
  method HexToByteArray(s: string) returns (ok: bool, bytes: array<byte>)
    ensures ok <==> !AllHex(s) || |s| % 2 == 0
    ensures !AllHex(s) ==> bytes.Length == 0
    ensures ok && AllHex(s) ==> bytes[..] == HexBytes(s)
  {
    var hex := IsHex(s);
    if !hex {
      return true, new byte[0];
    }
    bytes := new byte[|s| / 2];
    var i := 0;
    while i < |s|
      invariant 0 <= i <= |s| && i % 2 == 0
      invariant i <= 2 * bytes.Length || |s| % 2 == 1
      invariant |s| % 2 == 0 ==> bytes[..i / 2] == HexBytes(s[..i])
    {
      if i + 2 > |s| {
        return false, bytes;
      }
      bytes[i / 2] := PairValue(s[i..i + 2]);
      assert s[..i + 2][..i] == s[..i];
      assert s[..i + 2][i..] == s[i..i + 2];
      i := i + 2;
    }
    assert s[..|s|] == s;
    ok := true;
  }

  // ---------------------------------------------------------------------------
  // Checksum (BaseFunc.HexCheckSumCalc with one checksum byte, no padding)

  /** Sum of the byte values of an even-length hexadecimal string. */
  function ByteSum(s: string): nat
    requires AllHex(s) && |s| % 2 == 0
  {
    if s == [] then 0 else ByteSum(s[..|s| - 2]) + PairValue(s[|s| - 2..])
  }

  datatype ChecksumFault =
    | OddLength   // Substring(i, 2) runs past the end of the text
    | ZeroSum     // two's complement of 0 renders as "0", too short for Substring(0, 2)

  /** The checksum byte as two upper-case digits. One's complement keeps the
      low byte of ~sum, two's complement the low byte of -sum (both rendered
      from the 64-bit value, so only the low byte survives). Non-hexadecimal
      text gives "". */
  function Checksum(s: string, ones: bool): Result<string, ChecksumFault>
  {
    if !AllHex(s) then Ok("")
    else if |s| % 2 == 1 then Err(OddLength)
    else
      var sum := ByteSum(s);
      if ones then Ok(Render(255 - sum % 256, 2))
      else if sum == 0 then Err(ZeroSum)
      else Ok(Render((256 - sum % 256) % 256, 2))
  }

  /** The checksum completes the byte sum: to 0xFF for one's complement and to
      0 (mod 256) for two's complement. */
  lemma {:induction false} ChecksumCompletes(s: string, ones: bool)
    requires AllHex(s) && |s| % 2 == 0
    requires Checksum(s, ones).Ok?
    ensures var c := Checksum(s, ones).value;
      |c| == 2 && AllHex(c) && AllUpperHex(c) &&
      (ByteSum(s) + HexValue(c)) % 256 == (if ones then 255 else 0)
  {
    var sum := ByteSum(s);
    var b := if ones then 255 - sum % 256 else (256 - sum % 256) % 256;
    assert Checksum(s, ones).value == Render(b, 2);
    RenderFacts(b, 2);
    ComplementByte(sum, ones);
  }

  lemma {:induction false} ComplementByte(sum: nat, ones: bool)
    ensures var b := if ones then 255 - sum % 256 else (256 - sum % 256) % 256;
      (sum + b) % 256 == (if ones then 255 else 0)
  {
    var q, m := sum / 256, sum % 256;
    assert sum == 256 * q + m;
    if ones {
      assert sum + (255 - m) == 256 * q + 255;
    } else if m == 0 {
      assert sum + 0 == 256 * q;
    } else {
      assert sum + (256 - m) == 256 * (q + 1);
    }
  }

  /** The failure cases of the checksum: never for one's complement of even
      hexadecimal text, always for two's complement of a zero sum. */
  lemma {:induction false} ChecksumFailures(s: string, ones: bool)
    ensures !AllHex(s) ==> Checksum(s, ones) == Ok("")
    ensures AllHex(s) && |s| % 2 == 1 ==> Checksum(s, ones) == Err(OddLength)
    ensures AllHex(s) && |s| % 2 == 0 ==>
      (Checksum(s, ones).Err? <==> !ones && ByteSum(s) == 0)
  {
  }

  /** A length made of an even part and the rest is even exactly when the rest is. */
  lemma {:induction false} EvenSplit(total: int, k: int, rest: int)
    requires total == k + rest && k % 2 == 0
    ensures total % 2 == 0 <==> rest % 2 == 0
  {
  }

  /** A checksum of hexadecimal text that succeeds was taken over whole bytes. */
  lemma {:induction false} ChecksumEven(s: string, ones: bool)
    requires AllHex(s) && Checksum(s, ones).Ok?
    ensures |s| % 2 == 0
  {
  }

  /** The loop of HexCheckSumCalc: sums the byte values two characters at a time. */
  method HexCheckSumCalc(s: string, ones: bool) returns (r: Result<string, ChecksumFault>)
    ensures r == Checksum(s, ones)
  {
    var hex := IsHex(s);
    if !hex {
      return Ok("");
    }
    var sum := 0;
    var i := 0;
    while i < |s|
      invariant 0 <= i <= |s| && i % 2 == 0
      invariant sum == ByteSum(s[..i])
    {
      if i + 2 > |s| {
        return Err(OddLength);
      }
      assert s[..i + 2][..i] == s[..i];
      assert s[..i + 2][i..] == s[i..i + 2];
      sum := sum + PairValue(s[i..i + 2]);
      i := i + 2;
    }
    assert s[..|s|] == s;
    if ones {
      r := Ok(Render(255 - sum % 256, 2));
    } else if sum == 0 {
      r := Err(ZeroSum);
    } else {
      r := Ok(Render((256 - sum % 256) % 256, 2));
    }
  }

  // ---------------------------------------------------------------------------
  // White space (BaseFunc.RemoveWhiteSpaces)

  /** Char.IsWhiteSpace: the Unicode White_Space characters. */
  predicate IsWhiteSpace(c: char) {
    ('\U{0009}' <= c <= '\U{000D}') || c == ' ' || c == '\U{0085}' || c == '\U{00A0}' ||
    c == '\U{1680}' || ('\U{2000}' <= c <= '\U{200A}') || c == '\U{2028}' || c == '\U{2029}' ||
    c == '\U{202F}' || c == '\U{205F}' || c == '\U{3000}'
  }

  /** The non-white-space characters of s, in their original order. */
  function NonWhite(s: string): string {
    if s == [] then []
    else if IsWhiteSpace(s[|s| - 1]) then NonWhite(s[..|s| - 1])
    else NonWhite(s[..|s| - 1]) + [s[|s| - 1]]
  }

  /** The result has no white space, a string without white space is kept as
      it is, and the removal is idempotent. */
  lemma {:induction false} NonWhiteFacts(s: string)
    ensures forall i :: 0 <= i < |NonWhite(s)| ==> !IsWhiteSpace(NonWhite(s)[i])
    ensures |NonWhite(s)| <= |s|
    ensures (forall i :: 0 <= i < |s| ==> !IsWhiteSpace(s[i])) ==> NonWhite(s) == s
  {
    if s != [] {
      var p := s[..|s| - 1];
      NonWhiteFacts(p);
      if (forall i :: 0 <= i < |s| ==> !IsWhiteSpace(s[i])) {
        assert forall i :: 0 <= i < |p| ==> !IsWhiteSpace(p[i]) by {
          forall i | 0 <= i < |p| ensures !IsWhiteSpace(p[i]) { assert p[i] == s[i]; }
        }
      }
    }
  }

  lemma {:induction false} NonWhiteIdempotent(s: string)
    ensures NonWhite(NonWhite(s)) == NonWhite(s)
  {
    NonWhiteFacts(s);
    NonWhiteFacts(NonWhite(s));
  }

  /** RemoveWhiteSpaces. BaseFunc.RemoveWhiteSpaces trims before filtering; trimming only
      removes white space, which the filter removes anyway. */
  method RemoveWhiteSpaces(s: string) returns (r: string)
    ensures r == NonWhite(s)
  {
    r := "";
    var i := 0;
    while i < |s|
      invariant 0 <= i <= |s|
      invariant r == NonWhite(s[..i])
    {
      assert s[..i + 1][..i] == s[..i];
      if !IsWhiteSpace(s[i]) {
        r := r + [s[i]];
      }
      i := i + 1;
    }
    assert s[..|s|] == s;
  }

  // ---------------------------------------------------------------------------
  // Splitting a line into records (BaseFunc.Split with keepDelimiter = true)

  datatype SplitState = SplitState(pieces: seq<string>, current: string)

  /** The state of Split's loop after reading s: the finished pieces and the
      piece being accumulated. */
  function SplitScan(s: string, d: char): SplitState {
    if s == [] then SplitState([], [])
    else
      var st := SplitScan(s[..|s| - 1], d);
      var c := s[|s| - 1];
      if c == d then
        if |st.current| > 0 then SplitState(st.pieces + [st.current], [c])
        else SplitState(st.pieces, [c])
      else SplitState(st.pieces, st.current + [c])
  }

  function Pieces(s: string, d: char): seq<string> {
    var st := SplitScan(s, d);
    if |st.current| > 0 then st.pieces + [st.current] else st.pieces
  }

  function Concat(ss: seq<string>): string {
    if ss == [] then [] else Concat(ss[..|ss| - 1]) + ss[|ss| - 1]
  }

  /** The delimiter occurs in p, if at all, only as its first character. */
  predicate DelimiterFirstOnly(p: string, d: char) {
    forall i :: 1 <= i < |p| ==> p[i] != d
  }

  predicate GoodPieces(ps: seq<string>, d: char) {
    forall k :: 0 <= k < |ps| ==> |ps[k]| > 0 && DelimiterFirstOnly(ps[k], d)
  }

  lemma {:induction false} SplitScanFacts(s: string, d: char)
    ensures var st := SplitScan(s, d);
      Concat(st.pieces) + st.current == s &&
      GoodPieces(st.pieces, d) && DelimiterFirstOnly(st.current, d)
  {
    if s != [] {
      var p, c := s[..|s| - 1], s[|s| - 1];
      assert s == p + [c];
      SplitScanFacts(p, d);
      var st := SplitScan(p, d);
      if c == d && |st.current| > 0 {
        ScanClosePiece(st.pieces, st.current, p, c, d);
      } else if c == d {
        ScanOpenPiece(st.pieces, st.current, p, c, d);
      } else {
        ScanExtendPiece(st.pieces, st.current, p, c, d);
      }
    }
  }

  /** A delimiter after a non-empty piece closes it and opens a new one. */
  lemma {:induction false} ScanClosePiece(ps: seq<string>, cur: string, p: string, c: char, d: char)
    requires Concat(ps) + cur == p && GoodPieces(ps, d) && DelimiterFirstOnly(cur, d)
    requires |cur| > 0 && c == d
    ensures Concat(ps + [cur]) + [c] == p + [c]
    ensures GoodPieces(ps + [cur], d) && DelimiterFirstOnly([c], d)
  {
    ConcatSnoc(ps, cur);
  }

  /** A delimiter with no piece open opens one. */
  lemma {:induction false} ScanOpenPiece(ps: seq<string>, cur: string, p: string, c: char, d: char)
    requires Concat(ps) + cur == p && |cur| == 0
    ensures Concat(ps) + [c] == p + [c] && DelimiterFirstOnly([c], d)
  {
    assert Concat(ps) + cur == Concat(ps);
  }

  /** Any other character extends the open piece. */
  lemma {:induction false} ScanExtendPiece(ps: seq<string>, cur: string, p: string, c: char, d: char)
    requires Concat(ps) + cur == p && DelimiterFirstOnly(cur, d) && c != d
    ensures Concat(ps) + (cur + [c]) == p + [c] && DelimiterFirstOnly(cur + [c], d)
  {
    ConcatAssoc(Concat(ps), cur, [c]);
  }

  /** Concat of one more piece appends that piece. */
  lemma {:induction false} ConcatSnoc(ps: seq<string>, x: string)
    ensures Concat(ps + [x]) == Concat(ps) + x
  {
    var qs := ps + [x];
    assert qs[..|qs| - 1] == ps;
  }

  /** Split keeps every character: the pieces are non-empty, concatenate back
      to the input, and a delimiter can only open a piece. */
  lemma {:induction false} PiecesFacts(s: string, d: char)
    ensures Concat(Pieces(s, d)) == s
    ensures forall k :: 0 <= k < |Pieces(s, d)| ==> |Pieces(s, d)[k]| > 0
    ensures forall k :: 0 <= k < |Pieces(s, d)| ==> DelimiterFirstOnly(Pieces(s, d)[k], d)
  {
    SplitScanFacts(s, d);
    var st := SplitScan(s, d);
    if |st.current| > 0 {
      var ps := st.pieces + [st.current];
      assert ps[..|ps| - 1] == st.pieces;
    }
  }

  /** The loop of Split with a single delimiter, keeping it at the head of each piece. */
  method Split(s: string, d: char) returns (result: seq<string>)
    ensures result == Pieces(s, d)
  {
    result := [];
    var sb := "";
    var i := 0;
    while i < |s|
      invariant 0 <= i <= |s|
      invariant SplitScan(s[..i], d) == SplitState(result, sb)
    {
      assert s[..i + 1][..i] == s[..i];
      var c := s[i];
      if c == d {
        if |sb| > 0 {
          result := result + [sb];
          sb := "";
        }
        sb := sb + [c];
      } else {
        sb := sb + [c];
      }
      i := i + 1;
    }
    assert s[..|s|] == s;
    if |sb| > 0 {
      result := result + [sb];
    }
  }
}
