/** `Util::uuidv4`: sixteen bytes become a version 4 UUID string (RFC 4122
    section 4.4). The random source is an input: the model formats whatever
    sixteen bytes it is given. */
module Uuid {
  import opened Wrappers

  /** The high and low nibble of a byte, as `bin2hex` writes them. */
  function Hi(b: bv8): (n: nat)
    ensures n < 16
  {
    (b >> 4) as int
  }

  function Lo(b: bv8): (n: nat)
    ensures n < 16
  {
    (b & 0x0f) as int
  }

  /** The byte whose nibbles are `hi` and `lo`. */
  function Combine(hi: nat, lo: nat): (b: bv8)
    requires hi < 16 && lo < 16
    ensures Hi(b) == hi && Lo(b) == lo
  {
    ((hi as bv8) << 4) | (lo as bv8)
  }

  lemma CombineNibbles(b: bv8)
    ensures Combine(Hi(b), Lo(b)) == b
  {
  }

  /** The lower-case hexadecimal digit `bin2hex` uses for a nibble. */
  function HexDigit(n: nat): (c: char)
    requires n < 16
    ensures IsHex(c)
  {
    if n < 10 then ('0' as int + n) as char else ('a' as int + n - 10) as char
  }

  predicate IsHex(c: char)
  {
    '0' <= c <= '9' || 'a' <= c <= 'f'
  }

  function HexValue(c: char): (n: nat)
    requires IsHex(c)
    ensures n < 16 && HexDigit(n) == c
  {
    if c <= '9' then c as int - '0' as int else c as int - 'a' as int + 10
  }

  lemma HexDigitValue(n: nat)
    requires n < 16
    ensures HexValue(HexDigit(n)) == n
  {
  }

  /** Nibble `k` of `data`, counting from the high nibble of the first byte. */
  function Nibble(data: seq<bv8>, k: nat): nat
    requires k < 2 * |data|
  {
    if k % 2 == 0 then Hi(data[k / 2]) else Lo(data[k / 2])
  }

  /** `bin2hex`: two lower-case hex digits per byte, high nibble first. */
  function BinToHex(data: seq<bv8>): (r: string)
    ensures |r| == 2 * |data|
    ensures forall k :: 0 <= k < |r| ==> r[k] == HexDigit(Nibble(data, k))
  {
    if |data| == 0 then ""
    else
      var rest := BinToHex(data[1..]);
      var r := [HexDigit(Hi(data[0])), HexDigit(Lo(data[0]))] + rest;
      assert forall k :: 2 <= k < |r| ==> r[k] == rest[k - 2] && Nibble(data, k) == Nibble(data[1..], k - 2);
      r
  }

  /** The inverse of `bin2hex` on lower-case hex text of even length. */
  function HexToBin(h: string): (r: seq<bv8>)
    requires |h| % 2 == 0 && forall i :: 0 <= i < |h| ==> IsHex(h[i])
    ensures |r| == |h| / 2
  {
    if |h| == 0 then []
    else [Combine(HexValue(h[0]), HexValue(h[1]))] + HexToBin(h[2..])
  }

  lemma {:induction false} HexToBinToHex(data: seq<bv8>)
    ensures HexToBin(BinToHex(data)) == data
  {
    if |data| > 0 {
      var h := BinToHex(data);
      assert h[2..] == BinToHex(data[1..]);
      HexToBinToHex(data[1..]);
      CombineNibbles(data[0]);
    }
  }

  lemma {:induction false} BinToHexToBin(h: string)
    requires |h| % 2 == 0 && forall i :: 0 <= i < |h| ==> IsHex(h[i])
    ensures BinToHex(HexToBin(h)) == h
  {
    if |h| > 0 {
      BinToHexToBin(h[2..]);
      var r := BinToHex(HexToBin(h));
      assert r[0] == h[0] && r[1] == h[1];
      assert r[2..] == h[2..];
      assert r == r[..2] + r[2..] && h == h[..2] + h[2..];
    }
  }

  /** `str_split(s, 4)`: consecutive four-character pieces, the last one
      possibly shorter. */
  function Quads(s: string): (r: seq<string>)
    ensures |s| % 4 == 0 && |s| > 0 ==> |r| == |s| / 4
    ensures |s| % 4 == 0 ==> forall i :: 0 <= i < |s| / 4 ==> r[i] == s[4 * i..4 * i + 4]
    decreases |s|
  {
    if |s| <= 4 then [s]
    else
      var rest := Quads(s[4..]);
      assert |s| % 4 == 0 ==> forall i :: 1 <= i < |s| / 4 ==> rest[i - 1] == s[4 * i..4 * i + 4];
      [s[..4]] + rest
  }

  /** `vsprintf('%s%s-%s-%s-%s-%s%s%s', parts)`. */
  function Layout(parts: seq<string>): string
    requires |parts| == 8
  {
    parts[0] + parts[1] + "-" + parts[2] + "-" + parts[3] + "-" + parts[4] + "-" + parts[5] + parts[6] + parts[7]
  }

  /** The positions of the four dashes. */
  predicate IsDashPos(i: int)
  {
    i == 8 || i == 13 || i == 18 || i == 23
  }

  /** Where hex digit `k` of the 32 lands in the 36-character string. */
  function HexPos(k: nat): (i: nat)
    requires k < 32
    ensures i < 36 && !IsDashPos(i)
  {
    if k < 8 then k else if k < 12 then k + 1 else if k < 16 then k + 2 else if k < 20 then k + 3 else k + 4
  }

  /** Which hex digit sits at a non-dash position. */
  function DigitIndex(i: nat): (k: nat)
    requires i < 36 && !IsDashPos(i)
    ensures k < 32 && HexPos(k) == i
  {
    if i < 8 then i else if i < 13 then i - 1 else if i < 18 then i - 2 else if i < 23 then i - 3 else i - 4
  }

  /** The text between the dashes. */
  function Undash(s: string): (h: string)
    requires |s| == 36
    ensures |h| == 32
    ensures forall k :: 0 <= k < 32 ==> h[k] == s[HexPos(k)]
  {
    s[..8] + s[9..13] + s[14..18] + s[19..23] + s[24..]
  }

  lemma LayoutQuads(h: string)
    requires |h| == 32
    ensures var s := Layout(Quads(h));
      && |s| == 36
      && (forall i :: 0 <= i < 36 && IsDashPos(i) ==> s[i] == '-')
      && (forall k :: 0 <= k < 32 ==> s[HexPos(k)] == h[k])
  {
    var q := Quads(h);
    assert q[0] + q[1] == h[..8];
    assert q[5] + q[6] + q[7] == h[20..];
    var s := Layout(q);
    assert s == h[..8] + "-" + h[8..12] + "-" + h[12..16] + "-" + h[16..20] + "-" + h[20..];
  }

  /** Lines 24 and 26: the version nibble becomes 4 and the variant bits 10. */
  function Stamp(data: seq<bv8>): (r: seq<bv8>)
    requires |data| == 16
    ensures |r| == 16
    ensures forall i :: 0 <= i < 16 && i != 6 && i != 8 ==> r[i] == data[i]
    ensures Hi(r[6]) == 4 && Lo(r[6]) == Lo(data[6])
    ensures Hi(r[8]) / 4 == 2 && Hi(r[8]) % 4 == Hi(data[8]) % 4 && Lo(r[8]) == Lo(data[8])
  {
    data[6 := (data[6] & 0x0f) | 0x40][8 := (data[8] & 0x3f) | 0x80]
  }

  /** A lower-case version 4 UUID string of the RFC 4122 variant. */
  predicate IsUuidV4(s: string)
  {
    && |s| == 36
    && (forall i :: 0 <= i < 36 ==> if IsDashPos(i) then s[i] == '-' else IsHex(s[i]))
    && s[14] == '4'
    && s[19] in "89ab"
  }

  /** `Util::uuidv4` on the bytes `random_bytes(16)` returned. */
  function Uuidv4(data: seq<bv8>): (r: string)
    requires |data| == 16
    ensures IsUuidV4(r)
    ensures forall k :: 0 <= k < 32 ==> r[HexPos(k)] == HexDigit(Nibble(Stamp(data), k))
    ensures forall k :: 0 <= k < 32 && k != 12 && k != 16 ==> r[HexPos(k)] == HexDigit(Nibble(data, k))
  {
    var h := BinToHex(Stamp(data));
    LayoutQuads(h);
    StampNibbles(data);
    VariantDigit(Nibble(Stamp(data), 16));
    var r := Layout(Quads(h));
    assert forall i :: 0 <= i < 36 && !IsDashPos(i) ==> r[i] == r[HexPos(DigitIndex(i))];
    r
  }

  /** The stamp in nibble terms: nibble 12 becomes 4, nibble 16 gets its top
      bits set to 10, every other nibble is kept. */
  lemma StampNibbles(data: seq<bv8>)
    requires |data| == 16
    ensures Nibble(Stamp(data), 12) == 4
    ensures Nibble(Stamp(data), 16) / 4 == 2
    ensures forall k :: 0 <= k < 32 && k != 12 && k != 16 ==> Nibble(Stamp(data), k) == Nibble(data, k)
  {
    var t := Stamp(data);
    forall k | 0 <= k < 32 && k != 12 && k != 16
      ensures Nibble(t, k) == Nibble(data, k)
    {
      if k / 2 == 6 || k / 2 == 8 {
        assert k == 13 || k == 17;
      }
    }
  }

  lemma VariantDigit(n: nat)
    requires n < 16 && n / 4 == 2
    ensures HexDigit(n) in "89ab"
  {
    assert HexDigit(n) == "89ab"[n - 8];
  }

  /** Reads the bytes back out of a UUID string. */
  function Parse(s: string): Option<seq<bv8>>
  {
    if IsUuidV4(s) then Some(HexToBin(Undash(s))) else None
  }

  /** The string determines the bytes, up to the bits the stamp overwrites. */
  lemma ParseUuid(data: seq<bv8>)
    requires |data| == 16
    ensures Parse(Uuidv4(data)) == Some(Stamp(data))
  {
    var s := Uuidv4(data);
    var h := BinToHex(Stamp(data));
    assert Undash(s) == h;
    HexToBinToHex(Stamp(data));
  }

  /** Every version 4 string is the result of some sixteen bytes: the one
      `Parse` reads from it. */
  lemma UuidParse(s: string)
    requires IsUuidV4(s)
    ensures Parse(s).Some? && |Parse(s).value| == 16
    ensures Uuidv4(Parse(s).value) == s
  {
    var h := Undash(s);
    var data := HexToBin(h);
    BinToHexToBin(h);
    StampedBytes(data, s);
    var r := Uuidv4(data);
    assert forall k :: 0 <= k < 32 ==> r[HexPos(k)] == h[k];
    DashesAndDigits(r, s);
  }

  /** Bytes read from a version 4 string already carry the stamp. */
  lemma StampedBytes(data: seq<bv8>, s: string)
    requires IsUuidV4(s) && |data| == 16 && BinToHex(data) == Undash(s)
    ensures Stamp(data) == data
  {
    var h := BinToHex(data);
    assert h[12] == s[HexPos(12)] == '4';
    assert Nibble(data, 12) == 4;
    assert h[16] == s[HexPos(16)];
    VariantNibble(Nibble(data, 16), h[16]);
    StampKeeps(data);
  }

  lemma VariantNibble(n: nat, c: char)
    requires n < 16 && HexDigit(n) == c && c in "89ab"
    ensures n / 4 == 2
  {
  }

  /** Bytes whose version nibble is 4 and whose variant bits are 10 are
      left alone by the stamp. */
  lemma StampKeeps(data: seq<bv8>)
    requires |data| == 16 && Hi(data[6]) == 4 && Hi(data[8]) / 4 == 2
    ensures Stamp(data) == data
  {
    var t := Stamp(data);
    CombineNibbles(t[6]);
    CombineNibbles(data[6]);
    CombineNibbles(t[8]);
    CombineNibbles(data[8]);
    assert t[6] == data[6] && t[8] == data[8];
  }

  /** Two strings of the same shape that agree between the dashes are equal. */
  lemma DashesAndDigits(r: string, s: string)
    requires IsUuidV4(r) && IsUuidV4(s)
    requires forall k :: 0 <= k < 32 ==> r[HexPos(k)] == s[HexPos(k)]
    ensures r == s
  {
    forall i | 0 <= i < 36 && !IsDashPos(i)
      ensures r[i] == s[i]
    {
      assert HexPos(DigitIndex(i)) == i;
    }
  }

  /** Formatting stamped bytes again changes nothing. */
  lemma StampIdempotent(data: seq<bv8>)
    requires |data| == 16
    ensures Stamp(Stamp(data)) == Stamp(data)
  {
  }
}
