/** encodeURIComponent, by section 2.1 of RFC 3986 over UTF-8, and how long it
    makes a download's URL. */
module UriEncoding {
  import opened ArchivePacking

  /** A character's UTF-8 bytes, as section 3 of RFC 3629 lays them out. */
  function Utf8(c: char): seq<int> {
    var n := c as int;
    if n < 0x80 then [n]
    else if n < 0x800 then [0xC0 + n / 64, 0x80 + n % 64]
    else if n < 0x1_0000 then [0xE0 + n / 4096, 0x80 + n / 64 % 64, 0x80 + n % 64]
    else [0xF0 + n / 262_144, 0x80 + n / 4096 % 64, 0x80 + n / 64 % 64, 0x80 + n % 64]
  }

  /** The bits the first byte gives, and those each further byte adds. */
  function FirstBits(b: int): int {
    if b < 0x80 then b else if b < 0xE0 then b - 0xC0 else if b < 0xF0 then b - 0xE0 else b - 0xF0
  }

  function Bits(bytes: seq<int>): int
    requires bytes != []
  {
    if |bytes| == 1 then FirstBits(bytes[0]) else Bits(bytes[..|bytes| - 1]) * 64 + bytes[|bytes| - 1] - 0x80
  }

  /** The bytes are bytes, the first of them says how many follow, and they read back as the character. */
  lemma {:induction false} Utf8ReadsBack(c: char)
    ensures var bytes := Utf8(c);
            && 0 < |bytes| <= 4 && (forall k :: 0 <= k < |bytes| ==> 0 <= bytes[k] < 0x100)
            && (forall k :: 1 <= k < |bytes| ==> 0x80 <= bytes[k] < 0xC0)
            && (|bytes| == 1 <==> bytes[0] < 0x80) && (|bytes| == 2 <==> 0xC0 <= bytes[0] < 0xE0)
            && (|bytes| == 3 <==> 0xE0 <= bytes[0] < 0xF0) && (|bytes| == 4 <==> 0xF0 <= bytes[0])
            && Bits(bytes) == c as int
  {
    var bytes, n := Utf8(c), c as int;
    assert n / 64 == n / 64 / 64 * 64 + n / 64 % 64 && n / 64 / 64 == n / 4096;
    assert n / 4096 == n / 4096 / 64 * 64 + n / 4096 % 64 && n / 4096 / 64 == n / 262_144;
    if |bytes| == 2 {
      assert bytes[..1] == [bytes[0]];
    } else if |bytes| == 3 {
      assert bytes[..2][..1] == [bytes[0]] && bytes[..2][1] == bytes[1];
      assert Bits(bytes[..2]) == n / 64;
    } else if |bytes| == 4 {
      assert bytes[..3][..2] == bytes[..2] && bytes[..2][..1] == [bytes[0]];
      assert bytes[..3][2] == bytes[2] && bytes[..2][1] == bytes[1];
      assert Bits(bytes[..2]) == n / 4096 && Bits(bytes[..3]) == n / 64;
    }
  }

  /** What is never escaped: letters, digits and - _ . ! ~ * ' ( ). */
  predicate IsUnreserved(c: char) {
    || 'a' <= c <= 'z' || 'A' <= c <= 'Z' || '0' <= c <= '9'
    || c in {'-', '_', '.', '!', '~', '*', '\'', '(', ')'}
  }

  function HexDigit(n: int): char
    requires 0 <= n < 16
  {
    if n < 10 then ('0' as int + n) as char else ('A' as int + n - 10) as char
  }

  function Percent(b: int): string
    requires 0 <= b < 0x100
  {
    ['%', HexDigit(b / 16), HexDigit(b % 16)]
  }

  function Percents(bytes: seq<int>): string
    requires forall k :: 0 <= k < |bytes| ==> 0 <= bytes[k] < 0x100
  {
    if bytes == [] then "" else Percent(bytes[0]) + Percents(bytes[1..])
  }

  function EncodeChar(c: char): string {
    Utf8ReadsBack(c);
    if IsUnreserved(c) then [c] else Percents(Utf8(c))
  }

  function Encode(s: string): string {
    if s == "" then "" else EncodeChar(s[0]) + Encode(s[1..])
  }

  lemma {:induction false} ThreeForEachByte(bytes: seq<int>)
    requires forall k :: 0 <= k < |bytes| ==> 0 <= bytes[k] < 0x100
    ensures |Percents(bytes)| == 3 * |bytes|
  {
    if bytes != [] {
      ThreeForEachByte(bytes[1..]);
    }
  }

  lemma {:induction false} CharLengthExactly(c: char)
    ensures EncodedCharLength(c) == |EncodeChar(c)|
  {
    Utf8ReadsBack(c);
    ThreeForEachByte(Utf8(c));
  }

  lemma {:induction false} LengthExactly(s: string)
    ensures EncodedLength(s) == |Encode(s)|
  {
    if s != "" {
      CharLengthExactly(s[0]);
      LengthExactly(s[1..]);
    }
  }

  /** The part of a download's URL that names its items. */
  function Query(items: seq<Item>): string {
    if items == [] then ""
    else Query(items[..|items| - 1]) + "&public_ids%5B%5D=" + Encode(items[|items| - 1].publicId)
  }

  /** The length a part is packed by is the length of the URL it gives, its base counted as 1,000. */
  lemma {:induction false} UrlLengthExactly(items: seq<Item>)
    ensures UrlLength(items) == 1000 + |Query(items)|
  {
    if items != [] {
      UrlLengthExactly(items[..|items| - 1]);
      LengthExactly(items[|items| - 1].publicId);
    }
  }

  /** A part's bytes are its items', added up. */
  lemma {:induction false} BytesOfOneMore(part: seq<Item>, item: Item)
    ensures Bytes([]) == 0 && Bytes(part + [item]) == Bytes(part) + item.bytes
  {
    assert (part + [item])[..|part|] == part;
  }

  /** A part within the limits holds at most 1,000 files and 95 MB, and its URL at most 12,000 characters. */
  lemma {:induction false} FitsExactly(part: seq<Item>)
    ensures Fits(part) <==> |part| <= 1000 && Bytes(part) <= 99_614_720 && 1000 + |Query(part)| <= 12_000
  {
    UrlLengthExactly(part);
  }
}
