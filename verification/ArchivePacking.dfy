/** Grouping a download's items, in order, into zip parts under three limits. */
module ArchivePacking {
  datatype Item = Item(publicId: string, bytes: nat)

  const ARCHIVE_MAX_FILES: nat := 1000
  const ARCHIVE_PART_MAX_BYTES: nat := 95 * 1024 * 1024
  const ARCHIVE_URL_MAX_LENGTH: nat := 12000
  const ARCHIVE_URL_BASE_ALLOWANCE: nat := 1000

  // ── Sizes ──

  /** How long encodeURIComponent makes one character: itself, or three for each of its UTF-8 bytes. */
  function EncodedCharLength(c: char): nat {
    if 'A' <= c <= 'Z' || 'a' <= c <= 'z' || '0' <= c <= '9' || c in "-_.!~*'()" then 1
    else if c < '\U{80}' then 3
    else if c < '\U{800}' then 6
    else if c < '\U{10000}' then 9
    else 12
  }

  function EncodedLength(s: string): nat {
    if s == "" then 0 else EncodedCharLength(s[0]) + EncodedLength(s[1..])
  }

  /** `&public_ids%5B%5D=` and the encoded id. */
  function QueryLength(publicId: string): nat {
    |"&public_ids%5B%5D="| + EncodedLength(publicId)
  }

  function Bytes(items: seq<Item>): nat {
    if items == [] then 0 else Bytes(items[..|items| - 1]) + items[|items| - 1].bytes
  }

  function UrlLength(items: seq<Item>): nat {
    if items == [] then ARCHIVE_URL_BASE_ALLOWANCE
    else UrlLength(items[..|items| - 1]) + QueryLength(items[|items| - 1].publicId)
  }

  predicate Fits(part: seq<Item>) {
    |part| <= ARCHIVE_MAX_FILES && Bytes(part) <= ARCHIVE_PART_MAX_BYTES && UrlLength(part) <= ARCHIVE_URL_MAX_LENGTH
  }

  /** A part is within every limit, or one item on its own. */
  predicate Allowed(part: seq<Item>) {
    |part| <= 1 || Fits(part)
  }

  lemma {:induction false} SizesAdd(a: seq<Item>, b: seq<Item>)
    ensures Bytes(a + b) == Bytes(a) + Bytes(b)
    ensures UrlLength(a + b) == UrlLength(a) + UrlLength(b) - ARCHIVE_URL_BASE_ALLOWANCE
  {
    if b == [] {
      assert a + b == a;
    } else {
      SizesAdd(a, b[..|b| - 1]);
      assert (a + b)[..|a + b| - 1] == a + b[..|b| - 1];
    }
  }

  lemma {:induction false} UrlIsAtLeastItsBase(items: seq<Item>)
    ensures UrlLength(items) >= ARCHIVE_URL_BASE_ALLOWANCE
  {
    if items != [] {
      UrlIsAtLeastItsBase(items[..|items| - 1]);
    }
  }

  /** Any stretch of a part that fits, fits. */
  lemma {:induction false} PieceFits(a: seq<Item>, piece: seq<Item>, b: seq<Item>)
    requires Fits(a + piece + b)
    ensures Fits(piece)
  {
    SizesAdd(a, piece);
    SizesAdd(a + piece, b);
    UrlIsAtLeastItsBase(a);
    UrlIsAtLeastItsBase(b);
  }

  // ── Packing ──

  /** The item joins the last part if it still fits there. */
  function Place(parts: seq<seq<Item>>, item: Item): seq<seq<Item>> {
    if parts != [] && Fits(parts[|parts| - 1] + [item]) then parts[..|parts| - 1] + [parts[|parts| - 1] + [item]]
    else parts + [[item]]
  }

  /** The parts of the first n items. */
  function Packed(items: seq<Item>, n: nat): seq<seq<Item>>
    requires n <= |items|
  {
    if n == 0 then [] else Place(Packed(items, n - 1), items[n - 1])
  }

  /** The finished parts, and the one being filled if it holds anything yet. */
  function WithCurrent(parts: seq<seq<Item>>, current: seq<Item>): seq<seq<Item>> {
    if current == [] then parts else parts + [current]
  }

  lemma {:induction false} PlaceNext(parts: seq<seq<Item>>, current: seq<Item>, item: Item)
    requires current == [] ==> parts == []
    ensures Place(WithCurrent(parts, current), item) ==
            if current != [] && !Fits(current + [item]) then WithCurrent(parts + [current], [item])
            else WithCurrent(parts, current + [item])
  {
    if current != [] {
      var all := parts + [current];
      assert all[|all| - 1] == current && all[..|all| - 1] == parts;
    } else {
      assert current + [item] == [item];
    }
  }

  lemma {:induction false} SizesOfNext(current: seq<Item>, item: Item)
    ensures Bytes(current + [item]) == Bytes(current) + item.bytes
    ensures UrlLength(current + [item]) == UrlLength(current) + QueryLength(item.publicId)
    ensures Fits(current + [item]) <==>
              && |current| < ARCHIVE_MAX_FILES
              && Bytes(current) + item.bytes <= ARCHIVE_PART_MAX_BYTES
              && UrlLength(current) + QueryLength(item.publicId) <= ARCHIVE_URL_MAX_LENGTH
  {
    assert (current + [item])[..|current|] == current;
  }

  method PackArchiveParts(items: seq<Item>) returns (parts: seq<seq<Item>>)
    ensures parts == Packed(items, |items|)
  {
    parts := [];
    var current: seq<Item> := [];
    var bytes, urlLength := 0, ARCHIVE_URL_BASE_ALLOWANCE;
    for n := 0 to |items|
      invariant Packed(items, n) == WithCurrent(parts, current)
      invariant current == [] ==> parts == []
      invariant bytes == Bytes(current) && urlLength == UrlLength(current)
    {
      var item := items[n];
      PlaceNext(parts, current, item);
      SizesOfNext(current, item);
      SizesOfNext([], item);
      var itemUrlLength := QueryLength(item.publicId);
      var full := |current| >= ARCHIVE_MAX_FILES || bytes + item.bytes > ARCHIVE_PART_MAX_BYTES
                  || urlLength + itemUrlLength > ARCHIVE_URL_MAX_LENGTH;
      if full && |current| > 0 {
        parts := parts + [current];
        current := [];
        bytes, urlLength := 0, ARCHIVE_URL_BASE_ALLOWANCE;
      }
      current := current + [item];
      bytes, urlLength := bytes + item.bytes, urlLength + itemUrlLength;
    }
    if |current| > 0 {
      parts := parts + [current];
    }
  }

  // ── What the parts are ──

  predicate EndsWith(items: seq<Item>, last: seq<Item>) {
    |last| <= |items| && items[|items| - |last|..] == last
  }

  /** A split of the items, in order, into parts each within the limits or one
      item on its own: the items end with the last part, and the rest is split. */
  predicate IsSplit(parts: seq<seq<Item>>, items: seq<Item>)
    decreases |parts|
  {
    if parts == [] then items == []
    else
      var last := parts[|parts| - 1];
      Allowed(last) && EndsWith(items, last) && IsSplit(parts[..|parts| - 1], items[..|items| - |last|])
  }

  function Concat(parts: seq<seq<Item>>): seq<Item> {
    if parts == [] then [] else Concat(parts[..|parts| - 1]) + parts[|parts| - 1]
  }

  predicate AllAllowed(parts: seq<seq<Item>>) {
    forall p :: 0 <= p < |parts| ==> Allowed(parts[p])
  }

  lemma {:induction false} AllowedButLast(parts: seq<seq<Item>>)
    requires parts != []
    ensures AllAllowed(parts) <==> AllAllowed(parts[..|parts| - 1]) && Allowed(parts[|parts| - 1])
  {
    assert parts == parts[..|parts| - 1] + [parts[|parts| - 1]];
  }

  lemma {:induction false} EndsWithExactly(items: seq<Item>, front: seq<Item>, last: seq<Item>)
    ensures front + last == items <==> EndsWith(items, last) && items[..|items| - |last|] == front
  {
    if EndsWith(items, last) {
      assert items == items[..|items| - |last|] + last;
    }
  }

  /** A split is exactly allowed parts that put one after the other give the items. */
  lemma {:induction false} SplitExactly(parts: seq<seq<Item>>, items: seq<Item>)
    ensures IsSplit(parts, items) <==> Concat(parts) == items && AllAllowed(parts)
    decreases |parts|
  {
    if parts != [] {
      var front, last := parts[..|parts| - 1], parts[|parts| - 1];
      AllowedButLast(parts);
      EndsWithExactly(items, Concat(front), last);
      if EndsWith(items, last) {
        SplitExactly(front, items[..|items| - |last|]);
      }
    }
  }

  lemma {:induction false} TakeNext(items: seq<Item>, n: nat)
    requires 0 < n <= |items|
    ensures items[..n - 1] + [items[n - 1]] == items[..n]
  {
  }

  lemma {:induction false} TakeTake(items: seq<Item>, n: nat, k: nat)
    requires k <= n <= |items|
    ensures items[..n][..k] == items[..k]
  {
  }

  lemma {:induction false} PlaceKeepsSplit(parts: seq<seq<Item>>, items: seq<Item>, item: Item)
    requires IsSplit(parts, items)
    ensures IsSplit(Place(parts, item), items + [item])
  {
    if parts != [] && Fits(parts[|parts| - 1] + [item]) {
      JoinLast(parts, items, item);
    } else {
      assert (parts + [[item]])[..|parts|] == parts;
      assert (items + [item])[..|items|] == items;
    }
  }

  lemma {:induction false} JoinLast(parts: seq<seq<Item>>, items: seq<Item>, item: Item)
    requires parts != [] && IsSplit(parts, items) && Fits(parts[|parts| - 1] + [item])
    ensures IsSplit(parts[..|parts| - 1] + [parts[|parts| - 1] + [item]], items + [item])
  {
    var front, last := parts[..|parts| - 1], parts[|parts| - 1];
    assert EndsWith(items + [item], last + [item]);
    assert (front + [last + [item]])[..|front|] == front;
    assert (items + [item])[..|items| - |last|] == items[..|items| - |last|];
  }

  /** The parts hold every item once, in order. */
  lemma {:induction false} PackedIsASplit(items: seq<Item>, n: nat)
    requires n <= |items|
    ensures IsSplit(Packed(items, n), items[..n])
  {
    if n > 0 {
      TakeNext(items, n);
      PackedIsASplit(items, n - 1);
      PlaceKeepsSplit(Packed(items, n - 1), items[..n - 1], items[n - 1]);
    }
  }

  /** No part is empty. */
  lemma {:induction false} NoPartIsEmpty(items: seq<Item>, n: nat, p: nat)
    requires n <= |items| && p < |Packed(items, n)|
    ensures Packed(items, n)[p] != []
  {
    if n > 0 && p < |Packed(items, n - 1)| {
      NoPartIsEmpty(items, n - 1, p);
    }
  }

  /** An item over a limit by itself is alone in its part, in any allowed part. */
  lemma {:induction false} OversizeIsAlone(part: seq<Item>, k: nat)
    requires Allowed(part) && k < |part| && !Fits([part[k]])
    ensures part == [part[k]]
  {
    assert part == part[..k] + [part[k]] + part[k + 1..];
    if Fits(part) {
      PieceFits(part[..k], [part[k]], part[k + 1..]);
    }
  }

  // ── No split has fewer parts ──

  /** `parts` is no further along than `split`: fewer parts, or as many and no longer a last one. */
  predicate NotBehind(parts: seq<seq<Item>>, split: seq<seq<Item>>) {
    && |parts| <= |split|
    && (parts != [] && |parts| == |split| ==> |parts[|parts| - 1]| <= |split[|split| - 1]|)
  }

  /** Placing one more item starts a part, or lengthens the last by one. */
  lemma {:induction false} PlaceLengths(parts: seq<seq<Item>>, item: Item)
    ensures var placed := Place(parts, item);
            && placed != []
            && if parts != [] && Fits(parts[|parts| - 1] + [item])
               then |placed| == |parts| && |placed[|placed| - 1]| == |parts[|parts| - 1]| + 1
               else |placed| == |parts| + 1 && |placed[|placed| - 1]| == 1
  {
  }

  /** The last part shortened by its last item. */
  function Shortened(split: seq<seq<Item>>): seq<seq<Item>>
    requires split != [] && split[|split| - 1] != []
  {
    split[..|split| - 1] + [split[|split| - 1][..|split[|split| - 1]| - 1]]
  }

  lemma {:induction false} ShortenedIsASplit(split: seq<seq<Item>>, items: seq<Item>, item: Item)
    requires split != [] && |split[|split| - 1]| > 1 && IsSplit(split, items + [item])
    ensures IsSplit(Shortened(split), items)
  {
    var last := split[|split| - 1];
    var cut := last[..|last| - 1];
    assert last == [] + cut + [item];
    PieceFits([], cut, [item]);
    assert EndsWith(items, cut);
    assert Shortened(split)[..|split| - 1] == split[..|split| - 1];
    assert items[..|items| - |cut|] == (items + [item])[..|items| + 1 - |last|];
  }

  /** Packed is never behind any split of the same items. */
  lemma {:induction false} PackedStaysAhead(items: seq<Item>, n: nat, split: seq<seq<Item>>)
    requires n <= |items| && IsSplit(split, items[..n])
    ensures NotBehind(Packed(items, n), split)
    decreases n, |split|
  {
    if n > 0 && split != [] {
      if |split[|split| - 1]| <= 1 {
        var k := FrontIsASplit(items, n, split);
        PackedStaysAhead(items, k, split[..|split| - 1]);
        AheadOfOneMorePart(items, n, split);
      } else {
        TakeNext(items, n);
        ShortenedIsASplit(split, items[..n - 1], items[n - 1]);
        PackedStaysAhead(items, n - 1, Shortened(split));
        AheadOfOneMoreItem(items, n, split);
      }
    }
  }

  lemma {:induction false} FrontIsASplit(items: seq<Item>, n: nat, split: seq<seq<Item>>) returns (k: nat)
    requires n <= |items| && split != [] && IsSplit(split, items[..n])
    ensures k + |split[|split| - 1]| == n && IsSplit(split[..|split| - 1], items[..k])
  {
    k := n - |split[|split| - 1]|;
    TakeTake(items, n, k);
  }

  lemma {:induction false} AheadOfOneMorePart(items: seq<Item>, n: nat, split: seq<seq<Item>>)
    requires 0 < n <= |items| && split != [] && |split[|split| - 1]| <= 1
    requires NotBehind(Packed(items, n - |split[|split| - 1]|), split[..|split| - 1])
    ensures NotBehind(Packed(items, n), split)
  {
    PlaceLengths(Packed(items, n - 1), items[n - 1]);
  }

  lemma {:induction false} AheadOfOneMoreItem(items: seq<Item>, n: nat, split: seq<seq<Item>>)
    requires 0 < n <= |items| && IsSplit(split, items[..n])
    requires split != [] && |split[|split| - 1]| > 1 && NotBehind(Packed(items, n - 1), Shortened(split))
    ensures NotBehind(Packed(items, n), split)
  {
    var before := Packed(items, n - 1);
    PlaceLengths(before, items[n - 1]);
    if |before| == |split| {
      PackedIsASplit(items, n - 1);
      TakeNext(items, n);
      NextFits(items[..n - 1], items[n - 1], before[|before| - 1], split[|split| - 1]);
    }
  }

  /** Where the packed last part is shorter than a part that fits, the next item still fits it. */
  lemma {:induction false} NextFits(items: seq<Item>, item: Item, packed: seq<Item>, last: seq<Item>)
    requires EndsWith(items, packed) && EndsWith(items + [item], last) && |packed| < |last| && Fits(last)
    ensures Fits(packed + [item])
  {
    var all := items + [item];
    assert all[|all| - |packed| - 1..] == packed + [item];
    assert last == all[|all| - |last|..|all| - |packed| - 1] + (packed + [item]) + [];
    PieceFits(all[|all| - |last|..|all| - |packed| - 1], packed + [item], []);
  }

  /** No order-preserving split within the limits, oversize items alone, has fewer parts. */
  lemma {:induction false} PackingIsOptimal(items: seq<Item>, split: seq<seq<Item>>)
    requires Concat(split) == items && AllAllowed(split)
    ensures |Packed(items, |items|)| <= |split|
  {
    SplitExactly(split, items);
    assert items[..|items|] == items;
    PackedStaysAhead(items, |items|, split);
  }
}
