/** Recursive length prefix, as trie nodes use it (Ethereum Yellow Paper, Appendix B). */
module Rlp {
  import opened Basics

  type Byte = x: int | 0 <= x < 256
  type Bytes = seq<Byte>

  function ToBigEndian(n: nat): (r: Bytes)
    ensures |r| > 0 <==> n > 0
    ensures n > 0 ==> r[0] != 0
  {
    if n == 0 then [] else ToBigEndian(n / 256) + [n % 256]
  }

  function FromBigEndian(b: Bytes): (n: nat) {
    if |b| == 0 then 0 else FromBigEndian(b[..|b| - 1]) * 256 + b[|b| - 1]
  }

  lemma {:induction false} BigEndianRoundTrip(n: nat)
    ensures FromBigEndian(ToBigEndian(n)) == n
  {
    if n > 0 {
      BigEndianRoundTrip(n / 256);
      var front := ToBigEndian(n / 256);
      assert ToBigEndian(n)[..|front|] == front;
    }
  }

  lemma {:induction false} BigEndianLength(n: nat, k: nat)
    requires n < Pow256(k)
    ensures |ToBigEndian(n)| <= k
    decreases k
  {
    if n > 0 {
      assert n / 256 < Pow256(k - 1);
      BigEndianLength(n / 256, k - 1);
    }
  }

  lemma {:induction false} LengthBytes(n: nat)
    requires n < TWO_64
    ensures |ToBigEndian(n)| <= 8
  {
    EightBytes();
    BigEndianLength(n, 8);
  }

  function LengthOf(n: nat): (l: Bytes)
    requires n < TWO_64
    ensures |l| <= 8 && FromBigEndian(l) == n && (n > 0 ==> |l| > 0 && l[0] != 0)
  {
    LengthBytes(n);
    BigEndianRoundTrip(n);
    ToBigEndian(n)
  }

  function EncodeValue(v: Bytes): (r: Bytes)
    requires |v| < TWO_64
  {
    if |v| == 0 then [0x80]
    else if |v| == 1 && v[0] < 0x80 then v
    else if |v| <= 55 then [0x80 + |v|] + v
    else [0xb7 + |LengthOf(|v|)|] + LengthOf(|v|) + v
  }

  function EncodeList(payload: Bytes): (r: Bytes)
    requires |payload| < TWO_64
  {
    if |payload| <= 55 then [0xc0 + |payload|] + payload
    else [0xf7 + |LengthOf(|payload|)|] + LengthOf(|payload|) + payload
  }

  datatype Info = Info(headerLen: nat, valueLen: nat)

  /** Header with an explicit length of `n` bytes: no leading zero, no length that fits a
      short header. */
  function LongInfo(b: Bytes, n: nat): (r: Option<Info>)
    requires n > 0
  {
    if |b| < 2 || b[1] == 0 || |b| < 1 + n then None
    else
      var len := FromBigEndian(b[1..1 + n]);
      if len <= 55 then None else Some(Info(1 + n, len))
  }

  function Header(b: Bytes): (r: Option<Info>) {
    if |b| == 0 then None
    else if b[0] < 0x80 then Some(Info(0, 1))
    else if b[0] <= 0xb7 then Some(Info(1, b[0] - 0x80))
    else if b[0] <= 0xbf then LongInfo(b, b[0] - 0xb7)
    else if b[0] <= 0xf7 then Some(Info(1, b[0] - 0xc0))
    else LongInfo(b, b[0] - 0xf7)
  }

  /** Header and payload length of the item at the front, if it is all there. */
  function PayloadInfo(b: Bytes): (r: Option<Info>)
    ensures r.Some? ==> 0 < r.value.headerLen + r.value.valueLen <= |b|
  {
    var h := Header(b);
    if h.Some? && h.value.headerLen + h.value.valueLen <= |b| then h else None
  }

  predicate IsList(b: Bytes) {
    |b| > 0 && b[0] >= 0xc0
  }

  predicate IsData(b: Bytes) {
    |b| > 0 && b[0] < 0xc0
  }

  predicate IsEmpty(b: Bytes) {
    |b| > 0 && (b[0] == 0xc0 || b[0] == 0x80)
  }

  function Size(b: Bytes): (n: nat) {
    if IsData(b) && PayloadInfo(b).Some? then PayloadInfo(b).value.valueLen else 0
  }

  /** Exactly one item. */
  predicate IsItem(b: Bytes) {
    PayloadInfo(b).Some? && PayloadInfo(b).value.headerLen + PayloadInfo(b).value.valueLen == |b|
  }

  function Payload(b: Bytes): (v: Bytes)
    requires IsItem(b)
  {
    b[PayloadInfo(b).value.headerLen..]
  }

  /** How many items follow each other in a list payload. */
  function ItemCount(b: Bytes): (n: nat)
    decreases |b|
  {
    if PayloadInfo(b).None? then 0
    else 1 + ItemCount(b[PayloadInfo(b).value.headerLen + PayloadInfo(b).value.valueLen..])
  }

  /** Bytes taken by the first `n` items. */
  function SkipItems(b: Bytes, n: nat): (r: Option<nat>)
    ensures r.Some? ==> r.value <= |b|
    decreases n
  {
    if n == 0 then Some(0)
    else if PayloadInfo(b).None? then None
    else
      var len := PayloadInfo(b).value.headerLen + PayloadInfo(b).value.valueLen;
      var rest := SkipItems(b[len..], n - 1);
      if rest.None? then None else Some(len + rest.value)
  }

  /** The `i`-th item of a list and its offset. */
  function At(b: Bytes, i: nat): (r: Option<(Bytes, nat)>)
    ensures r.Some? ==> r.value.1 + |r.value.0| <= |b| && r.value.0 == b[r.value.1..r.value.1 + |r.value.0|]
  {
    if !IsList(b) || PayloadInfo(b).None? then None
    else
      var header := PayloadInfo(b).value.headerLen;
      var body := b[header..header + PayloadInfo(b).value.valueLen];
      var skipped := SkipItems(body, i);
      if skipped.None? || PayloadInfo(body[skipped.value..]).None? then None
      else
        var info := PayloadInfo(body[skipped.value..]).value;
        var offset := header + skipped.value;
        Some((b[offset..offset + info.headerLen + info.valueLen], offset))
  }

  function ListLength(b: Bytes): (n: nat)
    requires IsList(b)
  {
    if PayloadInfo(b).None? then 0
    else
      var header := PayloadInfo(b).value.headerLen;
      ItemCount(b[header..header + PayloadInfo(b).value.valueLen])
  }

  /** Reading a header looks no further than the header. */
  lemma {:induction false} HeaderIsLocal(b: Bytes, rest: Bytes)
    requires IsItem(b)
    ensures Header(b + rest) == Header(b)
    ensures PayloadInfo(b + rest) == PayloadInfo(b)
  {
    hide FromBigEndian;
    assert (b + rest)[0] == b[0];
    if 0xb7 < b[0] <= 0xbf {
      SameLength(b, rest, b[0] - 0xb7);
    } else if b[0] > 0xf7 {
      SameLength(b, rest, b[0] - 0xf7);
    }
  }

  lemma {:induction false} SameLength(b: Bytes, rest: Bytes, n: nat)
    requires n > 0 && LongInfo(b, n).Some?
    ensures LongInfo(b + rest, n) == LongInfo(b, n)
  {
    hide FromBigEndian;
    assert (b + rest)[1..1 + n] == b[1..1 + n];
  }

  /** An encoded value is one data item that carries exactly the value. */
  lemma {:induction false} ValueIsItem(v: Bytes)
    requires |v| < TWO_64
    ensures var e := EncodeValue(v);
            IsItem(e) && IsData(e) && Payload(e) == v && Size(e) == |v| && (IsEmpty(e) <==> |v| == 0)
  {
    hide FromBigEndian, ToBigEndian;
    var e := EncodeValue(v);
    if |v| > 55 {
      var l := LengthOf(|v|);
      assert e[1..1 + |l|] == l;
      assert Header(e) == Some(Info(1 + |l|, |v|));
    }
  }

  /** An encoded list is one list item that carries exactly the payload. */
  lemma {:induction false} ListIsItem(p: Bytes)
    requires |p| < TWO_64
    ensures var e := EncodeList(p);
            IsItem(e) && IsList(e) && Payload(e) == p && (IsEmpty(e) <==> |p| == 0)
  {
    hide FromBigEndian, ToBigEndian;
    var e := EncodeList(p);
    if |p| > 55 {
      var l := LengthOf(|p|);
      assert e[1..1 + |l|] == l;
      assert Header(e) == Some(Info(1 + |l|, |p|));
    }
  }

  /** Bytes count as digits of base 256, the first one highest. */
  lemma {:induction false} BigEndianConcat(a: Bytes, b: Bytes)
    ensures FromBigEndian(a + b) == FromBigEndian(a) * Pow256(|b|) + FromBigEndian(b)
    decreases |b|
  {
    if |b| == 0 {
      assert a + b == a;
    } else {
      var front := b[..|b| - 1];
      assert (a + b)[..|a + b| - 1] == a + front;
      BigEndianConcat(a, front);
      var x, y, p := FromBigEndian(a), FromBigEndian(front), Pow256(|front|);
      assert Pow256(|b|) == 256 * p;
      OneMoreDigit(x, y, p, b[|b| - 1]);
    }
  }

  lemma {:induction false} OneMoreDigit(x: int, y: int, p: int, d: int)
    ensures (x * p + y) * 256 + d == x * (256 * p) + (y * 256 + d)
  {}

  /** Without a leading zero a number has one representation. */
  lemma {:induction false} BigEndianUnique(b: Bytes)
    requires |b| > 0 ==> b[0] != 0
    ensures ToBigEndian(FromBigEndian(b)) == b
  {
    if |b| > 0 {
      var front := b[..|b| - 1];
      BigEndianUnique(front);
      assert b == front + [b[|b| - 1]];
      assert FromBigEndian(b) / 256 == FromBigEndian(front) && FromBigEndian(b) % 256 == b[|b| - 1];
      if |front| > 0 { assert front[0] == b[0]; } else { assert ToBigEndian(0) == []; }
    }
  }

  /** An item in the one form RLP allows: the shortest header, and none for a byte below 0x80. */
  predicate Canonical(e: Bytes) {
    IsItem(e) && !(|e| == 2 && e[0] == 0x81 && e[1] < 0x80)
  }

  lemma {:induction false} LongForm(e: Bytes, base: nat, v: Bytes)
    requires base == 0xb7 || base == 0xf7
    requires |v| < TWO_64 && |e| > 0 && base < e[0] <= base + 8 && LongInfo(e, e[0] - base) == Some(Info(1 + e[0] - base, |v|))
    requires |e| == 1 + e[0] - base + |v| && e[1 + e[0] - base..] == v
    ensures |v| > 55 && e == [base + |LengthOf(|v|)|] + LengthOf(|v|) + v
  {
    hide FromBigEndian, ToBigEndian;
    var n := e[0] - base;
    var l := e[1..1 + n];
    BigEndianUnique(l);
    assert l == LengthOf(|v|);
    assert e == [e[0]] + l + v;
  }

  /** The encoding of a value is the only canonical data item that carries it. */
  lemma {:induction false} ValueEncodingUnique(v: Bytes, e: Bytes)
    requires |v| < TWO_64
    ensures e == EncodeValue(v) <==> Canonical(e) && IsData(e) && Payload(e) == v
  {
    hide FromBigEndian, ToBigEndian, LengthOf;
    if e == EncodeValue(v) {
      ValueIsItem(v);
    }
    if Canonical(e) && IsData(e) && Payload(e) == v {
      if e[0] < 0x80 {
        assert e == v;
      } else if e[0] <= 0xb7 {
        assert e == [e[0]] + v;
      } else {
        LongForm(e, 0xb7, v);
      }
    }
  }

  /** The encoding of a list is the only list item that carries its payload. */
  lemma {:induction false} ListEncodingUnique(p: Bytes, e: Bytes)
    requires |p| < TWO_64
    ensures e == EncodeList(p) <==> Canonical(e) && IsList(e) && Payload(e) == p
  {
    hide FromBigEndian, ToBigEndian, LengthOf;
    if e == EncodeList(p) { ListIsItem(p); }
    if IsItem(e) && IsList(e) && Payload(e) == p {
      if e[0] <= 0xf7 {
        assert e == [e[0]] + p;
      } else {
        LongForm(e, 0xf7, p);
      }
    }
  }

  /** Appendix B for up to 55 bytes: a byte below 128 stands for itself, anything else is
      preceded by one byte. */
  lemma {:induction false} ShortEncoding(v: Bytes)
    requires |v| < 56
    ensures EncodeList(v) == [192 + |v|] + v
    ensures EncodeValue(v) == if |v| == 1 && v[0] < 128 then v else [128 + |v|] + v
  {
    if |v| == 0 { assert [128 + |v|] + v == [0x80]; }
  }

  /** Appendix B for 56 bytes and more: the length follows the first byte, which counts its
      bytes. */
  lemma {:induction false} LongEncoding(v: Bytes)
    requires 56 <= |v| < TWO_64
    ensures var n := |EncodeValue(v)| - |v| - 1;
            && 1 <= n <= 8 && EncodeValue(v)[0] == 183 + n && EncodeValue(v)[1] != 0
            && FromBigEndian(EncodeValue(v)[1..1 + n]) == |v| && EncodeValue(v)[1 + n..] == v
            && EncodeList(v) == [247 + n] + EncodeValue(v)[1..]
  {
    hide FromBigEndian, ToBigEndian, LengthOf, EncodeValue, EncodeList;
    var l := LengthOf(|v|);
    LongForms(v);
    Pieces(0xb7 + |l|, l, v);
  }

  lemma {:induction false} LongForms(v: Bytes)
    requires 56 <= |v| < TWO_64
    ensures var l := LengthOf(|v|);
            EncodeValue(v) == [0xb7 + |l|] + l + v && EncodeList(v) == [0xf7 + |l|] + l + v
  {
    hide LengthOf;
  }

  lemma {:induction false} Pieces(first: Byte, l: Bytes, v: Bytes)
    ensures var e := [first] + l + v;
            |e| == 1 + |l| + |v| && e[0] == first && e[1..] == l + v && e[1..1 + |l|] == l && e[1 + |l|..] == v && (|l| > 0 ==> e[1] == l[0])
    ensures forall x: Byte :: [x] + l + v == [x] + (l + v)
  {}

  lemma {:induction false} LengthExamples(n: nat)
    requires 0 < n < 65536
    ensures LengthOf(n) == if n < 256 then [n] else [n / 256, n % 256]
  {
    assert ToBigEndian(0) == [];
    assert ToBigEndian(n % 256) == if n % 256 == 0 then [] else [n % 256];
    if n >= 256 { assert ToBigEndian(n / 256) == ToBigEndian(0) + [n / 256]; }
  }

  /** The length bytes written out, for payloads below 65536 bytes. */
  lemma {:induction false} LengthWrittenOut(v: Bytes)
    requires 56 <= |v| < 65536
    ensures EncodeValue(v) == (if |v| < 256 then [184, |v|] else [185, |v| / 256, |v| % 256]) + v
    ensures EncodeList(v) == (if |v| < 256 then [248, |v|] else [249, |v| / 256, |v| % 256]) + v
  {
    hide LengthOf;
    LengthExamples(|v|);
  }

  function Concat(items: seq<Bytes>): (r: Bytes) {
    if |items| == 0 then [] else items[0] + Concat(items[1..])
  }

  ghost predicate AllItems(items: seq<Bytes>) {
    forall i :: 0 <= i < |items| ==> IsItem(items[i])
  }

  lemma {:induction false} ConcatAppend(items: seq<Bytes>, x: Bytes)
    ensures Concat(items + [x]) == Concat(items) + x
  {
    if |items| == 0 {
      assert items + [x] == [x] && [x][1..] == [];
      assert Concat([x]) == x + Concat([x][1..]);
    } else {
      ConcatAppend(items[1..], x);
      assert (items + [x])[1..] == items[1..] + [x];
    }
  }

  /** Concatenated items are found again, each at the sum of the lengths before it. */
  lemma {:induction false} SkipConcat(items: seq<Bytes>, i: nat)
    requires AllItems(items) && i <= |items|
    ensures SkipItems(Concat(items), i) == Some(|Concat(items[..i])|)
    ensures |Concat(items[..i])| <= |Concat(items)|
    ensures Concat(items)[|Concat(items[..i])|..] == Concat(items[i..])
    decreases i
  {
    hide PayloadInfo, IsItem;
    if i == 0 {
      assert items[..0] == [] && items[0..] == items;
    } else {
      var rest := items[1..];
      HeaderIsLocal(items[0], Concat(rest));
      ItemSize(items[0]);
      SkipConcat(rest, i - 1);
      assert Concat(items)[|items[0]|..] == Concat(rest);
      assert items[..i][1..] == rest[..i - 1] && items[..i][0] == items[0];
      assert rest[i - 1..] == items[i..];
    }
  }

  lemma {:induction false} CountConcat(items: seq<Bytes>)
    requires AllItems(items)
    ensures ItemCount(Concat(items)) == |items|
  {
    hide PayloadInfo, IsItem;
    if |items| > 0 {
      HeaderIsLocal(items[0], Concat(items[1..]));
      ItemSize(items[0]);
      assert Concat(items)[|items[0]|..] == Concat(items[1..]);
      CountConcat(items[1..]);
    }
  }

  /** An item cut out of longer bytes reads as it did there. */
  lemma {:induction false} ItemPrefix(t: Bytes)
    requires PayloadInfo(t).Some?
    ensures var info := PayloadInfo(t).value;
            PayloadInfo(t[..info.headerLen + info.valueLen]) == Some(info)
  {
    hide FromBigEndian;
    var info := PayloadInfo(t).value;
    var b := t[..info.headerLen + info.valueLen];
    assert b[0] == t[0];
    if 0xb7 < t[0] <= 0xbf {
      assert b[1..1 + (t[0] - 0xb7)] == t[1..1 + (t[0] - 0xb7)];
    } else if t[0] > 0xf7 {
      assert b[1..1 + (t[0] - 0xf7)] == t[1..1 + (t[0] - 0xf7)];
    }
  }

  /** Only the empty string and the empty list have no payload. */
  lemma {:induction false} NonEmptyPayload(b: Bytes)
    requires PayloadInfo(b).Some?
    ensures PayloadInfo(b).value.valueLen == 0 ==> IsEmpty(b)
  {
    hide FromBigEndian;
  }

  lemma {:induction false} CountedSkip(b: Bytes, i: nat)
    requires i < ItemCount(b)
    ensures SkipItems(b, i).Some? && PayloadInfo(b[SkipItems(b, i).value..]).Some?
    decreases i
  {
    hide PayloadInfo;
    if i == 0 {
      assert b[0..] == b;
    } else {
      var len := PayloadInfo(b).value.headerLen + PayloadInfo(b).value.valueLen;
      CountedSkip(b[len..], i - 1);
      var rest := SkipItems(b[len..], i - 1).value;
      assert b[len..][rest..] == b[len + rest..];
    }
  }

  /** Every item that is counted can be found and read. */
  lemma {:induction false} CountedItem(b: Bytes, i: nat)
    requires IsList(b) && i < ListLength(b)
    ensures At(b, i).Some? && PayloadInfo(At(b, i).value.0).Some?
  {
    hide PayloadInfo, ItemCount, SkipItems;
    assert PayloadInfo(b).Some?;
    var header := PayloadInfo(b).value.headerLen;
    var body := b[header..header + PayloadInfo(b).value.valueLen];
    CountedSkip(body, i);
    var tail := body[SkipItems(body, i).value..];
    ItemPrefix(tail);
    var info, offset := PayloadInfo(tail).value, header + SkipItems(body, i).value;
    assert b[offset..offset + info.headerLen + info.valueLen] == tail[..info.headerLen + info.valueLen];
  }

  /** The header length of an encoded list. */
  function ListHeader(p: Bytes): (n: nat)
    requires |p| < TWO_64
  {
    |EncodeList(p)| - |p|
  }

  /** Where the payload of an encoded list is. */
  lemma {:induction false} ListPayload(p: Bytes)
    requires |p| < TWO_64
    ensures var e, h := EncodeList(p), ListHeader(p);
            IsList(e) && PayloadInfo(e) == Some(Info(h, |p|)) && |e| == h + |p| && e[h..h + |p|] == p && e[h..] == p
  {
    hide EncodeList, Header;
    ListIsItem(p);
  }

  lemma {:induction false} ListCount(items: seq<Bytes>)
    requires AllItems(items) && |Concat(items)| < TWO_64
    ensures IsList(EncodeList(Concat(items))) && ListLength(EncodeList(Concat(items))) == |items|
  {
    hide EncodeList, ListHeader, PayloadInfo, ItemCount;
    ListPayload(Concat(items));
    CountConcat(items);
  }

  lemma {:induction false} SliceOfSlice(e: Bytes, h: nat, p: Bytes, k: nat, x: Bytes, rest: Bytes)
    requires h <= |e| && e[h..] == p && k <= |p| && p[k..] == x + rest
    ensures h + k + |x| <= |e| && e[h + k..h + k + |x|] == x
  {
    assert e[h + k..] == x + rest;
    assert e[h + k..h + k + |x|] == e[h + k..][..|x|];
  }

  lemma {:induction false} ConcatFrom(items: seq<Bytes>, i: nat) returns (rest: Bytes)
    requires i < |items|
    ensures Concat(items[i..]) == items[i] + rest
  {
    rest := Concat(items[i..][1..]);
  }

  lemma {:induction false} ItemSize(b: Bytes)
    requires IsItem(b)
    ensures PayloadInfo(b).Some? && PayloadInfo(b).value.headerLen + PayloadInfo(b).value.valueLen == |b|
  {}

  /** A list of items has each item where it was put. */
  lemma {:induction false} ItemFound(items: seq<Bytes>, i: nat)
    requires AllItems(items) && |Concat(items)| < TWO_64 && i < |items|
    ensures At(EncodeList(Concat(items)), i) == Some((items[i], ListHeader(Concat(items)) + |Concat(items[..i])|))
  {
    hide EncodeList, ListHeader, PayloadInfo, Header, SkipItems, Concat, IsItem;
    var p := Concat(items);
    ListPayload(p);
    SkipConcat(items, i);
    var rest := ConcatFrom(items, i);
    HeaderIsLocal(items[i], rest);
    ItemSize(items[i]);
    SliceOfSlice(EncodeList(p), ListHeader(p), p, |Concat(items[..i])|, items[i], rest);
  }
}
