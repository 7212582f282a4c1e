/** The trie node codec: nodes are RLP lists, paths are hex-prefix encoded (Ethereum Yellow
    Paper, Appendices B to D), and decoding returns byte ranges into the encoded node. */
module TrieCodec {
  import opened Basics
  import opened Rlp

  const HASH_LENGTH: nat := 32

  type Nibble = x: int | 0 <= x < 16

  /** A path to encode: possibly one leading nibble, then whole bytes. */
  datatype Partial = Partial(odd: bool, first: Nibble, rest: Bytes)

  datatype Range = Range(lo: nat, hi: nat)
  datatype NibblePlan = NibblePlan(range: Range, offset: nat)
  datatype Handle = HashHandle(range: Range) | InlineHandle(range: Range)

  datatype NodePlan =
    | EmptyNode
    | LeafNode(partial: NibblePlan, data: Range)
    | ExtensionNode(partial: NibblePlan, child: Handle)
    | BranchNode(stored: Option<Range>, children: seq<Option<Handle>>)

  datatype ChildRef = HashRef(bytes: Bytes) | InlineRef(bytes: Bytes)

  function Nibbles(b: Bytes): (r: seq<int>)
    ensures |r| == 2 * |b|
  {
    if |b| == 0 then [] else [b[0] / 16, b[0] % 16] + Nibbles(b[1..])
  }

  function PathOf(p: Partial): (r: seq<int>) {
    (if p.odd then [p.first] else []) + Nibbles(p.rest)
  }

  function Cut(data: Bytes, r: Range): (b: Bytes)
    requires r.lo <= r.hi <= |data|
  {
    data[r.lo..r.hi]
  }

  predicate Within(data: Bytes, r: Range) {
    r.lo <= r.hi <= |data|
  }

  /** The nibbles a plan stands for. */
  function PlannedPath(data: Bytes, plan: NibblePlan): (r: seq<int>)
    requires Within(data, plan.range) && plan.offset <= 2 * (plan.range.hi - plan.range.lo)
  {
    Nibbles(Cut(data, plan.range))[plan.offset..]
  }

  function EncodePartial(p: Partial, isLeaf: bool): (r: Bytes)
    ensures |r| == 1 + |p.rest|
  {
    var kind := if isLeaf then 0x20 else 0;
    [if p.odd then 0x10 + kind + p.first else kind] + p.rest
  }

  /** The extension encoder takes its odd nibble from the front of the iterator. */
  function PartialFromIterator(it: Bytes, odd: bool): (p: Partial)
    requires odd && |it| > 0 ==> it[0] < 16
  {
    if !odd then Partial(false, 0, it)
    else if |it| == 0 then Partial(true, 0, [])
    else Partial(true, it[0], it[1..])
  }

  function ChildItem(c: Option<ChildRef>): (r: Bytes)
    requires c.Some? ==> |c.value.bytes| < TWO_64
  {
    match c
    case None => [0x80]
    case Some(HashRef(h)) => EncodeValue(h)
    case Some(InlineRef(b)) => b
  }

  function NodeItems(p: Partial, isLeaf: bool, second: Bytes): (items: seq<Bytes>)
    requires |p.rest| + 1 < TWO_64
  {
    [EncodeValue(EncodePartial(p, isLeaf)), second]
  }

  function LeafBytes(p: Partial, value: Bytes): (r: Bytes)
    requires |p.rest| + 1 < TWO_64 && |value| < TWO_64
    requires |Concat(NodeItems(p, true, EncodeValue(value)))| < TWO_64
  {
    EncodeList(Concat(NodeItems(p, true, EncodeValue(value))))
  }

  function ExtensionBytes(p: Partial, child: ChildRef): (r: Bytes)
    requires |p.rest| + 1 < TWO_64 && |child.bytes| < TWO_64
    requires |Concat(NodeItems(p, false, ChildItem(Some(child))))| < TWO_64
  {
    EncodeList(Concat(NodeItems(p, false, ChildItem(Some(child)))))
  }

  function ChildItems(children: seq<Option<ChildRef>>): (items: seq<Bytes>)
    requires forall i :: 0 <= i < |children| && children[i].Some? ==> |children[i].value.bytes| < TWO_64
    ensures |items| == |children| && forall i :: 0 <= i < |children| ==> items[i] == ChildItem(children[i])
  {
    seq(|children|, i requires 0 <= i < |children| => ChildItem(children[i]))
  }

  function ValueItem(value: Option<Bytes>): (r: Bytes)
    requires value.Some? ==> |value.value| < TWO_64
  {
    if value.Some? then EncodeValue(value.value) else [0x80]
  }

  function DecodeChild(item: Bytes, offset: nat): (r: Option<Handle>) {
    if IsData(item) && Size(item) == HASH_LENGTH then
      if PayloadInfo(item).None? then None
      else
        var info := PayloadInfo(item).value;
        Some(HashHandle(Range(offset + info.headerLen, offset + info.headerLen + info.valueLen)))
    else Some(InlineHandle(Range(offset, offset + |item|)))
  }

  function DecodeValueRange(item: Bytes, offset: nat): (r: Option<Range>) {
    if PayloadInfo(item).None? then None
    else
      var info := PayloadInfo(item).value;
      Some(Range(offset + info.headerLen, offset + info.headerLen + info.valueLen))
  }

  /** The path plan of a two-item node and whether its leaf flag is set. */
  function DecodePartial(item: Bytes, offset: nat): (r: Option<(NibblePlan, bool)>) {
    if PayloadInfo(item).None? then None
    else
      var info := PayloadInfo(item).value;
      var start := offset + info.headerLen;
      if IsEmpty(item) then Some((NibblePlan(Range(start, start), 0), false))
      else if info.valueLen == 0 then None
      else
        var header := item[info.headerLen];
        var odd := (header / 16) % 2 == 1;
        Some((NibblePlan(Range(start + (if odd then 0 else 1), start + info.valueLen), if odd then 1 else 0),
              (header / 32) % 2 == 1))
  }

  function DecodePair(data: Bytes): (r: Option<NodePlan>) {
    var first, second := At(data, 0), At(data, 1);
    if first.None? || second.None? then None
    else
      var partial := DecodePartial(first.value.0, first.value.1);
      if partial.None? then None
      else if partial.value.1 then
        var v := DecodeValueRange(second.value.0, second.value.1);
        if v.None? then None else Some(LeafNode(partial.value.0, v.value))
      else
        var c := DecodeChild(second.value.0, second.value.1);
        if c.None? then None else Some(ExtensionNode(partial.value.0, c.value))
  }

  /** One slot of a branch: nothing, or the handle of a child. */
  function DecodeSlot(data: Bytes, i: nat): (r: Option<Option<Handle>>) {
    var item := At(data, i);
    if item.None? then None
    else if IsEmpty(item.value.0) then Some(None)
    else
      var c := DecodeChild(item.value.0, item.value.1);
      if c.None? then None else Some(c)
  }

  function DecodeSlots(data: Bytes, n: nat): (r: Option<seq<Option<Handle>>>)
    ensures r.Some? ==> |r.value| == n
  {
    if n == 0 then Some([])
    else
      var front, last := DecodeSlots(data, n - 1), DecodeSlot(data, n - 1);
      if front.None? || last.None? then None else Some(front.value + [last.value])
  }

  function DecodeBranch(data: Bytes): (r: Option<NodePlan>) {
    var children, value := DecodeSlots(data, 16), At(data, 16);
    if children.None? || value.None? then None
    else if IsEmpty(value.value.0) then Some(BranchNode(None, children.value))
    else
      var v := DecodeValueRange(value.value.0, value.value.1);
      if v.None? then None else Some(BranchNode(v, children.value))
  }

  /** What decoding yields; `None` stands for a decoder error. */
  function Decoded(data: Bytes): (r: Option<NodePlan>) {
    if IsData(data) then (if Size(data) == 0 then Some(EmptyNode) else None)
    else if !IsList(data) then None
    else if ListLength(data) == 2 then DecodePair(data)
    else if ListLength(data) == 17 then DecodeBranch(data)
    else None
  }

  lemma {:induction false} NibblesHead(b: Bytes)
    requires |b| > 0
    ensures Nibbles(b)[1..] == [b[0] % 16] + Nibbles(b[1..])
  {}

  /** The header byte of an encoded path carries both flags, and the plan cuts out exactly
      the path. */
  lemma {:induction false} PartialRoundTrip(p: Partial, isLeaf: bool, data: Bytes, offset: nat)
    requires |p.rest| + 1 < TWO_64
    requires var item := EncodeValue(EncodePartial(p, isLeaf));
             offset + |item| <= |data| && data[offset..offset + |item|] == item
    ensures var r := DecodePartial(EncodeValue(EncodePartial(p, isLeaf)), offset);
            && r.Some? && r.value.1 == isLeaf && Within(data, r.value.0.range)
            && r.value.0.offset <= 2 * (r.value.0.range.hi - r.value.0.range.lo)
            && PlannedPath(data, r.value.0) == PathOf(p)
  {
    hide EncodeValue, Nibbles, EncodePartial, PayloadInfo, IsItem;
    var e := EncodePartial(p, isLeaf);
    var item := EncodeValue(e);
    ValueIsItem(e);
    HeaderFlags(p, isLeaf);
    PayloadCut(data, item, offset);
    ItemSize(item);
    PayloadAt(item);
    PlannedNibbles(p, e, data, offset + PayloadInfo(item).value.headerLen);
  }

  lemma {:induction false} HeaderFlags(p: Partial, isLeaf: bool)
    ensures var e := EncodePartial(p, isLeaf);
            && ((e[0] / 16) % 2 == 1 <==> p.odd) && ((e[0] / 32) % 2 == 1 <==> isLeaf)
            && (p.odd ==> e[0] % 16 == p.first) && e[1..] == p.rest
  {}

  /** Appendix C: the encoded path is the flags, padded to a whole byte, and then the path. */
  lemma {:induction false} HexPrefix(p: Partial, isLeaf: bool)
    ensures Nibbles(EncodePartial(p, isLeaf)) ==
              (if p.odd then [if isLeaf then 3 else 1] else [if isLeaf then 2 else 0, 0]) + PathOf(p)
  {
    var e := EncodePartial(p, isLeaf);
    assert e[1..] == p.rest;
    assert Nibbles(e) == [e[0] / 16, e[0] % 16] + Nibbles(p.rest);
  }

  /** The iterator of an odd path starts with its leading nibble. */
  lemma {:induction false} IteratorPath(it: Bytes, odd: bool)
    requires odd && |it| > 0 ==> it[0] < 16
    ensures PathOf(PartialFromIterator(it, odd)) ==
              if !odd then Nibbles(it) else if |it| == 0 then [0] else [it[0]] + Nibbles(it[1..])
  {}

  lemma {:induction false} PayloadAt(item: Bytes)
    requires IsItem(item) && |Payload(item)| > 0
    ensures PayloadInfo(item).value.headerLen < |item| && item[PayloadInfo(item).value.headerLen] == Payload(item)[0]
    ensures PayloadInfo(item).value.valueLen == |Payload(item)|
  {}

  /** Cutting an encoded path at its flag gives back the path, for odd and even lengths. */
  lemma {:induction false} PlannedNibbles(p: Partial, e: Bytes, data: Bytes, start: nat)
    requires |e| > 0 && e[1..] == p.rest && (p.odd ==> e[0] % 16 == p.first)
    requires start + |e| <= |data| && data[start..start + |e|] == e
    ensures p.odd ==> PlannedPath(data, NibblePlan(Range(start, start + |e|), 1)) == PathOf(p)
    ensures !p.odd ==> PlannedPath(data, NibblePlan(Range(start + 1, start + |e|), 0)) == PathOf(p)
  {
    if p.odd {
      NibblesHead(e);
    } else {
      assert data[start + 1..start + |e|] == e[1..];
    }
  }

  /** The plan's range holds the payload of the item it was made from. */
  lemma {:induction false} PayloadCut(data: Bytes, item: Bytes, offset: nat)
    requires IsItem(item) && offset + |item| <= |data| && data[offset..offset + |item|] == item
    ensures var info := PayloadInfo(item).value;
            data[offset + info.headerLen..offset + info.headerLen + info.valueLen] == Payload(item)
  {
    var info := PayloadInfo(item).value;
    assert data[offset + info.headerLen..offset + |item|] == data[offset..offset + |item|][info.headerLen..];
  }

  /** A two-item node is recognised, its path and kind are read back, and its second item is
      found where it was put. */
  lemma {:induction false} PairRoundTrip(p: Partial, isLeaf: bool, second: Bytes)
    requires |p.rest| + 1 < TWO_64 && IsItem(second) && |Concat(NodeItems(p, isLeaf, second))| < TWO_64
    ensures var data := EncodeList(Concat(NodeItems(p, isLeaf, second)));
            && IsList(data) && ListLength(data) == 2 && At(data, 0).Some? && At(data, 1).Some? && At(data, 1).value.0 == second
            && var r := DecodePartial(At(data, 0).value.0, At(data, 0).value.1);
               && r.Some? && r.value.1 == isLeaf && Within(data, r.value.0.range)
               && r.value.0.offset <= 2 * (r.value.0.range.hi - r.value.0.range.lo)
               && PlannedPath(data, r.value.0) == PathOf(p)
  {
    hide EncodeList, At, ListLength, ListHeader, Concat, EncodeValue, DecodePartial, PlannedPath, PathOf;
    var items := NodeItems(p, isLeaf, second);
    ValueIsItem(EncodePartial(p, isLeaf));
    assert AllItems(items);
    ListCount(items);
    ItemFound(items, 0);
    ItemFound(items, 1);
    var data := EncodeList(Concat(items));
    AtSlice(data, 0);
    PartialRoundTrip(p, isLeaf, data, At(data, 0).value.1);
  }

  lemma {:induction false} AtSlice(b: Bytes, i: nat)
    requires At(b, i).Some?
    ensures var r := At(b, i).value; r.1 + |r.0| <= |b| && b[r.1..r.1 + |r.0|] == r.0
  {}

  /** Decoding an encoded leaf gives back its path and exactly its value. */
  lemma {:induction false} LeafRoundTrip(p: Partial, value: Bytes)
    requires |p.rest| + 1 < TWO_64 && |value| < TWO_64
    requires |Concat(NodeItems(p, true, EncodeValue(value)))| < TWO_64
    ensures var data := LeafBytes(p, value);
            && Decoded(data).Some? && Decoded(data).value.LeafNode?
            && var n := Decoded(data).value;
               && Within(data, n.data) && Cut(data, n.data) == value
               && Within(data, n.partial.range) && n.partial.offset <= 2 * (n.partial.range.hi - n.partial.range.lo)
               && PlannedPath(data, n.partial) == PathOf(p)
  {
    hide EncodeList, At, ListLength, Concat, EncodeValue, DecodePartial, PlannedPath, PathOf, NodeItems, PayloadInfo;
    ValueIsItem(value);
    PairRoundTrip(p, true, EncodeValue(value));
    var data := LeafBytes(p, value);
    AtSlice(data, 1);
    PayloadCut(data, EncodeValue(value), At(data, 1).value.1);
    ValueRange(EncodeValue(value), At(data, 1).value.1);
  }

  lemma {:induction false} ValueRange(item: Bytes, offset: nat)
    requires IsItem(item)
    ensures var info := PayloadInfo(item).value;
            DecodeValueRange(item, offset) == Some(Range(offset + info.headerLen, offset + info.headerLen + info.valueLen))
            && info.headerLen + info.valueLen == |item|
  {}

  /** Whether a child's encoding reads back as a hash: hashes do, and so would an inline
      child that is a plain 32-byte string. */
  predicate ReadsAsHash(item: Bytes) {
    IsData(item) && Size(item) == HASH_LENGTH
  }

  /** A decoded handle cuts out the child's hash, or its whole inline encoding. */
  lemma {:induction false} ChildRoundTrip(data: Bytes, item: Bytes, offset: nat)
    requires IsItem(item) && offset + |item| <= |data| && data[offset..offset + |item|] == item
    ensures DecodeChild(item, offset).Some?
    ensures var c := DecodeChild(item, offset).value;
            && Within(data, c.range) && (c.HashHandle? <==> ReadsAsHash(item))
            && Cut(data, c.range) == if ReadsAsHash(item) then Payload(item) else item
  {
    PayloadCut(data, item, offset);
  }

  /** What a child's handle must be: the hash, or the inline child itself; but an inline child
      that is a 32-byte string comes back as a hash, namely those 32 bytes. */
  ghost predicate ChildReadsBack(data: Bytes, child: ChildRef, h: Handle)
    requires child.InlineRef? ==> IsItem(child.bytes)
  {
    && Within(data, h.range)
    && (h.HashHandle? <==> child.HashRef? || ReadsAsHash(child.bytes))
    && Cut(data, h.range) == if child.InlineRef? && ReadsAsHash(child.bytes) then Payload(child.bytes) else child.bytes
  }

  /** Decoding an encoded extension gives back its path and its child. */
  lemma {:induction false} ExtensionRoundTrip(p: Partial, child: ChildRef)
    requires |p.rest| + 1 < TWO_64 && |child.bytes| < TWO_64
    requires child.HashRef? ==> |child.bytes| == HASH_LENGTH
    requires child.InlineRef? ==> IsItem(child.bytes)
    requires |Concat(NodeItems(p, false, ChildItem(Some(child))))| < TWO_64
    ensures var data := ExtensionBytes(p, child);
            && Decoded(data).Some? && Decoded(data).value.ExtensionNode?
            && var n := Decoded(data).value;
               && ChildReadsBack(data, child, n.child)
               && Within(data, n.partial.range) && n.partial.offset <= 2 * (n.partial.range.hi - n.partial.range.lo)
               && PlannedPath(data, n.partial) == PathOf(p)
  {
    hide EncodeList, At, ListLength, Concat, EncodeValue, DecodePartial, PlannedPath, PathOf, NodeItems, PayloadInfo, IsItem, DecodeChild;
    if child.HashRef? { ValueIsItem(child.bytes); }
    var item := ChildItem(Some(child));
    PairRoundTrip(p, false, item);
    var data := ExtensionBytes(p, child);
    AtSlice(data, 1);
    ChildRoundTrip(data, item, At(data, 1).value.1);
  }

  function BranchItems(children: seq<Option<ChildRef>>, value: Option<Bytes>): (items: seq<Bytes>)
    requires forall i :: 0 <= i < |children| && children[i].Some? ==> |children[i].value.bytes| < TWO_64
    requires value.Some? ==> |value.value| < TWO_64
  {
    ChildItems(children) + [ValueItem(value)]
  }

  /** Children a branch can hold: hashes, or inline nodes that are RLP items. */
  ghost predicate WellFormedChildren(children: seq<Option<ChildRef>>) {
    && |children| == 16
    && (forall i :: 0 <= i < |children| && children[i].Some? ==>
          && |children[i].value.bytes| < TWO_64
          && (children[i].value.HashRef? ==> |children[i].value.bytes| == HASH_LENGTH)
          && (children[i].value.InlineRef? ==> IsItem(children[i].value.bytes)))
  }

  lemma {:induction false} ChildIsItem(c: Option<ChildRef>)
    requires c.Some? ==> |c.value.bytes| < TWO_64
    requires c.Some? && c.value.InlineRef? ==> IsItem(c.value.bytes)
    ensures IsItem(ChildItem(c))
    ensures c.Some? && c.value.HashRef? ==>
              Payload(ChildItem(c)) == c.value.bytes && (|c.value.bytes| == HASH_LENGTH ==> ReadsAsHash(ChildItem(c)) && !IsEmpty(ChildItem(c)))
    ensures c.None? ==> IsEmpty(ChildItem(c)) && ChildItem(c) == EncodeValue([])
  {
    if c.Some? && c.value.HashRef? { ValueIsItem(c.value.bytes); }
    if c.None? { ValueIsItem([]); }
  }

  /** What a branch slot must decode to. */
  ghost predicate SlotReadsBack(data: Bytes, c: Option<ChildRef>, h: Option<Handle>)
    requires c.Some? ==> |c.value.bytes| < TWO_64 && (c.value.InlineRef? ==> IsItem(c.value.bytes))
  {
    && (h.None? <==> IsEmpty(ChildItem(c)))
    && (h.Some? ==> c.Some? && ChildReadsBack(data, c.value, h.value))
  }

  lemma {:induction false} SlotRoundTrip(data: Bytes, c: Option<ChildRef>, i: nat)
    requires c.Some? ==> |c.value.bytes| < TWO_64
    requires c.Some? && c.value.HashRef? ==> |c.value.bytes| == HASH_LENGTH
    requires c.Some? && c.value.InlineRef? ==> IsItem(c.value.bytes)
    requires At(data, i).Some? && At(data, i).value.0 == ChildItem(c)
    ensures DecodeSlot(data, i).Some? && SlotReadsBack(data, c, DecodeSlot(data, i).value)
  {
    hide At, EncodeValue, PayloadInfo, IsItem, DecodeChild;
    ChildIsItem(c);
    AtSlice(data, i);
    ChildRoundTrip(data, ChildItem(c), At(data, i).value.1);
  }

  lemma {:induction false} SlotsRoundTrip(data: Bytes, children: seq<Option<ChildRef>>, n: nat)
    requires WellFormedChildren(children) && n <= 16
    requires forall i :: 0 <= i < 16 ==> At(data, i).Some? && At(data, i).value.0 == ChildItem(children[i])
    ensures DecodeSlots(data, n).Some?
    ensures forall i :: 0 <= i < n ==> SlotReadsBack(data, children[i], DecodeSlots(data, n).value[i])
    decreases n
  {
    hide At, SlotReadsBack, DecodeSlot, ChildItem;
    if n > 0 {
      SlotsRoundTrip(data, children, n - 1);
      SlotRoundTrip(data, children[n - 1], n - 1);
    }
  }

  /** Decoding an encoded branch gives back all sixteen children and the value.  A slot is
      lost exactly when its item is the empty string or the empty list, the value exactly
      when it is absent or empty, and an inline 32-byte string comes back as a hash. */
  lemma {:induction false} BranchRoundTrip(children: seq<Option<ChildRef>>, value: Option<Bytes>)
    requires WellFormedChildren(children) && (value.Some? ==> |value.value| < TWO_64)
    requires |Concat(BranchItems(children, value))| < TWO_64
    ensures var data := EncodeList(Concat(BranchItems(children, value)));
            && Decoded(data).Some? && Decoded(data).value.BranchNode?
            && var n := Decoded(data).value;
               && |n.children| == 16
               && (forall i :: 0 <= i < 16 ==> SlotReadsBack(data, children[i], n.children[i]))
               && (n.stored.None? <==> value.None? || |value.value| == 0)
               && (n.stored.Some? ==> Within(data, n.stored.value) && Cut(data, n.stored.value) == value.value)
  {
    hide EncodeList, At, ListLength, Concat, BranchItems, SlotReadsBack, DecodeSlots, ListHeader, PayloadInfo;
    hide IsEmpty, DecodeValueRange;
    var items := BranchItems(children, value);
    BranchItemsOk(children, value);
    ListCount(items);
    BranchSlots(children, value);
    BranchValue(children, value);
  }

  lemma {:induction false} BranchSlots(children: seq<Option<ChildRef>>, value: Option<Bytes>)
    requires WellFormedChildren(children) && (value.Some? ==> |value.value| < TWO_64)
    requires |Concat(BranchItems(children, value))| < TWO_64
    ensures var data := EncodeList(Concat(BranchItems(children, value)));
            && DecodeSlots(data, 16).Some?
            && forall i :: 0 <= i < 16 ==> SlotReadsBack(data, children[i], DecodeSlots(data, 16).value[i])
  {
    hide EncodeList, At, Concat, BranchItems, SlotReadsBack, DecodeSlots, ListHeader, ChildItem, IsItem, AllItems;
    var items := BranchItems(children, value);
    BranchItemsOk(children, value);
    var data := EncodeList(Concat(items));
    forall i | 0 <= i < 16 ensures At(data, i).Some? && At(data, i).value.0 == ChildItem(children[i]) { ItemFound(items, i); }
    SlotsRoundTrip(data, children, 16);
  }

  lemma {:induction false} BranchValue(children: seq<Option<ChildRef>>, value: Option<Bytes>)
    requires WellFormedChildren(children) && (value.Some? ==> |value.value| < TWO_64)
    requires |Concat(BranchItems(children, value))| < TWO_64
    ensures var data := EncodeList(Concat(BranchItems(children, value)));
            && At(data, 16).Some? && (IsEmpty(At(data, 16).value.0) <==> value.None? || |value.value| == 0)
            && var v := DecodeValueRange(At(data, 16).value.0, At(data, 16).value.1);
               v.Some? && Within(data, v.value) && (value.Some? ==> Cut(data, v.value) == value.value)
  {
    hide EncodeList, At, Concat, BranchItems, ListHeader, ChildItem, IsItem, AllItems, PayloadInfo, IsEmpty;
    hide EncodeValue;
    var items := BranchItems(children, value);
    BranchItemsOk(children, value);
    ItemFound(items, 16);
    var data := EncodeList(Concat(items));
    AtSlice(data, 16);
    var item := ValueItem(value);
    PayloadCut(data, item, At(data, 16).value.1);
    ValueRange(item, At(data, 16).value.1);
  }

  lemma {:induction false} BranchItemsOk(children: seq<Option<ChildRef>>, value: Option<Bytes>)
    requires WellFormedChildren(children) && (value.Some? ==> |value.value| < TWO_64)
    ensures var items, item := BranchItems(children, value), ValueItem(value);
            && |items| == 17 && AllItems(items) && items[16] == item && IsItem(item)
            && (forall i :: 0 <= i < 16 ==> items[i] == ChildItem(children[i]))
            && (IsEmpty(item) <==> value.None? || |value.value| == 0)
            && (value.Some? ==> Payload(item) == value.value)
  {
    hide EncodeValue, PayloadInfo;
    var items := BranchItems(children, value);
    ValueIsItem(if value.Some? then value.value else []);
    EmptyString();
    forall i | 0 <= i < 16 ensures IsItem(items[i]) && items[i] == ChildItem(children[i]) { ChildIsItem(children[i]); }
  }

  lemma {:induction false} EmptyString()
    ensures EncodeValue([]) == [0x80]
  {}

  ghost predicate PlanWithin(data: Bytes, p: NibblePlan) {
    Within(data, p.range) && p.offset <= 2 * (p.range.hi - p.range.lo)
  }

  ghost predicate HandleWithin(data: Bytes, h: Handle) {
    Within(data, h.range) && (h.HashHandle? ==> h.range.hi - h.range.lo == HASH_LENGTH)
  }

  /** What any bytes at all can decode to: nothing but an empty string is an empty node, only a
      list of two is a leaf or an extension, only one of seventeen a branch, everything else is
      an error, and every range stays inside the bytes. */
  lemma {:induction false} DecodedShape(data: Bytes)
    ensures Decoded(data) == Some(EmptyNode) <==> IsData(data) && Size(data) == 0
    ensures Decoded(data).Some? ==>
              match Decoded(data).value
              case EmptyNode => true
              case LeafNode(p, v) => IsList(data) && ListLength(data) == 2 && PlanWithin(data, p) && Within(data, v)
              case ExtensionNode(p, c) => IsList(data) && ListLength(data) == 2 && PlanWithin(data, p) && HandleWithin(data, c)
              case BranchNode(v, children) =>
                && IsList(data) && ListLength(data) == 17 && |children| == 16 && (v.Some? ==> Within(data, v.value))
                && (forall i :: 0 <= i < 16 && children[i].Some? ==> HandleWithin(data, children[i].value))
  {
    hide At, ListLength, DecodeSlots, DecodePartial, DecodeChild, DecodeValueRange, PlanWithin, HandleWithin;
    ItemsWithin(data, 0);
    ItemsWithin(data, 1);
    ItemsWithin(data, 16);
    SlotsWithin(data, 16);
  }

  /** Which bytes decode: any list of two or seventeen items, and as an empty node any string
      that is empty or cannot be read.  An empty path makes an extension. */
  lemma {:induction false} DecodesIff(data: Bytes)
    ensures Decoded(data).Some? <==> (IsList(data) && (ListLength(data) == 2 || ListLength(data) == 17))
                                     || (IsData(data) && (PayloadInfo(data).None? || PayloadInfo(data).value.valueLen == 0))
    ensures Decoded(data).Some? && Decoded(data).value.LeafNode? ==> At(data, 0).Some? && !IsEmpty(At(data, 0).value.0)
  {
    hide At, ListLength, DecodePartial, DecodeChild, DecodeValueRange, PayloadInfo, IsEmpty;
    if IsList(data) {
      forall i: nat | i < ListLength(data) ensures At(data, i).Some? && ItemReads(data, i) { ItemReadable(data, i); }
      if ListLength(data) == 17 { SlotsRead(data, 16); }
      if ListLength(data) == 2 { assert ItemReads(data, 0) && ItemReads(data, 1); }
      if ListLength(data) == 17 { assert ItemReads(data, 16); }
    }
    EmptyPath(data);
  }

  lemma {:induction false} EmptyPath(data: Bytes)
    ensures At(data, 0).Some? && IsEmpty(At(data, 0).value.0) && DecodePartial(At(data, 0).value.0, At(data, 0).value.1).Some? ==>
              !DecodePartial(At(data, 0).value.0, At(data, 0).value.1).value.1
  {
    hide At, PayloadInfo;
  }

  /** Item `i` can be read as a path, as a value and as a child. */
  ghost predicate ItemReads(data: Bytes, i: nat) {
    At(data, i).Some? &&
    var item, offset := At(data, i).value.0, At(data, i).value.1;
    DecodePartial(item, offset).Some? && DecodeChild(item, offset).Some? && DecodeValueRange(item, offset).Some?
  }

  lemma {:induction false} ItemReadable(data: Bytes, i: nat)
    requires IsList(data) && i < ListLength(data)
    ensures ItemReads(data, i)
  {
    hide At, ListLength, PayloadInfo;
    CountedItem(data, i);
    NonEmptyPayload(At(data, i).value.0);
  }

  lemma {:induction false} SlotsRead(data: Bytes, n: nat)
    requires forall i: nat :: i < n ==> ItemReads(data, i)
    ensures DecodeSlots(data, n).Some?
    decreases n
  {
    hide At, DecodeChild, DecodePartial, DecodeValueRange, IsEmpty;
    if n > 0 {
      SlotsRead(data, n - 1);
      assert ItemReads(data, n - 1);
    }
  }

  /** Whatever is read of an item of a list stays inside the list. */
  lemma {:induction false} ItemsWithin(data: Bytes, i: nat)
    ensures At(data, i).Some? ==>
            var item, offset := At(data, i).value.0, At(data, i).value.1;
            && (DecodePartial(item, offset).Some? ==> PlanWithin(data, DecodePartial(item, offset).value.0))
            && (DecodeChild(item, offset).Some? ==> HandleWithin(data, DecodeChild(item, offset).value))
            && (DecodeValueRange(item, offset).Some? ==> Within(data, DecodeValueRange(item, offset).value))
  {
    hide At, PayloadInfo;
    if At(data, i).Some? { AtSlice(data, i); }
  }

  lemma {:induction false} SlotsWithin(data: Bytes, n: nat)
    ensures DecodeSlots(data, n).Some? ==>
              forall i :: 0 <= i < n && DecodeSlots(data, n).value[i].Some? ==> HandleWithin(data, DecodeSlots(data, n).value[i].value)
    decreases n
  {
    hide At, DecodeChild, HandleWithin, DecodePartial, DecodeValueRange, IsEmpty;
    if n > 0 {
      SlotsWithin(data, n - 1);
      ItemsWithin(data, n - 1);
    }
  }

  /** A list under construction; it is finished when all its items have been appended. */
  class RlpStream {
    var payload: Bytes
    var missing: nat
    ghost var items: seq<Bytes>

    ghost predicate Valid()
      reads this
    {
      payload == Concat(items)
    }

    constructor NewList(len: nat)
      ensures Valid() && items == [] && missing == len
    {
      payload, missing, items := [], len, [];
    }

    method AppendRaw(bytes: Bytes)
      requires Valid() && missing > 0
      modifies this
      ensures Valid() && items == old(items) + [bytes] && missing == old(missing) - 1
    {
      ConcatAppend(items, bytes);
      payload := payload + bytes;
      items := items + [bytes];
      missing := missing - 1;
    }

    method Append(value: Bytes)
      requires Valid() && missing > 0 && |value| < TWO_64
      modifies this
      ensures Valid() && items == old(items) + [EncodeValue(value)] && missing == old(missing) - 1
    {
      AppendRaw(EncodeValue(value));
    }

    method AppendEmptyData()
      requires Valid() && missing > 0
      modifies this
      ensures Valid() && items == old(items) + [[0x80]] && missing == old(missing) - 1
    {
      AppendRaw([0x80]);
    }

    method Drain() returns (r: Bytes)
      requires Valid() && missing == 0 && |Concat(items)| < TWO_64
      ensures r == EncodeList(Concat(items))
    {
      r := EncodeList(payload);
    }
  }

  method EncodeLeaf(p: Partial, value: Bytes) returns (r: Bytes)
    requires |p.rest| + 1 < TWO_64 && |value| < TWO_64
    requires |Concat(NodeItems(p, true, EncodeValue(value)))| < TWO_64
    ensures r == LeafBytes(p, value)
  {
    var stream := new RlpStream.NewList(2);
    stream.Append(EncodePartial(p, true));
    stream.Append(value);
    assert stream.items == NodeItems(p, true, EncodeValue(value));
    r := stream.Drain();
  }

  method EncodeExtension(it: Bytes, numberNibble: nat, child: ChildRef) returns (r: Bytes)
    requires numberNibble % 2 > 0 && |it| > 0 ==> it[0] < 16
    requires |it| + 1 < TWO_64 && |child.bytes| < TWO_64
    requires |Concat(NodeItems(PartialFromIterator(it, numberNibble % 2 > 0), false, ChildItem(Some(child))))| < TWO_64
    ensures r == ExtensionBytes(PartialFromIterator(it, numberNibble % 2 > 0), child)
  {
    var p := PartialFromIterator(it, numberNibble % 2 > 0);
    var stream := new RlpStream.NewList(2);
    stream.Append(EncodePartial(p, false));
    match child {
      case HashRef(hash) => stream.Append(hash);
      case InlineRef(bytes) => stream.AppendRaw(bytes);
    }
    assert stream.items == NodeItems(p, false, ChildItem(Some(child)));
    r := stream.Drain();
  }

  lemma {:induction false} ChildItemsGrow(children: seq<Option<ChildRef>>, i: nat)
    requires i < |children|
    requires forall j :: 0 <= j < |children| && children[j].Some? ==> |children[j].value.bytes| < TWO_64
    ensures ChildItems(children)[..i + 1] == ChildItems(children)[..i] + [ChildItem(children[i])]
  {
    hide ChildItem;
  }

  method EncodeBranch(children: seq<Option<ChildRef>>, value: Option<Bytes>) returns (r: Bytes)
    requires |children| == 16 && (value.Some? ==> |value.value| < TWO_64)
    requires forall i :: 0 <= i < |children| && children[i].Some? ==> |children[i].value.bytes| < TWO_64
    requires |Concat(BranchItems(children, value))| < TWO_64
    ensures r == EncodeList(Concat(BranchItems(children, value)))
  {
    hide EncodeValue, EncodeList, RlpStream.Valid, Concat;
    var stream := new RlpStream.NewList(17);
    var i := 0;
    while i < |children|
      invariant 0 <= i <= |children| && stream.Valid() && fresh(stream) && stream.missing == 17 - i
      invariant stream.items == ChildItems(children)[..i]
    {
      match children[i] {
        case Some(HashRef(h)) => stream.Append(h);
        case Some(InlineRef(bytes)) => stream.AppendRaw(bytes);
        case None => stream.AppendEmptyData();
      }
      ChildItemsGrow(children, i);
      i := i + 1;
    }
    if value.Some? {
      stream.Append(value.value);
    } else {
      stream.AppendEmptyData();
    }
    assert stream.items == BranchItems(children, value);
    r := stream.Drain();
  }

  /** Decodes a node; a branch fills its sixteen slots one by one. */
  method DecodePlan(data: Bytes) returns (r: Option<NodePlan>)
    ensures r == Decoded(data)
  {
    hide At, ListLength, DecodeSlot, DecodePair, PayloadInfo;
    if IsData(data) { return if Size(data) == 0 then Some(EmptyNode) else None; }
    if !IsList(data) { return None; }
    if ListLength(data) == 2 { return DecodePair(data); }
    if ListLength(data) != 17 { return None; }
    var children := new Option<Handle>[16](_ => None);
    var i := 0;
    while i < 16
      invariant 0 <= i <= 16 && DecodeSlots(data, i) == Some(children[..i])
    {
      var slot := DecodeSlot(data, i);
      if slot.None? {
        SlotsStop(data, i, 16);
        return None;
      }
      children[i] := slot.value;
      i := i + 1;
      assert children[..i] == children[..i - 1] + [slot.value];
    }
    assert children[..16] == children[..];
    var value := At(data, 16);
    if value.None? { return None; }
    if IsEmpty(value.value.0) { return Some(BranchNode(None, children[..])); }
    var v := DecodeValueRange(value.value.0, value.value.1);
    r := if v.None? then None else Some(BranchNode(v, children[..]));
  }

  /** A slot that cannot be decoded fails the whole branch. */
  lemma {:induction false} SlotsStop(data: Bytes, i: nat, n: nat)
    requires DecodeSlot(data, i).None? && i < n
    ensures DecodeSlots(data, n).None?
    decreases n
  {
    hide At, DecodeSlot;
    if i < n - 1 { SlotsStop(data, i, n - 1); }
  }
}
