/** CBOR items and their encoding, following section 3 of RFC 8949: the encoding of an item is found
    with exactly its length, whatever stands before and behind it. */
module CborItems {
  import opened Wrappers
  import opened Data
  import opened Stream
  import opened Cbor

  const TWO_64 := 0x1_0000_0000_0000_0000

  /** An item; the entries of a map are its keys and values in turn. */
  datatype Cb =
    | Unsigned(n: nat)
    | Negative(n: nat)
    | Bytes(s: seq<Byte>)
    | Text(s: seq<Byte>)
    | Array(items: seq<Cb>)
    | Map(entries: seq<Cb>)
    | Tag(n: nat, item: Cb)
    | Simple(n: nat)
    | Float(bits: seq<Byte>)
    | ByteChunks(chunks: seq<seq<Byte>>)
    | TextChunks(chunks: seq<seq<Byte>>)
    | OpenArray(items: seq<Cb>)
    | OpenMap(entries: seq<Cb>)

  predicate Sized(x: Cb)
    decreases x, 1
  {
    match x
    case Unsigned(n) => n < TWO_64
    case Negative(n) => n < TWO_64
    case Bytes(s) => |s| < TWO_64
    case Text(s) => |s| < TWO_64
    case Array(items) => |items| < TWO_64 && AllSized(items)
    case Map(entries) => |entries| % 2 == 0 && |entries| < TWO_64 && AllSized(entries)
    case Tag(n, item) => n < TWO_64 && Sized(item)
    case Simple(n) => n < 24 || 32 <= n < 256
    case Float(bits) => |bits| == 2 || |bits| == 4 || |bits| == 8
    case ByteChunks(chunks) => forall c | c in chunks :: |c| < TWO_64
    case TextChunks(chunks) => forall c | c in chunks :: |c| < TWO_64
    case OpenArray(items) => AllSized(items)
    case OpenMap(entries) => |entries| % 2 == 0 && AllSized(entries)
  }

  predicate AllSized(xs: seq<Cb>)
    decreases xs, 0
  {
    xs == [] || (Sized(xs[0]) && AllSized(xs[1..]))
  }

  // ----- encoding -----

  /** `k` bytes, the most significant first. */
  function ToBytes(n: nat, k: nat): (s: seq<Byte>)
    ensures |s| == k
  {
    if k == 0 then [] else ToBytes(n / 256, k - 1) + [n % 256]
  }

  function Info(n: nat): nat {
    if n < 24 then n else if n < 0x100 then 24 else if n < 0x1_0000 then 25 else if n < 0x1_0000_0000 then 26 else 27
  }

  function Initial(major: nat, info: nat): Byte
    requires major < 8 && info < 32
  {
    32 * major + info
  }

  function Head(major: nat, n: nat): seq<Byte>
    requires major < 8
  {
    [Initial(major, Info(n))] + ToBytes(n, ArgBytes(Info(n)))
  }

  const BREAK: Byte := 255

  function Encode(x: Cb): seq<Byte>
    decreases x, 1
  {
    match x
    case Unsigned(n) => Head(0, n)
    case Negative(n) => Head(1, n)
    case Bytes(s) => Head(2, |s|) + s
    case Text(s) => Head(3, |s|) + s
    case Array(items) => Head(4, |items|) + EncodeAll(items)
    case Map(entries) => Head(5, |entries| / 2) + EncodeAll(entries)
    case Tag(n, item) => Head(6, n) + Encode(item)
    case Simple(n) => Head(7, n)
    case Float(bits) => [Initial(7, if |bits| == 2 then 25 else if |bits| == 4 then 26 else 27)] + bits
    case ByteChunks(chunks) => [Initial(2, 31)] + EncodeChunks(2, chunks) + [BREAK]
    case TextChunks(chunks) => [Initial(3, 31)] + EncodeChunks(3, chunks) + [BREAK]
    case OpenArray(items) => [Initial(4, 31)] + EncodeAll(items) + [BREAK]
    case OpenMap(entries) => [Initial(5, 31)] + EncodeAll(entries) + [BREAK]
  }

  function EncodeAll(xs: seq<Cb>): seq<Byte>
    decreases xs, 0
  {
    if xs == [] then [] else Encode(xs[0]) + EncodeAll(xs[1..])
  }

  function EncodeChunks(major: nat, chunks: seq<seq<Byte>>): seq<Byte>
    requires major < 8
  {
    if chunks == [] then [] else Head(major, |chunks[0]|) + chunks[0] + EncodeChunks(major, chunks[1..])
  }

  /** The major type that the item is found with. */
  function MajorOf(x: Cb): int {
    match x
    case Unsigned(_) => 0
    case Negative(_) => 1
    case Bytes(_) => 2
    case Text(_) => 3
    case Array(_) => 4
    case Map(_) => 5
    case Tag(_, _) => 6
    case Simple(_) => 7
    case Float(_) => 7
    case _ => INDEFINITE
  }

  // ----- arguments -----

  function Pow256(k: nat): nat {
    if k == 0 then 1 else 256 * Pow256(k - 1)
  }

  /** The bytes `e` stand in `s` from position `i` on. */
  predicate Holds(s: seq<Byte>, i: nat, e: seq<Byte>) {
    i + |e| <= |s| && s[i..i + |e|] == e
  }

  lemma HoldsParts(s: seq<Byte>, i: nat, a: seq<Byte>, b: seq<Byte>)
    ensures Holds(s, i, a + b) <==> Holds(s, i, a) && Holds(s, i + |a|, b)
    ensures |a + b| == |a| + |b|
  {
    var n := |a| + |b|;
    if i + n <= |s| {
      assert s[i..i + n] == s[i..i + |a|] + s[i + |a|..i + n];
      if s[i..i + n] == a + b {
        assert s[i..i + |a|] == s[i..i + n][..|a|] == a;
        assert s[i + |a|..i + n] == s[i..i + n][|a|..] == b;
      }
    }
  }

  lemma HoldsFirst(s: seq<Byte>, i: nat, e: seq<Byte>)
    requires Holds(s, i, e)
    ensures i + |e| <= |s| && (e != [] ==> s[i] == e[0])
  {
    if e != [] {
      assert s[i] == s[i..i + |e|][0];
    }
  }

  lemma {:induction false} BytesRead(n: nat, k: nat, s: seq<Byte>, i: nat)
    requires n < Pow256(k) && Holds(s, i, ToBytes(n, k))
    ensures i + k <= |s| && BigEndian(s, i, k) == n
  {
    HoldsFirst(s, i, ToBytes(n, k));
    if k > 0 {
      HoldsParts(s, i, ToBytes(n / 256, k - 1), [n % 256]);
      HoldsFirst(s, i + k - 1, [n % 256]);
      hide Holds;
      BytesRead(n / 256, k - 1, s, i);
    }
  }

  lemma ArgFits(n: nat)
    requires n < TWO_64
    ensures Info(n) >= 24 ==> n < Pow256(ArgBytes(Info(n)))
  {
    assert Pow256(1) == 256 * Pow256(0) && Pow256(2) == 256 * Pow256(1);
    assert Pow256(3) == 256 * Pow256(2) && Pow256(4) == 256 * Pow256(3);
    assert Pow256(5) == 256 * Pow256(4) && Pow256(6) == 256 * Pow256(5);
    assert Pow256(7) == 256 * Pow256(6) && Pow256(8) == 256 * Pow256(7);
  }

  lemma HeadRead(major: nat, n: nat, s: seq<Byte>, i: nat, breakable: bool)
    requires major < 8 && n < TWO_64 && Holds(s, i, Head(major, n))
    ensures 0 < i + |Head(major, n)| <= |s|
    ensures At(s, i, breakable) == Definite(s, i + |Head(major, n)|, major, Info(n), n)
  {
    var info, k := Info(n), ArgBytes(Info(n));
    HoldsFirst(s, i, Head(major, n));
    HoldsParts(s, i, [Initial(major, info)], ToBytes(n, k));
    assert s[i] / 32 == major && s[i] % 32 == info && info < 28;
    hide Holds, ToBytes;
    if info >= 24 {
      ArgFits(n);
      hide Pow256;
      BytesRead(n, k, s, i + 1);
    }
    hide Definite, BigEndian;
  }

  lemma OpenRead(major: nat, s: seq<Byte>, i: nat, breakable: bool)
    requires major < 8 && Holds(s, i, [Initial(major, 31)])
    ensures i + 1 <= |s| && At(s, i, breakable) == Indefinite(s, i + 1, major, breakable)
  {
    HoldsFirst(s, i, [Initial(major, 31)]);
    assert s[i] / 32 == major && s[i] % 32 == 31;
    hide Indefinite;
  }

  lemma BreakRead(s: seq<Byte>, i: nat)
    requires Holds(s, i, [BREAK])
    ensures i + 1 <= |s| && At(s, i, true) == Break(i + 1)
  {
    assert BREAK == Initial(7, 31);
    OpenRead(7, s, i, true);
  }

  // ----- items -----

  predicate Open(x: Cb) {
    x.ByteChunks? || x.TextChunks? || x.OpenArray? || x.OpenMap?
  }

  /** The encoding of an item, wherever it stands, is found with exactly its length. */
  lemma {:induction false} ItemRead(x: Cb, s: seq<Byte>, i: nat, breakable: bool)
    requires Sized(x) && Holds(s, i, Encode(x))
    ensures At(s, i, breakable) == Item(MajorOf(x), i + |Encode(x)|)
    decreases x, 2
  {
    hide At, Holds, Encode, Sized, MajorOf;
    if Open(x) {
      OpenItemRead(x, s, i, breakable);
    } else {
      ClosedItemRead(x, s, i, breakable);
    }
  }

  lemma {:induction false} ClosedItemRead(x: Cb, s: seq<Byte>, i: nat, breakable: bool)
    requires Sized(x) && Holds(s, i, Encode(x)) && !Open(x)
    ensures At(s, i, breakable) == Item(MajorOf(x), i + |Encode(x)|)
    decreases x, 1
  {
    hide At, Items, Head, Holds, EncodeAll, EncodeChunks, Initial;
    match x
    case Unsigned(n) => HeadRead(0, n, s, i, breakable);
    case Negative(n) => HeadRead(1, n, s, i, breakable);
    case Bytes(b) => StringRead(2, b, s, i, breakable);
    case Text(b) => StringRead(3, b, s, i, breakable);
    case Array(items) =>
      var head := Head(4, |items|);
      HoldsParts(s, i, head, EncodeAll(items));
      HeadRead(4, |items|, s, i, breakable);
      ItemsRead(items, s, i + |head|);
    case Map(entries) =>
      var head := Head(5, |entries| / 2);
      HoldsParts(s, i, head, EncodeAll(entries));
      HeadRead(5, |entries| / 2, s, i, breakable);
      ItemsRead(entries, s, i + |head|);
      assert 2 * (|entries| / 2) == |entries|;
    case Tag(n, item) =>
      var head := Head(6, n);
      HoldsParts(s, i, head, Encode(item));
      HeadRead(6, n, s, i, breakable);
      ItemRead(item, s, i + |head|, false);
      OneItem(s, i + |head|);
    case Simple(n) => HeadRead(7, n, s, i, breakable);
    case Float(bits) => FloatRead(bits, s, i, breakable);
  }

  lemma {:induction false} OpenItemRead(x: Cb, s: seq<Byte>, i: nat, breakable: bool)
    requires Sized(x) && Holds(s, i, Encode(x)) && Open(x)
    ensures At(s, i, breakable) == Item(MajorOf(x), i + |Encode(x)|)
    decreases x, 1
  {
    hide At, UntilBreak, Head, Holds, EncodeAll, EncodeChunks, Initial;
    match x
    case ByteChunks(chunks) =>
      OpenParts(2, EncodeChunks(2, chunks), s, i, breakable);
      ChunksRead(2, chunks, s, i + 1);
    case TextChunks(chunks) =>
      OpenParts(3, EncodeChunks(3, chunks), s, i, breakable);
      ChunksRead(3, chunks, s, i + 1);
    case OpenArray(items) =>
      OpenParts(4, EncodeAll(items), s, i, breakable);
      OpenItemsRead(items, s, i + 1);
    case OpenMap(entries) =>
      OpenParts(5, EncodeAll(entries), s, i, breakable);
      OpenEntriesRead(entries, s, i + 1);
  }

  lemma StringRead(major: nat, b: seq<Byte>, s: seq<Byte>, i: nat, breakable: bool)
    requires (major == 2 || major == 3) && |b| < TWO_64 && Holds(s, i, Head(major, |b|) + b)
    ensures At(s, i, breakable) == Item(major, i + |Head(major, |b|) + b|)
  {
    hide At, Head;
    HoldsParts(s, i, Head(major, |b|), b);
    HeadRead(major, |b|, s, i, breakable);
    HoldsFirst(s, i + |Head(major, |b|)|, b);
  }

  lemma OneItem(s: seq<Byte>, i: nat)
    requires i <= |s| && At(s, i, false).Item?
    ensures Items(s, i, 1) == Some(At(s, i, false).end)
  {
    hide At;
  }

  lemma OpenParts(major: nat, body: seq<Byte>, s: seq<Byte>, i: nat, breakable: bool)
    requires major < 8 && Holds(s, i, [Initial(major, 31)] + body + [BREAK])
    ensures i + 1 <= |s| && At(s, i, breakable) == Indefinite(s, i + 1, major, breakable)
    ensures Holds(s, i + 1, body) && Holds(s, i + 1 + |body|, [BREAK])
    ensures |[Initial(major, 31)] + body + [BREAK]| == |body| + 2
  {
    hide At, Holds, Initial;
    HoldsParts(s, i, [Initial(major, 31)] + body, [BREAK]);
    HoldsParts(s, i, [Initial(major, 31)], body);
    OpenRead(major, s, i, breakable);
  }

  lemma FloatRead(bits: seq<Byte>, s: seq<Byte>, i: nat, breakable: bool)
    requires (|bits| == 2 || |bits| == 4 || |bits| == 8) && Holds(s, i, Encode(Float(bits)))
    ensures At(s, i, breakable) == Item(7, i + |Encode(Float(bits))|)
  {
    var info := if |bits| == 2 then 25 else if |bits| == 4 then 26 else 27;
    HoldsFirst(s, i, Encode(Float(bits)));
    assert s[i] == Initial(7, info);
    assert s[i] / 32 == 7 && s[i] % 32 == info;
    hide BigEndian, Holds;
  }

  lemma {:induction false} ItemsRead(xs: seq<Cb>, s: seq<Byte>, i: nat)
    requires AllSized(xs) && Holds(s, i, EncodeAll(xs)) && i <= |s|
    ensures Items(s, i, |xs|) == Some(i + |EncodeAll(xs)|)
    decreases xs, 0
  {
    hide At, Encode, Holds;
    if xs != [] {
      HoldsParts(s, i, Encode(xs[0]), EncodeAll(xs[1..]));
      ItemRead(xs[0], s, i, false);
      HoldsFirst(s, i + |Encode(xs[0])|, EncodeAll(xs[1..]));
      ItemsRead(xs[1..], s, i + |Encode(xs[0])|);
    }
  }

  lemma {:induction false} OpenItemsRead(xs: seq<Cb>, s: seq<Byte>, i: nat)
    requires AllSized(xs) && Holds(s, i, EncodeAll(xs)) && Holds(s, i + |EncodeAll(xs)|, [BREAK]) && i <= |s|
    ensures UntilBreak(s, i, 4) == Some(i + |EncodeAll(xs)| + 1)
    decreases xs, 0
  {
    hide At, Encode, Holds;
    if xs == [] {
      BreakRead(s, i);
    } else {
      HoldsParts(s, i, Encode(xs[0]), EncodeAll(xs[1..]));
      ItemRead(xs[0], s, i, true);
      HoldsFirst(s, i + |Encode(xs[0])|, EncodeAll(xs[1..]));
      OpenItemsRead(xs[1..], s, i + |Encode(xs[0])|);
    }
  }

  lemma {:induction false} OpenEntriesRead(xs: seq<Cb>, s: seq<Byte>, i: nat)
    requires AllSized(xs) && |xs| % 2 == 0
    requires Holds(s, i, EncodeAll(xs)) && Holds(s, i + |EncodeAll(xs)|, [BREAK]) && i <= |s|
    ensures UntilBreak(s, i, 5) == Some(i + |EncodeAll(xs)| + 1)
    decreases xs, 0
  {
    hide At, Encode, Holds;
    if xs == [] {
      BreakRead(s, i);
    } else {
      var key, val := Encode(xs[0]), Encode(xs[1]);
      assert xs[1..][0] == xs[1] && xs[1..][1..] == xs[2..];
      HoldsParts(s, i, key, EncodeAll(xs[1..]));
      HoldsParts(s, i + |key|, val, EncodeAll(xs[2..]));
      ItemRead(xs[0], s, i, true);
      ItemRead(xs[1], s, i + |key|, false);
      HoldsFirst(s, i + |key| + |val|, EncodeAll(xs[2..]));
      OpenEntriesRead(xs[2..], s, i + |key| + |val|);
    }
  }

  lemma {:induction false} ChunksRead(major: nat, chunks: seq<seq<Byte>>, s: seq<Byte>, i: nat)
    requires (major == 2 || major == 3) && forall c | c in chunks :: |c| < TWO_64
    requires Holds(s, i, EncodeChunks(major, chunks)) && Holds(s, i + |EncodeChunks(major, chunks)|, [BREAK]) && i <= |s|
    ensures UntilBreak(s, i, major) == Some(i + |EncodeChunks(major, chunks)| + 1)
    decreases |chunks|, 0
  {
    hide At, Holds, Head;
    if chunks == [] {
      BreakRead(s, i);
    } else {
      var c, rest := chunks[0], EncodeChunks(major, chunks[1..]);
      HoldsParts(s, i, Head(major, |c|) + c, rest);
      StringRead(major, c, s, i, true);
      HoldsFirst(s, i + |Head(major, |c|) + c|, rest);
      ChunksRead(major, chunks[1..], s, i + |Head(major, |c|) + c|);
    }
  }

  lemma EncodedItemDecoded<V(!new)>(interpret: seq<Byte> -> Option<V>, x: Cb, v: V)
    requires Sized(x) && interpret(Encode(x)) == Some(v)
    ensures ItemDecoder(interpret)(Encode(x)) == Some(Decoded(v, |Encode(x)|))
  {
    assert Holds(Encode(x), 0, Encode(x));
    ItemRead(x, Encode(x), 0, false);
    assert Encode(x)[..|Encode(x)|] == Encode(x);
    hide At, Encode;
  }

  lemma {:induction false} EncodedTogether(xs: seq<Cb>) returns (written: seq<seq<Byte>>)
    requires AllSized(xs)
    ensures |written| == |xs| && Concat(written) == EncodeAll(xs)
    ensures forall i | 0 <= i < |xs| :: written[i] == Encode(xs[i]) && written[i] != [] && Sized(xs[i])
    decreases xs
  {
    hide Encode, Sized;
    if xs == [] {
      written := [];
    } else {
      var rest := EncodedTogether(xs[1..]);
      written := [Encode(xs[0])] + rest;
      assert written[1..] == rest;
      EncodingNotEmpty(xs[0]);
      assert forall i | 0 < i < |xs| :: xs[i] == xs[1..][i - 1] && written[i] == rest[i - 1];
    }
  }

  lemma EncodingNotEmpty(x: Cb)
    ensures Encode(x) != []
  {
    hide ToBytes;
  }

  /** A stream of encoded items is decoded to the interpretations of exactly those items, with
      nothing left. */
  lemma EncodedStreamDecoded<V(!new)>(interpret: seq<Byte> -> Option<V>, xs: seq<Cb>, values: seq<V>)
    requires AllSized(xs) && |values| == |xs|
    requires forall i | 0 <= i < |xs| :: interpret(Encode(xs[i])) == Some(values[i])
    ensures DecodeAll(ItemDecoder(interpret), EncodeAll(xs)) == values
    ensures Undecoded(ItemDecoder(interpret), EncodeAll(xs)) == []
  {
    hide Encode, EncodeAll, Sized, AllSized, Streamable, DecodeAll, Undecoded, ItemDecoder;
    var written := EncodedTogether(xs);
    forall i | 0 <= i < |xs|
      ensures ItemDecoder(interpret)(written[i]) == Some(Decoded(values[i], |written[i]|))
    {
      EncodedItemDecoded(interpret, xs[i], values[i]);
    }
    ItemDecoderStreams(interpret);
    DecodesWhatWasWritten(ItemDecoder(interpret), written, values, []);
    assert Concat(written) + [] == EncodeAll(xs);
  }
}
