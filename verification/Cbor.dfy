/** Well-formed CBOR items, following the procedure of Appendix C of RFC 8949, as a decoder
    that meets the needs of streaming. */
module Cbor {
  import opened Wrappers
  import opened Data
  import opened Stream

  /** What stands at a position: no well-formed item, a break code, or an item of a major type
      (INDEFINITE for one of indefinite length) that ends before `end`. */
  datatype Found = Bad | Break(end: nat) | Item(major: int, end: nat)

  const INDEFINITE := 99

  function BigEndian(s: seq<Byte>, i: nat, n: nat): nat
    requires i + n <= |s|
  {
    if n == 0 then 0 else 256 * BigEndian(s, i, n - 1) + s[i + n - 1]
  }

  /** The number of argument bytes after the initial byte. */
  function ArgBytes(info: nat): nat {
    match info
    case 24 => 1
    case 25 => 2
    case 26 => 4
    case 27 => 8
    case _ => 0
  }

  function At(s: seq<Byte>, i: nat, breakable: bool): (f: Found)
    ensures !f.Bad? ==> i < f.end <= |s|
    decreases |s| - i, 0
  {
    if i >= |s| then Bad
    else
      var major, info := s[i] / 32, s[i] % 32;
      var next := i + 1 + ArgBytes(info);
      if next > |s| || 28 <= info <= 30 then Bad
      else if info == 31 then Indefinite(s, next, major, breakable)
      else Definite(s, next, major, info, if info < 24 then info else BigEndian(s, i + 1, ArgBytes(info)))
  }

  function Definite(s: seq<Byte>, i: nat, major: int, info: nat, arg: nat): (f: Found)
    requires 0 < i <= |s|
    ensures !f.Bad? ==> i <= f.end <= |s|
    decreases |s| - i, 3
  {
    if major == 2 || major == 3 then
      if i + arg <= |s| then Item(major, i + arg) else Bad
    else if major == 4 then Closed(major, Items(s, i, arg))
    else if major == 5 then Closed(major, Items(s, i, 2 * arg))
    else if major == 6 then Closed(major, Items(s, i, 1))
    else if major == 7 && info == 24 && arg < 32 then Bad
    else Item(major, i)
  }

  function Indefinite(s: seq<Byte>, i: nat, major: int, breakable: bool): (f: Found)
    requires 0 < i <= |s|
    ensures !f.Bad? ==> i <= f.end <= |s|
    decreases |s| - i, 3
  {
    if major == 2 || major == 3 then Closed(INDEFINITE, UntilBreak(s, i, major))
    else if major == 4 then Closed(INDEFINITE, UntilBreak(s, i, 4))
    else if major == 5 then Closed(INDEFINITE, UntilBreak(s, i, 5))
    else if major == 7 && breakable then Break(i)
    else Bad
  }

  function Closed(major: int, end: Option<nat>): Found {
    if end.None? then Bad else Item(major, end.value)
  }

  /** The end of `n` items. */
  function Items(s: seq<Byte>, i: nat, n: nat): (end: Option<nat>)
    requires i <= |s|
    ensures end.Some? ==> i <= end.value <= |s|
    decreases |s| - i, 2
  {
    if n == 0 then Some(i)
    else
      var f := At(s, i, false);
      if f.Item? then Items(s, f.end, n - 1) else None
  }

  /** The end of the chunks of a string (of one type), the items of an array, or the pairs of a
      map, up to and with the break code. */
  function UntilBreak(s: seq<Byte>, i: nat, major: int): (end: Option<nat>)
    requires i <= |s|
    ensures end.Some? ==> i <= end.value <= |s|
    decreases |s| - i, 2
  {
    var f := At(s, i, true);
    match f
    case Bad => None
    case Break(end) => Some(end)
    case Item(m, end) =>
      if major == 4 then UntilBreak(s, end, major)
      else if major == 5 then
        var v := At(s, end, false);
        if v.Item? then UntilBreak(s, v.end, major) else None
      else if m == major then UntilBreak(s, end, major)
      else None
  }

  // ----- more bytes do not change an item -----

  lemma {:induction false} BigEndianMore(s: seq<Byte>, t: seq<Byte>, i: nat, n: nat)
    requires i + n <= |s|
    ensures BigEndian(s + t, i, n) == BigEndian(s, i, n)
  {
    if n > 0 {
      BigEndianMore(s, t, i, n - 1);
    }
  }

  lemma {:induction false} AtMore(s: seq<Byte>, t: seq<Byte>, i: nat, breakable: bool)
    requires !At(s, i, breakable).Bad?
    ensures At(s + t, i, breakable) == At(s, i, breakable)
    decreases |s| - i, 0
  {
    var major, info := s[i] / 32, s[i] % 32;
    var next := i + 1 + ArgBytes(info);
    assert (s + t)[i] == s[i];
    if info == 31 {
      IndefiniteMore(s, t, next, major, breakable);
    } else {
      BigEndianMore(s, t, i + 1, ArgBytes(info));
      DefiniteMore(s, t, next, major, info, if info < 24 then info else BigEndian(s, i + 1, ArgBytes(info)));
    }
  }

  lemma {:induction false} DefiniteMore(s: seq<Byte>, t: seq<Byte>, i: nat, major: int, info: nat, arg: nat)
    requires 0 < i <= |s| && !Definite(s, i, major, info, arg).Bad?
    ensures Definite(s + t, i, major, info, arg) == Definite(s, i, major, info, arg)
    decreases |s| - i, 3
  {
    if 4 <= major <= 6 {
      ItemsMore(s, t, i, if major == 4 then arg else if major == 5 then 2 * arg else 1);
    }
  }

  lemma {:induction false} IndefiniteMore(s: seq<Byte>, t: seq<Byte>, i: nat, major: int, breakable: bool)
    requires 0 < i <= |s| && !Indefinite(s, i, major, breakable).Bad?
    ensures Indefinite(s + t, i, major, breakable) == Indefinite(s, i, major, breakable)
    decreases |s| - i, 3
  {
    if 2 <= major <= 5 {
      UntilBreakMore(s, t, i, major);
    }
  }

  lemma {:induction false} ItemsMore(s: seq<Byte>, t: seq<Byte>, i: nat, n: nat)
    requires i <= |s| && Items(s, i, n).Some?
    ensures Items(s + t, i, n) == Items(s, i, n)
    decreases |s| - i, 2
  {
    if n > 0 {
      AtMore(s, t, i, false);
      ItemsMore(s, t, At(s, i, false).end, n - 1);
    }
  }

  lemma {:induction false} UntilBreakMore(s: seq<Byte>, t: seq<Byte>, i: nat, major: int)
    requires i <= |s| && UntilBreak(s, i, major).Some?
    ensures UntilBreak(s + t, i, major) == UntilBreak(s, i, major)
    decreases |s| - i, 2
  {
    AtMore(s, t, i, true);
    var f := At(s, i, true);
    if f.Item? {
      if major == 5 {
        AtMore(s, t, f.end, false);
        UntilBreakMore(s, t, At(s, f.end, false).end, major);
      } else {
        UntilBreakMore(s, t, f.end, major);
      }
    }
  }

  /** Decode one well-formed item and interpret its bytes. */
  function ItemDecoder<V>(interpret: seq<Byte> -> Option<V>): Decoder<V> {
    (s: seq<Byte>) =>
      var f := At(s, 0, false);
      if !f.Item? then None
      else
        match interpret(s[..f.end])
        case None => None
        case Some(v) => Some(Decoded(v, f.end))
  }

  /** Such a decoder can be used for streaming, whatever the interpretation. */
  lemma ItemDecoderStreams<V(!new)>(interpret: seq<Byte> -> Option<V>)
    ensures Streamable(ItemDecoder(interpret))
  {
    hide At;
    var decode := ItemDecoder(interpret);
    forall s: seq<Byte> | decode(s).Some?
      ensures 0 < decode(s).value.used <= |s| && forall t: seq<Byte> :: decode(s + t) == decode(s)
    {
      var f := At(s, 0, false);
      assert f.Item? && decode(s).value.used == f.end;
      forall t: seq<Byte>
        ensures decode(s + t) == decode(s)
      {
        AtMore(s, t, 0, false);
        assert (s + t)[..f.end] == s[..f.end];
      }
    }
  }
}
