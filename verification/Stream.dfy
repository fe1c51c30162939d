/** Reading a stream of encoded items through a buffer that keeps what is left over. */
module Stream {
  import opened Wrappers
  import opened Data

  /** Decode one item at the front of the bytes: its value and how many bytes it used. */
  datatype Decoded<+V> = Decoded(value: V, used: nat)
  type Decoder<!V> = seq<Byte> -> Option<Decoded<V>>

  /** A decoder for streaming: success uses at least one byte, and no more than there are, and
      does not change when more bytes follow. */
  ghost predicate Streamable<V(!new)>(decode: Decoder<V>) {
    forall s: seq<Byte> | decode(s).Some? ::
      && 0 < decode(s).value.used <= |s|
      && forall t: seq<Byte> :: decode(s + t) == decode(s)
  }

  /** Item-by-item decoding of a whole input, up to the first position where it fails. */
  function DecodeAll<V>(decode: Decoder<V>, input: seq<Byte>): seq<V>
    decreases |input|
  {
    var d := decode(input);
    if input == [] || d.None? || !(0 < d.value.used <= |input|) then []
    else [d.value.value] + DecodeAll(decode, input[d.value.used..])
  }

  /** The bytes that `DecodeAll` leaves. */
  function Undecoded<V>(decode: Decoder<V>, input: seq<Byte>): seq<Byte>
    decreases |input|
  {
    var d := decode(input);
    if input == [] || d.None? || !(0 < d.value.used <= |input|) then input
    else Undecoded(decode, input[d.value.used..])
  }

  function Concat(chunks: seq<seq<Byte>>): seq<Byte> {
    if chunks == [] then [] else chunks[0] + Concat(chunks[1..])
  }

  /** The decoder of the input at hand: an empty store is not decoded. */
  function NextItem<V>(decode: Decoder<V>, input: seq<Byte>): Option<Decoded<V>> {
    if input == [] then None else decode(input)
  }

  /** An item found in the stored bytes is the next item of all the bytes. */
  lemma MoreBytes<V(!new)>(decode: Decoder<V>, stored: seq<Byte>, unread: seq<Byte>)
    requires Streamable(decode) && NextItem(decode, stored).Some?
    ensures NextItem(decode, stored + unread) == NextItem(decode, stored)
    ensures var used := NextItem(decode, stored).value.used;
            used <= |stored| && stored[used..] + unread == (stored + unread)[used..]
  {
  }

  /** Decoding everything is decoding the next item and then the rest. */
  lemma DecodeOne<V(!new)>(decode: Decoder<V>, input: seq<Byte>, before: seq<V>)
    requires Streamable(decode)
    ensures match NextItem(decode, input)
            case None => DecodeAll(decode, input) == [] && Undecoded(decode, input) == input
            case Some(d) =>
              && 0 < d.used <= |input|
              && before + DecodeAll(decode, input) == before + [d.value] + DecodeAll(decode, input[d.used..])
              && Undecoded(decode, input) == Undecoded(decode, input[d.used..])
  {
  }

  class Reader<V(!new)> {
    const decode: Decoder<V>
    const store: Buffer
    /** What the successive reads of the source will return; none is empty. */
    var source: seq<seq<Byte>>

    constructor (decode: Decoder<V>, source: seq<seq<Byte>>)
      requires forall i | 0 <= i < |source| :: source[i] != []
      ensures Valid() && fresh(store) && Unread() == Concat(source) && this.decode == decode
    {
      this.decode, this.source := decode, source;
      store := new Buffer();
    }

    ghost predicate Valid()
      reads this, store
    {
      store.Valid() && store.Keeps() && forall i | 0 <= i < |source| :: source[i] != []
    }

    /** Stored bytes followed by unread ones. */
    ghost function Unread(): seq<Byte>
      requires Valid()
      reads this, store, store.ptr
    {
      store.Contents() + Concat(source)
    }

    /** Try for one item in the store and chop off what it used. */
    method TryDecode() returns (found: Option<Decoded<V>>)
      requires Valid() && Streamable(decode)
      modifies store, store.ptr
      ensures Valid() && (store.ptr == old(store.ptr) || store.ptr == null || fresh(store.ptr))
      ensures found.None? ==>
                NextItem(decode, store.Contents()).None? && store.Contents() == old(store.Contents())
      ensures found.Some? ==>
                && NextItem(decode, old(store.Contents())) == found
                && store.Contents() == old(store.Contents())[found.value.used..]
    {
      found := None;
      if store.len > 0 {
        found := decode(store.ptr[..store.len]);
        if found.Some? {
          var used: int := found.value.used;
          if used > 0 {
            store.ExtendFront(-used);
          }
        }
      }
    }

    /** Read more into the store. */
    method Refill()
      requires Valid() && source != []
      modifies this, store
      ensures Valid() && |source| == |old(source)| - 1
      ensures Unread() == old(Unread())
      ensures store.ptr == old(store.ptr) || fresh(store.ptr)
    {
      assert store.Contents() + (source[0] + Concat(source[1..])) == store.Contents() + source[0] + Concat(source[1..]);
      store.AppendFrom(source[0]);
      source := source[1..];
    }

    /** Read one item. The result depends on the bytes not yet consumed and not on how the
        source splits them, and exactly the bytes of the item are consumed. */
    method Read() returns (item: Option<V>)
      requires Valid() && Streamable(decode)
      modifies this, store, store.ptr
      ensures Valid() && (store.ptr == old(store.ptr) || store.ptr == null || fresh(store.ptr))
      ensures match NextItem(decode, old(Unread()))
              case None => item == None && Unread() == old(Unread()) && source == []
              case Some(d) => item == Some(d.value) && Unread() == old(Unread())[d.used..]
    {
      ghost var input := Unread();
      while true
        invariant Valid() && Unread() == input
        invariant store.ptr == old(store.ptr) || store.ptr == null || fresh(store.ptr)
        decreases |source|
      {
        ghost var stored, unread := store.Contents(), Concat(source);
        var found := TryDecode();
        if found.Some? {
          MoreBytes(decode, stored, unread);
          return Some(found.value.value);
        }
        if source == [] {
          assert input == store.Contents();
          return None;
        }
        Refill();
      }
    }

    /** Read items until the source runs out: whatever the chunks, the values are the
        item-by-item decoding of the whole input, and what is left stored is the rest. */
    method ReadAll() returns (items: seq<V>)
      requires Valid() && Streamable(decode)
      modifies this, store, store.ptr
      ensures Valid() && source == []
      ensures items == DecodeAll(decode, old(Unread()))
      ensures store.Contents() == Undecoded(decode, old(Unread()))
    {
      hide DecodeAll, Undecoded, Streamable, NextItem;
      items := [];
      ghost var input := Unread();
      while true
        invariant Valid()
        invariant store.ptr == old(store.ptr) || store.ptr == null || fresh(store.ptr)
        invariant DecodeAll(decode, input) == items + DecodeAll(decode, Unread())
        invariant Undecoded(decode, input) == Undecoded(decode, Unread())
        decreases |Unread()|
      {
        DecodeOne(decode, Unread(), items);
        var item := Read();
        if item.None? {
          return;
        }
        items := items + [item.value];
      }
    }
  }

  /** What has been consumed, together with what remains, is always the whole input. */
  lemma {:induction false} UndecodedIsSuffix<V>(decode: Decoder<V>, input: seq<Byte>)
    ensures |Undecoded(decode, input)| <= |input|
    ensures Undecoded(decode, input) == input[|input| - |Undecoded(decode, input)|..]
    decreases |input|
  {
    var d := decode(input);
    if !(input == [] || d.None? || !(0 < d.value.used <= |input|)) {
      UndecodedIsSuffix(decode, input[d.value.used..]);
    }
  }

  /** Bytes that hold one item each, one after the other, are decoded to exactly those items, and
      bytes behind them that hold no item are left. */
  lemma {:induction false} DecodesWhatWasWritten<V(!new)>(decode: Decoder<V>, written: seq<seq<Byte>>, values: seq<V>,
                                                          rest: seq<Byte>)
    requires Streamable(decode) && |values| == |written|
    requires forall i | 0 <= i < |written| :: written[i] != [] && decode(written[i]) == Some(Decoded(values[i], |written[i]|))
    requires rest == [] || decode(rest) == None
    ensures DecodeAll(decode, Concat(written) + rest) == values
    ensures Undecoded(decode, Concat(written) + rest) == rest
  {
    if written == [] {
      assert Concat(written) + rest == rest;
    } else {
      var tail := Concat(written[1..]) + rest;
      DecodesWhatWasWritten(decode, written[1..], values[1..], rest);
      assert Concat(written) + rest == written[0] + tail;
      assert decode(written[0] + tail) == decode(written[0]);
      hide Streamable;
      assert (written[0] + tail)[|written[0]|..] == tail;
      assert [values[0]] + values[1..] == values;
    }
  }
}
