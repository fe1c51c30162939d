/** The byte buffer: a pointer and a length, either owned or a view of memory of someone else. */
module Data {

  type Byte = b: int | 0 <= b < 256

  /** Copy bytes into memory at an offset. */
  method Memcpy(dst: array<Byte>, at: nat, src: seq<Byte>)
    requires at + |src| <= dst.Length
    modifies dst
    ensures dst[..] == old(dst[..at]) + src + old(dst[at + |src|..])
  {
    for i := 0 to |src|
      invariant forall j | 0 <= j < i :: dst[at + j] == src[j]
      invariant forall j | 0 <= j < dst.Length && (j < at || at + i <= j) :: dst[j] == old(dst[j])
    {
      dst[at + i] := src[i];
    }
    assert dst[at..at + |src|] == src;
    assert dst[..] == dst[..at] + dst[at..at + |src|] + dst[at + |src|..];
  }

  class Buffer {
    var owned: bool
    var ptr: array?<Byte>
    var len: nat

    ghost predicate Valid()
      reads this
    {
      && (owned ==> ptr != null && 0 < len && ptr.Length == len)
      && (ptr != null ==> len <= ptr.Length)
    }

    ghost function Contents(): seq<Byte>
      requires Valid()
      reads this, ptr
    {
      if ptr == null then [] else ptr[..len]
    }

    /** An owned buffer, or an empty one: resizing keeps its bytes. */
    ghost predicate Keeps()
      reads this
    {
      owned || len == 0
    }

    constructor ()
      ensures Valid() && Keeps() && Contents() == [] && ptr == null && len == 0
    {
      owned, ptr, len := false, null, 0;
    }

    constructor View(src: array<Byte>)
      ensures Valid() && !owned && ptr == src && len == src.Length
    {
      owned, ptr, len := false, src, src.Length;
    }

    /** Resize; bytes beyond the kept ones are whatever the allocator left there. A view is
        left behind together with its contents, unless the length does not change. */
    method Resize(n: nat)
      requires Valid()
      modifies this
      ensures Valid() && len == n
      ensures n == old(len) ==> ptr == old(ptr) && owned == old(owned)
      ensures n != old(len) && n == 0 ==> ptr == null && !owned
      ensures n != old(len) && n != 0 ==> owned && fresh(ptr)
      ensures n != old(len) && n != 0 && old(owned) ==>
                forall i | 0 <= i < n && i < old(len) :: ptr[i] == old(ptr[i])
    {
      if n == len {
        return;
      } else if n == 0 {
        owned, ptr, len := false, null, 0;
        return;
      }
      if !owned {
        ptr := null;
      }
      var got := new Byte[n];
      if ptr != null {
        Memcpy(got, 0, ptr[..if n < len then n else len]);
      }
      owned, ptr, len := true, got, n;
    }

    /** Move `n` bytes from offset `k` to the front, in place. */
    method MoveDown(k: nat, n: nat)
      requires ptr != null && k + n <= ptr.Length
      modifies ptr
      ensures ptr[..] == old(ptr[k..k + n]) + old(ptr[n..])
    {
      for j := 0 to n
        invariant forall i | 0 <= i < j :: ptr[i] == old(ptr[i + k])
        invariant forall i | j <= i < ptr.Length :: ptr[i] == old(ptr[i])
      {
        ptr[j] := ptr[j + k];
      }
    }

    /** Drop the first `k` bytes. A view is not told from an owned buffer: its memory is moved
        and what is left of it is then lost in the resize. */
    method ShrinkFront(k: nat)
      requires Valid() && k <= len && (ptr != null || len == 0)
      modifies this, ptr
      ensures Valid() && len == old(len) - k
      ensures old(Keeps()) ==> Keeps() && Contents() == old(Contents())[k..]
      ensures !old(owned) && 0 < k < old(len) ==>
                owned && fresh(ptr) && old(ptr)[..len] == old(Contents())[k..]
      ensures ptr == old(ptr) || ptr == null || fresh(ptr)
    {
      if k == 0 {
        return;
      }
      MoveDown(k, len - k);
      Resize(len - k);
    }

    /** Grow by `extra` bytes at the front, as written: the bytes from offset `extra` on are
        moved to the front. */
    method GrowFront(extra: nat) returns (ghost junk: seq<Byte>)
      requires Valid() && 0 < extra
      modifies this
      ensures Valid() && owned && fresh(ptr) && len == old(len) + extra && |junk| == extra
      ensures old(Keeps()) ==> Contents() == GrownFront(old(Contents()), junk)
    {
      ghost var was := Contents();
      var origlen := len;
      Resize(origlen + extra);
      junk := ptr[origlen..];
      assert old(Keeps()) ==> ptr[..] == was + junk;
      MoveDown(extra, origlen);
    }

    /** Change the size at the front by a positive or negative difference. */
    method ExtendFront(extra: int)
      requires Valid() && -extra <= len && (extra < 0 ==> ptr != null)
      modifies this, ptr
      ensures Valid() && len == old(len) + extra
      ensures extra <= 0 && old(Keeps()) ==> Keeps() && Contents() == old(Contents())[-extra..]
      ensures extra > 0 && old(Keeps()) ==>
                exists junk: seq<Byte> :: |junk| == extra && Contents() == GrownFront(old(Contents()), junk)
      ensures ptr == old(ptr) || ptr == null || fresh(ptr)
    {
      if extra == 0 {
        return;
      }
      if extra > 0 {
        ghost var junk := GrowFront(extra);
      } else {
        ShrinkFront(-extra);
      }
    }

    /** Append bytes; a view loses its old contents, if any are appended. */
    method AppendFrom(src: seq<Byte>)
      requires Valid()
      modifies this
      ensures Valid() && len == old(len) + |src|
      ensures old(Keeps()) ==> Keeps() && Contents() == old(Contents()) + src
      ensures src != [] ==> owned && fresh(ptr) && ptr[old(len)..] == src
    {
      var start := len;
      Resize(len + |src|);
      if ptr != null && src != [] {
        Memcpy(ptr, start, src);
        assert ptr[start..] == src;
      }
    }

    /** Set the contents. With the length unchanged the bytes are written where the buffer
        points, so a view writes through to the memory it shares. */
    method CopyFrom(src: seq<Byte>)
      requires Valid()
      modifies this, ptr
      ensures Valid() && len == |src|
      ensures ptr != null ==> ptr[..len] == src
      ensures |src| == old(len) ==> ptr == old(ptr) && owned == old(owned)
      ensures |src| != old(len) && src != [] ==> owned && fresh(ptr)
      ensures |src| == old(len) && ptr != null ==> ptr[len..] == old(ptr[len..])
      ensures |src| != old(len) && old(ptr) != null ==> old(ptr)[..] == old(ptr[..])
    {
      Resize(|src|);
      if ptr != null {
        Memcpy(ptr, 0, src);
      }
    }
  }

  /** The front-growing branch on values: `junk` is what the allocator left behind the old bytes. */
  function GrownFront(was: seq<Byte>, junk: seq<Byte>): (r: seq<Byte>)
    ensures |r| == |was| + |junk|
  {
    var all := was + junk;
    all[|junk|..] + all[|was|..]
  }

  /** Byte by byte: what stood `extra` further on moves to the front, and the end stays. */
  lemma GrownFrontAt(was: seq<Byte>, junk: seq<Byte>, i: nat)
    requires i < |was| + |junk|
    ensures GrownFront(was, junk)[i] ==
            if i + |junk| < |was| then was[i + |junk|]
            else if i < |was| then junk[i + |junk| - |was|]
            else junk[i - |was|]
  {
  }

  /** Growing at the front puts the old bytes behind the new ones, whatever the allocator left
      behind, exactly when there are no old bytes. */
  lemma GrowFrontIff(was: seq<Byte>, extra: nat)
    requires extra > 0
    ensures was == [] <==> forall junk: seq<Byte> | |junk| == extra :: GrownFront(was, junk)[extra..] == was
  {
    if was != [] {
      var last := was[|was| - 1];
      var junk: seq<Byte> := seq(extra, _ => if last == 0 then 1 else 0);
      var all := was + junk;
      assert GrownFront(was, junk)[|was| + extra - 1] == all[|was| + extra - 1] == junk[extra - 1];
      assert GrownFront(was, junk)[extra..][|was| - 1] != last;
    }
  }

  /** Two views of the same memory: copying bytes of the same length into one changes both. */
  method WriteThrough(memory: array<Byte>, src: seq<Byte>) returns (other: Buffer)
    requires |src| == memory.Length
    modifies memory
    ensures other.Valid() && !other.owned && other.Contents() == src
  {
    var one := new Buffer.View(memory);
    other := new Buffer.View(memory);
    one.CopyFrom(src);
  }

  // ----- comparison -----

  /** What comparison sees of a buffer: a null pointer with a length, or its bytes. */
  datatype Seen = NullPtr(len: nat) | Held(bytes: seq<Byte>)
  {
    function Len(): nat {
      if NullPtr? then len else |bytes|
    }
  }

  function MemCmp(a: seq<Byte>, b: seq<Byte>): int
    requires |a| == |b|
  {
    if a == [] then 0
    else if a[0] < b[0] then -1
    else if a[0] > b[0] then 1
    else MemCmp(a[1..], b[1..])
  }

  function Cmp(a: Seen, b: Seen): int {
    if a.Len() < b.Len() then -1
    else if a.Len() > b.Len() then 1
    else if a.NullPtr? && b.NullPtr? then 0
    else if a.NullPtr? then -1
    else if b.NullPtr? then 1
    else MemCmp(a.bytes, b.bytes)
  }

  predicate Equal(a: Seen, b: Seen) {
    a.Len() == b.Len() && a.NullPtr? == b.NullPtr? && (a.Held? ==> MemCmp(a.bytes, b.bytes) == 0)
  }

  lemma {:induction false} MemCmpOrders(a: seq<Byte>, b: seq<Byte>, c: seq<Byte>)
    requires |a| == |b| == |c|
    ensures MemCmp(a, b) == 0 <==> a == b
    ensures MemCmp(a, b) == -MemCmp(b, a)
    ensures MemCmp(a, b) <= 0 && MemCmp(b, c) <= 0 ==> MemCmp(a, c) <= 0
  {
    if a != [] {
      MemCmpOrders(a[1..], b[1..], c[1..]);
      assert a == [a[0]] + a[1..] && b == [b[0]] + b[1..];
    }
  }

  /** Comparison is a total order, and its zero is equality of buffers. */
  lemma CmpOrders(a: Seen, b: Seen, c: Seen)
    ensures Cmp(a, b) == 0 <==> a == b
    ensures Equal(a, b) <==> a == b
    ensures Cmp(a, b) == -Cmp(b, a)
    ensures Cmp(a, b) <= 0 && Cmp(b, c) <= 0 ==> Cmp(a, c) <= 0
  {
    if a.Held? && b.Held? && |a.bytes| == |b.bytes| {
      MemCmpOrders(a.bytes, b.bytes, if c.Held? && |c.bytes| == |a.bytes| then c.bytes else a.bytes);
    }
  }

  /** Of two byte strings of one length the first is less at the first byte where they differ. */
  lemma {:induction false} MemCmpLess(a: seq<Byte>, b: seq<Byte>)
    requires |a| == |b|
    ensures MemCmp(a, b) < 0 <==> exists k | 0 <= k < |a| :: a[..k] == b[..k] && a[k] < b[k]
  {
    if a != [] {
      MemCmpLess(a[1..], b[1..]);
      if k :| 0 <= k < |a| && a[..k] == b[..k] && a[k] < b[k] && k > 0 {
        assert a[0] == a[..k][0] == b[..k][0] == b[0];
        assert a[1..][..k - 1] == a[..k][1..] && b[1..][..k - 1] == b[..k][1..];
        assert a[1..][k - 1] < b[1..][k - 1];
      }
      if a[0] == b[0] && MemCmp(a[1..], b[1..]) < 0 {
        var k :| 0 <= k < |a[1..]| && a[1..][..k] == b[1..][..k] && a[1..][k] < b[1..][k];
        assert a[..k + 1] == [a[0]] + a[1..][..k] && b[..k + 1] == [b[0]] + b[1..][..k];
      }
      if a[0] < b[0] {
        assert a[..0] == b[..0];
      }
    }
  }

  /** A shorter buffer is less, a null pointer is less than bytes of the same length, and bytes are
      compared from the front. */
  lemma CmpLess(a: Seen, b: Seen)
    ensures Cmp(a, b) < 0 <==>
            || a.Len() < b.Len()
            || (a.Len() == b.Len() && a.NullPtr? && b.Held?)
            || (a.Len() == b.Len() && a.Held? && b.Held? &&
                exists k | 0 <= k < |a.bytes| :: a.bytes[..k] == b.bytes[..k] && a.bytes[k] < b.bytes[k])
  {
    if a.Held? && b.Held? && |a.bytes| == |b.bytes| {
      MemCmpLess(a.bytes, b.bytes);
    }
  }
}
