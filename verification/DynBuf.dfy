/** The growable byte buffer: size bytes in use at the front of an allocated array. */
module DynBufs {
  import opened Bytes
  import Lists

  class DynBuf {
    var buf: array<u8>
    var size: nat

    ghost predicate Valid()
      reads this
    {
      size <= buf.Length
    }

    ghost function Contents(): (s: seq<u8>)
      requires Valid()
      reads this, buf
    {
      buf[..size]
    }

    constructor ()
      ensures Valid() && fresh(buf) && Contents() == []
    {
      buf := new u8[0];
      size := 0;
    }

    /** dbuf_realloc: room for newSize bytes, growing by half at least. */
    method Realloc(newSize: nat)
      requires Valid()
      modifies this`buf
      ensures Valid() && buf.Length >= newSize && (buf == old(buf) || fresh(buf))
      ensures size == old(size) && Contents() == old(Contents())
    {
      if newSize > buf.Length {
        var want := newSize;
        var grown := buf.Length * 3 / 2;
        if grown > newSize { want := grown; }
        var b := new u8[want];
        for i := 0 to size
          invariant buf == old(buf) && size == old(size) <= buf.Length && size <= b.Length
          invariant b[..i] == buf[..i]
        {
          b[i] := buf[i];
          assert b[..i + 1] == b[..i] + [buf[i]] && buf[..i + 1] == buf[..i] + [buf[i]];
        }
        buf := b;
      }
    }

    /** dbuf_put: append data. */
    method Put(data: seq<u8>)
      requires Valid()
      modifies this, buf
      ensures Valid() && (buf == old(buf) || fresh(buf))
      ensures Contents() == old(Contents()) + data
    {
      ghost var was := Contents();
      if size + |data| > buf.Length { Realloc(size + |data|); }
      ghost var pre := buf[..];
      assert pre[..size] == was;
      Store(size, data);
      ghost var post := buf[..];
      size := size + |data|;
      assert Contents() == post[..size] == was + data;
    }

    /** dbuf_put_self: append a copy of the bytes at offset. */
    method PutSelf(offset: nat, len: nat)
      requires Valid() && offset + len <= size
      modifies this, buf
      ensures Valid() && (buf == old(buf) || fresh(buf))
      ensures Contents() == old(Contents()) + old(Contents())[offset..offset + len]
    {
      ghost var was := Contents();
      if size + len > buf.Length { Realloc(size + len); }
      ghost var pre := buf[..];
      assert pre[..size] == was;
      Copy(size, offset, len);
      ghost var post := buf[..];
      size := size + len;
      Copied(was, pre, post, offset, len);
      assert Contents() == post[..size];
    }

    static lemma Copied(was: seq<u8>, pre: seq<u8>, post: seq<u8>, offset: nat, len: nat)
      requires |pre| >= |was| + len && was == pre[..|was|] && offset + len <= |was|
      requires post == pre[..|was|] + pre[offset..offset + len] + pre[|was| + len..]
      ensures post[..|was| + len] == was + was[offset..offset + len]
    {
      Lists.Sub(pre, 0, |was|, offset, offset + len);
    }

    /** memmove of everything from pos on, len places up; the room must be there. */
    method MoveUp(pos: nat, len: nat)
      requires Valid() && pos <= size && size + len <= buf.Length
      modifies buf
      ensures buf[..][..pos] == old(buf[..])[..pos]
      ensures buf[..][pos + len..size + len] == old(buf[..])[pos..size]
    {
      ghost var was := buf[..];
      var i := size;
      while i > pos
        invariant pos <= i <= size
        invariant forall k | 0 <= k < i :: buf[k] == was[k]
        invariant forall k | i + len <= k < size + len :: buf[k] == was[k - len]
      {
        i := i - 1;
        buf[i + len] := buf[i];
      }
    }

    /** Overwrite the bytes at pos. */
    method Store(pos: nat, data: seq<u8>)
      requires pos + |data| <= buf.Length
      modifies buf
      ensures buf[..] == old(buf[..])[..pos] + data + old(buf[..])[pos + |data|..]
    {
      for i := 0 to |data|
        invariant forall k | 0 <= k < buf.Length && !(pos <= k < pos + i) :: buf[k] == old(buf[k])
        invariant forall k | pos <= k < pos + i :: buf[k] == data[k - pos]
      {
        buf[pos + i] := data[i];
      }
    }

    /** memcpy of len bytes. */
    method Copy(dst: nat, src: nat, len: nat)
      requires dst + len <= buf.Length && src + len <= buf.Length
      requires dst + len <= src || src + len <= dst
      modifies buf
      ensures buf[..] == old(buf[..])[..dst] + old(buf[..])[src..src + len] + old(buf[..])[dst + len..]
    {
      for i := 0 to len
        invariant forall k | 0 <= k < buf.Length && !(dst <= k < dst + i) :: buf[k] == old(buf[k])
        invariant forall k | dst <= k < dst + i :: buf[k] == old(buf[k - dst + src])
      {
        buf[dst + i] := buf[src + i];
      }
    }

    /** dbuf_insert followed by stores into the gap: data inserted at pos. */
    method Insert(pos: nat, data: seq<u8>)
      requires Valid() && pos <= size
      modifies this, buf
      ensures Valid() && (buf == old(buf) || fresh(buf))
      ensures Contents() == old(Contents())[..pos] + data + old(Contents())[pos..]
    {
      ghost var was := Contents();
      var len := |data|;
      Realloc(size + len);
      ghost var b0 := buf[..];
      assert b0[..size] == was;
      MoveUp(pos, len);
      ghost var b1 := buf[..];
      Store(pos, data);
      ghost var b2 := buf[..];
      size := size + len;
      Inserted(was, b0, b1, b2, pos, data);
      assert Contents() == b2[..size];
    }

    static lemma Inserted(was: seq<u8>, b0: seq<u8>, b1: seq<u8>, b2: seq<u8>, pos: nat, data: seq<u8>)
      requires pos <= |was| && |was| + |data| <= |b0| == |b1| && was == b0[..|was|]
      requires b1[..pos] == b0[..pos] && b1[pos + |data|..|was| + |data|] == b0[pos..|was|]
      requires b2 == b1[..pos] + data + b1[pos + |data|..]
      ensures b2[..|was| + |data|] == was[..pos] + data + was[pos..]
    {
      var n, len := |was|, |data|;
      Lists.Sub(b0, 0, n, 0, pos);
      Lists.Sub(b0, 0, n, pos, n);
      Lists.Sub(b1, pos + len, |b1|, 0, n - pos);
      assert b2[..n + len] == b1[..pos] + data + b1[pos + len..][..n - pos];
    }

    /** put_u32: overwrite four bytes. */
    method Poke(pos: nat, x: int)
      requires Valid() && pos + 4 <= size
      modifies buf
      ensures Contents() == old(Contents())[..pos] + PutU32(x) + old(Contents())[pos + 4..]
    {
      var d := PutU32(x);
      buf[pos], buf[pos + 1], buf[pos + 2], buf[pos + 3] := d[0], d[1], d[2], d[3];
    }

    /** Overwrite one byte. */
    method PokeByte(pos: nat, x: u8)
      requires Valid() && pos < size
      modifies buf
      ensures Contents() == old(Contents())[pos := x]
    {
      buf[pos] := x;
    }

    /** Cut the buffer back to newSize bytes. */
    method Truncate(newSize: nat)
      requires Valid() && newSize <= size
      modifies this`size
      ensures Valid() && Contents() == old(Contents())[..newSize]
    {
      size := newSize;
    }

    /** The reversal of terms: the bytes from mid on are moved to start, through the room
        beyond the end of the buffer. */
    method Rotate(start: nat, mid: nat)
      requires Valid() && start <= mid <= size
      modifies this, buf
      ensures Valid() && (buf == old(buf) || fresh(buf))
      ensures Contents() == old(Contents())[..start] + old(Contents())[mid..] + old(Contents())[start..mid]
    {
      ghost var was := Contents();
      var end, term := size, size - mid;
      Realloc(end + term);
      ghost var b0 := buf[..];
      assert b0[..size] == was;
      MoveUp(start, term);
      ghost var b1 := buf[..];
      Copy(start, end, term);
      ghost var b2 := buf[..];
      Rotated(was, b0, b1, b2, start, mid);
      assert Contents() == b2[..size];
    }

    /** Moving the tail to the front through the room beyond the end. */
    static lemma Rotated(was: seq<u8>, b0: seq<u8>, b1: seq<u8>, b2: seq<u8>, start: nat, mid: nat)
      requires start <= mid <= |was| && |b1| == |b0| >= |was| + (|was| - mid) && was == b0[..|was|]
      requires var n, term := |was|, |was| - mid;
        && b1[..start] == b0[..start] && b1[start + term..n + term] == b0[start..n]
        && b2 == b1[..start] + b1[n..n + term] + b1[start + term..]
      ensures b2[..|was|] == was[..start] + was[mid..] + was[start..mid]
    {
      var n, term := |was|, |was| - mid;
      Lists.Sub(b0, 0, n, 0, start);
      Lists.Sub(b0, 0, n, mid, n);
      Lists.Sub(b0, 0, n, start, mid);
      Lists.Sub(b1, start + term, n + term, mid - start, n - start);
      Lists.Sub(b0, start, n, mid - start, n - start);
      assert b1[n..n + term] == was[mid..];
      Lists.Sub(b1, start + term, |b1|, 0, mid - start);
      Lists.Sub(b1, start + term, n + term, 0, mid - start);
      Lists.Sub(b0, start, n, 0, mid - start);
      assert b2[..n] == b1[..start] + b1[n..n + term] + b1[start + term..][..mid - start];
    }
  }
}
