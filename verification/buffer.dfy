/** A growing byte buffer (buffer.c): its operations on memory are operations on the sequence of its bytes. */
module Buffers {
  import opened Memory
  import opened Utf8
  import opened Words

  function Repeat(data: Bytes, count: nat): Bytes {
    if count == 0 then [] else Repeat(data, count - 1) + data
  }

  class Buffer {
    // The memory, of which the first `size` bytes are in use; its length is the capacity.
    var base: array<byte>
    var size: nat

    ghost predicate Valid()
      reads this
    {
      size <= base.Length
    }

    ghost function Contents(): (s: Bytes)
      requires Valid()
      reads this, base
      ensures |s| == size
    {
      base[..size]
    }

    constructor ()
      ensures Valid() && fresh(base) && Contents() == [] && base.Length == 0
    {
      base := new byte[0];
      size := 0;
    }

    /** The memory only grows, to a power of two less than twice what is asked for; the bytes stay. */
    method Reserve(capacity: nat)
      requires Valid() && capacity <= WORD_TOP
      modifies this`base
      ensures Valid() && Contents() == old(Contents())
      ensures if capacity <= old(base.Length) then base == old(base)
              else fresh(base) && IsPow2(base.Length) && capacity <= base.Length < 2 * capacity
    {
      if capacity > base.Length {
        var rounded := Roundup(capacity);
        var more := new byte[rounded];
        var i := 0;
        while i < size
          invariant 0 <= i <= size && base == old(base) && fresh(more)
          invariant more[..i] == base[..i]
        {
          more[i] := base[i];
          i := i + 1;
        }
        base := more;
      }
    }

    /** New bytes at the end have any value. */
    method Resize(n: nat)
      requires Valid() && n <= WORD_TOP
      modifies this
      ensures Valid() && size == n && (base == old(base) || fresh(base)) && base.Length >= old(base.Length)
      ensures n <= old(base.Length) ==> base == old(base)
      ensures n <= old(size) ==> Contents() == old(Contents())[..n]
      ensures n >= old(size) ==> Contents()[..old(size)] == old(Contents())
    {
      if n > base.Length {
        Reserve(n);
        assert base[..size] == old(Contents());
      }
      size := n;
    }

    /** Opens a gap of n bytes at `pos`, in which the bytes have any value; `size` still counts without it. */
    method Gap(pos: nat, n: nat)
      requires Valid() && pos <= size && size + n <= WORD_TOP
      modifies this`base, base
      ensures (base == old(base) || fresh(base)) && base.Length >= old(base.Length) && size + n <= base.Length
      ensures base[..pos] == old(Contents())[..pos] && base[pos + n..size + n] == old(Contents())[pos..]
    {
      ghost var was := Contents();
      Reserve(size + n);
      assert Contents() == was;
      assert base[..pos] == was[..pos] && base[pos..size] == was[pos..];
      if pos < size {
        MoveUp(base, pos + n, pos, size - pos);
      }
    }

    method Insert(pos: nat, data: Bytes)
      requires Valid() && pos <= size && size + |data| <= WORD_TOP
      modifies this, base
      ensures Valid() && (base == old(base) || fresh(base)) && base.Length >= old(base.Length)
      ensures Contents() == old(Contents())[..pos] + data + old(Contents())[pos..]
    {
      ghost var was := Contents();
      Gap(pos, |data|);
      ghost var gap := base[..];
      Copy(base, pos, data);
      SameWithin(base[..], gap, pos + |data|, size + |data|);
      Splice(pos, |data|, data, was);
    }

    /** The bytes put into a gap become part of the buffer. */
    method Splice(pos: nat, n: nat, ghost middle: Bytes, ghost was: Bytes)
      requires Valid() && pos <= size == |was| && size + n <= base.Length && size + n <= WORD_TOP
      requires base[..pos] == was[..pos] && base[pos..pos + n] == middle && base[pos + n..size + n] == was[pos..]
      modifies this
      ensures Valid() && base == old(base) && Contents() == was[..pos] + middle + was[pos..]
    {
      Resize(size + n);
      assert base[..size] == base[..pos] + base[pos..pos + n] + base[pos + n..size];
    }

    /** `count` copies of the data at `pos`. */
    method InsertFill(pos: nat, count: nat, data: Bytes)
      requires Valid() && pos <= size && size + count * |data| <= WORD_TOP
      modifies this, base
      ensures Valid() && (base == old(base) || fresh(base)) && base.Length >= old(base.Length)
      ensures Contents() == old(Contents())[..pos] + Repeat(data, count) + old(Contents())[pos..]
    {
      ghost var was := Contents();
      var n := count * |data|;
      Gap(pos, n);
      ghost var gap := base[..];
      Fill(pos, count, data, n);
      SameWithin(base[..], gap, pos + n, size + n);
      Splice(pos, n, Repeat(data, count), was);
    }

    method Fill(pos: nat, count: nat, data: Bytes, ghost n: nat)
      requires n == count * |data| && pos + n <= base.Length
      modifies base
      ensures base[pos..pos + n] == Repeat(data, count)
      ensures base[..pos] == old(base[..pos]) && base[pos + n..] == old(base[pos + n..])
    {
      ghost var s := base[..];
      var i, at := 0, pos;
      while i < count
        invariant 0 <= i <= count && at == pos + i * |data| <= pos + n
        invariant base[pos..at] == Repeat(data, i)
        invariant base[..pos] == s[..pos] && base[at..] == s[at..]
      {
        Steps(i, count, |data|);
        Place(at, pos, data);
        i, at := i + 1, at + |data|;
      }
      assert s[at..] == old(base[at..]);
    }

    /** One copy, behind what is already in place. */
    method Place(at: nat, pos: nat, data: Bytes)
      requires pos <= at && at + |data| <= base.Length
      modifies base
      ensures base[pos..at + |data|] == old(base[pos..at]) + data
      ensures base[..pos] == old(base[..pos]) && base[at + |data|..] == old(base[at..])[|data|..]
    {
      ghost var first := base[..at];
      Copy(base, at, data);
      assert base[..at] == first;
      assert base[pos..at + |data|] == base[pos..at] + base[at..at + |data|];
      assert base[pos..at] == first[pos..] && base[..pos] == first[..pos];
    }

    /** The bytes from `pos` on are removed, `n` of them, and the rest closes up; the memory stays. */
    method Erase(pos: nat, n: nat)
      requires Valid() && pos + n <= size <= WORD_TOP
      modifies this, base
      ensures Valid() && base == old(base)
      ensures Contents() == old(Contents())[..pos] + old(Contents())[pos + n..]
    {
      ghost var was := Contents();
      assert base[pos + n..size] == was[pos + n..];
      MoveDown(base, pos, pos + n, size - pos - n);
      assert base[..pos] == was[..pos];
      Resize(size - n);
      assert base[..size] == base[..pos] + base[pos..size];
    }

    /** The memory is cut down to what is in use. */
    method Compact()
      requires Valid()
      modifies this`base
      ensures Valid() && base.Length == size && Contents() == old(Contents())
    {
      if base.Length > size {
        var less := new byte[size];
        var i := 0;
        while i < size
          invariant 0 <= i <= size && base == old(base) && fresh(less)
          invariant less[..i] == base[..i]
        {
          less[i] := base[i];
          i := i + 1;
        }
        base := less;
      }
    }
  }

  lemma SameWithin(a: Bytes, b: Bytes, from: nat, to: nat)
    requires from <= to <= |a| && |a| == |b| && a[from..] == b[from..]
    ensures a[from..to] == b[from..to]
  {
    assert a[from..to] == a[from..][..to - from];
    assert b[from..to] == b[from..][..to - from];
  }

  lemma Steps(i: nat, count: nat, n: nat)
    requires i < count
    ensures (i + 1) * n == i * n + n <= count * n
  {
    assert (count - i - 1) * n >= 0;
    assert count * n == (count - i - 1) * n + (i + 1) * n;
  }
}
