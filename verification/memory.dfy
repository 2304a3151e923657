/** Byte moves within a buffer. */
module Memory {
  import opened Utf8

  /** memmove to a lower address within a buffer. */
  method MoveDown(buf: array<byte>, dst: nat, src: nat, n: nat)
    requires dst <= src && src + n <= buf.Length
    modifies buf
    ensures buf[dst..dst + n] == old(buf[src..src + n])
    ensures buf[..dst] == old(buf[..dst]) && buf[src + n..] == old(buf[src + n..])
  {
    ghost var s := buf[..];
    for i := 0 to n
      invariant forall k :: dst <= k < dst + i ==> buf[k] == s[k - dst + src]
      invariant forall k :: dst + i <= k < buf.Length ==> buf[k] == s[k]
      invariant forall k :: 0 <= k < dst ==> buf[k] == s[k]
    {
      buf[dst + i] := buf[src + i];
    }
  }

  /** memmove to a higher address within a buffer. */
  method MoveUp(buf: array<byte>, dst: nat, src: nat, n: nat)
    requires src <= dst && dst + n <= buf.Length
    modifies buf
    ensures buf[dst..dst + n] == old(buf[src..src + n])
    ensures buf[..src] == old(buf[..src]) && buf[dst + n..] == old(buf[dst + n..])
  {
    ghost var s := buf[..];
    for i := n downto 0
      invariant forall k :: dst + i <= k < dst + n ==> buf[k] == s[k - dst + src]
      invariant forall k :: 0 <= k < dst + i ==> buf[k] == s[k]
      invariant forall k :: dst + n <= k < buf.Length ==> buf[k] == s[k]
    {
      buf[dst + i] := buf[src + i];
    }
  }

  /** memcpy into a buffer. */
  method Copy(buf: array<byte>, dst: nat, data: Bytes)
    requires dst + |data| <= buf.Length
    modifies buf
    ensures buf[dst..dst + |data|] == data
    ensures buf[..dst] == old(buf[..dst]) && buf[dst + |data|..] == old(buf[dst + |data|..])
  {
    ghost var s := buf[..];
    for i := 0 to |data|
      invariant forall k :: dst <= k < dst + i ==> buf[k] == data[k - dst]
      invariant forall k :: 0 <= k < dst || dst + i <= k < buf.Length ==> buf[k] == s[k]
    {
      buf[dst + i] := data[i];
    }
  }
}
