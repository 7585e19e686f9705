/** memcpy and memmove (memcpy.c, memmove.c) on one memory of bytes. */
module Memory {

  newtype byte = x: int | 0 <= x < 256

  /** A block copied all at once, from a memory that stays as it is: the specification. */
  ghost function Moved(m: seq<byte>, dst: nat, src: nat, len: nat): (r: seq<byte>)
    requires dst + len <= |m| && src + len <= |m|
    ensures |r| == |m|
  {
    if len == 0 then m else Moved(m, dst, src, len - 1)[dst + len - 1 := m[src + len - 1]]
  }

  lemma {:induction false} MovedAt(m: seq<byte>, dst: nat, src: nat, len: nat, a: nat)
    requires dst + len <= |m| && src + len <= |m| && a < |m|
    ensures Moved(m, dst, src, len)[a] == if dst <= a < dst + len then m[src + (a - dst)] else m[a]
  {
    if len > 0 {
      MovedAt(m, dst, src, len - 1, a);
    }
  }

  /** Copying k bytes and then the next n is copying k + n, if the first copy did not touch what the
      second one reads. */
  lemma Forward(m: seq<byte>, dst: nat, src: nat, k: nat, n: nat)
    requires dst + k + n <= |m| && src + k + n <= |m| && (dst <= src || src + k + n <= dst)
    ensures Moved(Moved(m, dst, src, k), dst + k, src + k, n) == Moved(m, dst, src, k + n)
  {
    var first := Moved(m, dst, src, k);
    var left, right := Moved(first, dst + k, src + k, n), Moved(m, dst, src, k + n);
    forall a: nat | a < |m| ensures left[a] == right[a] {
      MovedAt(first, dst + k, src + k, n, a);
      MovedAt(m, dst, src, k, if dst + k <= a < dst + k + n then src + k + (a - (dst + k)) else a);
      MovedAt(m, dst, src, k + n, a);
    }
  }

  lemma Backward(m: seq<byte>, dst: nat, src: nat, k: nat, n: nat)
    requires dst + k + n <= |m| && src + k + n <= |m| && src <= dst
    ensures Moved(Moved(m, dst + n, src + n, k), dst, src, n) == Moved(m, dst, src, n + k)
  {
    var first := Moved(m, dst + n, src + n, k);
    var left, right := Moved(first, dst, src, n), Moved(m, dst, src, n + k);
    forall a: nat | a < |m| ensures left[a] == right[a] {
      MovedAt(first, dst, src, n, a);
      MovedAt(m, dst + n, src + n, k, if dst <= a < dst + n then src + (a - dst) else a);
      MovedAt(m, dst, src, n + k, a);
    }
  }

  /** d[i] = s[i] for chars. */
  method CopyByte(mem: array<byte>, dst: nat, src: nat)
    requires dst < mem.Length && src < mem.Length
    modifies mem
    ensures mem[..] == Moved(old(mem[..]), dst, src, 1)
  {
    mem[dst] := mem[src];
  }

  /** d[i] = s[i] for longs: four bytes are read, then written. */
  method CopyLong(mem: array<byte>, dst: nat, src: nat)
    requires dst + 4 <= mem.Length && src + 4 <= mem.Length
    modifies mem
    ensures mem[..] == Moved(old(mem[..]), dst, src, 4)
  {
    var b0, b1, b2, b3 := mem[src], mem[src + 1], mem[src + 2], mem[src + 3];
    mem[dst], mem[dst + 1], mem[dst + 2], mem[dst + 3] := b0, b1, b2, b3;
    forall a: nat | a < mem.Length ensures mem[a] == Moved(old(mem[..]), dst, src, 4)[a] {
      MovedAt(old(mem[..]), dst, src, 4, a);
    }
  }

  // the four loops

  method LongsUp(mem: array<byte>, dst: nat, src: nat, len: nat)
    requires dst + len <= mem.Length && src + len <= mem.Length && (dst <= src || src + len <= dst) && len % 4 == 0
    modifies mem
    ensures mem[..] == Moved(old(mem[..]), dst, src, len)
  {
    var i := 0;
    while i < len / 4
      invariant 0 <= i <= len / 4 && mem[..] == Moved(old(mem[..]), dst, src, 4 * i)
    {
      CopyLong(mem, dst + 4 * i, src + 4 * i);
      Forward(old(mem[..]), dst, src, 4 * i, 4);
      i := i + 1;
    }
  }

  method BytesUp(mem: array<byte>, dst: nat, src: nat, len: nat)
    requires dst + len <= mem.Length && src + len <= mem.Length && (dst <= src || src + len <= dst)
    modifies mem
    ensures mem[..] == Moved(old(mem[..]), dst, src, len)
  {
    var i := 0;
    while i < len
      invariant 0 <= i <= len && mem[..] == Moved(old(mem[..]), dst, src, i)
    {
      CopyByte(mem, dst + i, src + i);
      Forward(old(mem[..]), dst, src, i, 1);
      i := i + 1;
    }
  }

  method LongsDown(mem: array<byte>, dst: nat, src: nat, len: nat)
    requires dst + len <= mem.Length && src + len <= mem.Length && src <= dst && len % 4 == 0
    modifies mem
    ensures mem[..] == Moved(old(mem[..]), dst, src, len)
  {
    var i := len / 4;
    while i > 0
      invariant 0 <= i <= len / 4 && mem[..] == Moved(old(mem[..]), dst + 4 * i, src + 4 * i, len - 4 * i)
    {
      CopyLong(mem, dst + 4 * (i - 1), src + 4 * (i - 1));
      Backward(old(mem[..]), dst + 4 * (i - 1), src + 4 * (i - 1), len - 4 * i, 4);
      i := i - 1;
    }
  }

  method BytesDown(mem: array<byte>, dst: nat, src: nat, len: nat)
    requires dst + len <= mem.Length && src + len <= mem.Length && src <= dst
    modifies mem
    ensures mem[..] == Moved(old(mem[..]), dst, src, len)
  {
    var i := len;
    while i > 0
      invariant 0 <= i <= len && mem[..] == Moved(old(mem[..]), dst + i, src + i, len - i)
    {
      CopyByte(mem, dst + (i - 1), src + (i - 1));
      Backward(old(mem[..]), dst + (i - 1), src + (i - 1), len - i, 1);
      i := i - 1;
    }
  }

  /** memcpy goes front to back, so it also gets overlapping blocks right when the destination is lower. */
  method MemCpy(mem: array<byte>, dst: nat, src: nat, len: nat)
    requires dst + len <= mem.Length && src + len <= mem.Length && (dst <= src || src + len <= dst)
    modifies mem
    ensures mem[..] == Moved(old(mem[..]), dst, src, len)
  {
    if dst % 4 == 0 && src % 4 == 0 && len % 4 == 0 {
      LongsUp(mem, dst, src, len);
    } else {
      BytesUp(mem, dst, src, len);
    }
  }

  /** memmove: a simultaneous copy, whatever the overlap and alignment. */
  method MemMove(mem: array<byte>, dst: nat, src: nat, len: nat)
    requires dst + len <= mem.Length && src + len <= mem.Length
    modifies mem
    ensures mem[..] == Moved(old(mem[..]), dst, src, len)
  {
    if dst < src {
      MemCpy(mem, dst, src, len);
    } else if dst % 4 == 0 && src % 4 == 0 && len % 4 == 0 {
      LongsDown(mem, dst, src, len);
    } else {
      BytesDown(mem, dst, src, len);
    }
  }
}
