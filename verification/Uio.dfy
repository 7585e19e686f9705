/** uiomove and uiomovezeros (uio.c): kernel-space scatter and gather over memmove. */
module Uio {
  import opened Common
  import opened Memory

  datatype Iovec = Iovec(base: nat, len: nat)

  // ---------------------------------------------------------------- what a list of buffers is

  /** The addresses base, base + 1, ... */
  ghost function Range(base: nat, len: nat): (r: seq<nat>)
    ensures |r| == len
    decreases len
  {
    if len == 0 then [] else [base] + Range(base + 1, len - 1)
  }

  lemma {:induction false} RangeAt(base: nat, len: nat, i: nat)
    requires i < len
    ensures Range(base, len)[i] == base + i
    decreases i
  {
    if i > 0 {
      RangeAt(base + 1, len - 1, i - 1);
    }
  }

  /** The addresses of the buffers, one after the other. */
  ghost function Cells(iovs: seq<Iovec>): seq<nat> {
    if iovs == [] then [] else Range(iovs[0].base, iovs[0].len) + Cells(iovs[1..])
  }

  function TotalLen(iovs: seq<Iovec>): (n: nat)
    ensures n == |Cells(iovs)|
  {
    if iovs == [] then 0 else iovs[0].len + TotalLen(iovs[1..])
  }

  ghost predicate Within(cells: seq<nat>, n: nat) {
    forall i :: 0 <= i < |cells| ==> cells[i] < n
  }

  /** No buffer touches the n bytes at ptr. */
  ghost predicate Apart(cells: seq<nat>, ptr: nat, n: nat) {
    forall i :: 0 <= i < |cells| ==> cells[i] < ptr || ptr + n <= cells[i]
  }

  // ---------------------------------------------------------------- what a transfer does, byte by byte

  /** What a uio is about: memory, the addresses left, and uio_offset. */
  datatype View = View(m: seq<byte>, cells: seq<nat>, offset: int)

  ghost predicate Sane(v: View) {
    Within(v.cells, |v.m|)
  }

  /** A read of the bytes i to j of data: each goes to the next address, as long as there is one. */
  ghost function Read(v: View, data: seq<byte>, i: nat, j: nat): (r: View)
    requires Sane(v) && i <= j <= |data|
    ensures Sane(r) && |r.m| == |v.m|
    decreases j
  {
    if i == j then v
    else
      var w := Read(v, data, i, j - 1);
      if w.cells == [] then w
      else View(w.m[w.cells[0] := data[j - 1]], w.cells[1..], w.offset + 1)
  }

  /** A write of n bytes to ptr: each comes from the next address, as long as there is one. */
  ghost function Write(v: View, ptr: nat, n: nat): (r: View)
    requires Sane(v) && ptr + n <= |v.m|
    ensures Sane(r) && |r.m| == |v.m|
  {
    if n == 0 then v
    else
      var w := Write(v, ptr, n - 1);
      if w.cells == [] then w
      else View(w.m[ptr + n - 1 := w.m[w.cells[0]]], w.cells[1..], w.offset + 1)
  }

  /** A read can be broken anywhere. */
  lemma {:induction false} ReadTwice(v: View, data: seq<byte>, i: nat, j: nat, k: nat)
    requires Sane(v) && i <= j <= k <= |data|
    ensures Read(Read(v, data, i, j), data, j, k) == Read(v, data, i, k)
    decreases k
  {
    if j < k {
      ReadTwice(v, data, i, j, k - 1);
    }
  }

  function Nth(d: seq<byte>, i: nat, k: nat): byte
    requires i + k < |d|
  {
    d[i + k]
  }

  /** Only the bytes count. */
  lemma {:induction false} SameBytes(v: View, d: seq<byte>, i: nat, d': seq<byte>, i': nat, n: nat)
    requires Sane(v) && i + n <= |d| && i' + n <= |d'| && forall k :: 0 <= k < n ==> Nth(d, i, k) == Nth(d', i', k)
    ensures Read(v, d, i, i + n) == Read(v, d', i', i' + n)
    decreases n
  {
    if n > 0 {
      SameBytes(v, d, i, d', i', n - 1);
      assert Nth(d, i, n - 1) == Nth(d', i', n - 1);
    }
  }

  lemma {:induction false} WriteTwice(v: View, ptr: nat, a: nat, b: nat)
    requires Sane(v) && ptr + a + b <= |v.m|
    ensures Write(Write(v, ptr, a), ptr + a, b) == Write(v, ptr, a + b)
    decreases b
  {
    if b > 0 {
      WriteTwice(v, ptr, a, b - 1);
    }
  }

  /** How far a transfer of n bytes gets. */
  ghost function Min(a: nat, b: nat): nat {
    if a < b then a else b
  }

  /** It uses up addresses one by one and the offset moves with them. */
  lemma {:induction false} ReadCells(v: View, data: seq<byte>, i: nat, j: nat)
    requires Sane(v) && i <= j <= |data|
    ensures Read(v, data, i, j).cells == v.cells[Min(j - i, |v.cells|)..]
    ensures Read(v, data, i, j).offset == v.offset + Min(j - i, |v.cells|)
    decreases j
  {
    if i < j {
      ReadCells(v, data, i, j - 1);
    }
  }

  lemma {:induction false} WriteCells(v: View, ptr: nat, n: nat)
    requires Sane(v) && ptr + n <= |v.m|
    ensures Write(v, ptr, n).cells == v.cells[Min(n, |v.cells|)..]
    ensures Write(v, ptr, n).offset == v.offset + Min(n, |v.cells|)
    decreases n
  {
    if n > 0 {
      WriteCells(v, ptr, n - 1);
    }
  }

  /** Bytes that are in no buffer stay. */
  lemma {:induction false} ReadOther(v: View, data: seq<byte>, i: nat, j: nat, a: nat)
    requires Sane(v) && i <= j <= |data| && a < |v.m| && a !in v.cells
    ensures Read(v, data, i, j).m[a] == v.m[a]
    decreases j
  {
    if i < j {
      ReadOther(v, data, i, j - 1, a);
      ReadCells(v, data, i, j - 1);
    }
  }

  lemma {:induction false} WriteOther(v: View, ptr: nat, n: nat, a: nat)
    requires Sane(v) && ptr + n <= |v.m| && a < |v.m| && (a < ptr || ptr + n <= a)
    ensures Write(v, ptr, n).m[a] == v.m[a]
    decreases n
  {
    if n > 0 {
      WriteOther(v, ptr, n - 1, a);
    }
  }

  /** With buffers that do not overlap, the k-th address gets the k-th byte. */
  lemma {:induction false} ReadAt(v: View, data: seq<byte>, i: nat, j: nat, k: nat)
    requires Sane(v) && i <= j <= |data| && NoDup(v.cells) && k < |v.cells|
    ensures Read(v, data, i, j).m[v.cells[k]] == if k < j - i then data[i + k] else v.m[v.cells[k]]
    decreases j
  {
    if i < j {
      ReadAt(v, data, i, j - 1, k);
      ReadCells(v, data, i, j - 1);
    }
  }

  /** With buffers apart from ptr, the i-th byte there comes from the i-th address. */
  lemma {:induction false} WriteAt(v: View, ptr: nat, n: nat, i: nat)
    requires Sane(v) && ptr + n <= |v.m| && Apart(v.cells, ptr, n) && i < n
    ensures Write(v, ptr, n).m[ptr + i] == if i < |v.cells| then v.m[v.cells[i]] else v.m[ptr + i]
    decreases n
  {
    WriteCells(v, ptr, n - 1);
    if i < n - 1 {
      WriteAt(v, ptr, n - 1, i);
    } else {
      WriteOther(v, ptr, n - 1, ptr + i);
      if i < |v.cells| {
        WriteOther(v, ptr, n - 1, v.cells[i]);
      }
    }
  }

  // ---------------------------------------------------------------- many reads

  ghost function Concat(srcs: seq<seq<byte>>): seq<byte> {
    if srcs == [] then [] else Concat(srcs[..|srcs| - 1]) + srcs[|srcs| - 1]
  }

  ghost function ReadAll(v: View, srcs: seq<seq<byte>>): (r: View)
    requires Sane(v)
    ensures Sane(r)
  {
    if srcs == [] then v
    else Read(ReadAll(v, srcs[..|srcs| - 1]), srcs[|srcs| - 1], 0, |srcs[|srcs| - 1]|)
  }

  lemma {:induction false} ReadConcat(v: View, a: seq<byte>, b: seq<byte>)
    requires Sane(v)
    ensures Read(Read(v, a, 0, |a|), b, 0, |b|) == Read(v, a + b, 0, |a + b|)
  {
    SameBytes(v, a, 0, a + b, 0, |a|);
    SameBytes(Read(v, a, 0, |a|), b, 0, a + b, |a|, |b|);
    ReadTwice(v, a + b, 0, |a|, |a + b|);
  }

  /** Any sequence of reads writes the concatenated sources, cut to the room there is, to the buffers in
      order; what was moved comes off the room and goes on the offset. */
  lemma {:induction false} ReadsConcatenate(v: View, srcs: seq<seq<byte>>)
    requires Sane(v)
    ensures ReadAll(v, srcs) == Read(v, Concat(srcs), 0, |Concat(srcs)|)
    ensures |ReadAll(v, srcs).cells| + ReadAll(v, srcs).offset == |v.cells| + v.offset
  {
    if srcs != [] {
      ReadsConcatenate(v, srcs[..|srcs| - 1]);
      ReadConcat(v, Concat(srcs[..|srcs| - 1]), srcs[|srcs| - 1]);
    }
    ReadCells(v, Concat(srcs), 0, |Concat(srcs)|);
  }

  // ---------------------------------------------------------------- one buffer at a time

  ghost function Used(iovs: seq<Iovec>, size: nat): seq<Iovec>
    requires iovs != [] && size <= iovs[0].len
  {
    iovs[0 := Iovec(iovs[0].base + size, iovs[0].len - size)]
  }

  lemma {:induction false} RangeDrop(base: nat, len: nat, size: nat)
    requires size <= len
    ensures Range(base + size, len - size) == Range(base, len)[size..]
  {
    forall i: nat | i < len - size ensures Range(base + size, len - size)[i] == Range(base, len)[size..][i] {
      RangeAt(base + size, len - size, i);
      RangeAt(base, len, size + i);
    }
  }

  /** Using up bytes of the first buffer uses up addresses. */
  lemma {:induction false} UsedCells(iovs: seq<Iovec>, size: nat)
    requires iovs != [] && size <= iovs[0].len
    ensures Cells(Used(iovs, size)) == Cells(iovs)[size..]
  {
    RangeDrop(iovs[0].base, iovs[0].len, size);
    assert Used(iovs, size)[1..] == iovs[1..];
  }

  /** The first size addresses are base, base + 1, ... */
  ghost predicate Starts(cells: seq<nat>, base: nat, size: nat) {
    size <= |cells| && forall i :: 0 <= i < size ==> cells[i] == base + i
  }

  lemma {:induction false} FirstCells(iovs: seq<Iovec>, size: nat)
    requires iovs != [] && size <= iovs[0].len
    ensures Starts(Cells(iovs), iovs[0].base, size)
  {
    forall i: nat | i < size ensures Cells(iovs)[i] == iovs[0].base + i {
      RangeAt(iovs[0].base, iovs[0].len, i);
    }
  }

  /** memmove to addresses in a row is a read. */
  lemma {:induction false} RowRead(v: View, base: nat, ptr: nat, size: nat)
    requires Sane(v) && Starts(v.cells, base, size) && base + size <= |v.m| && ptr + size <= |v.m|
    ensures Read(v, v.m, ptr, ptr + size).m == Moved(v.m, base, ptr, size)
    decreases size
  {
    if size > 0 {
      RowRead(v, base, ptr, size - 1);
      ReadCells(v, v.m, ptr, ptr + size - 1);
    }
  }

  lemma {:induction false} RowReadView(v: View, base: nat, ptr: nat, size: nat)
    requires Sane(v) && Starts(v.cells, base, size) && base + size <= |v.m| && ptr + size <= |v.m|
    ensures Read(v, v.m, ptr, ptr + size) == View(Moved(v.m, base, ptr, size), v.cells[size..], v.offset + size)
  {
    RowRead(v, base, ptr, size);
    ReadCells(v, v.m, ptr, ptr + size);
  }

  /** memmove from there is a write. */
  lemma {:induction false} RowWrite(v: View, base: nat, ptr: nat, size: nat)
    requires Sane(v) && Starts(v.cells, base, size) && base + size <= |v.m| && ptr + size <= |v.m|
    requires base + size <= ptr || ptr + size <= base
    ensures Write(v, ptr, size).m == Moved(v.m, ptr, base, size)
    decreases size
  {
    if size > 0 {
      RowWrite(v, base, ptr, size - 1);
      WriteCells(v, ptr, size - 1);
      WriteOther(v, ptr, size - 1, base + size - 1);
    }
  }

  lemma {:induction false} RowWriteView(v: View, base: nat, ptr: nat, size: nat)
    requires Sane(v) && Starts(v.cells, base, size) && base + size <= |v.m| && ptr + size <= |v.m|
    requires base + size <= ptr || ptr + size <= base
    ensures Write(v, ptr, size) == View(Moved(v.m, ptr, base, size), v.cells[size..], v.offset + size)
  {
    RowWrite(v, base, ptr, size);
    WriteCells(v, ptr, size);
  }

  /** Where the first buffer lies. */
  lemma {:induction false} FirstBuffer(iovs: seq<Iovec>, m: nat, ptr: nat, n: nat)
    requires iovs != [] && iovs[0].len > 0 && Within(Cells(iovs), m) && Apart(Cells(iovs), ptr, n)
    ensures iovs[0].base + iovs[0].len <= m
    ensures n == 0 || iovs[0].base + iovs[0].len <= ptr || ptr + n <= iovs[0].base
  {
    var base, len := iovs[0].base, iovs[0].len;
    forall i: nat | i < len ensures Cells(iovs)[i] == base + i {
      RangeAt(base, len, i);
    }
    assert Cells(iovs)[len - 1] == base + len - 1 && Cells(iovs)[0] == base;
    assert base < ptr < base + len ==> Cells(iovs)[ptr - base] == ptr;
  }

  lemma {:induction false} RestOfCells(iovs: seq<Iovec>)
    requires iovs != []
    ensures Cells(iovs[1..]) == Cells(iovs)[iovs[0].len..] == Cells(Used(iovs, iovs[0].len))
  {
    assert Used(iovs, iovs[0].len)[1..] == iovs[1..];
  }

  /** The buffers lie in a memory of m bytes. */
  ghost predicate InMemory(iovs: seq<Iovec>, m: nat) {
    forall i :: 0 <= i < |iovs| ==> iovs[i].len == 0 || iovs[i].base + iovs[i].len <= m
  }

  lemma {:induction false} BuffersFit(iovs: seq<Iovec>, m: nat)
    requires Within(Cells(iovs), m)
    ensures InMemory(iovs, m)
  {
    if iovs != [] {
      RestOfCells(iovs);
      BuffersFit(iovs[1..], m);
      assert forall i :: 0 < i < |iovs| ==> iovs[i] == iovs[1..][i - 1];
      if iovs[0].len > 0 {
        FirstBuffer(iovs, m, 0, 0);
      }
    }
  }

  // ---------------------------------------------------------------- what a transfer does, buffer by buffer

  datatype Rw = UioRead | UioWrite

  /** memmove between ptr and one buffer. */
  ghost function Chunk(rw: Rw, m: seq<byte>, base: nat, ptr: nat, size: nat): (r: seq<byte>)
    requires base + size <= |m| && ptr + size <= |m|
    ensures |r| == |m|
  {
    if rw == UioRead then Moved(m, base, ptr, size) else Moved(m, ptr, base, size)
  }

  /** Memory after min(n, room) bytes have moved between ptr and the buffers, each buffer at once.  The
      block at ptr may touch the buffers. */
  ghost function Transfer(rw: Rw, m: seq<byte>, iovs: seq<Iovec>, ptr: nat, n: nat): (r: seq<byte>)
    requires InMemory(iovs, |m|) && ptr + n <= |m|
    ensures |r| == |m|
    decreases |iovs|
  {
    if iovs == [] || n == 0 then m
    else if iovs[0].len == 0 then Transfer(rw, m, iovs[1..], ptr, n)
    else
      var size := Min(iovs[0].len, n);
      Transfer(rw, Chunk(rw, m, iovs[0].base, ptr, size), iovs[1..], ptr + size, n - size)
  }

  /** All there is to a uio after that transfer. */
  ghost function After(rw: Rw, m: seq<byte>, iovs: seq<Iovec>, offset: int, ptr: nat, n: nat): View
    requires InMemory(iovs, |m|) && ptr + n <= |m|
  {
    var k := Min(n, |Cells(iovs)|);
    View(Transfer(rw, m, iovs, ptr, n), Cells(iovs)[k..], offset + k)
  }

  /** The loop will end there. */
  ghost predicate LeadsTo(rw: Rw, m: seq<byte>, iovs: seq<Iovec>, offset: int, ptr: nat, n: nat, goal: View)
    requires InMemory(iovs, |m|) && ptr + n <= |m|
  {
    forall u {:trigger Look(u)} :: Look(u) ==> After(rw, m, iovs, offset, ptr, n) == goal
  }

  lemma {:induction false} NoRoom(rw: Rw, m: seq<byte>, iovs: seq<Iovec>, offset: int, ptr: nat, n: nat)
    requires InMemory(iovs, |m|) && ptr + n <= |m| && (n == 0 || Cells(iovs) == [])
    ensures After(rw, m, iovs, offset, ptr, n) == View(m, Cells(iovs), offset)
  {
    if iovs != [] && n > 0 {
      RestOfCells(iovs);
      NoRoom(rw, m, iovs[1..], offset, ptr, n);
    }
  }

  lemma {:induction false} AfterEmpty(rw: Rw, m: seq<byte>, iovs: seq<Iovec>, offset: int, ptr: nat, n: nat)
    requires InMemory(iovs, |m|) && ptr + n <= |m| && iovs != [] && iovs[0].len == 0
    ensures After(rw, m, iovs, offset, ptr, n) == After(rw, m, iovs[1..], offset, ptr, n)
  {
    RestOfCells(iovs);
  }

  lemma {:induction false} AfterChunk(rw: Rw, m: seq<byte>, iovs: seq<Iovec>, offset: int, ptr: nat, n: nat, size: nat)
    requires InMemory(iovs, |m|) && ptr + n <= |m| && iovs != [] && size == Min(iovs[0].len, n) > 0
    ensures InMemory(Used(iovs, size), |m|)
    ensures After(rw, Chunk(rw, m, iovs[0].base, ptr, size), Used(iovs, size), offset + size, ptr + size, n - size)
            == After(rw, m, iovs, offset, ptr, n)
  {
    UsedCells(iovs, size);
    TransferChunk(rw, m, iovs, ptr, n, size);
    DropTwice(Cells(iovs), size, n);
  }

  lemma {:induction false} DropTwice(cells: seq<nat>, size: nat, n: nat)
    requires size <= |cells| && size <= n
    ensures cells[size..][Min(n - size, |cells| - size)..] == cells[Min(n, |cells|)..]
  {
  }

  lemma {:induction false} TransferChunk(rw: Rw, m: seq<byte>, iovs: seq<Iovec>, ptr: nat, n: nat, size: nat)
    requires InMemory(iovs, |m|) && ptr + n <= |m| && iovs != [] && size == Min(iovs[0].len, n) > 0
    ensures InMemory(Used(iovs, size), |m|)
    ensures Transfer(rw, Chunk(rw, m, iovs[0].base, ptr, size), Used(iovs, size), ptr + size, n - size)
            == Transfer(rw, m, iovs, ptr, n)
  {
    assert Used(iovs, size)[1..] == iovs[1..];
    var m' := Chunk(rw, m, iovs[0].base, ptr, size);
    assert Transfer(rw, m, iovs, ptr, n) == Transfer(rw, m', iovs[1..], ptr + size, n - size);
    if size == n {
      assert Transfer(rw, m', iovs[1..], ptr + size, 0) == m';
    }
  }

  lemma {:induction false} RestApart(iovs: seq<Iovec>, m: nat, ptr: nat, n: nat, size: nat)
    requires iovs != [] && Within(Cells(iovs), m) && Apart(Cells(iovs), ptr, n) && size <= n
    ensures Within(Cells(iovs[1..]), m) && Apart(Cells(iovs[1..]), ptr + size, n - size)
  {
    RestOfCells(iovs);
  }

  /** The first buffer's part of a read byte by byte. */
  lemma {:induction false} ReadFirst(m: seq<byte>, iovs: seq<Iovec>, offset: int, ptr: nat, n: nat)
    requires iovs != [] && Within(Cells(iovs), |m|) && Within(Cells(iovs[1..]), |m|)
    requires ptr + n <= |m| && Apart(Cells(iovs), ptr, n) && iovs[0].base + iovs[0].len <= |m|
    ensures var v, len := View(m, Cells(iovs), offset), iovs[0].len;
            && (n <= len ==> Read(v, m, ptr, ptr + n).m == Chunk(UioRead, m, iovs[0].base, ptr, n))
            && (len < n ==>
                  var w := View(Chunk(UioRead, m, iovs[0].base, ptr, len), Cells(iovs[1..]), offset + len);
                  Read(v, m, ptr, ptr + n) == Read(w, w.m, ptr + len, ptr + n))
  {
    var v, len := View(m, Cells(iovs), offset), iovs[0].len;
    if n <= len {
      FirstCells(iovs, n);
      RowRead(v, iovs[0].base, ptr, n);
    } else {
      FirstCells(iovs, len);
      RowReadView(v, iovs[0].base, ptr, len);
      RestOfCells(iovs);
      ReadMore(v, ptr, ptr + len, ptr + n, ptr + n);
    }
  }

  lemma {:induction false} WriteFirst(m: seq<byte>, iovs: seq<Iovec>, offset: int, ptr: nat, n: nat)
    requires iovs != [] && iovs[0].len > 0 && Within(Cells(iovs), |m|) && Within(Cells(iovs[1..]), |m|)
    requires ptr + n <= |m| && Apart(Cells(iovs), ptr, n) && iovs[0].base + iovs[0].len <= |m|
    ensures var v, len := View(m, Cells(iovs), offset), iovs[0].len;
            && (n <= len ==> Write(v, ptr, n).m == Chunk(UioWrite, m, iovs[0].base, ptr, n))
            && (len < n ==>
                  var w := View(Chunk(UioWrite, m, iovs[0].base, ptr, len), Cells(iovs[1..]), offset + len);
                  Write(v, ptr, n) == Write(w, ptr + len, n - len))
  {
    var v, len := View(m, Cells(iovs), offset), iovs[0].len;
    FirstBuffer(iovs, |m|, ptr, n);
    if n <= len {
      FirstCells(iovs, n);
      if n > 0 {
        RowWrite(v, iovs[0].base, ptr, n);
      }
    } else {
      FirstCells(iovs, len);
      RowWriteView(v, iovs[0].base, ptr, len);
      RestOfCells(iovs);
      WriteTwice(v, ptr, len, n - len);
    }
  }

  lemma {:induction false} TransferFirst(rw: Rw, m: seq<byte>, iovs: seq<Iovec>, ptr: nat, n: nat, size: nat)
    requires InMemory(iovs, |m|) && ptr + n <= |m| && iovs != [] && size == Min(iovs[0].len, n) > 0
    ensures InMemory(iovs[1..], |m|)
    ensures var m' := Chunk(rw, m, iovs[0].base, ptr, size);
            Transfer(rw, m, iovs, ptr, n) == if size == n then m' else Transfer(rw, m', iovs[1..], ptr + size, n - size)
  {
    var m' := Chunk(rw, m, iovs[0].base, ptr, size);
    assert size == n ==> Transfer(rw, m', iovs[1..], ptr + n, 0) == m';
  }

  lemma {:induction false} ReadStep(m: seq<byte>, iovs: seq<Iovec>, offset: int, ptr: nat, n: nat)
    requires InMemory(iovs, |m|) && Within(Cells(iovs), |m|) && ptr + n <= |m| && Apart(Cells(iovs), ptr, n)
    requires iovs != [] && iovs[0].len > 0 && n > 0 && Within(Cells(iovs[1..]), |m|)
    requires iovs[0].len < n ==>
               var len := iovs[0].len;
               var w := View(Chunk(UioRead, m, iovs[0].base, ptr, len), Cells(iovs[1..]), offset + len);
               Transfer(UioRead, w.m, iovs[1..], ptr + len, n - len) == Read(w, w.m, ptr + len, ptr + n).m
    ensures Transfer(UioRead, m, iovs, ptr, n) == Read(View(m, Cells(iovs), offset), m, ptr, ptr + n).m
  {
    TransferFirst(UioRead, m, iovs, ptr, n, Min(iovs[0].len, n));
    ReadFirst(m, iovs, offset, ptr, n);
  }

  lemma {:induction false} WriteStep(m: seq<byte>, iovs: seq<Iovec>, offset: int, ptr: nat, n: nat)
    requires InMemory(iovs, |m|) && Within(Cells(iovs), |m|) && ptr + n <= |m| && Apart(Cells(iovs), ptr, n)
    requires iovs != [] && iovs[0].len > 0 && n > 0 && Within(Cells(iovs[1..]), |m|)
    requires iovs[0].len < n ==>
               var len := iovs[0].len;
               var w := View(Chunk(UioWrite, m, iovs[0].base, ptr, len), Cells(iovs[1..]), offset + len);
               Transfer(UioWrite, w.m, iovs[1..], ptr + len, n - len) == Write(w, ptr + len, n - len).m
    ensures Transfer(UioWrite, m, iovs, ptr, n) == Write(View(m, Cells(iovs), offset), ptr, n).m
  {
    TransferFirst(UioWrite, m, iovs, ptr, n, Min(iovs[0].len, n));
    WriteFirst(m, iovs, offset, ptr, n);
  }

  lemma {:induction false} TransferReads(m: seq<byte>, iovs: seq<Iovec>, offset: int, ptr: nat, n: nat)
    requires InMemory(iovs, |m|) && Within(Cells(iovs), |m|) && ptr + n <= |m| && Apart(Cells(iovs), ptr, n)
    ensures Transfer(UioRead, m, iovs, ptr, n) == Read(View(m, Cells(iovs), offset), m, ptr, ptr + n).m
    decreases |iovs|
  {
    if iovs == [] || n == 0 {
      NoRoomToRead(View(m, Cells(iovs), offset), m, ptr, ptr, ptr + n);
    } else if iovs[0].len == 0 {
      RestOfCells(iovs);
      TransferReads(m, iovs[1..], offset, ptr, n);
    } else {
      var len := iovs[0].len;
      RestApart(iovs, |m|, ptr, n, Min(len, n));
      if len < n {
        TransferReads(Chunk(UioRead, m, iovs[0].base, ptr, len), iovs[1..], offset + len, ptr + len, n - len);
      }
      ReadStep(m, iovs, offset, ptr, n);
    }
  }

  lemma {:induction false} TransferWrites(m: seq<byte>, iovs: seq<Iovec>, offset: int, ptr: nat, n: nat)
    requires InMemory(iovs, |m|) && Within(Cells(iovs), |m|) && ptr + n <= |m| && Apart(Cells(iovs), ptr, n)
    ensures Transfer(UioWrite, m, iovs, ptr, n) == Write(View(m, Cells(iovs), offset), ptr, n).m
    decreases |iovs|
  {
    if iovs == [] || n == 0 {
      NoRoomToWrite(View(m, Cells(iovs), offset), ptr, 0, n);
    } else if iovs[0].len == 0 {
      RestOfCells(iovs);
      TransferWrites(m, iovs[1..], offset, ptr, n);
    } else {
      var len := iovs[0].len;
      RestApart(iovs, |m|, ptr, n, Min(len, n));
      if len < n {
        TransferWrites(Chunk(UioWrite, m, iovs[0].base, ptr, len), iovs[1..], offset + len, ptr + len, n - len);
      }
      WriteStep(m, iovs, offset, ptr, n);
    }
  }

  /** With buffers apart from the block, the transfer is one read or write byte by byte. */
  lemma {:induction false} ByteByByte(rw: Rw, m: seq<byte>, iovs: seq<Iovec>, offset: int, ptr: nat, n: nat)
    requires InMemory(iovs, |m|) && Within(Cells(iovs), |m|) && ptr + n <= |m| && Apart(Cells(iovs), ptr, n)
    ensures var v := View(m, Cells(iovs), offset);
            After(rw, m, iovs, offset, ptr, n) == if rw == UioRead then Read(v, m, ptr, ptr + n) else Write(v, ptr, n)
  {
    var v := View(m, Cells(iovs), offset);
    TransferReads(m, iovs, offset, ptr, n);
    TransferWrites(m, iovs, offset, ptr, n);
    ReadCells(v, m, ptr, ptr + n);
    WriteCells(v, ptr, n);
  }

  // ---------------------------------------------------------------- the calls

  ghost function Zeros(n: nat): (z: seq<byte>)
    ensures |z| == n && forall i :: 0 <= i < n ==> z[i] == 0
  {
    seq(n, _ => 0)
  }

  /** Stopping when the room is gone is the whole transfer. */
  lemma {:induction false} NoRoomToRead(v: View, data: seq<byte>, i: nat, j: nat, k: nat)
    requires Sane(v) && i <= j <= k <= |data| && (j == k || Read(v, data, i, j).cells == [])
    ensures Read(v, data, i, j) == Read(v, data, i, k)
    decreases k
  {
    if j < k {
      NoRoomToRead(v, data, i, j, k - 1);
    }
  }

  lemma {:induction false} NoRoomToWrite(v: View, ptr: nat, done: nat, n: nat)
    requires Sane(v) && done <= n && ptr + n <= |v.m| && (done == n || Write(v, ptr, done).cells == [])
    ensures Write(v, ptr, done) == Write(v, ptr, n)
    decreases n
  {
    if done < n {
      NoRoomToWrite(v, ptr, done, n - 1);
    }
  }

  /** The kernel's side of a run of reads: it puts bytes somewhere, or calls uiomove or uiomovezeros. */
  datatype Call = Put(ptr: nat, data: seq<byte>) | Move(ptr: nat, n: nat) | MoveZeros(n: nat)

  ghost function Stored(m: seq<byte>, ptr: nat, data: seq<byte>): (r: seq<byte>)
    requires ptr + |data| <= |m|
    ensures |r| == |m|
  {
    m[..ptr] + data + m[ptr + |data|..]
  }

  /** What it touches lies in memory and apart from the buffers, and it leaves the block of zeros alone. */
  ghost predicate Proper(c: Call, cells: seq<nat>, zeros: nat, size: nat) {
    match c
    case Put(ptr, data) =>
      ptr + |data| <= size && Apart(cells, ptr, |data|) && (ptr + |data| <= zeros || zeros + 16 <= ptr)
    case Move(ptr, n) => ptr + n <= size && Apart(cells, ptr, n)
    case MoveZeros(_) => true
  }

  ghost predicate AllProper(calls: seq<Call>, cells: seq<nat>, zeros: nat, size: nat) {
    forall i :: 0 <= i < |calls| ==> Proper(calls[i], cells, zeros, size)
  }

  /** Memory with what the first k calls put there. */
  ghost function PutBy(m: seq<byte>, calls: seq<Call>, k: nat, cells: seq<nat>, zeros: nat): (r: seq<byte>)
    requires k <= |calls| && AllProper(calls, cells, zeros, |m|)
    ensures |r| == |m|
  {
    if k == 0 then m
    else
      var w := PutBy(m, calls, k - 1, cells, zeros);
      assert Proper(calls[k - 1], cells, zeros, |m|);
      if calls[k - 1].Put? then Stored(w, calls[k - 1].ptr, calls[k - 1].data) else w
  }

  /** The bytes a call has to move, as they lie in m. */
  ghost function Source(m: seq<byte>, c: Call): seq<byte>
    requires c.Move? ==> c.ptr + c.n <= |m|
  {
    match c
    case Put(_, _) => []
    case Move(ptr, n) => m[ptr..ptr + n]
    case MoveZeros(n) => Zeros(n)
  }

  /** The sources of the first k calls, each as it lay at its call. */
  ghost function Sources(m: seq<byte>, calls: seq<Call>, k: nat, cells: seq<nat>, zeros: nat): (r: seq<seq<byte>>)
    requires k <= |calls| && AllProper(calls, cells, zeros, |m|)
    ensures |r| == k
  {
    if k == 0 then []
    else
      assert Proper(calls[k - 1], cells, zeros, |m|);
      Sources(m, calls, k - 1, cells, zeros) + [Source(PutBy(m, calls, k - 1, cells, zeros), calls[k - 1])]
  }

  /** Where a uio has got to when the first k calls are done, if each is one read. */
  ghost function Stage(v: View, calls: seq<Call>, k: nat, zeros: nat): (r: View)
    requires Sane(v) && k <= |calls| && AllProper(calls, v.cells, zeros, |v.m|)
    ensures Sane(r)
  {
    ReadAll(v.(m := PutBy(v.m, calls, k, v.cells, zeros)), Sources(v.m, calls, k, v.cells, zeros))
  }

  class Request {
    const mem: array<byte>
    const rw: Rw
    var iovs: seq<Iovec>   // uio_iov and the uio_iovcnt - 1 entries after it
    var resid: nat
    var offset: int

    /** uio_resid is the room in the buffers, which lie in memory. */
    ghost predicate Valid()
      reads this, mem
    {
      resid == TotalLen(iovs) && Within(Cells(iovs), mem.Length) && InMemory(iovs, mem.Length)
    }

    ghost function Shows(): View
      reads this, mem
    {
      View(mem[..], Cells(iovs), offset)
    }

    constructor (mem: array<byte>, iovs: seq<Iovec>, offset: int, rw: Rw)
      requires Within(Cells(iovs), mem.Length)
      ensures Valid() && Shows() == View(mem[..], Cells(iovs), offset) && this.mem == mem && this.rw == rw
    {
      this.mem, this.iovs, this.resid, this.offset, this.rw := mem, iovs, TotalLen(iovs), offset, rw;
      BuffersFit(iovs, mem.Length);
    }

    /** Empty buffers are passed over; since resid counts real room, there is always another one. */
    method SkipEmpty(ghost ptr: nat, ghost n: nat)
      requires Valid() && resid > 0 && ptr + n <= mem.Length
      modifies `iovs
      ensures Valid() && Cells(iovs) == old(Cells(iovs)) && iovs != [] && iovs[0].len > 0
      ensures After(rw, mem[..], iovs, offset, ptr, n) == After(rw, mem[..], old(iovs), offset, ptr, n)
    {
      while iovs[0].len == 0
        invariant Valid() && resid > 0 && iovs != [] && Cells(iovs) == old(Cells(iovs))
        invariant After(rw, mem[..], iovs, offset, ptr, n) == After(rw, mem[..], old(iovs), offset, ptr, n)
        decreases |iovs|
      {
        RestOfCells(iovs);
        AfterEmpty(rw, mem[..], iovs, offset, ptr, n);
        iovs := iovs[1..];
      }
    }

    /** Between ptr and the first buffer. */
    method MoveChunk(ptr: nat, size: nat)
      requires Valid() && iovs != [] && 0 < size <= iovs[0].len && ptr + size <= mem.Length
      modifies this, mem
      ensures Valid() && iovs == Used(old(iovs), size) && offset == old(offset) + size
      ensures mem[..] == Chunk(rw, old(mem[..]), old(iovs)[0].base, ptr, size)
    {
      UsedCells(iovs, size);
      if rw == UioRead {
        MemMove(mem, iovs[0].base, ptr, size);
      } else {
        MemMove(mem, ptr, iovs[0].base, size);
      }
      iovs := iovs[0 := Iovec(iovs[0].base + size, iovs[0].len - size)];
      resid, offset := resid - size, offset + size;
    }

    /** One turn of the loop, behind any empty buffers. */
    method MoveNext(ptr: nat, n: nat, ghost goal: View) returns (size: nat)
      requires Valid() && resid > 0 && n > 0 && ptr + n <= mem.Length
      requires LeadsTo(rw, mem[..], iovs, offset, ptr, n, goal)
      modifies this, mem
      ensures Valid() && 0 < size <= n && LeadsTo(rw, mem[..], iovs, offset, ptr + size, n - size, goal)
    {
      assert Look(true);
      SkipEmpty(ptr, n);
      size := if iovs[0].len > n then n else iovs[0].len;
      AfterChunk(rw, mem[..], iovs, offset, ptr, n, size);
      MoveChunk(ptr, size);
    }

    /** uiomove: min(n, resid) bytes, from ptr to the buffers for UIO_READ and back for UIO_WRITE.  If the
        buffers are elsewhere it is a transfer byte by byte. */
    method UioMove(ptr: nat, n: nat)
      requires Valid() && ptr + n <= mem.Length
      modifies this, mem
      ensures Valid() && Shows() == After(rw, old(mem[..]), old(iovs), old(offset), ptr, n)
      ensures Apart(old(Cells(iovs)), ptr, n) ==>
                Shows() == if rw == UioRead then Read(old(Shows()), old(mem[..]), ptr, ptr + n) else Write(old(Shows()), ptr, n)
    {
      ghost var goal := After(rw, mem[..], iovs, offset, ptr, n);
      if Apart(Cells(iovs), ptr, n) {
        ByteByByte(rw, mem[..], iovs, offset, ptr, n);
      }
      var at: nat, left: nat := ptr, n;
      while left > 0 && resid > 0
        invariant Valid() && at + left <= mem.Length && LeadsTo(rw, mem[..], iovs, offset, at, left, goal)
        decreases left
      {
        var size := MoveNext(at, left, goal);
        at, left := at + size, left - size;
      }
      assert Look(true);
      NoRoom(rw, mem[..], iovs, offset, at, left);
    }

    /** uiomovezeros: n zero bytes, from a block of sixteen, as far as there is room. */
    method UioMoveZeros(zeros: nat, n: nat)
      requires Valid() && rw == UioRead && zeros + 16 <= mem.Length && Apart(Cells(iovs), zeros, 16)
      requires forall k :: 0 <= k < 16 ==> Nth(mem[..], zeros, k) == 0
      modifies this, mem
      ensures Valid() && Shows() == Read(old(Shows()), Zeros(n), 0, n)
    {
      ghost var v := Shows();
      var moved := 0;
      while moved < n
        invariant Valid() && moved <= n && Shows() == Read(v, Zeros(n), 0, moved)
      {
        moved := ZerosTurn(v, zeros, n, moved);
      }
    }

    method ZerosTurn(ghost v: View, zeros: nat, n: nat, moved: nat) returns (next: nat)
      requires Valid() && rw == UioRead && moved < n && Sane(v) && |v.m| == mem.Length
      requires Shows() == Read(v, Zeros(n), 0, moved)
      requires zeros + 16 <= |v.m| && Apart(v.cells, zeros, 16) && forall k :: 0 <= k < 16 ==> Nth(v.m, zeros, k) == 0
      modifies this, mem
      ensures Valid() && moved < next <= n && Shows() == Read(v, Zeros(n), 0, next)
    {
      var amt := if 16 > n - moved then n - moved else 16;
      next := moved + amt;
      ReadZeros(v, zeros, n, moved, amt);
      UioMove(zeros, amt);
    }

    /** Any sequence of calls writes the concatenated sources, each as it lay at its call, to the buffers
        in order, cut to the room there is; what was moved comes off resid and goes on the offset. */
    method MakeCalls(calls: seq<Call>, zeros: nat)
      requires Valid() && rw == UioRead && AllProper(calls, Cells(iovs), zeros, mem.Length)
      requires zeros + 16 <= mem.Length && Apart(Cells(iovs), zeros, 16)
      requires forall k :: 0 <= k < 16 ==> Nth(mem[..], zeros, k) == 0
      modifies this, mem
      ensures var given := Concat(Sources(old(mem[..]), calls, |calls|, old(Cells(iovs)), zeros));
              && Shows() == Read(old(Shows()).(m := PutBy(old(mem[..]), calls, |calls|, old(Cells(iovs)), zeros)),
                                 given, 0, |given|)
              && resid == old(resid) - Min(|given|, old(resid)) && offset == old(offset) + Min(|given|, old(resid))
      ensures Valid()
    {
      ghost var v := Shows();
      var k := 0;
      while k < |calls|
        invariant Valid() && k <= |calls| && Shows() == Stage(v, calls, k, zeros)
      {
        MakeCall(calls, zeros, v, k);
        k := k + 1;
      }
      ghost var v', srcs := v.(m := PutBy(v.m, calls, k, v.cells, zeros)), Sources(v.m, calls, k, v.cells, zeros);
      ReadsConcatenate(v', srcs);
      ReadCells(v', Concat(srcs), 0, |Concat(srcs)|);
    }

    /** One of them. */
    method MakeCall(calls: seq<Call>, zeros: nat, ghost v: View, k: nat)
      requires Valid() && rw == UioRead && Sane(v) && |v.m| == mem.Length && AllProper(calls, v.cells, zeros, |v.m|)
      requires zeros + 16 <= |v.m| && Apart(v.cells, zeros, 16) && forall k :: 0 <= k < 16 ==> Nth(v.m, zeros, k) == 0
      requires k < |calls| && Shows() == Stage(v, calls, k, zeros)
      modifies this, mem
      ensures Valid() && Shows() == Stage(v, calls, k + 1, zeros)
    {
      assert Proper(calls[k], v.cells, zeros, |v.m|);
      match calls[k]
      case Put(ptr, data) =>
        StagePut(v, calls, k, zeros);
        Store(ptr, data);
      case Move(ptr, n) =>
        StageMove(v, calls, k, zeros);
        UioMove(ptr, n);
      case MoveZeros(n) =>
        StageZeros(v, calls, k, zeros);
        UioMoveZeros(zeros, n);
    }

    /** The kernel puts bytes somewhere. */
    method Store(ptr: nat, data: seq<byte>)
      requires ptr + |data| <= mem.Length
      modifies mem
      ensures mem[..] == Stored(old(mem[..]), ptr, data)
    {
      var i := 0;
      while i < |data|
        invariant i <= |data|
        invariant forall a :: 0 <= a < mem.Length ==> mem[a] == if ptr <= a < ptr + i then data[a - ptr] else old(mem[a])
      {
        mem[ptr + i] := data[i];
        i := i + 1;
      }
    }
  }

  /** Sources apart from the buffers lie where they lay before, whatever has been read. */
  lemma {:induction false} SourceStays(v: View, srcs: seq<seq<byte>>, ptr: nat, n: nat)
    requires Sane(v) && ptr + n <= |v.m| && Apart(v.cells, ptr, n)
    ensures var w := ReadAll(v, srcs);
            |w.m| == |v.m| && Apart(w.cells, ptr, n) && forall k :: 0 <= k < n ==> Nth(w.m, ptr, k) == Nth(v.m, ptr, k)
  {
    var w, all := ReadAll(v, srcs), Concat(srcs);
    ReadsConcatenate(v, srcs);
    ReadCells(v, all, 0, |all|);
    forall k | 0 <= k < n ensures Nth(w.m, ptr, k) == Nth(v.m, ptr, k) {
      ReadOther(v, all, 0, |all|, ptr + k);
    }
  }

  lemma {:induction false} SameSource(w: View, m: seq<byte>, ptr: nat, n: nat)
    requires Sane(w) && ptr + n <= |m| == |w.m| && forall k :: 0 <= k < n ==> Nth(w.m, ptr, k) == Nth(m, ptr, k)
    ensures Read(w, w.m, ptr, ptr + n) == Read(w, m[ptr..ptr + n], 0, n)
  {
    var src := m[ptr..ptr + n];
    forall k | 0 <= k < n ensures Nth(w.m, ptr, k) == Nth(src, 0, k) {
      assert Nth(w.m, ptr, k) == Nth(m, ptr, k);
    }
    SameBytes(w, w.m, ptr, src, 0, n);
  }

  lemma {:induction false} ReadAllMore(v: View, srcs: seq<seq<byte>>, src: seq<byte>)
    requires Sane(v)
    ensures ReadAll(v, srcs + [src]) == Read(ReadAll(v, srcs), src, 0, |src|)
  {
    assert (srcs + [src])[..|srcs|] == srcs;
  }

  /** Putting bytes outside the buffers and reading do not get in each other's way. */
  lemma {:induction false} PutRead(v: View, data: seq<byte>, i: nat, j: nat, ptr: nat, d: seq<byte>)
    requires Sane(v) && i <= j <= |data| && ptr + |d| <= |v.m| && Apart(v.cells, ptr, |d|)
    ensures var r := Read(v, data, i, j); r.(m := Stored(r.m, ptr, d)) == Read(v.(m := Stored(v.m, ptr, d)), data, i, j)
    decreases j
  {
    if i < j {
      PutRead(v, data, i, j - 1, ptr, d);
      ReadCells(v, data, i, j - 1);
      var w := Read(v, data, i, j - 1);
      if w.cells != [] {
        StoredAround(w.m, ptr, d, w.cells[0], data[j - 1]);
      }
    }
  }

  lemma {:induction false} StoredAround(m: seq<byte>, ptr: nat, d: seq<byte>, a: nat, x: byte)
    requires ptr + |d| <= |m| && a < |m| && (a < ptr || ptr + |d| <= a)
    ensures Stored(m[a := x], ptr, d) == Stored(m, ptr, d)[a := x]
  {
  }

  lemma {:induction false} PutReadAll(v: View, srcs: seq<seq<byte>>, ptr: nat, d: seq<byte>)
    requires Sane(v) && ptr + |d| <= |v.m| && Apart(v.cells, ptr, |d|)
    ensures var r := ReadAll(v, srcs);
            |r.m| == |v.m| && r.(m := Stored(r.m, ptr, d)) == ReadAll(v.(m := Stored(v.m, ptr, d)), srcs)
  {
    ReadsConcatenate(v, srcs);
    ReadsConcatenate(v.(m := Stored(v.m, ptr, d)), srcs);
    PutRead(v, Concat(srcs), 0, |Concat(srcs)|, ptr, d);
  }

  lemma {:induction false} MoveMore(v: View, srcs: seq<seq<byte>>, ptr: nat, n: nat)
    requires Sane(v) && ptr + n <= |v.m| && Apart(v.cells, ptr, n)
    ensures var w := ReadAll(v, srcs);
            && |w.m| == |v.m| && Apart(w.cells, ptr, n)
            && ReadAll(v, srcs + [v.m[ptr..ptr + n]]) == Read(w, w.m, ptr, ptr + n)
  {
    SourceStays(v, srcs, ptr, n);
    SameSource(ReadAll(v, srcs), v.m, ptr, n);
    ReadAllMore(v, srcs, v.m[ptr..ptr + n]);
  }

  lemma {:induction false} StagePut(v: View, calls: seq<Call>, k: nat, zeros: nat)
    requires Sane(v) && k < |calls| && AllProper(calls, v.cells, zeros, |v.m|) && calls[k].Put?
    ensures var w := Stage(v, calls, k, zeros);
            && calls[k].ptr + |calls[k].data| <= |v.m| == |w.m|
            && Stage(v, calls, k + 1, zeros) == w.(m := Stored(w.m, calls[k].ptr, calls[k].data))
  {
    var v', srcs := v.(m := PutBy(v.m, calls, k, v.cells, zeros)), Sources(v.m, calls, k, v.cells, zeros);
    assert Proper(calls[k], v.cells, zeros, |v.m|);
    PutReadAll(v', srcs, calls[k].ptr, calls[k].data);
    ReadAllMore(v'.(m := Stored(v'.m, calls[k].ptr, calls[k].data)), srcs, []);
  }

  lemma {:induction false} StageMove(v: View, calls: seq<Call>, k: nat, zeros: nat)
    requires Sane(v) && k < |calls| && AllProper(calls, v.cells, zeros, |v.m|) && calls[k].Move?
    ensures var w, ptr, n := Stage(v, calls, k, zeros), calls[k].ptr, calls[k].n;
            && ptr + n <= |v.m| == |w.m| && Apart(w.cells, ptr, n)
            && Stage(v, calls, k + 1, zeros) == Read(w, w.m, ptr, ptr + n)
  {
    var v', srcs := v.(m := PutBy(v.m, calls, k, v.cells, zeros)), Sources(v.m, calls, k, v.cells, zeros);
    assert Proper(calls[k], v.cells, zeros, |v.m|);
    MoveMore(v', srcs, calls[k].ptr, calls[k].n);
  }

  lemma {:induction false} StageZeros(v: View, calls: seq<Call>, k: nat, zeros: nat)
    requires Sane(v) && k < |calls| && AllProper(calls, v.cells, zeros, |v.m|) && calls[k].MoveZeros?
    requires zeros + 16 <= |v.m| && Apart(v.cells, zeros, 16) && forall i :: 0 <= i < 16 ==> Nth(v.m, zeros, i) == 0
    ensures var w, n := Stage(v, calls, k, zeros), calls[k].n;
            && |w.m| == |v.m| && Apart(w.cells, zeros, 16) && (forall i :: 0 <= i < 16 ==> Nth(w.m, zeros, i) == 0)
            && Stage(v, calls, k + 1, zeros) == Read(w, Zeros(n), 0, n)
  {
    var v', srcs := v.(m := PutBy(v.m, calls, k, v.cells, zeros)), Sources(v.m, calls, k, v.cells, zeros);
    ZerosStay(v.m, calls, k, v.cells, zeros);
    SourceStays(v', srcs, zeros, 16);
    ReadAllMore(v', srcs, Zeros(calls[k].n));
  }

  lemma {:induction false} ZerosStay(m: seq<byte>, calls: seq<Call>, k: nat, cells: seq<nat>, zeros: nat)
    requires k <= |calls| && AllProper(calls, cells, zeros, |m|) && zeros + 16 <= |m|
    requires forall i :: 0 <= i < 16 ==> Nth(m, zeros, i) == 0
    ensures forall i :: 0 <= i < 16 ==> Nth(PutBy(m, calls, k, cells, zeros), zeros, i) == 0
  {
    if k > 0 {
      ZerosStay(m, calls, k - 1, cells, zeros);
      assert Proper(calls[k - 1], cells, zeros, |m|);
      var w, w' := PutBy(m, calls, k - 1, cells, zeros), PutBy(m, calls, k, cells, zeros);
      forall i | 0 <= i < 16 ensures Nth(w', zeros, i) == 0 {
        assert Nth(w, zeros, i) == 0;
      }
    }
  }

  /** What is read from stays as it is, so the next chunk is the next part of the same read. */
  lemma {:induction false} ReadMore(v: View, ptr: nat, at: nat, to: nat, end: nat)
    requires Sane(v) && ptr <= at <= to <= end <= |v.m| && Apart(v.cells, ptr, end - ptr)
    ensures var w := Read(v, v.m, ptr, at); Read(w, w.m, at, to) == Read(v, v.m, ptr, to)
  {
    var w := Read(v, v.m, ptr, at);
    forall k | 0 <= k < to - at ensures Nth(w.m, at, k) == Nth(v.m, at, k) {
      ReadOther(v, v.m, ptr, at, at + k);
    }
    SameBytes(w, w.m, at, v.m, at, to - at);
    ReadTwice(v, v.m, ptr, at, to);
  }

  lemma {:induction false} ReadZeros(v: View, zeros: nat, n: nat, moved: nat, amt: nat)
    requires Sane(v) && zeros + 16 <= |v.m| && Apart(v.cells, zeros, 16) && moved + amt <= n && amt <= 16
    requires forall k :: 0 <= k < 16 ==> Nth(v.m, zeros, k) == 0
    ensures var w := Read(v, Zeros(n), 0, moved);
            && Read(w, w.m, zeros, zeros + amt) == Read(v, Zeros(n), 0, moved + amt)
            && Apart(w.cells, zeros, amt)
  {
    var w := Read(v, Zeros(n), 0, moved);
    forall k | 0 <= k < amt ensures Nth(w.m, zeros, k) == Nth(Zeros(n), moved, k) {
      assert Nth(v.m, zeros, k) == 0;
      ReadOther(v, Zeros(n), 0, moved, zeros + k);
    }
    SameBytes(w, w.m, zeros, Zeros(n), moved, amt);
    ReadTwice(v, Zeros(n), 0, moved, moved + amt);
    ReadCells(v, Zeros(n), 0, moved);
  }
}
