/** glib-2.56.1/gio/gbufferedoutputstream.c over a base stream whose writes may be partial or fail. */
module BufferedOut {

  type Bytes = seq<bv8>

  /** The stream below. A write puts out at least one byte, or fails without putting out any. */
  class BaseStream {
    var contents: Bytes   // everything put out so far
    const seekable: bool
    const origin: nat     // its offset when it was opened

    constructor (seekable: bool, origin: nat)
      ensures contents == [] && this.seekable == seekable && this.origin == origin
    {
      contents := [];
      this.seekable, this.origin := seekable, origin;
    }

    /** g_seekable_tell */
    function Offset(): nat
      reads this
    {
      origin + |contents|
    }

    /** g_output_stream_write */
    method Write(data: Bytes) returns (res: int)
      requires data != []
      modifies this
      ensures res == -1 || 1 <= res <= |data|
      ensures contents == if res == -1 then old(contents) else old(contents) + data[..res]
    {
      if * {
        res := -1;
      } else {
        var k: nat := *;
        res := if 1 <= k <= |data| then k else |data|;
        contents := contents + data[..res];
      }
    }

    /** g_output_stream_write_all: `written` bytes are out even when it fails. A null buffer is refused. */
    method WriteAll(buffer: array?<bv8>, count: nat) returns (res: bool, written: nat)
      requires buffer != null ==> count <= buffer.Length
      modifies this
      ensures buffer == null ==> !res && written == 0 && contents == old(contents)
      ensures buffer != null ==>
        written <= count && contents == old(contents) + buffer[..written] && (res <==> written == count)
    {
      if buffer == null { return false, 0; }
      written := 0;
      while written < count
        invariant 0 <= written <= count && contents == old(contents) + buffer[..][..written]
      {
        var n := Write(buffer[..][written..count]);
        if n == -1 {
          assert buffer[..][..written] == buffer[..written];
          return false, written;
        }
        PieceOn(buffer[..], written, count, n);
        written := written + n;
      }
      assert buffer[..][..written] == buffer[..written];
      res := true;
    }
  }

  lemma PieceOn(b: Bytes, w: nat, count: nat, n: nat)
    requires w + n <= count <= |b|
    ensures b[..w] + b[w..count][..n] == b[..w + n]
  {
  }

  function Max(a: nat, b: nat): nat { if a > b then a else b }

  function Min(a: nat, b: nat): nat { if a < b then a else b }

  class BufferedStream {
    var buffer: array?<bv8>  // what g_malloc (0) returns is null
    var len: nat
    var pos: nat
    var autoGrow: bool
    const base: BaseStream

    ghost predicate Valid()
      reads this
    {
      && pos <= len && (buffer == null <==> len == 0)
      && (buffer != null ==> buffer.Length == len)
    }

    /** What has been accepted and is not yet written to the base stream. */
    ghost function Buffered(): Bytes
      requires Valid()
      reads this, buffer
    {
      if buffer == null then [] else buffer[..pos]
    }

    /** Every byte that has passed through or is still here. */
    ghost function All(): Bytes
      requires Valid()
      reads this, buffer, base
    {
      base.contents + Buffered()
    }

    /** g_buffered_output_stream_new_sized */
    constructor (base: BaseStream, size: nat)
      ensures Valid() && this.base == base && len == size && pos == 0 && !autoGrow && All() == base.contents
      ensures buffer != null ==> fresh(buffer)
    {
      this.base := base;
      buffer, len, pos, autoGrow := null, 0, 0, false;
      new;
      SetBufferSize(size);
    }

    /** g_malloc */
    method Malloc(size: nat) returns (p: array?<bv8>)
      ensures (p == null <==> size == 0) && (p != null ==> fresh(p) && p.Length == size)
    {
      if size == 0 { return null; }
      p := new bv8[size];
    }

    /** g_buffered_output_stream_set_buffer_size: never below the data that is in the buffer. */
    method SetBufferSize(size0: nat)
      requires Valid()
      modifies this`buffer, this`len, this`pos
      ensures Valid() && pos == old(pos) && Buffered() == old(Buffered()) && All() == old(All())
      ensures len == if size0 == old(len) then size0 else Max(size0, old(pos))
      ensures buffer != old(buffer) && buffer != null ==> fresh(buffer)
    {
      if size0 == len { return; }
      if buffer != null {
        var size := Max(size0, pos);
        var b := Malloc(size);
        if b != null {
          forall i | 0 <= i < pos { b[i] := buffer[i]; }
          assert b[..pos] == buffer[..pos];
        }
        buffer := b;
        len := size;
      } else {
        buffer := Malloc(size0);
        len := size0;
        pos := 0;
      }
    }

    /** g_buffered_output_stream_set_auto_grow */
    method SetAutoGrow(on: bool)
      modifies this`autoGrow
      ensures autoGrow == on
    {
      autoGrow := on;
    }

    /** flush_buffer: what the base stream has taken leaves the buffer, whether it took everything or not. */
    method FlushBuffer() returns (res: bool)
      requires Valid()
      modifies this`pos, buffer, base
      ensures Valid() && All() == old(All()) && old(base.contents) <= base.contents
      ensures res <==> buffer != null && pos == 0
    {
      ghost var was, below := Buffered(), base.contents;
      var ok, written := base.WriteAll(buffer, pos);
      assert Buffered() == was;
      Shift(written);
      assert below + was[..written] + was[written..] == below + was by {
        assert was == was[..written] + was[written..];
      }
      res := ok;
    }

    /** In flush_buffer: what is left moves to the front. */
    method Shift(written: nat)
      requires Valid() && written <= pos
      modifies this`pos, buffer
      ensures Valid() && pos == old(pos) - written && Buffered() == old(Buffered())[written..]
    {
      var count := pos - written;
      if count > 0 && buffer != null {
        ghost var b := buffer[..];
        forall i | 0 <= i < count { buffer[i] := buffer[i + written]; }
        assert buffer[..count] == b[..pos][written..];
      }
      pos := pos - written;
    }

    /** g_buffered_output_stream_write. A non-empty write takes at least one byte unless it fails, and takes all of
        them without touching the base stream when the buffer grows by itself. Without that it fails if and only if
        the buffer is full and has no room at all or cannot be put out to the last byte. */
    method Write(data: Bytes) returns (res: int)
      requires Valid()
      modifies this`buffer, this`len, this`pos, buffer, base
      ensures Valid() && -1 <= res <= |data| && (data != [] ==> res != 0)
      ensures All() == old(All()) + (if res == -1 then [] else data[..res])
      ensures autoGrow && data != [] ==> res == |data| && base.contents == old(base.contents)
      ensures old(pos) < old(len) ==> base.contents == old(base.contents)
      ensures old(pos) < old(len) ==> res == if autoGrow then |data| else Min(|data|, old(len) - old(pos))
      ensures data != [] ==>
        (res == -1 <==> !autoGrow && old(pos) == old(len) && (old(len) == 0 || |base.contents| < |old(All())|))
      ensures data == [] ==> (res == -1 <==> old(pos) == old(len) && (old(len) == 0 || |base.contents| < |old(All())|))
      ensures res != -1 && old(pos) == old(len) && !(autoGrow && data != []) ==>
        res == Min(|data|, old(len)) && base.contents == old(All())
      ensures buffer != old(buffer) && buffer != null ==> fresh(buffer)
    {
      var n := len - pos;
      if autoGrow && n < |data| {
        var newSize := Max(len * 2, len + |data|);
        SetBufferSize(newSize);
      } else if n == 0 {
        var ok := FlushBuffer();
        if !ok { return -1; }
      }
      n := len - pos;
      var count := Min(|data|, n);
      Put(data[..count]);
      return count;
    }

    /** In the write routine: the data goes behind what is in the buffer, where there is room for it. */
    method Put(data: Bytes)
      requires Valid() && pos + |data| <= len
      modifies this`pos, buffer
      ensures Valid() && pos == old(pos) + |data| && Buffered() == old(Buffered()) + data && All() == old(All()) + data
    {
      if buffer != null {
        ghost var b := buffer[..pos];
        forall i | 0 <= i < |data| { buffer[pos + i] := data[i]; }
        assert buffer[..pos] == b;
        pos := pos + |data|;
        assert buffer[..pos] == b + data;
      }
      assert old(base.contents) + (old(Buffered()) + data) == old(All()) + data;
    }

    /** g_buffered_output_stream_flush. `baseFlushes` is whether flushing the base stream then succeeds. */
    method Flush(baseFlushes: bool) returns (res: bool)
      requires Valid()
      modifies this`pos, buffer, base
      ensures Valid() && All() == old(All()) && old(base.contents) <= base.contents
      ensures res <==> baseFlushes && len > 0 && pos == 0
      ensures res ==> base.contents == old(All())
    {
      res := FlushBuffer();
      if !res { return false; }
      res := baseFlushes;
    }

    /** g_buffered_output_stream_tell: the offset at which the base stream was opened, and every byte since. */
    method Tell() returns (offset: nat)
      requires Valid()
      ensures offset == if base.seekable then base.origin + |All()| else 0
    {
      if !base.seekable { return 0; }
      offset := base.Offset() + pos;
    }
  }

  datatype Op = WriteOp(data: Bytes) | FlushOp(baseFlushes: bool) | ResizeOp(size: nat) | GrowOp(on: bool)

  /** Byte conservation: over any sequence of operations, whatever the base stream does, base contents followed by what
      is buffered are the bytes there were, followed by all bytes the writes have said they took. */
  method Run(s: BufferedStream, ops: seq<Op>) returns (accepted: Bytes)
    requires s.Valid()
    modifies s, s.buffer, s.base
    ensures s.Valid() && s.All() == old(s.All()) + accepted
  {
    accepted := [];
    for i := 0 to |ops|
      invariant s.Valid() && s.All() == old(s.All()) + accepted
      invariant s.buffer == old(s.buffer) || s.buffer == null || fresh(s.buffer)
    {
      match ops[i] {
        case WriteOp(data) =>
          var r := s.Write(data);
          if r != -1 {
            assert old(s.All()) + accepted + data[..r] == old(s.All()) + (accepted + data[..r]);
            accepted := accepted + data[..r];
          }
        case FlushOp(b) => var _ := s.Flush(b);
        case ResizeOp(n) => s.SetBufferSize(n);
        case GrowOp(b) => s.SetAutoGrow(b);
      }
    }
  }
}
