/**
 The write-behind cache both muxers write through, and the plain positioned file it stands for.

 `File` is the reference: a byte string and a position, written with overwrite, extension and
 zero-filled holes. `SimpleCache` is the imperative cache; `Logical()` is the file a caller of
 the cache believes it is writing.
 */
module FileCache {
  import opened Bytes

  // ---------------------------------------------------------------- the plain file

  datatype File = File(bytes: seq<byte>, pos: nat)

  datatype Whence = Set | Cur | End

  function WriteAt(f: File, b: seq<byte>): File {
    if b == [] then f else
    var base := if f.pos <= |f.bytes| then f.bytes else f.bytes + Fill(f.pos - |f.bytes|, 0);
    var tail := if f.pos + |b| < |base| then base[f.pos + |b|..] else [];
    File(base[..f.pos] + b + tail, f.pos + |b|)
  }

  function SeekTarget(f: File, offset: int, whence: Whence): int {
    match whence
    case Set => offset
    case Cur => f.pos + offset
    case End => |f.bytes| + offset
  }

  // fseeko: a negative target is refused and leaves the position alone.
  function SeekFile(f: File, offset: int, whence: Whence): (File, int) {
    var target := SeekTarget(f, offset, whence);
    if target < 0 then (f, -1) else (f.(pos := target), 0)
  }

  // ftruncate: the position does not move, growing fills with zeros.
  function TruncateFile(f: File, length: int): (File, int) {
    if length < 0 then (f, -1)
    else if length <= |f.bytes| then (f.(bytes := f.bytes[..length]), 0)
    else (f.(bytes := f.bytes + Fill(length - |f.bytes|, 0)), 0)
  }

  // What a byte of the written file is, index by index.
  lemma WriteAtMeaning(f: File, b: seq<byte>)
    requires b != []
    ensures var g := WriteAt(f, b);
            && g.pos == f.pos + |b|
            && |g.bytes| == (if |f.bytes| < g.pos then g.pos else |f.bytes|)
            && g.bytes[f.pos..g.pos] == b
            && (forall i :: 0 <= i < |g.bytes| && !(f.pos <= i < g.pos) ==>
                  g.bytes[i] == if i < |f.bytes| then f.bytes[i] else 0)
  {
  }

  // What a seek does: the position counts from the start, from where it was, or from the end.
  lemma SeekMeaning(f: File, offset: int, whence: Whence)
    ensures var (g, ret) := SeekFile(f, offset, whence);
            var target := offset + (match whence case Set => 0 case Cur => f.pos case End => |f.bytes|);
            && g.bytes == f.bytes && (ret == 0 <==> target >= 0) && (target < 0 ==> ret == -1)
            && g.pos == if target >= 0 then target else f.pos
  {
  }

  // What a truncation does, index by index: it keeps the front, or adds zeros behind it.
  lemma TruncateMeaning(f: File, length: int)
    ensures var (g, ret) := TruncateFile(f, length);
            && g.pos == f.pos
            && (length < 0 ==> ret == -1 && g.bytes == f.bytes)
            && (length >= 0 ==>
                  && ret == 0 && |g.bytes| == length
                  && forall i :: 0 <= i < length ==> g.bytes[i] == if i < |f.bytes| then f.bytes[i] else 0)
  {
  }

  // Two writes in a row are one write of the concatenation: the fact that makes buffering sound.
  lemma WriteConcat(f: File, a: seq<byte>, b: seq<byte>)
    ensures WriteAt(WriteAt(f, a), b) == WriteAt(f, a + b)
  {
  }

  lemma EmptyWrite(f: File)
    ensures WriteAt(f, []) == f
  {
  }

  // Writing at the end of a file appends.
  lemma WriteAtEnd(f: File, b: seq<byte>)
    requires f.pos == |f.bytes|
    ensures WriteAt(f, b) == File(f.bytes + b, |f.bytes| + |b|)
  {
  }

  // Writing strictly inside a file replaces a slice and nothing else.
  lemma WriteInside(f: File, b: seq<byte>, pre: seq<byte>, mid: seq<byte>, post: seq<byte>)
    requires f.bytes == pre + mid + post && f.pos == |pre| && |mid| == |b|
    ensures WriteAt(f, b) == File(pre + b + post, |pre| + |b|)
  {
    if b != [] {
      assert f.bytes[..f.pos] == pre;
      assert f.bytes[f.pos + |b|..] == post;
    } else {
      assert pre + mid + post == pre + b + post;
    }
  }

  // ---------------------------------------------------------------- calls on a file

  datatype Op =
    | Write(buf: seq<byte>)
    | Seek(offset: int, whence: Whence)
    | Tell
    | Truncate(length: int)
    | Flush

  // A call made directly on the file. A zero-length write is refused with -1, as the cache does.
  function Apply(f: File, op: Op): (File, int) {
    match op
    case Write(b) => (WriteAt(f, b), if b == [] then -1 else |b|)
    case Seek(offset, whence) => SeekFile(f, offset, whence)
    case Tell => (f, f.pos)
    case Truncate(n) => TruncateFile(f, n)
    case Flush => (f, 0)
  }

  function RunPlain(f: File, ops: seq<Op>): (File, seq<int>) {
    if ops == [] then (f, [])
    else
      var (g, rs) := RunPlain(f, ops[..|ops| - 1]);
      var (h, r) := Apply(g, ops[|ops| - 1]);
      (h, rs + [r])
  }

  // ---------------------------------------------------------------- the stream and the cache

  // The output stream: accepts every byte it is given.
  class Stream {
    var file: File

    constructor ()
      ensures file == File([], 0)
    {
      file := File([], 0);
    }

    method Write(b: seq<byte>)
      modifies this
      ensures file == WriteAt(old(file), b)
    {
      file := WriteAt(file, b);
    }

    method Seek(offset: int, whence: Whence) returns (ret: int)
      modifies this
      ensures (file, ret) == SeekFile(old(file), offset, whence)
    {
      var r := SeekFile(file, offset, whence);
      file := r.0;
      ret := r.1;
    }

    method Truncate(length: int) returns (ret: int)
      modifies this
      ensures (file, ret) == TruncateFile(old(file), length)
    {
      var r := TruncateFile(file, length);
      file := r.0;
      ret := r.1;
    }
  }

  class SimpleCache {
    const stream: Stream
    const cache: array<byte>
    const cacheSize: nat
    var validLen: nat

    ghost const Repr: set<object> := {this, stream, cache}

    ghost predicate Valid()
      reads this
    {
      && cacheSize == cache.Length
      && validLen < cacheSize
    }

    // The file as the caller of the cache sees it: the pending bytes written through.
    ghost function Logical(): File
      reads this, Repr
      requires Valid()
    {
      WriteAt(stream.file, cache[..validLen])
    }

    constructor (stream: Stream, size: nat)
      requires size > 0
      ensures Valid() && fresh(Repr - {stream}) && this.stream == stream && cacheSize == size
      ensures Logical() == stream.file
    {
      this.stream := stream;
      cache := new byte[size](_ => 0);
      cacheSize := size;
      validLen := 0;
    }

    method Write(buf: seq<byte>) returns (ret: int)
      requires Valid()
      modifies Repr
      ensures Valid()
      ensures Logical() == WriteAt(old(Logical()), buf)
      ensures ret == if buf == [] then -1 else |buf|
    {
      hide WriteAt;
      if |buf| == 0 {
        assert buf == [];
        EmptyWrite(Logical());
        return -1;
      }
      ghost var f, pending := stream.file, cache[..validLen];
      if validLen > 0 {
        if validLen + |buf| <= cacheSize {
          WriteConcat(f, pending, buf);
          CopyIn(validLen, buf);
          validLen := validLen + |buf|;
          if validLen == cacheSize {
            assert cache[..] == cache[..validLen];
            stream.Write(cache[..]);
            validLen := 0;
            assert cache[..validLen] == [];
            EmptyWrite(stream.file);
          }
          return |buf|;
        }
        var size0 := cacheSize - validLen;
        WriteConcat(f, pending, buf[..size0]);
        WriteConcat(WriteAt(f, pending), buf[..size0], buf[size0..]);
        assert buf == buf[..size0] + buf[size0..];
        CopyIn(validLen, buf[..size0]);
        assert cache[..] == cache[..cacheSize] == pending + buf[..size0];
        stream.Write(cache[..]);
        validLen := 0;
        WriteRest(buf, |buf| - size0);
      } else {
        assert pending == [];
        EmptyWrite(f);
        assert buf[|buf| - |buf|..] == buf;
        WriteRest(buf, |buf|);
      }
      return |buf|;
    }

    // memcpy into the cache buffer at offset `at`.
    method CopyIn(at: nat, b: seq<byte>)
      requires at + |b| <= cache.Length
      modifies cache
      ensures cache[..at + |b|] == old(cache[..at]) + b
    {
      forall i | 0 <= i < |b| {
        cache[at + i] := b[i];
      }
    }

    // The last `leftSize` bytes of buf go out past an empty cache: whole blocks straight to the
    // stream, the remainder into the buffer.
    method WriteRest(buf: seq<byte>, leftSize: nat)
      requires Valid() && validLen == 0 && leftSize <= |buf|
      modifies Repr
      ensures Valid()
      ensures Logical() == WriteAt(old(stream.file), buf[|buf| - leftSize..])
    {
      hide WriteAt;
      ghost var f, rest := stream.file, buf[|buf| - leftSize..];
      var left := leftSize;
      if left >= cacheSize {
        var size2 := left / cacheSize * cacheSize;
        WholeBlocks(left, cacheSize);
        stream.Write(buf[|buf| - left..|buf| - left + size2]);
        left := left - size2;
        WriteConcat(f, buf[|buf| - leftSize..|buf| - left], buf[|buf| - left..]);
        assert rest == buf[|buf| - leftSize..|buf| - left] + buf[|buf| - left..];
      } else {
        EmptyWrite(f);
      }
      if left > 0 {
        CopyIn(0, buf[|buf| - left..]);
        validLen := left;
      }
      assert cache[..validLen] == buf[|buf| - left..];
    }

    method Flush() returns (ret: int)
      requires Valid()
      modifies Repr
      ensures Valid() && ret == 0 && validLen == 0
      ensures Logical() == old(Logical()) && stream.file == Logical()
    {
      if validLen > 0 {
        stream.Write(cache[..validLen]);
        validLen := 0;
      }
      return 0;
    }

    method Seek(offset: int, whence: Whence) returns (ret: int)
      requires Valid()
      modifies Repr
      ensures Valid()
      ensures (Logical(), ret) == SeekFile(old(Logical()), offset, whence) && stream.file == Logical()
      ensures var f := old(Logical());
              var target := offset + (match whence case Set => 0 case Cur => f.pos case End => |f.bytes|);
              && Logical() == File(f.bytes, if target >= 0 then target else f.pos)
              && ret == if target >= 0 then 0 else -1
    {
      var _ := Flush();
      ret := stream.Seek(offset, whence);
    }

    method Tell() returns (pos: int)
      requires Valid()
      modifies Repr
      ensures Valid() && Logical() == old(Logical()) && pos == Logical().pos && stream.file == Logical()
    {
      var _ := Flush();
      pos := stream.file.pos;
    }

    method Truncate(length: int) returns (ret: int)
      requires Valid()
      modifies Repr
      ensures Valid()
      ensures (Logical(), ret) == TruncateFile(old(Logical()), length) && stream.file == Logical()
      ensures var f, g := old(Logical()), Logical();
              && g.pos == f.pos
              && (length < 0 ==> ret == -1 && g.bytes == f.bytes)
              && (length >= 0 ==>
                    && ret == 0 && |g.bytes| == length
                    && forall i :: 0 <= i < length ==> g.bytes[i] == if i < |f.bytes| then f.bytes[i] else 0)
    {
      var _ := Flush();
      ret := stream.Truncate(length);
    }

    // Any sequence of calls through the cache is indistinguishable from the same calls on the
    // file: same results, same logical file; and one Flush makes the real file equal to it.
    method RunOps(ops: seq<Op>) returns (rs: seq<int>)
      requires Valid()
      modifies Repr
      ensures Valid()
      ensures (Logical(), rs) == RunPlain(old(Logical()), ops)
    {
      rs := [];
      var i := 0;
      while i < |ops|
        invariant Valid()
        invariant 0 <= i <= |ops|
        invariant (Logical(), rs) == RunPlain(old(Logical()), ops[..i])
      {
        assert ops[..i + 1][..i] == ops[..i];
        var r;
        match ops[i] {
          case Write(b) => r := Write(b);
          case Seek(offset, whence) => r := Seek(offset, whence);
          case Tell => r := Tell();
          case Truncate(n) => r := Truncate(n);
          case Flush => r := Flush();
        }
        rs := rs + [r];
        i := i + 1;
      }
      assert ops[..|ops|] == ops;
    }
  }

  // No cache for a size that is not positive, nor without memory.
  method CreateCacheSimple(stream: Stream, cacheSize: int, ok: bool) returns (r: SimpleCache?)
    ensures r == null <==> cacheSize <= 0 || !ok
    ensures r != null ==>
              && r.Valid() && fresh(r.Repr - {stream}) && r.stream == stream && r.cacheSize == cacheSize
              && r.Logical() == stream.file
  {
    if cacheSize <= 0 || !ok {
      return null;
    }
    r := new SimpleCache(stream, cacheSize);
  }

  lemma WholeBlocks(n: nat, size: nat)
    requires 0 < size <= n
    ensures 0 < n / size * size <= n && n - n / size * size < size
  {
    assert n == n / size * size + n % size;
  }
}
