/** The block-device loops `do_backup` and `do_flash`. */
module BackupLoop {
  import opened Common
  import opened Streams

  /** `is_end_of_device_error`; `windows` selects the platform's error codes. */
  predicate IsEndOfDeviceError(e: IoError, bytesIn: nat, total: Option<nat>, slack: nat, windows: bool) {
    && (total.Some? ==> bytesIn + slack >= total.value)
    && (|| e.unexpectedEof
        || (windows && e.osCode.Some? && e.osCode.value in {23, 27, 38, 87}))
  }

  datatype Error = ReadError(offset: nat, error: IoError) | WriteError

  /** Why the loop of a successful backup ended. */
  datatype Stop = TotalReached | AtEof | Tolerated(error: IoError)

  /** The bytes to ask for next; `None` when the known total has been reached. */
  function ToRead(bytesIn: nat, total: Option<nat>, bufSize: nat): Option<nat> {
    if total.None? then Some(bufSize)
    else if bytesIn >= total.value then None
    else Some(Min(total.value - bytesIn, bufSize))
  }

  /**
   * `do_backup`, for any schedule of short reads, read errors and write errors. A successful backup fed
   * encoder and hasher the first `bytesIn` bytes of the source, never passed a known total, and stopped
   * because the total was reached, the source ended, or within one buffer of the total the read failed with
   * an unexpected end or, on Windows, one of four codes. No such error fails the backup; a failure names the
   * offset of any other read error, or comes from a failing write.
   */
  method DoBackup(src: ByteSource, encoder: ByteSink, total: Option<nat>, bufSize: nat, windows: bool)
    returns (r: Result<(nat, Bytes), Error>, ghost stop: Stop)
    requires bufSize > 0 && src.pos == 0 && encoder.written == []
    modifies src, encoder
    ensures encoder.written <= src.data
    ensures r.Ok? ==>
              var (bytesIn, hashed) := r.value;
              && bytesIn <= |src.data| && (total.Some? ==> bytesIn <= total.value)
              && hashed == encoder.written == src.data[..bytesIn]
              && match stop
                 case TotalReached => total == Some(bytesIn)
                 case AtEof => bytesIn == |src.data|
                 case Tolerated(e) =>
                   && Fails(e) in old(src.schedule)
                   && (e.unexpectedEof || (windows && e.osCode in {Some(23), Some(27), Some(38), Some(87)}))
                   && (total.Some? ==> total.value <= bytesIn + bufSize)
    ensures r.Ok? && !stop.Tolerated? ==>
              r.value.0 == if total.Some? then Min(total.value, |src.data|) else |src.data|
    ensures r.Err? && r.error.ReadError? ==>
              && Fails(r.error.error) in old(src.schedule) && r.error.offset <= |src.data|
              && encoder.written == src.data[..r.error.offset]
              && var e := r.error.error;
                 || (total.Some? && r.error.offset + bufSize < total.value)
                 || !(e.unexpectedEof || (windows && e.osCode in {Some(23), Some(27), Some(38), Some(87)}))
    ensures r.Err? && r.error.WriteError? ==> old(encoder.MayFail())
  {
    stop := AtEof;
    var buf := new Byte[bufSize](_ => 0);
    var bytesIn: nat := 0;
    var hashed: Bytes := [];
    while true
      invariant src.Valid() && bytesIn == src.pos && (total.Some? ==> bytesIn <= total.value)
      invariant hashed == encoder.written == src.data[..bytesIn]
      invariant encoder.MayFail() ==> old(encoder.MayFail())
      invariant forall e | e in src.schedule :: e in old(src.schedule)
      decreases |src.data| - bytesIn
    {
      var toRead := ToRead(bytesIn, total, bufSize);
      if toRead.None? {
        stop := TotalReached;
        break;
      }
      var n := src.Read(buf, 0, toRead.value);
      if n.Err? {
        if IsEndOfDeviceError(n.error, bytesIn, total, bufSize, windows) {
          stop := Tolerated(n.error);
          break;
        }
        return Err(ReadError(bytesIn, n.error)), stop;
      }
      if n.value == 0 {
        break;
      }
      var chunk := buf[..n.value];
      assert chunk == buf[0..0 + n.value];
      assert src.data[..bytesIn] + chunk == src.data[..bytesIn + n.value];
      hashed := hashed + chunk;
      var ok := encoder.WriteAll(chunk);
      if !ok {
        assert encoder.written <= src.data[..bytesIn + n.value];
        return Err(WriteError), stop;
      }
      bytesIn := bytesIn + n.value;
    }
    r := Ok((bytesIn, hashed));
  }

  // ----- Flash

  /** `Cursor::new(head).chain(file)` under a `CountingReader`. */
  class CountingChain {
    const head: Bytes
    var headPos: nat
    const rest: ByteSource
    var count: nat

    constructor (head: Bytes, rest: ByteSource)
      ensures this.head == head && this.rest == rest && headPos == 0 && count == 0
    {
      this.head, this.rest, headPos, count := head, rest, 0, 0;
    }

    /** The bytes the chain has delivered, when its file stood at `start` as the chain was made. */
    ghost predicate Delivered(start: nat, bytes: Bytes)
      reads this, rest
    {
      && rest.Valid() && start <= rest.pos && headPos <= |head|
      && (headPos < |head| ==> rest.pos == start)
      && bytes == head[..headPos] + rest.data[start..rest.pos] && count == |bytes|
    }

    method Read(buf: array<Byte>, ghost start: nat, ghost before: Bytes) returns (r: Result<nat, IoError>)
      requires Delivered(start, before) && buf.Length > 0
      modifies this, rest, buf
      ensures forall e | e in rest.schedule :: e in old(rest.schedule)
      ensures r.Err? ==> Delivered(start, before) && Fails(r.error) in old(rest.schedule)
      ensures r.Ok? ==> r.value <= buf.Length && Delivered(start, before + buf[..r.value])
      ensures r.Ok? && r.value == 0 ==> headPos == |head| && rest.pos == |rest.data|
      ensures r.Ok? ==> headPos + rest.pos == old(headPos + rest.pos) + r.value
    {
      if headPos < |head| {
        var n := Min(buf.Length, |head| - headPos);
        for i := 0 to n
          invariant Delivered(start, before) && headPos == old(headPos) && rest.pos == old(rest.pos)
          invariant rest.schedule == old(rest.schedule)
          invariant buf[..i] == head[headPos..headPos + i]
        {
          buf[i] := head[headPos + i];
        }
        assert head[..headPos] + buf[..n] == head[..headPos + n];
        headPos := headPos + n;
        count := count + n;
        return Ok(n);
      }
      r := rest.Read(buf, 0, buf.Length);
      if r.Ok? {
        count := count + r.value;
        assert buf[..r.value] == buf[0..0 + r.value];
        assert rest.data[start..rest.pos] == rest.data[start..old(rest.pos)] + rest.data[old(rest.pos)..rest.pos];
      }
    }
  }

  /**
   * `do_flash` for an uncompressed image: the 16-byte peek is put back in front of the file, so for any
   * schedule of short reads a successful flash wrote and hashed the whole image and counted its length.
   * On an error the device holds a prefix of the image.
   */
  method DoFlashRaw(file: ByteSource, device: ByteSink, bufSize: nat) returns (r: Result<(nat, Bytes), Error>)
    requires bufSize > 0 && file.pos == 0 && device.written == []
    modifies file, device
    ensures device.written <= file.data
    ensures r.Ok? ==> r.value == (|file.data|, file.data) && device.written == file.data
    ensures r.Err? && r.error.ReadError? ==>
              Fails(r.error.error) in old(file.schedule) && r.error.offset == |device.written|
    ensures r.Err? && r.error.WriteError? ==> old(device.MayFail())
  {
    var headBuf := new Byte[16](_ => 0);
    var headN := file.Read(headBuf, 0, 16);
    if headN.Err? {
      return Err(ReadError(0, headN.error));
    }
    var decoded := new CountingChain(headBuf[..headN.value], file);
    ghost var start := file.pos;
    assert headBuf[..headN.value] == headBuf[0..0 + headN.value];
    assert decoded.head[..0] + file.data[start..start] == [];
    var buf := new Byte[bufSize](_ => 0);
    var hashed: Bytes := [];
    while true
      invariant decoded.head == file.data[..start] && decoded.rest == file
      invariant decoded.Delivered(start, hashed) && device.written == hashed <= file.data
      invariant forall e | e in file.schedule :: e in old(file.schedule)
      invariant device.MayFail() ==> old(device.MayFail())
      decreases |decoded.head| + |file.data| - decoded.headPos - file.pos
    {
      var n := decoded.Read(buf, start, hashed);
      if n.Err? {
        return Err(ReadError(decoded.count, n.error));
      }
      if n.value == 0 {
        break;
      }
      var chunk := buf[..n.value];
      DeliveredPrefix(decoded, start, hashed + chunk);
      hashed := hashed + chunk;
      var ok := device.WriteAll(chunk);
      if !ok {
        return Err(WriteError);
      }
    }
    assert hashed + buf[..0] == hashed;
    assert decoded.head[..decoded.headPos] + file.data[start..file.pos] == file.data;
    return Ok((decoded.count, hashed));
  }

  /** What a chain delivers is a prefix of the file its head was read from. */
  lemma DeliveredPrefix(c: CountingChain, start: nat, bytes: Bytes)
    requires c.Delivered(start, bytes) && start <= |c.rest.data| && c.head == c.rest.data[..start]
    ensures bytes <= c.rest.data
  {
    if c.headPos == |c.head| {
      assert bytes == c.rest.data[..c.rest.pos];
    } else {
      assert bytes == c.rest.data[..c.headPos];
    }
  }
}
