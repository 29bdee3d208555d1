/** Byte sources that make short reads and fail, and sinks that may refuse a write. */
module Streams {
  import opened Common

  /** The parts of `std::io::Error` the code looks at. */
  datatype IoError = IoError(unexpectedEof: bool, osCode: Option<int>)

  /** What one `read` call does: deliver at most `n` bytes (at least one unless at the end), or fail. */
  datatype ReadEvent = Chunk(n: nat) | Fails(error: IoError)

  function Later(schedule: seq<ReadEvent>): (r: seq<ReadEvent>)
    ensures forall e | e in r :: e in schedule
  {
    if schedule == [] then [] else schedule[1..]
  }

  class ByteSource {
    const data: Bytes
    var pos: nat
    var schedule: seq<ReadEvent>

    ghost predicate Valid()
      reads this
    {
      pos <= |data|
    }

    ghost function Remaining(): Bytes
      reads this
      requires Valid()
    {
      data[pos..]
    }

    constructor (data: Bytes, schedule: seq<ReadEvent>)
      ensures Valid() && pos == 0 && this.data == data && this.schedule == schedule
    {
      this.data, this.schedule, pos := data, schedule, 0;
    }

    /** `read(&mut buf[from..to])`: nothing is read only at the end of the data or into no space. */
    method Read(buf: array<Byte>, from: nat, to: nat) returns (r: Result<nat, IoError>)
      requires Valid() && from <= to <= buf.Length
      modifies this, buf
      ensures Valid() && schedule == Later(old(schedule))
      ensures r.Err? ==> pos == old(pos) && Fails(r.error) in old(schedule) && buf[..] == old(buf[..])
      ensures r.Ok? ==> && r.value <= to - from && pos == old(pos) + r.value
                        && (r.value == 0 ==> from == to || pos == |data|)
                        && buf[from..from + r.value] == data[old(pos)..pos]
                        && buf[..from] == old(buf[..from]) && buf[from + r.value..] == old(buf[from + r.value..])
    {
      var wanted := to - from;
      if schedule != [] {
        var event := schedule[0];
        schedule := schedule[1..];
        match event {
          case Fails(e) => return Err(e);
          case Chunk(n) => wanted := Min(wanted, Max(n, 1));
        }
      }
      var n := Min(wanted, |data| - pos);
      for i := 0 to n
        invariant pos == old(pos) && Valid() && schedule == Later(old(schedule))
        invariant buf[from..from + i] == data[pos..pos + i]
        invariant buf[..from] == old(buf[..from]) && buf[from + i..] == old(buf[from + i..])
      {
        buf[from + i] := data[pos + i];
      }
      pos := pos + n;
      return Ok(n);
    }
  }

  class ByteSink {
    var written: Bytes
    /** How each `write_all` ends: `None` when it succeeds, or the number of bytes written before it fails. */
    var schedule: seq<Option<nat>>

    constructor (schedule: seq<Option<nat>>)
      ensures written == [] && this.schedule == schedule
    {
      written, this.schedule := [], schedule;
    }

    /** Some `write_all` is going to fail. */
    predicate MayFail()
      reads this
    {
      exists e | e in schedule :: e.Some?
    }

    method WriteAll(bytes: Bytes) returns (ok: bool)
      modifies this
      ensures !ok ==> old(MayFail())
      ensures MayFail() ==> old(MayFail())
      ensures ok ==> written == old(written) + bytes
      ensures !ok ==> old(written) <= written <= old(written) + bytes
    {
      ok := true;
      if schedule != [] {
        var event := schedule[0];
        schedule := schedule[1..];
        if event.Some? {
          written := written + bytes[..Min(event.value, |bytes|)];
          return false;
        }
      }
      written := written + bytes;
    }
  }
}
