/** The two ends of a pipe as one process sees them: reads and writes may be arbitrarily short. */
module Streams {
  import opened Bytes

  /** A readable descriptor. `data` is everything that will ever arrive before end of file. */
  class Input {
    const data: seq<byte>
    var pos: nat

    ghost predicate Valid()
      reads this
    {
      pos <= |data|
    }

    ghost function Rest(): seq<byte>
      requires Valid()
      reads this
    {
      data[pos..]
    }

    constructor (data: seq<byte>)
      ensures Valid() && this.data == data && pos == 0
    {
      this.data := data;
      pos := 0;
    }

    /** read(2): between one byte and `max` bytes of what is left, and none only at end of file. */
    method Read(max: nat) returns (chunk: seq<byte>)
      requires Valid() && max > 0
      modifies this
      ensures Valid() && pos == old(pos) + |chunk| && chunk == data[old(pos)..pos]
      ensures |chunk| <= max && (chunk == [] <==> old(pos) == |data|)
    {
      if pos == |data| {
        return [];
      }
      var n: nat :| 1 <= n <= max && n <= |data| - pos;
      chunk := data[pos..pos + n];
      pos := pos + n;
    }

    /** Rust's `read_exact`: short reads are retried until the buffer is full or the input ends. */
    method ReadExact(n: nat) returns (r: Option<seq<byte>>)
      requires Valid()
      modifies this
      ensures Valid()
      ensures r.Some? <==> old(pos) + n <= |data|
      ensures r.Some? ==> pos == old(pos) + n && r.value == data[old(pos)..pos]
      ensures r.None? ==> pos == |data|
    {
      var buf := [];
      while |buf| < n
        invariant Valid() && pos == old(pos) + |buf| && buf == data[old(pos)..pos]
        invariant |buf| <= n
      {
        var chunk := Read(n - |buf|);
        if chunk == [] {
          return None;
        }
        buf := buf + chunk;
      }
      r := Some(buf);
    }

    /** The host's drain loop over the report pipe, with its 8192-byte buffer. */
    method ReadToEnd() returns (all: seq<byte>)
      requires Valid()
      modifies this
      ensures Valid() && pos == |data| && all == old(Rest())
    {
      all := [];
      while true
        invariant Valid() && old(pos) <= pos && all == data[old(pos)..pos]
        decreases |data| - pos
      {
        var chunk := Read(8192);
        if chunk == [] {
          break;
        }
        all := all + chunk;
      }
    }
  }

  /** How a write to a pipe can fail: the descriptor accepted no byte of a non-empty remainder, or the call
      itself failed. */
  datatype WriteError = ShortWrite(wrote: nat, expected: nat) | SystemError

  /** A writable descriptor and everything it has accepted so far. */
  class Output {
    var sent: seq<byte>

    constructor ()
      ensures sent == []
    {
      sent := [];
    }

    /** write(2): any number of leading bytes may be accepted, including none; or the call fails. */
    method Write(bytes: seq<byte>) returns (r: Option<nat>)
      modifies this
      ensures r.Some? ==> r.value <= |bytes| && sent == old(sent) + bytes[..r.value]
      ensures r.None? ==> sent == old(sent)
    {
      var fails: bool :| true;
      if fails {
        return None;
      }
      var n: nat :| n <= |bytes|;
      sent := sent + bytes[..n];
      r := Some(n);
    }

    /** The partial-write loop: on success the whole buffer went out, in order and once; on failure some
        leading bytes did, but not all, and a short write reports exactly how many. */
    method WriteToSandboxPipe(bytes: seq<byte>) returns (r: Result<(), WriteError>)
      modifies this
      ensures r.Ok? ==> sent == old(sent) + bytes
      ensures r.Err? ==> exists k: nat :: k < |bytes| && sent == old(sent) + bytes[..k]
                           && (r.error.ShortWrite? ==> r.error == ShortWrite(k, |bytes|))
    {
      var written: nat := 0;
      while written < |bytes|
        invariant written <= |bytes|
        invariant sent == old(sent) + bytes[..written]
      {
        var accepted := Write(bytes[written..]);
        if accepted.None? {
          return Err(SystemError);
        }
        var n := accepted.value;
        if n == 0 {
          return Err(ShortWrite(written, |bytes|));
        }
        assert bytes[..written] + bytes[written..][..n] == bytes[..written + n];
        written := written + n;
      }
      r := Ok(());
    }
  }
}
