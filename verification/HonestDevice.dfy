// The other end of a transfer: a device that executes START, DATA and FINISH literally.
// It writes a chunk where the chunk says, it does not check that this is where it should go.

module HonestDevice {
  import opened Bytes
  import opened HostModel

  /** What has been written, and what the last START announced. */
  datatype Device = Device(content: seq<byte>, started: bool, finished: bool, announced: seq<byte>)

  function AnnouncedSize(d: Device): Option<uint32> {
    var p := d.announced;
    if |p| < 4 then None else Some(FromLE32(p[0], p[1], p[2], p[3]))
  }

  /** The flash address behind the size; for an M1 update the word there is zero. */
  function AnnouncedAddress(d: Device): Option<uint32> {
    var p := d.announced;
    if |p| < 8 then None else Some(FromLE32(p[4], p[5], p[6], p[7]))
  }

  /** Overwriting at an offset; a gap is filled with zeros, as a seek past the end would. */
  function WriteAt(content: seq<byte>, offset: nat, bytes: seq<byte>): seq<byte> {
    if offset > |content| then content + seq(offset - |content|, _ => 0) + bytes
    else content[..offset] + bytes + (if offset + |bytes| < |content| then content[offset + |bytes|..] else [])
  }

  function Execute(k: Kind, d: Device, cmd: byte, payload: seq<byte>): Device {
    if cmd == StartCmd(k) then Device([], true, false, payload)
    else if cmd == DataCmd(k) && |payload| >= 4 then
      d.(content := WriteAt(d.content, FromLE32(payload[0], payload[1], payload[2], payload[3]), payload[4..]))
    else if cmd == FinishCmd(k) then d.(finished := true)
    else d
  }

  /** The device after the commands of an output log, each with the payload that its frame carries. */
  function ExecuteAll(k: Kind, d: Device, out: seq<Output>): Device {
    if out == [] then d
    else
      var before := ExecuteAll(k, d, out[..|out| - 1]);
      var last := out[|out| - 1];
      if last.Send? then Execute(k, before, last.cmd, Truncated(last.payload)) else before
  }

  /** A chunk that starts where the content ends is appended. */
  lemma DataAppends(k: Kind, d: Device, bytes: seq<byte>)
    requires |d.content| < 0x1_0000_0000
    ensures Execute(k, d, DataCmd(k), LE32(|d.content|) + bytes) == d.(content := d.content + bytes)
  {
    var payload := LE32(|d.content|) + bytes;
    LE32RoundTrip(|d.content|);
    assert payload[..4] == LE32(|d.content|) && payload[4..] == bytes;
    assert d.content[..|d.content|] == d.content;
  }

  lemma ExecuteSend(k: Kind, d: Device, out: seq<Output>, o: Output)
    ensures ExecuteAll(k, d, out + [o])
         == if o.Send? then Execute(k, ExecuteAll(k, d, out), o.cmd, Truncated(o.payload)) else ExecuteAll(k, d, out)
  {
    assert (out + [o])[..|out|] == out;
  }
}
