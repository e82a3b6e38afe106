/**
 * The register bus the driver talks to, replaced by a fake: it records
 * every call in order and answers each from a script of replies given up
 * front. The real transport is a foreign I2C library; the driver needs only
 * "write one byte to a register" and "read N bytes starting at a register".
 */
module Transport {
  import opened Bits

  /** A transport failure, handed back to the driver's caller unchanged. */
  datatype Error = BusError(code: int) | NoReply

  /** Go's `error` result: nil, or the failure. */
  datatype Outcome = Pass | Fail(error: Error)

  /** A value, or the failure that prevented it. */
  datatype Result<T> = Success(value: T) | Failure(error: Error)

  /** One call the driver made on the bus. */
  datatype Call =
    | WriteByte(device: byte, register: byte, value: byte)
    | ReadBlock(device: byte, register: byte, length: nat)

  /** The fake's answer to one call: done (with the bytes a read returns) or failed. */
  datatype Reply = Done(data: seq<byte>) | Failed(error: Error)

  /** The answer to the `i`-th call from now; once the script runs out every call fails. */
  function ReplyAt(script: seq<Reply>, i: nat): Reply
  {
    if i < |script| then script[i] else Failed(NoReply)
  }

  /** The script left after `k` calls. */
  function Drop(script: seq<Reply>, k: nat): (rest: seq<Reply>)
    ensures forall i: nat :: ReplyAt(rest, i) == ReplyAt(script, k + i)
  {
    if k <= |script| then script[k..] else []
  }

  /** Dropping `i` replies and then `j` more drops `i + j`. */
  lemma DropDrop(script: seq<Reply>, i: nat, j: nat)
    ensures Drop(Drop(script, i), j) == Drop(script, i + j)
  {
    if i + j <= |script| {
      assert script[i..][j..] == script[i + j..];
    }
  }

  /**
   * The number of leading calls, out of `n`, that the script lets succeed:
   * all of them, or up to the first failure.
   */
  function FirstFailure(script: seq<Reply>, n: nat): (k: nat)
    ensures k <= n
    ensures forall j: nat :: j < k ==> ReplyAt(script, j).Done?
    ensures k < n ==> ReplyAt(script, k).Failed?
  {
    if n == 0 then 0
    else
      var k := FirstFailure(script, n - 1);
      if k < n - 1 || ReplyAt(script, n - 1).Failed? then k else n
  }

  /** `FirstFailure` is `n` when all `n` replies are done. */
  lemma FirstFailureNone(script: seq<Reply>, n: nat)
    requires forall j: nat :: j < n ==> ReplyAt(script, j).Done?
    ensures FirstFailure(script, n) == n
  {
  }

  /** `FirstFailure` is the index of the first failed reply when the ones before it are done. */
  lemma FirstFailureAt(script: seq<Reply>, n: nat, i: nat)
    requires i < n && ReplyAt(script, i).Failed?
    requires forall j: nat :: j < i ==> ReplyAt(script, j).Done?
    ensures FirstFailure(script, n) == i
  {
  }
  /**
   * The `n` bytes a read leaves in its buffer: the reply's bytes, cut to
   * `n` or followed by zeros (the buffer is zeroed when it is made).
   */
  function Fill(data: seq<byte>, n: nat): (buf: seq<byte>)
    ensures |buf| == n
    ensures forall i :: 0 <= i < n ==> buf[i] == if i < |data| then data[i] else 0
  {
    if n <= |data| then data[..n] else data + seq(n - |data|, _ => 0)
  }

  /** The fake bus: a log of calls made and the replies still to give. */
  class FakeBus {
    var log: seq<Call>
    var script: seq<Reply>

    constructor (script: seq<Reply>)
      ensures log == [] && this.script == script
    {
      log := [];
      this.script := script;
    }

    /** Writes `value` to register `register` of device `device`. */
    method WriteByteToReg(device: byte, register: byte, value: byte) returns (err: Outcome)
      modifies this
      ensures log == old(log) + [WriteByte(device, register, value)]
      ensures script == Drop(old(script), 1)
      ensures err == if ReplyAt(old(script), 0).Failed? then Fail(ReplyAt(old(script), 0).error) else Pass
    {
      var reply := ReplyAt(script, 0);
      log := log + [WriteByte(device, register, value)];
      script := Drop(script, 1);
      err := if reply.Failed? then Fail(reply.error) else Pass;
    }

    /**
     * Reads `buf.Length` bytes starting at register `register` of device
     * `device` into `buf`; a failed read leaves `buf` as it was.
     */
    method ReadFromReg(device: byte, register: byte, buf: array<byte>) returns (err: Outcome)
      modifies this, buf
      ensures log == old(log) + [ReadBlock(device, register, buf.Length)]
      ensures script == Drop(old(script), 1)
      ensures err == if ReplyAt(old(script), 0).Failed? then Fail(ReplyAt(old(script), 0).error) else Pass
      ensures buf[..] == if ReplyAt(old(script), 0).Failed? then old(buf[..])
                         else Fill(ReplyAt(old(script), 0).data, buf.Length)
    {
      var reply := ReplyAt(script, 0);
      if reply.Failed? {
        err := Fail(reply.error);
      } else {
        var bytes := Fill(reply.data, buf.Length);
        var i := 0;
        while i < buf.Length
          modifies buf
          invariant 0 <= i <= buf.Length
          invariant buf[..i] == bytes[..i]
        {
          buf[i] := bytes[i];
          i := i + 1;
        }
        err := Pass;
      }
      log := log + [ReadBlock(device, register, buf.Length)];
      script := Drop(script, 1);
    }
  }
}
