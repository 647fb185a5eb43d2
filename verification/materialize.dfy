/** Reading a passed descriptor to its end, within a cap. */
module Materialize {
  import opened Policy

  /** What one `read`, or the wait after it, comes to; reading nothing means the end. */
  datatype ReadStep = Got(bytes: Bytes) | Interrupted | Waited(ready: bool) | Broken

  datatype ReadResult = Complete(bytes: Bytes) | TooBig | TimedOut | Closed | Pending

  function Read(out: Bytes, steps: seq<ReadStep>, maxBytes: nat): ReadResult
    decreases |steps|
  {
    if steps == [] then Pending
    else match steps[0]
      case Got(bytes) =>
        if bytes == [] then Complete(out)
        else if |out| + |bytes| > maxBytes then TooBig
        else Read(out + bytes, steps[1..], maxBytes)
      case Interrupted => Read(out, steps[1..], maxBytes)
      case Waited(ready) => if ready then Read(out, steps[1..], maxBytes) else TimedOut
      case Broken => Closed
  }

  method ReadFdToVec(steps: seq<ReadStep>, maxBytes: nat) returns (result: ReadResult)
    ensures result == Read([], steps, maxBytes)
  {
    var out: Bytes, i := [], 0;
    while i < |steps|
      invariant 0 <= i <= |steps|
      invariant Read([], steps, maxBytes) == Read(out, steps[i..], maxBytes)
    {
      assert steps[i..][1..] == steps[i + 1..];
      match steps[i] {
        case Got(bytes) =>
          if bytes == [] {
            return Complete(out);
          }
          if |out| + |bytes| > maxBytes {
            return TooBig;
          }
          out := out + bytes;
        case Interrupted =>
        case Waited(ready) =>
          if !ready {
            return TimedOut;
          }
        case Broken =>
          return Closed;
      }
      i := i + 1;
    }
    return Pending;
  }

  function BytesOf(steps: seq<ReadStep>): Bytes {
    if steps == [] then []
    else (if steps[0].Got? then steps[0].bytes else []) + BytesOf(steps[1..])
  }

  /** A step after which reading goes on. */
  ghost predicate Carries(step: ReadStep) {
    (step.Got? && step.bytes != []) || step.Interrupted? || step == Waited(true)
  }

  /** The descriptor is read to its first end with nothing going wrong on the way. */
  ghost predicate EndsAt(steps: seq<ReadStep>, k: nat) {
    && k < |steps| && steps[k] == Got([])
    && forall i :: 0 <= i < k ==> Carries(steps[i])
  }

  /** A read completes exactly when the whole content fits, and then it is the whole content. */
  lemma {:induction false} CompleteIff(out: Bytes, steps: seq<ReadStep>, maxBytes: nat, bytes: Bytes)
    requires |out| <= maxBytes
    ensures Read(out, steps, maxBytes) == Complete(bytes) <==>
            exists k: nat :: EndsAt(steps, k) && bytes == out + BytesOf(steps[..k]) && |bytes| <= maxBytes
    decreases |steps|
  {
    if steps != [] {
      var head, tail := steps[0], steps[1..];
      if head == Got([]) {
        assert EndsAt(steps, 0);
        assert bytes == out + [] <==> bytes == out;
        if k: nat :| EndsAt(steps, k) && bytes == out + BytesOf(steps[..k]) && |bytes| <= maxBytes {
          assert k == 0;
        }
        if bytes == out {
          assert EndsAt(steps, 0) && bytes == out + BytesOf(steps[..0]) && |bytes| <= maxBytes;
        }
      } else if Carries(head) {
        var more := out + if head.Got? then head.bytes else [];
        assert out + [] == out;
        if |more| <= maxBytes {
          CompleteIff(more, tail, maxBytes, bytes);
          assert Read(out, steps, maxBytes) == Read(more, tail, maxBytes);
        }
        TailEnds(out, steps, maxBytes, bytes);
      }
    }
  }

  lemma TailEnds(out: Bytes, steps: seq<ReadStep>, maxBytes: nat, bytes: Bytes)
    requires steps != [] && Carries(steps[0])
    ensures var more := out + if steps[0].Got? then steps[0].bytes else [];
            (exists k: nat :: EndsAt(steps, k) && bytes == out + BytesOf(steps[..k]) && |bytes| <= maxBytes) <==>
            (exists k: nat :: EndsAt(steps[1..], k) && bytes == more + BytesOf(steps[1..][..k]) && |bytes| <= maxBytes)
  {
    var head, tail := steps[0], steps[1..];
    var add := if head.Got? then head.bytes else [];
    var more := out + add;
    forall k: nat | k < |tail|
      ensures EndsAt(tail, k) <==> EndsAt(steps, k + 1)
      ensures out + BytesOf(steps[..k + 1]) == more + BytesOf(tail[..k])
    {
      assert steps[..k + 1][1..] == tail[..k];
      assert out + (add + BytesOf(tail[..k])) == (out + add) + BytesOf(tail[..k]);
      assert forall i :: 0 <= i < k ==> tail[i] == steps[i + 1];
      if EndsAt(tail, k) {
        assert forall i :: 0 < i < k + 1 ==> steps[i] == tail[i - 1];
      }
    }
    if k: nat :| EndsAt(steps, k) && bytes == out + BytesOf(steps[..k]) && |bytes| <= maxBytes {
      assert k > 0;
      assert EndsAt(tail, k - 1) && bytes == more + BytesOf(tail[..k - 1]);
    }
    if k: nat :| EndsAt(tail, k) && bytes == more + BytesOf(tail[..k]) && |bytes| <= maxBytes {
      assert EndsAt(steps, k + 1) && bytes == out + BytesOf(steps[..k + 1]);
    }
  }

  /** A read is still going on exactly when nothing has ended it, gone wrong, or burst the cap. */
  lemma {:induction false} PendingIff(out: Bytes, steps: seq<ReadStep>, maxBytes: nat)
    requires |out| <= maxBytes
    ensures Read(out, steps, maxBytes).Pending? <==>
            (forall i :: 0 <= i < |steps| ==> Carries(steps[i])) && |out| + |BytesOf(steps)| <= maxBytes
    decreases |steps|
  {
    if steps != [] {
      var head, tail := steps[0], steps[1..];
      assert forall i :: 0 < i < |steps| ==> steps[i] == tail[i - 1];
      assert forall i :: 0 <= i < |tail| ==> tail[i] == steps[i + 1];
      if Carries(head) {
        var more := out + if head.Got? then head.bytes else [];
        assert out + [] == out;
        if |more| <= maxBytes {
          PendingIff(more, tail, maxBytes);
        }
      }
    }
  }
}
