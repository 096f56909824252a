/** The reconstruct stripe request as an object, tied handler by handler to module Reconstruct. */
module ReconstructRequest {
  import opened FanOut
  import R = Reconstruct

  class StripeRead {
    const n: nat
    const target: nat
    var submitted: nat
    var remaining: nat
    var failed: bool

    // What happened around the request.
    ghost var inFlight: set<nat>
    ghost var good: set<nat>
    ghost var bad: set<nat>
    ghost var waiting: bool
    ghost var refused: bool
    ghost var xorRunning: bool
    ghost var xorStarts: nat
    ghost var released: nat
    ghost var completed: seq<bool>

    ghost function Model(): R.Read
      reads this
    {
      R.Read(n, target, submitted, remaining, failed, inFlight, good, bad, waiting, refused, xorRunning, xorStarts,
             released, completed)
    }

    /** raid5f_submit_reconstruct_read, once the chunk lists are filled: n parts, nothing submitted. */
    constructor (n: nat, target: nat)
      requires n >= 2 && target < n
      ensures Model() == R.Read(n, target, 0, n, false, {}, {}, {}, false, false, false, 0, 0, [])
      ensures R.Counts(Model())
    {
      this.n, this.target := n, target;
      submitted, remaining, failed := 0, n, false;
      inFlight, good, bad := {}, {}, {};
      waiting, refused, xorRunning := false, false, false;
      xorStarts, released, completed := 0, 0, [];
    }

    method CompletePart(parts: nat, ok: bool)
      requires parts <= remaining
      modifies this`remaining, this`failed, this`completed
      ensures Model() == R.CompletePart(old(Model()), parts, ok)
    {
      remaining := remaining - parts;
      if !ok {
        failed := true;
      }
      if remaining == 0 {
        completed := completed + [!failed];
      }
    }

    /** The branch for a submission that was not accepted. */
    method Refuse(ret: Ret)
      requires R.Counts(Model()) && !R.Stopped(Model()) && submitted < n && submitted != target && ret != Accepted
      requires !xorRunning && xorStarts == 0 && R.Lead(Model())
      modifies this
      ensures Model() == R.ChunkSubmit(old(Model()), ret)
    {
      if ret == NoMem {
        waiting := true;
      } else {
        refused := true;
        var notSubmitted := (n - 1) - submitted;
        CompletePart(notSubmitted, false);
      }
    }

    /** raid5f_chunk_submit; `ret` is the answer of the base bdev to this chunk. */
    method ChunkSubmit(i: nat, ret: Ret) returns (r: Ret)
      requires R.Counts(Model()) && !R.Stopped(Model()) && i == submitted < n
      requires !xorRunning && xorStarts == 0 && R.Lead(Model())
      modifies this
      ensures Model() == R.ChunkSubmit(old(Model()), ret)
      ensures r != Accepted <==> R.Stopped(Model())
    {
      submitted := submitted + 1;
      if i == target {
        CompletePart(1, true);
        return Accepted;
      }
      if ret == Accepted {
        inFlight := inFlight + {i};
        return Accepted;
      }
      submitted := submitted - 1;
      Refuse(ret);
      return ret;
    }

    /** raid5f_stripe_request_submit_chunks */
    method SubmitChunks(rets: seq<Ret>)
      requires R.Counts(Model()) && !R.Stopped(Model()) && |rets| == n
      requires !xorRunning && xorStarts == 0 && R.Lead(Model())
      modifies this
      ensures Model() == R.SubmitChunks(old(Model()), rets)
    {
      var i := submitted;
      var r := Accepted;
      while r == Accepted && i < n
        invariant R.Counts(Model()) && (r != Accepted <==> R.Stopped(Model()))
        invariant !xorRunning && xorStarts == 0
        invariant r == Accepted ==> i == submitted && R.Lead(Model())
        invariant R.SubmitChunks(Model(), rets) == R.SubmitChunks(old(Model()), rets)
        decreases r == Accepted, n - i
      {
        r := ChunkSubmit(i, rets[i]);
        i := i + 1;
      }
    }

    /** raid5f_stripe_request_chunk_read_complete; a child's landing is recorded first. */
    method ChunkReadComplete(i: nat, ok: bool)
      requires R.Inv(Model()) && i in inFlight
      modifies this
      ensures Model() == R.ChunkReadComplete(old(Model()), i, ok) && R.Inv(Model())
    {
      R.ReadDoneInv(Model(), i, ok);
      ghost var want := R.ChunkReadComplete(Model(), i, ok);
      Land(i, ok);
      if remaining == 1 {
        LastRead(ok);
      } else {
        CompletePart(1, ok);
      }
      assert Model() == want;
    }

    /** The read that finds one part left: it starts the XOR, or ends the request. */
    method LastRead(ok: bool)
      requires remaining == 1
      modifies this`xorRunning, this`xorStarts, this`released, this`remaining, this`failed, this`completed
      ensures Model() == if !old(failed) && ok then old(Model()).(xorRunning := true, xorStarts := old(xorStarts) + 1)
                         else R.CompletePart(old(Model()).(released := old(released) + 1), 1, ok)
    {
      if !failed && ok {
        xorRunning, xorStarts := true, xorStarts + 1;
        return;
      }
      released := released + 1;
      CompletePart(1, ok);
    }

    ghost method Land(i: nat, ok: bool)
      modifies this`inFlight, this`good, this`bad
      ensures Model() == R.Landed(old(Model()), i, ok)
    {
      inFlight := inFlight - {i};
      if ok {
        good := good + {i};
      } else {
        bad := bad + {i};
      }
    }

    /** raid5f_stripe_request_reconstruct_xor_done */
    method ReconstructDone(ok: bool)
      requires R.Inv(Model()) && xorRunning
      modifies this
      ensures Model() == R.Step(old(Model()), R.XorDone(ok)) && R.Inv(Model())
    {
      ghost var r := R.Step(Model(), R.XorDone(ok));
      released, xorRunning := released + 1, false;
      CompletePart(1, ok);
    }
  }
}
