/** The write stripe request as an object: its handlers update counters, buffers and flags in place. */
module StripeRequest {
  import opened Options
  import opened FanOut
  import opened RaidIo
  import A = Raid5Array
  import W = Raid5Write

  class StripeWrite {
    const raidIo: RaidBdevIo
    const bufs: array<A.Strip>
    var poisoned: bool

    // What happened around the request.
    ghost var poisonedAt: Option<nat>
    ghost var flips: nat
    ghost var released: nat
    ghost var disks: seq<A.Strip>

    ghost function Model(): W.Write
      reads this, raidIo, bufs
    {
      W.Write(raidIo.Model(), released, poisonedAt, flips, bufs[..], disks)
    }

    ghost predicate Valid()
      reads this, raidIo, bufs
    {
      W.Shape(Model()) && poisoned == poisonedAt.Some?
    }

    /** raid5f_stripe_request_init, after the mapping and the parity computation have filled the buffers. */
    constructor (raidIo: RaidBdevIo, bufs: array<A.Strip>, ghost before: seq<A.Strip>)
      requires raidIo.Model() == Fresh(raidIo.present).(remaining := |raidIo.present|)
      requires W.Ready(raidIo.present, bufs[..], before)
      ensures Valid() && this.raidIo == raidIo && this.bufs == bufs
      ensures Model() == W.NewWrite(raidIo.present, bufs[..], before)
    {
      this.raidIo, this.bufs := raidIo, bufs;
      poisoned := false;
      poisonedAt, flips, released, disks := None, 0, 0, before;
    }

    /** raid5f_stripe_request_release */
    ghost method Release()
      modifies this`released
      ensures released == old(released) + 1
    {
      released := released + 1;
    }

    /** Flips the low bit of the first byte of a chunk, once a request; `flip` is the random draw. */
    method Poison(i: nat, flip: bool)
      requires Valid() && i == raidIo.submitted < raidIo.Model().N()
      modifies this`poisoned, this`poisonedAt, this`flips, bufs
      ensures Valid() && Model() == W.Poison(old(Model()), flip)
    {
      if !poisoned && flip {
        bufs[i] := W.FlipStrip(bufs[i]);
        poisoned := true;
        poisonedAt, flips := Some(i), flips + 1;
      }
    }

    /** raid5f_chunk_submit; `ret` is the answer of the base bdev to this chunk. */
    method ChunkSubmit(i: nat, ret: Ret, flip: bool) returns (r: Ret)
      requires Valid() && !Stopped(raidIo.Model()) && i == raidIo.submitted < raidIo.Model().N()
      modifies this, raidIo, bufs
      ensures Valid() && Model() == W.ChunkSubmit(old(Model()), ret, flip)
      ensures r != Accepted <==> Stopped(raidIo.Model())
    {
      ghost var want := W.ChunkSubmit(Model(), ret, flip);
      if !raidIo.present[i] {
        raidIo.CreditMissing(ret);
        assert Model() == want;
        return Accepted;
      }
      PoisonAndHandOver(i, ret, flip);
      assert Model() == want;
      return ret;
    }

    method PoisonAndHandOver(i: nat, ret: Ret, flip: bool)
      requires Valid() && !Stopped(raidIo.Model()) && i == raidIo.submitted < raidIo.Model().N()
      requires raidIo.present[i]
      modifies this, raidIo, bufs
      ensures Valid() && Model() == W.ChunkSubmit(old(Model()), ret, flip)
    {
      Poison(i, flip);
      HandOver(i, ret);
    }

    /** The submission proper, with its error branch. */
    method HandOver(i: nat, ret: Ret)
      requires Valid() && !Stopped(raidIo.Model()) && i == raidIo.submitted < raidIo.Model().N()
      requires raidIo.present[i]
      modifies this`released, raidIo
      ensures var io' := SubmitOne(old(raidIo.Model()), ret);
              Model() == old(Model()).(
                io := io', released := old(released) + if io'.abandoned && io'.remaining == 0 then 1 else 0)
    {
      var done := raidIo.CountAndSubmit(i, ret);
      if done {
        Release();
      }
    }

    /** raid5f_stripe_request_submit_chunks */
    method SubmitChunks(rets: seq<Ret>, flips: seq<bool>)
      requires Valid() && !Stopped(raidIo.Model()) && |rets| == |flips| == raidIo.Model().N()
      modifies this, raidIo, bufs
      ensures Valid() && Model() == W.SubmitChunks(old(Model()), rets, flips)
    {
      var i := raidIo.submitted;
      var r := Accepted;
      while r == Accepted && i < |raidIo.present|
        invariant Valid() && (r != Accepted <==> Stopped(raidIo.Model()))
        invariant r == Accepted ==> i == raidIo.submitted
        invariant W.SubmitChunks(Model(), rets, flips) == W.SubmitChunks(old(Model()), rets, flips)
        decreases r == Accepted, |raidIo.present| - i
      {
        r := ChunkSubmit(i, rets[i], flips[i]);
        i := i + 1;
      }
    }

    /** The disk has stored the chunk's buffer. */
    ghost method Land(i: nat, ok: bool)
      requires i < bufs.Length == |disks|
      modifies this`disks
      ensures Model() == old(Model()).(disks := if ok then old(disks)[i := bufs[i]] else old(disks))
    {
      if ok {
        disks := disks[i := bufs[i]];
      }
    }

    /** raid5f_stripe_request_chunk_write_complete */
    method ChunkWriteComplete(i: nat, ok: bool)
      requires Valid() && Inv(raidIo.Model()) && i in raidIo.inFlight
      modifies this, raidIo
      ensures Valid() && Model() == W.WriteStep(old(Model()), W.ChunkDone(i, ok))
    {
      ghost var want := W.WriteStep(Model(), W.ChunkDone(i, ok));
      Land(i, ok);
      PartDone(i, ok);
      assert Model() == want;
    }

    /** One part of the parent, and the request when it was the last. */
    method PartDone(i: nat, ok: bool)
      requires Inv(raidIo.Model()) && i in raidIo.inFlight
      modifies this`released, raidIo
      ensures var io' := Step(old(raidIo.Model()), Preset, Done(i, ok));
              Model() == old(Model()).(io := io', released := old(released) + |io'.completed|)
    {
      var done := raidIo.ChildComplete(i, ok);
      if done {
        Release();
      }
    }
  }
}
