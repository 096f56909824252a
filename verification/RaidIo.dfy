/**
 raid_bdev_io as an object, and the submit loops that update it in place. Every method is tied to
 the functions of module FanOut, where the properties over all interleavings are proved.
 */
module RaidIo {
  import opened FanOut

  class RaidBdevIo {
    const present: seq<bool>
    var submitted: nat
    var remaining: nat
    var failed: bool

    // What the layers above and below have seen.
    ghost var inFlight: set<nat>
    ghost var waiting: bool
    ghost var issued: seq<nat>
    ghost var completed: seq<bool>
    ghost var childFailed: bool
    ghost var abandoned: bool
    ghost var handed: seq<Piece>    // what a flush or unmap has asked of the base bdevs

    ghost function Model(): Io
      reads this
    {
      Io(present, submitted, remaining, failed, inFlight, waiting, issued, completed, childFailed, abandoned)
    }

    /** raid_bdev_submit_request */
    constructor (present: seq<bool>)
      ensures Model() == Fresh(present) && handed == []
    {
      this.present := present;
      submitted, remaining, failed := 0, 0, false;
      inFlight, waiting, issued, completed, childFailed, abandoned := {}, false, [], [], false, false;
      handed := [];
    }

    method Complete(ok: bool)
      modifies this`completed
      ensures completed == old(completed) + [ok]
    {
      completed := completed + [ok];
    }

    method CompletePart(parts: nat, ok: bool) returns (done: bool)
      requires parts <= remaining
      modifies this
      ensures Model() == FanOut.CompletePart(old(Model()), parts, ok) && handed == old(handed)
      ensures done == (remaining == 0)
    {
      remaining := remaining - parts;
      if !ok {
        failed := true;
      }
      if remaining == 0 {
        Complete(!failed);
        return true;
      }
      return false;
    }

    /** The bdev layer takes a child, or refuses it for now and queues the parent. */
    ghost method Issue(i: nat)
      modifies this`inFlight, this`issued
      ensures Model() == old(Model()).(inFlight := old(inFlight) + {i}, issued := old(issued) + [i])
    {
      inFlight, issued := inFlight + {i}, issued + [i];
    }

    /** A child has been taken, and is counted as submitted. */
    method Accept(i: nat)
      requires Counts(Model()) && !Stopped(Model()) && i == submitted < |present| && present[i]
      modifies this`submitted, this`inFlight, this`issued
      ensures Model() == SubmitOne(old(Model()), Accepted) && !Stopped(Model()) && submitted == old(submitted) + 1
    {
      Issue(i);
      submitted := submitted + 1;
    }

    /** A child's completion callback, as in reset, raid0 and raid1 writes. */
    method ChildComplete(i: nat, ok: bool) returns (done: bool)
      requires Inv(Model()) && i in inFlight
      modifies this
      ensures Model() == Step(old(Model()), Preset, Done(i, ok)) && Inv(Model()) && handed == old(handed)
      ensures |completed| == if done then 1 else 0
    {
      inFlight, childFailed := inFlight - {i}, childFailed || !ok;
      done := CompletePart(1, ok);
    }

    /** A missing base bdev: submitted and completed at once. */
    method CreditMissing(ghost ret: Ret)
      requires Counts(Model()) && !Stopped(Model()) && submitted < |present| && !present[submitted]
      modifies this
      ensures Model() == SubmitOne(old(Model()), ret) && handed == old(handed)
      ensures !Stopped(Model()) && submitted == old(submitted) + 1
    {
      submitted := submitted + 1;
      var _ := CompletePart(1, true);
    }

    /** A hard submit error: the rest of the parts complete as failed. */
    method Abandon() returns (done: bool)
      requires Counts(Model()) && !Stopped(Model()) && submitted < |present| && present[submitted]
      modifies this
      ensures Model() == SubmitOne(old(Model()), Error) && done == (remaining == 0)
    {
      var notSubmitted := |present| - submitted;
      abandoned := true;
      done := CompletePart(notSubmitted, false);
    }

    /** The start of a call that sets the counter of outstanding parts when none is outstanding. */
    method EnterWhenNoneRemaining(parts: nat, ghost rets: seq<Ret>)
      requires Callable(Model(), WhenNoneRemaining) && |rets| == |present| == parts
      modifies this`waiting, this`remaining
      ensures Counts(Model()) && !Stopped(Model())
      ensures Pass(Model(), rets) == Submit(old(Model()), WhenNoneRemaining, rets)
    {
      waiting := false;
      if remaining == 0 {
        remaining := parts;
      }
    }

    /** The branch for a child that was not accepted; true when it completes the parent. */
    method Refuse(ret: Ret) returns (done: bool)
      requires Counts(Model()) && !Stopped(Model()) && submitted < |present| && present[submitted] && ret != Accepted
      modifies this
      ensures Model() == SubmitOne(old(Model()), ret) && done == (abandoned && remaining == 0)
    {
      if ret == NoMem {
        Wait();
        return false;
      }
      done := Abandon();
    }

    /** A child for a present target, counted as submitted first and taken back when it is not accepted. */
    method CountAndSubmit(i: nat, ret: Ret) returns (done: bool)
      requires Counts(Model()) && !Stopped(Model()) && i == submitted < |present| && present[i]
      modifies this
      ensures Model() == SubmitOne(old(Model()), ret) && done == (abandoned && remaining == 0)
    {
      submitted := submitted + 1;
      if ret == Accepted {
        Issue(i);
        return false;
      }
      submitted := submitted - 1;
      done := Refuse(ret);
    }

    /** No resources for the child: the parent is queued. */
    method Wait()
      requires Counts(Model()) && !Stopped(Model()) && submitted < |present| && present[submitted]
      modifies this`waiting
      ensures Model() == SubmitOne(old(Model()), NoMem) && waiting
    {
      waiting := true;
    }

    /** One round of a loop over base bdevs that refuse a child only for lack of resources. */
    method SubmitOrWait(i: nat, ret: Ret) returns (stop: bool)
      requires Counts(Model()) && !Stopped(Model()) && i == submitted < |present| && ret != Error
      modifies this
      ensures Model() == SubmitOne(old(Model()), ret) && stop == Stopped(Model())
      ensures submitted == old(submitted) + (if stop then 0 else 1) && handed == old(handed)
    {
      if !present[i] {
        CreditMissing(ret);
        return false;
      }
      if ret == Accepted {
        Accept(i);
        return false;
      }
      Wait();
      return true;
    }

    /** raid_bdev_submit_reset_request; the bdev layer refuses a reset only for lack of resources. */
    method SubmitReset(rets: seq<Ret>)
      requires Callable(Model(), WhenNoneRemaining) && |rets| == |present| && Error !in rets
      modifies this
      ensures Model() == Submit(old(Model()), WhenNoneRemaining, rets)
    {
      EnterWhenNoneRemaining(|present|, rets);
      ghost var entered := Model();
      var i := submitted;
      var stop := false;
      while !stop && i < |present|
        invariant Counts(Model()) && stop == Stopped(Model()) && (!stop ==> i == submitted)
        invariant Pass(Model(), rets) == Pass(entered, rets)
        decreases !stop, |present| - i
      {
        stop := SubmitOrWait(i, rets[i]);
        i := i + 1;
      }
    }

    /** The start of a call that sets the counter of outstanding parts when nothing has been submitted. */
    method EnterWhenNoneSubmitted(ghost rets: seq<Ret>)
      requires Callable(Model(), WhenNoneSubmitted) && |rets| == |present|
      modifies this`waiting, this`remaining
      ensures Counts(Model()) && !Stopped(Model())
      ensures Pass(Model(), rets) == Submit(old(Model()), WhenNoneSubmitted, rets)
    {
      waiting := false;
      if submitted == 0 {
        remaining := |present|;
      }
    }

    /** One round of the mirror write loop. */
    method MirrorOne(i: nat, ret: Ret) returns (stop: bool)
      requires Counts(Model()) && !Stopped(Model()) && i == submitted < |present|
      modifies this
      ensures Model() == SubmitOne(old(Model()), ret) && stop == Stopped(Model())
    {
      if !present[i] {
        CreditMissing(ret);
        return false;
      }
      if ret != Accepted {
        var _ := Refuse(ret);
        return true;
      }
      Accept(i);
      return false;
    }

    /** raid1_submit_write_request */
    method SubmitMirrorWrite(rets: seq<Ret>)
      requires Callable(Model(), WhenNoneSubmitted) && |rets| == |present|
      modifies this
      ensures Model() == Submit(old(Model()), WhenNoneSubmitted, rets)
    {
      EnterWhenNoneSubmitted(rets);
      ghost var entered := Model();
      var i := submitted;
      var stop := false;
      while !stop && i < |present|
        invariant Counts(Model()) && stop == Stopped(Model()) && (!stop ==> i == submitted)
        invariant Pass(Model(), rets) == Pass(entered, rets)
        decreases !stop, |present| - i
      {
        stop := MirrorOne(i, rets[i]);
        i := i + 1;
      }
    }
  }
}
