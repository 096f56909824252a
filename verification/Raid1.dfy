/** Mirroring: raid/raid1.c. Reads go to the least busy mirror, writes to all of them. */
module Raid1 {
  import opened FanOut

  const UINT64_MAX := 0xFFFF_FFFF_FFFF_FFFF
  const UINT8_MAX := 255

  /** A read in flight: the mirror it was sent to, as the parent remembers it, and its size. */
  datatype Read = Read(mirror: nat, blocks: nat)

  /** Blocks in flight to mirror `i`. */
  function Outstanding(inFlight: seq<Read>, i: nat): nat
  {
    if inFlight == [] then 0
    else Outstanding(inFlight[..|inFlight| - 1], i) + Share(inFlight[|inFlight| - 1], i)
  }

  function Share(r: Read, i: nat): nat
  {
    if r.mirror == i then r.blocks else 0
  }

  function Without(inFlight: seq<Read>, k: nat): seq<Read>
    requires k < |inFlight|
  {
    inFlight[..k] + inFlight[k + 1..]
  }

  lemma {:induction false} OutstandingWithout(inFlight: seq<Read>, k: nat, i: nat)
    requires k < |inFlight|
    ensures Outstanding(inFlight, i) == Outstanding(Without(inFlight, k), i) + Share(inFlight[k], i)
  {
    var last := |inFlight| - 1;
    var w := Without(inFlight, k);
    if k == last {
      assert w == inFlight[..last];
    } else {
      OutstandingWithout(inFlight[..last], k, i);
      assert w[..|w| - 1] == Without(inFlight[..last], k);
      assert w[|w| - 1] == inFlight[last];
    }
  }

  /** The choice: a least busy live mirror, the first of those; none when no live counter is below its maximum. */
  ghost predicate Chosen(present: seq<bool>, outstanding: seq<nat>, idx: nat)
    requires |present| == |outstanding|
  {
    if idx == UINT8_MAX then forall i :: 0 <= i < |present| && present[i] ==> outstanding[i] >= UINT64_MAX
    else
      && idx < |present| && present[idx] && outstanding[idx] < UINT64_MAX
      && (forall i :: 0 <= i < |present| && present[i] ==> outstanding[idx] <= outstanding[i])
      && (forall i :: 0 <= i < idx && present[i] ==> outstanding[idx] < outstanding[i])
  }

  /** What becomes of a read. */
  datatype Outcome = Sent(mirror: nat) | Queued | Failed

  /** Per-channel read counters, and the reads in flight they stand for. */
  class ReadBalancer {
    const present: seq<bool>
    const outstanding: array<nat>     // read_blocks_outstanding
    ghost var inFlight: seq<Read>

    /** Each counter is exactly the number of blocks in flight to its mirror. */
    ghost predicate Valid()
      reads this, outstanding
    {
      && |present| == outstanding.Length <= UINT8_MAX
      && (forall i :: 0 <= i < |present| ==> outstanding[i] == Outstanding(inFlight, i))
      && (forall k :: 0 <= k < |inFlight| ==> inFlight[k].mirror < |present| && present[inFlight[k].mirror])
    }

    constructor (present: seq<bool>)
      requires |present| <= UINT8_MAX
      ensures Valid() && this.present == present && inFlight == [] && fresh(outstanding)
    {
      this.present := present;
      outstanding := new nat[|present|](_ => 0);
      inFlight := [];
    }

    /** raid1_channel_next_read_base_bdev */
    method Next() returns (idx: nat)
      requires |present| == outstanding.Length <= UINT8_MAX
      ensures Chosen(present, outstanding[..], idx)
    {
      var least := UINT64_MAX;
      idx := UINT8_MAX;
      for i := 0 to |present|
        invariant idx == UINT8_MAX ==>
                    least == UINT64_MAX && forall j :: 0 <= j < i && present[j] ==> outstanding[j] >= UINT64_MAX
        invariant idx != UINT8_MAX ==>
                    && idx < i && present[idx] && least == outstanding[idx] < UINT64_MAX
                    && (forall j :: 0 <= j < i && present[j] ==> least <= outstanding[j])
                    && (forall j :: 0 <= j < idx && present[j] ==> least < outstanding[j])
      {
        if present[i] && outstanding[i] < least {
          least := outstanding[i];
          idx := i;
        }
      }
    }

    /** raid1_submit_read_request; `answers[i]` is what base bdev i would answer. */
    method SubmitRead(blocks: nat, answers: seq<Ret>) returns (r: Outcome, ghost idx: nat)
      requires Valid() && |answers| == |present|
      modifies this`inFlight, outstanding
      ensures Valid() && Chosen(present, old(outstanding[..]), idx)
      ensures r.Sent? <==> idx != UINT8_MAX && answers[idx] == Accepted
      ensures r == Queued <==> idx != UINT8_MAX && answers[idx] == NoMem
      ensures r == Failed <==> idx == UINT8_MAX || answers[idx] == Error
      ensures r.Sent? ==> r.mirror == idx
      ensures inFlight == if r.Sent? then old(inFlight) + [Read(r.mirror, blocks)] else old(inFlight)
    {
      var mirror := Next();
      idx := mirror;
      if mirror == UINT8_MAX {
        return Failed, idx;
      }
      match answers[mirror]
      case Accepted =>
        Count(mirror, blocks);
        r := Sent(mirror);
      case NoMem => r := Queued;
      case Error => r := Failed;
    }

    /** raid1_channel_inc_read_counters */
    method Count(idx: nat, blocks: nat)
      requires Valid() && idx < |present| && present[idx]
      modifies this`inFlight, outstanding
      ensures Valid() && inFlight == old(inFlight) + [Read(idx, blocks)]
    {
      ghost var was := inFlight;
      outstanding[idx] := outstanding[idx] + blocks;
      inFlight := inFlight + [Read(idx, blocks)];
      assert inFlight[..|inFlight| - 1] == was;
    }

    /** raid1_read_bdev_io_completion for the k-th read in flight: the decrement never runs below zero. */
    method ReadComplete(ghost k: nat, mirror: nat, blocks: nat)
      requires Valid() && k < |inFlight| && inFlight[k] == Read(mirror, blocks)
      modifies this`inFlight, outstanding
      ensures Valid() && inFlight == Without(old(inFlight), k)
    {
      ghost var was := inFlight;
      forall i | 0 <= i < |present|
        ensures Outstanding(was, i) == Outstanding(Without(was, k), i) + Share(was[k], i)
      {
        OutstandingWithout(was, k, i);
      }
      assert outstanding[mirror] >= blocks;
      outstanding[mirror] := outstanding[mirror] - blocks;
      inFlight := Without(inFlight, k);
    }
  }
}

/** Mirror agreement: raid1_submit_write_request with the mirrors' contents. */
module MirrorWrite {
  import opened FanOut

  /** A write in progress and what the mirrors hold. */
  datatype Write<T> = Write(io: Io, mirrors: seq<seq<T>>)

  /** The data of a write. */
  datatype Payload<T> = Payload(offset: nat, data: seq<T>)

  function Overwrite<T>(s: seq<T>, p: Payload<T>): (r: seq<T>)
    requires p.offset + |p.data| <= |s|
    ensures |r| == |s|
    ensures forall b :: 0 <= b < |s| ==>
        r[b] == if p.offset <= b < p.offset + |p.data| then p.data[b - p.offset] else s[b]
  {
    s[..p.offset] + p.data + s[p.offset + |p.data|..]
  }

  ghost predicate Fits<T>(mirrors: seq<seq<T>>, p: Payload<T>)
  {
    forall i :: 0 <= i < |mirrors| ==> p.offset + |p.data| <= |mirrors[i]|
  }

  /** A mirror that completes its child successfully has stored the data. */
  function WriteStep<T>(w: Write<T>, p: Payload<T>, e: Event): Write<T>
    requires Inv(w.io) && Enabled(w.io, e) && |w.mirrors| == w.io.N() && Fits(w.mirrors, p)
  {
    var io' := Step(w.io, WhenNoneSubmitted, e);
    if e.Done? && e.ok then Write(io', w.mirrors[e.child := Overwrite(w.mirrors[e.child], p)]) else w.(io := io')
  }

  /** What the mirrors hold in the middle of a write that found them holding `before`. */
  ghost predicate DataInv<T>(w: Write<T>, p: Payload<T>, before: seq<seq<T>>)
  {
    && |w.mirrors| == |before| == w.io.N() && Fits(before, p)
    && (forall i :: 0 <= i < |before| ==> |w.mirrors[i]| == |before[i]|)
    && (forall i :: 0 <= i < |before| && (i >= w.io.submitted || i in w.io.inFlight || !w.io.present[i]) ==>
        w.mirrors[i] == before[i])
    && (!w.io.childFailed ==>
          forall i :: 0 <= i < w.io.submitted && i < |before| && w.io.present[i] && i !in w.io.inFlight ==>
            w.mirrors[i] == Overwrite(before[i], p))
  }

  lemma {:induction false} GrowData<T>(w: Write<T>, io': Io, p: Payload<T>, before: seq<seq<T>>)
    requires DataInv(w, p, before) && Grows(w.io, io')
    ensures DataInv(w.(io := io'), p, before)
  {
  }

  lemma {:induction false} DoneData<T>(w: Write<T>, p: Payload<T>, before: seq<seq<T>>, i: nat, ok: bool)
    requires DataInv(w, p, before) && Inv(w.io) && i in w.io.inFlight && Fits(w.mirrors, p)
    ensures DataInv(WriteStep(w, p, Done(i, ok)), p, before)
  {
  }

  lemma {:induction false} StepData<T>(w: Write<T>, p: Payload<T>, before: seq<seq<T>>, e: Event)
    requires DataInv(w, p, before) && Inv(w.io) && Enabled(w.io, e)
    ensures Fits(w.mirrors, p) && DataInv(WriteStep(w, p, e), p, before)
  {
    match e
    case Retry(rets) =>
      PassGrows(w.io.(waiting := false), rets);
      NeverReinitialised(w.io, WhenNoneSubmitted);
      GrowData(w, Step(w.io, WhenNoneSubmitted, e), p, before);
    case Done(i, ok) => DoneData(w, p, before, i, ok);
  }

  lemma {:induction false} StartData<T>(present: seq<bool>, rets: seq<Ret>, p: Payload<T>, before: seq<seq<T>>)
    requires |rets| == |present| == |before| > 0 && Fits(before, p)
    ensures DataInv(Write(Start(present, WhenNoneSubmitted, rets), before), p, before)
  {
    var io := Enter(Fresh(present), WhenNoneSubmitted);
    PassGrows(io, rets);
    GrowData(Write(io, before), Pass(io, rets), p, before);
  }

  /** The events of one write, given what they start from. */
  ghost predicate LegalWrite<T>(
    present: seq<bool>, before: seq<seq<T>>, p: Payload<T>, first: seq<Ret>, events: seq<Event>)
  {
    |before| == |present| && Fits(before, p) && LegalRun(present, WhenNoneSubmitted, first, events)
  }

  ghost function RunWrite<T>(
    present: seq<bool>, before: seq<seq<T>>, p: Payload<T>, first: seq<Ret>, events: seq<Event>): (w: Write<T>)
    requires LegalWrite(present, before, p, first, events)
    ensures w.io == Run(present, WhenNoneSubmitted, first, events) && DataInv(w, p, before)
    decreases |events|
  {
    if events == [] then
      StartData(present, first, p, before);
      Write(Start(present, WhenNoneSubmitted, first), before)
    else
      var w := RunWrite(present, before, p, first, events[..|events| - 1]);
      StepData(w, p, before, events[|events| - 1]);
      WriteStep(w, p, events[|events| - 1])
  }

  /** A write that succeeds has stored its data on every live mirror and nothing anywhere else. */
  lemma {:induction false} SuccessReachesAll<T>(
    present: seq<bool>, before: seq<seq<T>>, p: Payload<T>, first: seq<Ret>, events: seq<Event>, i: nat)
    requires LegalWrite(present, before, p, first, events) && i < |present|
    requires RunWrite(present, before, p, first, events).io.completed == [true]
    ensures RunWrite(present, before, p, first, events).mirrors[i] ==
        if present[i] then Overwrite(before[i], p) else before[i]
  {
    CompletesOnce(present, WhenNoneSubmitted, first, events);
  }

  // ---- runs of writes and of mirrors going missing ----

  datatype Op<T> = WriteOp(p: Payload<T>, first: seq<Ret>, events: seq<Event>) | LoseOp(mirror: nat)

  datatype Array<T> = Array(present: seq<bool>, mirrors: seq<seq<T>>)

  /** Every write succeeds. */
  ghost predicate LegalOp<T>(a: Array<T>, op: Op<T>)
  {
    match op
    case WriteOp(p, first, events) =>
      LegalWrite(a.present, a.mirrors, p, first, events) &&
          RunWrite(a.present, a.mirrors, p, first, events).io.completed == [true]
    case LoseOp(i) => i < |a.present|
  }

  ghost function Apply<T>(a: Array<T>, op: Op<T>): Array<T>
    requires LegalOp(a, op)
  {
    match op
    case WriteOp(p, first, events) => a.(mirrors := RunWrite(a.present, a.mirrors, p, first, events).mirrors)
    case LoseOp(i) => a.(present := a.present[i := false])
  }

  ghost predicate LegalOps<T>(a: Array<T>, ops: seq<Op<T>>)
    decreases |ops|
  {
    ops == [] || (LegalOp(a, ops[0]) && LegalOps(Apply(a, ops[0]), ops[1..]))
  }

  ghost function ApplyAll<T>(a: Array<T>, ops: seq<Op<T>>): Array<T>
    requires LegalOps(a, ops)
    decreases |ops|
  {
    if ops == [] then a else ApplyAll(Apply(a, ops[0]), ops[1..])
  }

  /** The one device the mirrors stand for. */
  function FlatOps<T>(flat: seq<T>, ops: seq<Op<T>>): seq<T>
    decreases |ops|
  {
    if ops == [] then flat
    else
      match ops[0]
      case WriteOp(p, _, _) => if p.offset + |p.data| <= |flat| then FlatOps(Overwrite(flat, p), ops[1..]) else flat
      case LoseOp(_) => FlatOps(flat, ops[1..])
  }

  /** Each live mirror begins with the device's blocks. */
  ghost predicate Agree<T>(a: Array<T>, flat: seq<T>)
  {
    |a.present| == |a.mirrors| && forall i :: 0 <= i < |a.present| && a.present[i] ==> a.mirrors[i] == flat
  }

  /**
   After any successful writes, and whichever mirrors go missing, every live mirror holds the last data
   written to each block.
   */
  lemma {:induction false} MirrorsAgree<T>(a: Array<T>, flat: seq<T>, ops: seq<Op<T>>)
    requires Agree(a, flat) && LegalOps(a, ops)
    requires forall i :: 0 <= i < |a.mirrors| ==> |a.mirrors[i]| == |flat|
    ensures Agree(ApplyAll(a, ops), FlatOps(flat, ops))
    decreases |ops|
  {
    if ops != [] {
      var a' := Apply(a, ops[0]);
      match ops[0] {
        case WriteOp(p, first, events) =>
          if |a.present| > 0 {
            assert p.offset + |p.data| <= |a.mirrors[0]|;
          }
          forall i | 0 <= i < |a.present|
            ensures a'.mirrors[i] == if a.present[i] then Overwrite(a.mirrors[i], p) else a.mirrors[i]
          {
            SuccessReachesAll(a.present, a.mirrors, p, first, events, i);
          }
          MirrorsAgree(a', Overwrite(flat, p), ops[1..]);
        case LoseOp(_) =>
          MirrorsAgree(a', flat, ops[1..]);
      }
    }
  }

  /** With every mirror missing a write is reported successful without reaching any disk. */
  lemma {:induction false} NoMirrorStillSucceeds(n: nat, rets: seq<Ret>)
    requires |rets| == n > 0
    ensures var io := Start(seq(n, _ => false), WhenNoneSubmitted, rets); io.completed == [true] && io.issued == []
  {
    NothingIssued(Enter(Fresh(seq(n, _ => false)), WhenNoneSubmitted), rets);
  }

  lemma {:induction false} NothingIssued(io: Io, rets: seq<Ret>)
    requires Counts(io) && |rets| == io.N() && !Stopped(io) && !io.failed && io.inFlight == {} && io.N() > 0
    requires forall i :: 0 <= i < io.N() ==> !io.present[i]
    ensures Pass(io, rets).completed == [true] && Pass(io, rets).issued == []
    decreases io.N() - io.submitted
  {
    if io.submitted < io.N() {
      NothingIssued(SubmitOne(io, rets[io.submitted]), rets);
    } else {
      NonePresent(io.present, io.submitted);
    }
  }

  lemma {:induction false} NonePresent(present: seq<bool>, k: nat)
    requires k <= |present| && forall i :: 0 <= i < |present| ==> !present[i]
    ensures PresentBelow(present, k) == []
  {
    if k > 0 {
      NonePresent(present, k - 1);
    }
  }
}
