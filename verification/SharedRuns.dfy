/** Runs of a shared array, and what they leave on the disks and in the callers' memory: raid/raid5f.c. */
module SharedRuns {
  import opened Options
  import opened Bytes
  import opened Layout
  import opened Iovecs
  import opened SharedArray
  import opened SharedProofs
  import DataPath
  import C = StripePool
  import R = Reconstruct
  import A = Raid5Array
  import F = FlatDevice
  import P = ReadPath
  import E = EndToEnd

  // ---- runs ----

  lemma {:induction false} StepInv(g: Geometry, a0: A.Array, sh: Shared, e: Event)
    requires Inv(g, a0, sh) && C.LiveWrites(sh.ch.writes.busy) && Enabled(g, sh, e)
    ensures Inv(g, a0, Step(g, sh, e))
  {
    Books(sh.ch);
    StepCoheres(g, sh, e);
    StepFollows(g, a0, sh, e);
    StepOfChannel(g, sh, e);
    C.StepInv(sh.ch, ChannelEvent(g, sh, e));
  }

  /** A channel opened on an array. */
  ghost function Open(g: Geometry, a0: A.Array): (sh: Shared)
    requires A.WellFormed(g, a0)
    ensures Inv(g, a0, sh)
  {
    Shared(C.NewChannel(g.n, a0.missing), a0, map[], map[], map[], [], [], {}, map[], {})
  }

  ghost predicate LegalFrom(g: Geometry, a0: A.Array, sh: Shared, events: seq<Event>)
    requires Inv(g, a0, sh)
    decreases |events|
  {
    events == [] ||
    (Books(sh.ch);
     Enabled(g, sh, events[0])
     && (StepInv(g, a0, sh, events[0]); LegalFrom(g, a0, Step(g, sh, events[0]), events[1..])))
  }

  ghost function After(g: Geometry, a0: A.Array, sh: Shared, events: seq<Event>): Shared
    requires Inv(g, a0, sh) && LegalFrom(g, a0, sh, events)
    decreases |events|
  {
    if events == [] then sh
    else
      Books(sh.ch);
      StepInv(g, a0, sh, events[0]);
      After(g, a0, Step(g, sh, events[0]), events[1..])
  }

  lemma {:induction false} AfterInv(g: Geometry, a0: A.Array, sh: Shared, events: seq<Event>)
    requires Inv(g, a0, sh) && LegalFrom(g, a0, sh, events)
    ensures Inv(g, a0, After(g, a0, sh, events))
    decreases |events|
  {
    if events != [] {
      Books(sh.ch);
      StepInv(g, a0, sh, events[0]);
      AfterInv(g, a0, Step(g, sh, events[0]), events[1..]);
    }
  }

  // ---- main results, for any number of requests at once ----

  /**
   Whatever interleaves: on every stripe that no request is writing and whose last write did not fail, the disks
   present store what the array model stores after the writes that succeeded, one after the other.
   */
  lemma {:induction false} DisksFollowWrites(g: Geometry, a0: A.Array, events: seq<Event>, s: nat, d: nat)
    requires A.WellFormed(g, a0) && LegalFrom(g, a0, Open(g, a0), events) && s < g.stripes && d < g.n
    requires var sh := After(g, a0, Open(g, a0), events);
             s !in sh.torn && NotStarted(sh.writing, s) && A.Present(sh.a, d)
    ensures var sh := After(g, a0, Open(g, a0), events);
            && A.WellFormed(g, sh.a) && A.LegalRun(g, a0, sh.ops)
            && sh.a.disks[d][s] == A.Run(g, a0, sh.ops).disks[d][s]
  {
    AfterInv(g, a0, Open(g, a0), events);
    var sh := After(g, a0, Open(g, a0), events);
    assert SameStripe(g, sh.a, A.Run(g, a0, sh.ops), s);
  }

  /** Re-deriving a block needs no disk but those present, so the model's array gives the same. */
  lemma {:induction false} SameDerive(g: Geometry, a: A.Array, m: A.Array, d: nat, s: nat, o: nat)
    requires A.WellFormed(g, a) && A.WellFormed(g, m) && s < g.stripes && o < g.strip && d < g.n
    requires SameStripe(g, a, m, s) && (a.missing.None? || a.missing == Some(d))
    ensures A.Derive(g, a, d, s, o) == A.Derive(g, m, d, s, o)
  {
    assert Without(A.Row(g, a, s, o), d) == Without(A.Row(g, m, s, o), d);
  }

  lemma {:induction false} SameRead(g: Geometry, a: A.Array, m: A.Array, off: nat, num: nat, i: nat)
    requires A.WellFormed(g, a) && A.WellFormed(g, m) && F.InStrip(g, off, num) && i < num && F.Served(g, a, off)
    requires SameStripe(g, a, m, At(g, off).stripe)
    ensures F.ReadRequest(g, a, off, num)[i] == F.ReadRequest(g, m, off, num)[i]
  {
    F.ReadRequestAt(g, a, off, num, i);
    F.ReadRequestAt(g, m, off, num, i);
    SameDerive(g, a, m, F.HomeDisk(g, off), At(g, off).stripe, At(g, off + i).offset);
  }

  /** The caller's memory has what a read of the array returns. */
  ghost predicate Returned(g: Geometry, a: A.Array, t: ReadTask, mem: seq<byte>)
    requires A.WellFormed(g, a) && F.InStrip(g, t.off, t.num) && |t.lists| == g.n
  {
    var list := Addrs(t.lists[F.HomeDisk(g, t.off)]);
    && DataPath.InMemory(mem, list) && |list| == g.blocklen * t.num
    && Cut(DataPath.Gather(mem, list), g.blocklen, t.num) == F.ReadRequest(g, a, t.off, t.num)
  }

  lemma {:induction false} ReadReturns(g: Geometry, a: A.Array, r: R.Read, t: ReadTask, pe: P.Event)
    requires A.WellFormed(g, a) && ReadFits(g, a, r, t)
    requires R.Enabled(r, pe.re) && P.Effect(Req(g, a, t), t.mem, pe) && R.Step(r, pe.re).completed == [true]
    ensures Returned(g, a, t, pe.after)
  {
    ReadStepFits(g, a, r, t, pe);
    E.DeliveredIsRead(g, a, t.off, t.num, t.lists, pe.after);
  }

  /** Event `pe` can happen to the read that request `id` serves, and completes it with success. */
  ghost predicate Succeeds(g: Geometry, sh: Shared, id: nat, t: ReadTask, pe: P.Event)
  {
    && A.WellFormed(g, sh.a) && ReadsFit(g, sh.a, sh.ch.readers.busy, sh.reading)
    && id in sh.reading && sh.reading[id] == t && AskFits(g, sh.a, t) && P.Effect(Req(g, sh.a, t), t.mem, pe)
    && id in sh.ch.readers.busy && Moves(sh, id, pe.re)
    && R.Step(sh.ch.readers.busy[id].job, pe.re).completed == [true]
  }

  lemma {:induction false} SuccessReturns(g: Geometry, sh: Shared, id: nat, t: ReadTask, pe: P.Event)
    requires Succeeds(g, sh, id, t, pe)
    ensures Returned(g, sh.a, t, pe.after)
  {
    ReadFitsAt(g, sh, id);
    ReadReturns(g, sh.a, sh.ch.readers.busy[id].job, t, pe);
  }

  /** What a read of the array returns for block `i` is the last data written, flipped where the array says so. */
  ghost predicate LastWritten(
    g: Geometry, a0: A.Array, a: A.Array, ops: seq<A.Op>, off: nat, num: nat, i: nat)
    requires A.WellFormed(g, a) && A.WellFormed(g, a0) && A.LegalRun(g, a0, ops) && F.InStrip(g, off, num) && i < num
  {
    off + i in F.FlatRun(g, a0, ops) ==>
      var c, last := A.LastFlip(ops, At(g, off).stripe), F.FlatRun(g, a0, ops)[off + i];
      && |last| == g.blocklen
      && F.ReadRequest(g, a, off, num)[i] ==
           if c.Some? && c != Some(F.HomeDisk(g, off)) && At(g, off + i).offset == 0 then A.FlipLow(last) else last
  }

  lemma {:induction false} ReadsLastWritten(
    g: Geometry, a0: A.Array, a: A.Array, ops: seq<A.Op>, off: nat, num: nat, i: nat)
    requires A.WellFormed(g, a) && F.InStrip(g, off, num) && F.Served(g, a, off) && i < num
    requires A.WellFormed(g, a0) && A.LegalRun(g, a0, ops) && A.Run(g, a0, ops).missing == a.missing
    requires SameStripe(g, a, A.Run(g, a0, ops), At(g, off).stripe)
    ensures LastWritten(g, a0, a, ops, off, num, i)
  {
    if off + i in F.FlatRun(g, a0, ops) {
      SameRead(g, a, A.Run(g, a0, ops), off, num, i);
      F.ReadDelivers(g, a0, ops, off, num, i);
    }
  }

  lemma {:induction false} SameOfReading(g: Geometry, a0: A.Array, sh: Shared, id: nat)
    requires A.WellFormed(g, sh.a) && Follows(g, a0, sh.a, sh.ops, sh.writing, sh.torn)
    requires Apart(g, sh.writing, sh.reading, sh.asked) && id in sh.reading
    requires StripeOf(g, sh.reading[id]) !in sh.torn && StripeOf(g, sh.reading[id]) < g.stripes
    ensures SameStripe(g, sh.a, A.Run(g, a0, sh.ops), StripeOf(g, sh.reading[id]))
  {
    assert NotStarted(sh.writing, StripeOf(g, sh.reading[id]));
  }

  /**
   Whatever interleaves: a read completed with success leaves in the caller's memory what a read of the array
   returns, and unless the last write of its stripe failed, that is for each block the last data that a write
   completed with success left there, flipped exactly where a read of the array delivers it so.
   */
  lemma {:induction false} ReadsReturnLast(
    g: Geometry, a0: A.Array, events: seq<Event>, id: nat, t: ReadTask, pe: P.Event, i: nat)
    requires A.WellFormed(g, a0) && LegalFrom(g, a0, Open(g, a0), events)
    requires Succeeds(g, After(g, a0, Open(g, a0), events), id, t, pe) && i < t.num
    ensures var sh := After(g, a0, Open(g, a0), events);
            && Returned(g, sh.a, t, pe.after)
            && (StripeOf(g, t) !in sh.torn ==>
                  A.LegalRun(g, a0, sh.ops) && LastWritten(g, a0, sh.a, sh.ops, t.off, t.num, i))
  {
    AfterInv(g, a0, Open(g, a0), events);
    var sh := After(g, a0, Open(g, a0), events);
    SuccessReturns(g, sh, id, t, pe);
    if StripeOf(g, t) !in sh.torn {
      SameOfReading(g, a0, sh, id);
      ReadsLastWritten(g, a0, sh.a, sh.ops, t.off, t.num, i);
    }
  }
}
