/**
 Every event of a shared array keeps its requests and its disks together, and the disks in step with the array
 model: raid/raid5f.c.
 */
module SharedProofs {
  import opened Options
  import opened Bytes
  import opened Layout
  import opened RequestPool
  import opened Iovecs
  import opened SharedArray
  import FanOut
  import DataPath
  import E = EndToEnd
  import C = StripePool
  import W = Raid5Write
  import R = Reconstruct
  import A = Raid5Array
  import F = FlatDevice
  import P = ReadPath

  // ---- writes ----

  lemma {:induction false} OtherWrite(g: Geometry, a: A.Array, a': A.Array, s: nat, job: C.WriteJob, t: WriteTask)
    requires A.WellFormed(g, a) && A.WellFormed(g, a') && OnlyStripe(g, a, a', s) && t.stripe != s
    requires WriteFits(g, a, job, t)
    ensures WriteFits(g, a', job, t)
  {
    assert Column(g, a', t.stripe) == Column(g, a, t.stripe);
  }

  lemma {:induction false} WritesFrame(
    g: Geometry, a: A.Array, a': A.Array, s: nat, busy: map<nat, Used<C.WriteJob>>, writing: map<nat, WriteTask>)
    requires A.WellFormed(g, a) && A.WellFormed(g, a') && OnlyStripe(g, a, a', s) && NotWritten(writing, s)
    requires WritesFit(g, a, busy, writing)
    ensures WritesFit(g, a', busy, writing)
  {
    forall id | id in busy ensures WriteFits(g, a', busy[id].job, writing[id]) {
      OtherWrite(g, a, a', s, busy[id].job, writing[id]);
    }
  }

  lemma {:induction false} WritesWithout(
    g: Geometry, a: A.Array, a': A.Array, busy: map<nat, Used<C.WriteJob>>, writing: map<nat, WriteTask>, id: nat)
    requires A.WellFormed(g, a) && A.WellFormed(g, a') && id in busy && WritesFit(g, a, busy, writing)
    requires OnlyStripe(g, a, a', writing[id].stripe)
    requires forall i :: i in writing && i != id ==> writing[i].stripe != writing[id].stripe
    ensures WritesFit(g, a', busy - {id}, writing - {id})
  {
    WritesFrame(g, a, a', writing[id].stripe, busy - {id}, writing - {id});
  }

  lemma {:induction false} WritesWith(
    g: Geometry, a: A.Array, busy: map<nat, Used<C.WriteJob>>, writing: map<nat, WriteTask>, id: nat,
    u: Used<C.WriteJob>, t: WriteTask)
    requires A.WellFormed(g, a) && WritesFit(g, a, busy - {id}, writing - {id}) && WriteFits(g, a, u.job, t)
    ensures WritesFit(g, a, busy[id := u], writing[id := t])
  {
    assert busy[id := u].Keys == (busy - {id}).Keys + {id};
    assert writing[id := t].Keys == (writing - {id}).Keys + {id};
    forall i | i in busy && i != id ensures i in writing && WriteFits(g, a, busy[i].job, writing[i]) {
      assert i in busy - {id} && i in writing - {id};
    }
  }

  // ---- reads ----

  lemma {:induction false} OtherHolds(g: Geometry, a: A.Array, a': A.Array, s: nat, t: ReadTask, mem: seq<byte>, i: nat)
    requires A.WellFormed(g, a) && A.WellFormed(g, a') && OnlyStripe(g, a, a', s) && StripeOf(g, t) != s
    requires F.InStrip(g, t.off, t.num) && |t.lists| == g.n && i < g.n && P.Holds(Req(g, a, t), mem, i)
    ensures P.Holds(Req(g, a', t), mem, i)
  {
    assert a'.disks[i][StripeOf(g, t)] == a.disks[i][StripeOf(g, t)];
  }

  lemma {:induction false} OtherRead(g: Geometry, a: A.Array, a': A.Array, s: nat, r: R.Read, t: ReadTask)
    requires A.WellFormed(g, a) && A.WellFormed(g, a') && OnlyStripe(g, a, a', s) && StripeOf(g, t) != s
    requires ReadFits(g, a, r, t)
    ensures ReadFits(g, a', r, t)
  {
    forall i | i in r.good ensures i < g.n && P.Holds(Req(g, a', t), t.mem, i) {
      OtherHolds(g, a, a', s, t, t.mem, i);
    }
  }

  lemma {:induction false} ReadsFrame(
    g: Geometry, a: A.Array, a': A.Array, s: nat, busy: map<nat, Used<R.Read>>, reading: map<nat, ReadTask>)
    requires A.WellFormed(g, a) && A.WellFormed(g, a') && OnlyStripe(g, a, a', s)
    requires forall id :: id in reading ==> StripeOf(g, reading[id]) != s
    requires ReadsFit(g, a, busy, reading)
    ensures ReadsFit(g, a', busy, reading)
  {
    forall id | id in busy ensures ReadFits(g, a', busy[id].job, reading[id]) {
      OtherRead(g, a, a', s, busy[id].job, reading[id]);
    }
  }

  lemma {:induction false} AsksFrame(
    g: Geometry, a: A.Array, a': A.Array, place: map<nat, Place>, asked: map<nat, ReadTask>)
    requires A.WellFormed(g, a) && A.WellFormed(g, a') && a'.missing == a.missing && AsksFit(g, a, place, asked)
    ensures AsksFit(g, a', place, asked)
  {
  }

  lemma {:induction false} ReadsWith(
    g: Geometry, a: A.Array, busy: map<nat, Used<R.Read>>, reading: map<nat, ReadTask>, id: nat, u: Used<R.Read>,
    t: ReadTask)
    requires A.WellFormed(g, a) && ReadsFit(g, a, busy, reading) && ReadFits(g, a, u.job, t)
    ensures ReadsFit(g, a, busy[id := u], reading[id := t])
  {
    assert busy[id := u].Keys == busy.Keys + {id} && reading[id := t].Keys == reading.Keys + {id};
  }

  lemma {:induction false} ReadsWithout(
    g: Geometry, a: A.Array, busy: map<nat, Used<R.Read>>, reading: map<nat, ReadTask>, id: nat)
    requires A.WellFormed(g, a) && ReadsFit(g, a, busy, reading)
    ensures ReadsFit(g, a, busy - {id}, reading - {id})
  {
    assert (busy - {id}).Keys == busy.Keys - {id} && (reading - {id}).Keys == reading.Keys - {id};
  }

  /** A read starts being reconstructed with nothing in its buffers. */
  lemma {:induction false} StartFits(g: Geometry, a: A.Array, t: ReadTask, rets: seq<FanOut.Ret>)
    requires A.WellFormed(g, a) && AskFits(g, a, t) && |rets| == g.n
    ensures F.HomeDisk(g, t.off) < g.n
    ensures ReadFits(g, a, R.Start(g.n, F.HomeDisk(g, t.off), rets), t)
  {
    var x := Req(g, a, t);
    R.StartIsLive(g.n, x.d, rets);
    assert P.Start(x, t.mem, rets) == P.State(R.Start(g.n, x.d, rets), t.mem);
  }

  /** An event of a reconstruct read keeps it fitting, or ends it. */
  lemma {:induction false} ReadStepFits(g: Geometry, a: A.Array, r: R.Read, t: ReadTask, pe: P.Event)
    requires A.WellFormed(g, a) && ReadFits(g, a, r, t)
    requires R.Enabled(r, pe.re) && P.Effect(Req(g, a, t), t.mem, pe)
    ensures R.Step(r, pe.re).released == |R.Step(r, pe.re).completed|
    ensures R.Step(r, pe.re).released == 0 ==> ReadFits(g, a, R.Step(r, pe.re), t.(mem := pe.after))
    ensures R.Step(r, pe.re).completed == [true] ==> P.Delivered(Req(g, a, t), pe.after)
  {
    P.StepInv(Req(g, a, t), P.State(r, t.mem), pe);
  }

  // ---- the model follows ----

  lemma {:induction false} Logged(g: Geometry, a0: A.Array, ops: seq<A.Op>, op: A.Op)
    requires A.WellFormed(g, a0) && A.LegalRun(g, a0, ops) && A.Legal(g, A.Run(g, a0, ops), op)
    ensures A.LegalRun(g, a0, ops + [op]) && A.Run(g, a0, ops + [op]) == A.Step(g, A.Run(g, a0, ops), op)
  {
    assert (ops + [op])[..|ops + [op]| - 1] == ops;
  }

  lemma {:induction false} SettledFrame(
    g: Geometry, a: A.Array, a': A.Array, m: A.Array, s: nat, writing: map<nat, WriteTask>,
    writing': map<nat, WriteTask>, torn: set<nat>, torn': set<nat>)
    requires A.WellFormed(g, a) && A.WellFormed(g, a') && A.WellFormed(g, m) && OnlyStripe(g, a, a', s)
    requires Settled(g, a, m, writing, torn)
    requires forall t :: t != s && t !in torn' && NotStarted(writing', t) ==> t !in torn && NotStarted(writing, t)
    requires s in torn' || !NotStarted(writing', s)
    ensures Settled(g, a', m, writing', torn')
  {
    forall t | 0 <= t < g.stripes && t !in torn' && NotStarted(writing', t)
      ensures SameStripe(g, a', m, t)
    {
      assert SameStripe(g, a, m, t);
    }
  }

  /** The stripe of a write that has succeeded is settled, and so are the others that were. */
  lemma {:induction false} SettledBySuccess(
    g: Geometry, a: A.Array, a': A.Array, m: A.Array, op: A.Op, writing: map<nat, WriteTask>, id: nat, torn: set<nat>)
    requires A.WellFormed(g, a) && A.WellFormed(g, a') && A.WellFormed(g, m) && m.missing == a.missing
    requires op.Write? && A.Legal(g, m, op) && OnlyStripe(g, a, a', op.stripe)
    requires id in writing && writing[id].stripe == op.stripe && Settled(g, a, m, writing, torn)
    requires forall d :: 0 <= d < g.n && A.Present(a', d) ==>
      a'.disks[d][op.stripe] == A.StoredStrip(g, op.stripe, A.Chunks(g, op.data), op.flipped, d)
    ensures Settled(g, a', A.Step(g, m, op), writing - {id}, torn - {op.stripe})
  {
    var m' := A.Step(g, m, op);
    assert m' == A.WriteStripe(g, m, op.stripe, A.Chunks(g, op.data), op.flipped);
    forall t | 0 <= t < g.stripes && t !in torn - {op.stripe} && NotStarted(writing - {id}, t)
      ensures SameStripe(g, a', m', t)
    {
      if t != op.stripe {
        NotStartedBefore(writing, id, t);
        assert SameStripe(g, a, m, t);
      }
    }
  }

  lemma {:induction false} NotStartedBefore(writing: map<nat, WriteTask>, id: nat, t: nat)
    requires id in writing && (writing[id].stripe == t ==> !writing[id].started) && NotStarted(writing - {id}, t)
    ensures NotStarted(writing, t)
  {
    forall i | i in writing && writing[i].stripe == t ensures !writing[i].started {
      if i != id {
        assert i in writing - {id};
        assert (writing - {id})[i] == writing[i];
      }
    }
  }

  lemma {:induction false} NotStartedWith(writing: map<nat, WriteTask>, id: nat, t': WriteTask, t: nat)
    requires NotStarted(writing[id := t'], t) && (id in writing && writing[id].stripe == t ==> !writing[id].started)
    ensures NotStarted(writing, t)
  {
    forall i | i in writing && writing[i].stripe == t ensures !writing[i].started {
      if i != id {
        assert i in writing[id := t'];
        assert writing[id := t'][i] == writing[i];
      }
    }
  }

  /** A write in progress that has started leaves its stripe unsettled, the others as they were. */
  lemma {:induction false} FollowsGoing(
    g: Geometry, a0: A.Array, a: A.Array, a': A.Array, ops: seq<A.Op>, writing: map<nat, WriteTask>, torn: set<nat>,
    id: nat, t': WriteTask)
    requires A.WellFormed(g, a) && A.WellFormed(g, a') && Follows(g, a0, a, ops, writing, torn)
    requires id in writing && OnlyStripe(g, a, a', writing[id].stripe)
    requires t'.stripe == writing[id].stripe && t'.started
    ensures Follows(g, a0, a', ops, writing[id := t'], torn)
  {
    var s := writing[id].stripe;
    forall t | t != s && NotStarted(writing[id := t'], t) ensures NotStarted(writing, t) {
      NotStartedWith(writing, id, t', t);
    }
    assert id in writing[id := t'];
    SettledFrame(g, a, a', A.Run(g, a0, ops), s, writing, writing[id := t'], torn, torn);
  }

  lemma {:induction false} FollowsFailure(
    g: Geometry, a0: A.Array, a: A.Array, a': A.Array, ops: seq<A.Op>, writing: map<nat, WriteTask>, torn: set<nat>,
    id: nat)
    requires A.WellFormed(g, a) && A.WellFormed(g, a') && Follows(g, a0, a, ops, writing, torn)
    requires id in writing && OnlyStripe(g, a, a', writing[id].stripe)
    ensures Follows(g, a0, a', ops, writing - {id}, torn + {writing[id].stripe})
  {
    var s := writing[id].stripe;
    forall t | t != s && NotStarted(writing - {id}, t) ensures NotStarted(writing, t) {
      NotStartedBefore(writing, id, t);
    }
    SettledFrame(g, a, a', A.Run(g, a0, ops), s, writing, writing - {id}, torn, torn + {s});
  }

  /** A write that ends before it has started leaves every stripe as it was. */
  lemma {:induction false} FollowsUnstarted(
    g: Geometry, a0: A.Array, a: A.Array, ops: seq<A.Op>, writing: map<nat, WriteTask>, torn: set<nat>, id: nat)
    requires A.WellFormed(g, a) && Follows(g, a0, a, ops, writing, torn) && id in writing && !writing[id].started
    ensures Follows(g, a0, a, ops, writing - {id}, torn)
  {
    forall t | NotStarted(writing - {id}, t) ensures NotStarted(writing, t) {
      NotStartedBefore(writing, id, t);
    }
  }

  lemma {:induction false} FollowsSuccess(
    g: Geometry, a0: A.Array, a: A.Array, a': A.Array, ops: seq<A.Op>, writing: map<nat, WriteTask>, torn: set<nat>,
    id: nat, job: C.WriteJob, t: WriteTask)
    requires A.WellFormed(g, a) && A.WellFormed(g, a') && Follows(g, a0, a, ops, writing, torn)
    requires id in writing && writing[id].stripe == t.stripe && t.started
    requires OnlyStripe(g, a, a', t.stripe) && WriteFits(g, a', job, t)
    requires W.WriteInv(job.w, job.image, job.before) && job.w.io.completed == [true]
    ensures Follows(g, a0, a', ops + [A.Write(t.stripe, t.data, job.w.poisoned)], writing - {id}, torn - {t.stripe})
  {
    var m := A.Run(g, a0, ops);
    var op := A.Write(t.stripe, t.data, job.w.poisoned);
    W.SuccessStores(g, t.stripe, A.Chunks(g, t.data), job.w, job.image, job.before);
    Logged(g, a0, ops, op);
    SettledBySuccess(g, a, a', m, op, writing, id, torn);
  }

  // ---- the invariant is kept ----

  /** How a write request may move on: it fits, or it has ended, with the disks untouched if it never started. */
  ghost predicate MovesTo(g: Geometry, a: A.Array, a': A.Array, t: WriteTask, job: C.WriteJob, t': WriteTask)
    requires A.WellFormed(g, a) && A.WellFormed(g, a')
  {
    && t'.stripe == t.stripe && t'.data == t.data && OnlyStripe(g, a, a', t.stripe)
    && (job.w.released == 0 || job.w.io.completed == [true] ==> t'.started && WriteFits(g, a', job, t'))
    && (!t'.started ==> a' == a && !t.started)
  }

  lemma {:induction false} WrittenWrites(
    g: Geometry, a: A.Array, a': A.Array, ch: C.Channel, writing: map<nat, WriteTask>, id: nat, job: C.WriteJob,
    t: WriteTask)
    requires A.WellFormed(g, a) && A.WellFormed(g, a') && WritesFit(g, a, ch.writes.busy, writing) && id in writing
    requires MovesTo(g, a, a', writing[id], job, t)
    requires forall i :: i in writing && i != id ==> writing[i].stripe != writing[id].stripe
    ensures WritesFit(g, a', C.MoveWrite(ch, id, job).writes.busy,
                      if job.w.released == 0 then writing[id := t] else writing - {id})
  {
    var busy := ch.writes.busy;
    WritesWithout(g, a, a', busy, writing, id);
    if job.w.released == 0 {
      WritesWith(g, a', busy, writing, id, busy[id].(job := job), t);
    }
  }

  lemma {:induction false} WrittenRest(ch: C.Channel, id: nat, job: C.WriteJob)
    requires id in ch.writes.busy && Linked(ch.writes, ForWrite, ch.place)
    ensures var ch' := C.MoveWrite(ch, id, job);
            ch'.n == ch.n && ch'.missing == ch.missing && ch'.readers == ch.readers && SameWaits(ch.place, ch'.place)
  {
    assert ch.place[ch.writes.busy[id].parent] == Served(ForWrite, id);
  }

  /** The same parents wait for direct reads. */
  ghost predicate SameWaits(place: map<nat, Place>, place': map<nat, Place>)
  {
    forall p :: (Waits(place', p) <==> Waits(place, p)) && (Waits(place, p) ==> place'[p].target == place[p].target)
  }

  lemma {:induction false} SameAsks(
    g: Geometry, a: A.Array, place: map<nat, Place>, place': map<nat, Place>, asked: map<nat, ReadTask>)
    requires A.WellFormed(g, a) && AsksFit(g, a, place, asked) && SameWaits(place, place')
    ensures AsksFit(g, a, place', asked)
  {
  }

  lemma {:induction false} MoreAsks(
    g: Geometry, a: A.Array, place: map<nat, Place>, asked: map<nat, ReadTask>, p: nat, to: Place, t: ReadTask)
    requires A.WellFormed(g, a) && AsksFit(g, a, place, asked) && AskFits(g, a, t)
    requires (to.DirectRead? || to.Queued?) && to.target == F.HomeDisk(g, t.off)
    ensures AsksFit(g, a, place[p := to], asked[p := t])
  {
  }

  lemma {:induction false} LessAsks(
    g: Geometry, a: A.Array, place: map<nat, Place>, asked: map<nat, ReadTask>, p: nat, to: Place)
    requires A.WellFormed(g, a) && AsksFit(g, a, place, asked) && !to.DirectRead? && !to.Queued?
    ensures AsksFit(g, a, place[p := to], asked - {p})
  {
  }

  lemma {:induction false} WrittenCoheres(
    g: Geometry, a: A.Array, a': A.Array, ch: C.Channel, writing: map<nat, WriteTask>, reading: map<nat, ReadTask>,
    asked: map<nat, ReadTask>, id: nat, job: C.WriteJob, t: WriteTask)
    requires Coherent(g, a, ch, writing, reading, asked) && id in writing && Linked(ch.writes, ForWrite, ch.place)
    requires A.WellFormed(g, a') && MovesTo(g, a, a', writing[id], job, t)
    ensures Coherent(g, a', C.MoveWrite(ch, id, job),
                     if job.w.released == 0 then writing[id := t] else writing - {id}, reading, asked)
  {
    var ch' := C.MoveWrite(ch, id, job);
    WrittenWrites(g, a, a', ch, writing, id, job, t);
    WrittenRest(ch, id, job);
    ReadsFrame(g, a, a', writing[id].stripe, ch.readers.busy, reading);
    SameAsks(g, a, ch.place, ch'.place, asked);
    AsksFrame(g, a, a', ch'.place, asked);
    FewerApart(g, writing, reading, asked, id);
    SameStripeApart(g, writing, reading, asked, id, t);
  }

  lemma {:induction false} SameStripeApart(
    g: Geometry, writing: map<nat, WriteTask>, reading: map<nat, ReadTask>, asked: map<nat, ReadTask>, id: nat,
    t: WriteTask)
    requires g.Valid() && Apart(g, writing, reading, asked) && id in writing && t.stripe == writing[id].stripe
    ensures Apart(g, writing[id := t], reading, asked)
  {
  }

  lemma {:induction false} FewerApart(
    g: Geometry, writing: map<nat, WriteTask>, reading: map<nat, ReadTask>, asked: map<nat, ReadTask>, id: nat)
    requires g.Valid() && Apart(g, writing, reading, asked)
    ensures Apart(g, writing - {id}, reading, asked) && Apart(g, writing, reading - {id}, asked)
            && Apart(g, writing, reading, asked - {id})
  {
  }

  lemma {:induction false} NewWriteCoheres(
    g: Geometry, a: A.Array, ch: C.Channel, writing: map<nat, WriteTask>, reading: map<nat, ReadTask>,
    asked: map<nat, ReadTask>, p: nat, t: WriteTask, image: seq<A.Strip>)
    requires Coherent(g, a, ch, writing, reading, asked) && ch.writes.free != [] && p !in ch.place
    requires ch.writes.free[0] !in ch.writes.busy && DataOk(g, C.Presence(g.n, a.missing), image, t)
    requires !t.started
    requires NotWritten(writing, t.stripe) && (forall id :: id in reading ==> StripeOf(g, reading[id]) != t.stripe)
    requires forall p :: p in asked ==> StripeOf(g, asked[p]) != t.stripe
    ensures Coherent(g, a, C.TakeWrite(ch, p, C.NewJob(ch, image, Column(g, a, t.stripe))),
                     writing[ch.writes.free[0] := t], reading, asked)
  {
    var id := ch.writes.free[0];
    NewWriteFits(g, a, ch, t, image);
    assert ch.writes.busy - {id} == ch.writes.busy && writing - {id} == writing;
    WritesWith(g, a, ch.writes.busy, writing, id, Used(p, C.NewJob(ch, image, Column(g, a, t.stripe))), t);
    SameAsks(g, a, ch.place, ch.place[p := Served(ForWrite, id)], asked);
    MoreApart(g, writing, reading, asked, id, t);
  }

  lemma {:induction false} NewWriteFits(g: Geometry, a: A.Array, ch: C.Channel, t: WriteTask, image: seq<A.Strip>)
    requires A.WellFormed(g, a) && ch.n == g.n && ch.missing == a.missing
    requires DataOk(g, C.Presence(g.n, a.missing), image, t) && !t.started
    ensures WriteFits(g, a, C.NewJob(ch, image, Column(g, a, t.stripe)), t)
  {
  }

  lemma {:induction false} MoreApart(
    g: Geometry, writing: map<nat, WriteTask>, reading: map<nat, ReadTask>, asked: map<nat, ReadTask>, id: nat,
    t: WriteTask)
    requires g.Valid() && Apart(g, writing, reading, asked) && id !in writing
    requires NotWritten(writing, t.stripe) && (forall id :: id in reading ==> StripeOf(g, reading[id]) != t.stripe)
    requires forall p :: p in asked ==> StripeOf(g, asked[p]) != t.stripe
    ensures Apart(g, writing[id := t], reading, asked)
  {
  }

  /** A parent that is not served ends, or is stranded. */
  lemma {:induction false} EndedCoheres(
    g: Geometry, a: A.Array, ch: C.Channel, writing: map<nat, WriteTask>, reading: map<nat, ReadTask>,
    asked: map<nat, ReadTask>, p: nat, s: Status)
    requires Coherent(g, a, ch, writing, reading, asked)
    ensures Coherent(g, a, C.Complete(ch, p, s), writing, reading, asked - {p})
    ensures Coherent(g, a, C.Park(ch, p, Stranded), writing, reading, asked - {p})
  {
    LessAsks(g, a, ch.place, asked, p, Completed(s));
    LessAsks(g, a, ch.place, asked, p, Stranded);
    FewerApart(g, writing, reading, asked, p);
  }

  lemma {:induction false} AskedCoheres(
    g: Geometry, a: A.Array, ch: C.Channel, writing: map<nat, WriteTask>, reading: map<nat, ReadTask>,
    asked: map<nat, ReadTask>, p: nat, to: Place, t: ReadTask)
    requires Coherent(g, a, ch, writing, reading, asked) && AskFits(g, a, t) && NotWritten(writing, StripeOf(g, t))
    requires (to.DirectRead? || to.Queued?) && to.target == F.HomeDisk(g, t.off)
    ensures Coherent(g, a, C.Park(ch, p, to), writing, reading, asked[p := t])
  {
    MoreAsks(g, a, ch.place, asked, p, to, t);
  }

  lemma {:induction false} NewReadCoheres(
    g: Geometry, a: A.Array, ch: C.Channel, writing: map<nat, WriteTask>, reading: map<nat, ReadTask>,
    asked: map<nat, ReadTask>, p: nat, t: ReadTask, rets: seq<FanOut.Ret>)
    requires Coherent(g, a, ch, writing, reading, asked) && ch.readers.free != [] && |rets| == g.n
    requires AskFits(g, a, t) && NotWritten(writing, StripeOf(g, t)) && F.HomeDisk(g, t.off) < g.n
    ensures Coherent(g, a, C.TakeRead(ch, p, R.Start(ch.n, F.HomeDisk(g, t.off), rets)), writing,
                     reading[ch.readers.free[0] := t], asked - {p})
  {
    var r := R.Start(ch.n, F.HomeDisk(g, t.off), rets);
    StartFits(g, a, t, rets);
    ReadsWith(g, a, ch.readers.busy, reading, ch.readers.free[0], Used(p, r), t);
    LessAsks(g, a, ch.place, asked, p, Served(ForRead, ch.readers.free[0]));
    FewerApart(g, writing, reading, asked, p);
  }

  lemma {:induction false} EndedReadCoheres(
    g: Geometry, a: A.Array, ch: C.Channel, writing: map<nat, WriteTask>, reading: map<nat, ReadTask>,
    asked: map<nat, ReadTask>, id: nat, r: R.Read)
    requires Coherent(g, a, ch, writing, reading, asked) && id in reading && Linked(ch.readers, ForRead, ch.place)
    requires r.released > 0
    ensures Coherent(g, a, C.MoveRead(ch, id, r), writing, reading - {id}, asked)
  {
    ReadsWithout(g, a, ch.readers.busy, reading, id);
    EndedWaits(ch, id, Completed(C.Result(r.completed == [true])));
    SameAsks(g, a, ch.place, C.MoveRead(ch, id, r).place, asked);
    FewerApart(g, writing, reading, asked, id);
  }

  lemma {:induction false} EndedWaits(ch: C.Channel, id: nat, to: Place)
    requires id in ch.readers.busy && Linked(ch.readers, ForRead, ch.place) && to.Completed?
    ensures SameWaits(ch.place, ch.place[ch.readers.busy[id].parent := to])
  {
    assert ch.place[ch.readers.busy[id].parent] == Served(ForRead, id);
  }

  lemma {:induction false} MovedReadCoheres(
    g: Geometry, a: A.Array, ch: C.Channel, writing: map<nat, WriteTask>, reading: map<nat, ReadTask>,
    asked: map<nat, ReadTask>, id: nat, r: R.Read, mem: seq<byte>)
    requires Coherent(g, a, ch, writing, reading, asked) && id in reading && r.released == 0
    requires ReadFits(g, a, r, reading[id].(mem := mem))
    ensures Coherent(g, a, C.MoveRead(ch, id, r), writing, reading[id := reading[id].(mem := mem)], asked)
  {
    ReadsWith(g, a, ch.readers.busy, reading, id, ch.readers.busy[id].(job := r), reading[id].(mem := mem));
    SameApart(g, writing, reading, asked, id, mem);
  }

  lemma {:induction false} SameApart(
    g: Geometry, writing: map<nat, WriteTask>, reading: map<nat, ReadTask>, asked: map<nat, ReadTask>, id: nat,
    mem: seq<byte>)
    requires g.Valid() && Apart(g, writing, reading, asked) && id in reading
    ensures Apart(g, writing, reading[id := reading[id].(mem := mem)], asked)
  {
  }

  lemma {:induction false} LostCoheres(
    g: Geometry, a: A.Array, ch: C.Channel, writing: map<nat, WriteTask>, reading: map<nat, ReadTask>,
    asked: map<nat, ReadTask>, d: nat)
    requires Coherent(g, a, ch, writing, reading, asked) && d < g.n
    requires Linked(ch.writes, ForWrite, ch.place) && Linked(ch.readers, ForRead, ch.place)
    requires forall p :: p in ch.place ==> ch.place[p].Completed?
    ensures writing == map[]
    ensures Coherent(g, a.(missing := Some(d)), ch.(missing := Some(d)), writing, reading, asked)
  {
    assert ch.writes.busy.Keys == {} && ch.readers.busy.Keys == {};
    assert forall p :: p !in asked;
  }

  lemma {:induction false} WrittenFollows(
    g: Geometry, a0: A.Array, sh: Shared, id: nat, job: C.WriteJob, t: WriteTask, a': A.Array)
    requires id in sh.ch.writes.busy && A.WellFormed(g, sh.a) && Follows(g, a0, sh.a, sh.ops, sh.writing, sh.torn)
    requires id in sh.writing && A.WellFormed(g, a') && MovesTo(g, sh.a, a', sh.writing[id], job, t)
    requires job.w.io.completed == [true] ==> W.WriteInv(job.w, job.image, job.before)
    ensures var sh' := Written(sh, id, job, t, a');
            Follows(g, a0, a', sh'.ops, sh'.writing, sh'.torn)
  {
    if job.w.released == 0 {
      FollowsGoing(g, a0, sh.a, a', sh.ops, sh.writing, sh.torn, id, t);
    } else if job.w.io.completed == [true] {
      FollowsSuccess(g, a0, sh.a, a', sh.ops, sh.writing, sh.torn, id, job, t);
    } else if t.started {
      FollowsFailure(g, a0, sh.a, a', sh.ops, sh.writing, sh.torn, id);
    } else {
      FollowsUnstarted(g, a0, sh.a, sh.ops, sh.writing, sh.torn, id);
    }
  }

  // ---- every event keeps requests and array together ----

  lemma {:induction false} NotAsked(g: Geometry, a: A.Array, place: map<nat, Place>, asked: map<nat, ReadTask>, p: nat)
    requires A.WellFormed(g, a) && AsksFit(g, a, place, asked) && !Waits(place, p)
    ensures p !in asked && asked - {p} == asked
  {
  }

  lemma {:induction false} NewWriteKeeps(
    g: Geometry, sh: Shared, p: nat, t: WriteTask, mapped: bool, noMem: bool, image: seq<A.Strip>)
    requires Coheres(g, sh) && p !in sh.ch.place
    requires sh.ch.writes.free != [] ==> sh.ch.writes.free[0] !in sh.ch.writes.busy
    requires DataOk(g, C.Presence(g.n, sh.a.missing), image, t) && !t.started && NotWritten(sh.writing, t.stripe)
    requires forall id :: id in sh.reading ==> StripeOf(g, sh.reading[id]) != t.stripe
    requires forall q :: q in sh.asked ==> StripeOf(g, sh.asked[q]) != t.stripe
    ensures Coheres(g, NewWriteStep(g, sh, p, t, mapped, noMem, image))
  {
    if sh.ch.writes.free == [] || !mapped {
      NotAsked(g, sh.a, sh.ch.place, sh.asked, p);
      EndedCoheres(g, sh.a, sh.ch, sh.writing, sh.reading, sh.asked, p,
                   if sh.ch.writes.free == [] || noMem then NoMemory else Failed);
    } else {
      NewWriteCoheres(g, sh.a, sh.ch, sh.writing, sh.reading, sh.asked, p, t, image);
    }
  }

  lemma {:induction false} AskKeeps(g: Geometry, sh: Shared, p: nat, t: ReadTask, ret: FanOut.Ret)
    requires Coheres(g, sh) && AskFits(g, sh.a, t) && NotWritten(sh.writing, StripeOf(g, t))
    ensures Coheres(g, AskStep(sh, p, F.HomeDisk(g, t.off), t, ret))
  {
    var home := F.HomeDisk(g, t.off);
    match ret
    case Error => EndedCoheres(g, sh.a, sh.ch, sh.writing, sh.reading, sh.asked, p, Failed);
    case NoMem => AskedCoheres(g, sh.a, sh.ch, sh.writing, sh.reading, sh.asked, p, Queued(home), t);
    case Accepted => AskedCoheres(g, sh.a, sh.ch, sh.writing, sh.reading, sh.asked, p, DirectRead(home), t);
  }

  lemma {:induction false} DirectDoneKeeps(
    g: Geometry, sh: Shared, p: nat, t: ReadTask, ok: bool, mapped: bool, rets: seq<FanOut.Ret>)
    requires Coheres(g, sh) && AskFits(g, sh.a, t) && NotWritten(sh.writing, StripeOf(g, t))
    requires C.ReadArgs(sh.ch, F.HomeDisk(g, t.off), rets)
    ensures Coheres(g, DirectDoneStep(sh, p, F.HomeDisk(g, t.off), t, ok, mapped, rets))
    ensures Coheres(g, NewMissingStep(sh, p, F.HomeDisk(g, t.off), t, mapped, rets))
  {
    if C.CanReconstruct(sh.ch, mapped) {
      NewReadCoheres(g, sh.a, sh.ch, sh.writing, sh.reading, sh.asked, p, t, rets);
    }
    EndedCoheres(g, sh.a, sh.ch, sh.writing, sh.reading, sh.asked, p, Failed);
    EndedCoheres(g, sh.a, sh.ch, sh.writing, sh.reading, sh.asked, p, NoMemory);
  }

  lemma {:induction false} OnReadKeeps(g: Geometry, sh: Shared, id: nat, pe: P.Event)
    requires Coheres(g, sh) && Linked(sh.ch.readers, ForRead, sh.ch.place) && id in sh.reading
    requires P.Effect(Req(g, sh.a, sh.reading[id]), sh.reading[id].mem, pe)
    requires id in sh.ch.readers.busy && Moves(sh, id, pe.re)
    ensures Coheres(g, OnReadStep(sh, id, pe))
  {
    ReadFitsAt(g, sh, id);
    var r := sh.ch.readers.busy[id].job;
    ReadStepFits(g, sh.a, r, sh.reading[id], pe);
    var r' := R.Step(r, pe.re);
    if r'.released > 0 {
      EndedReadCoheres(g, sh.a, sh.ch, sh.writing, sh.reading, sh.asked, id, r');
    } else {
      MovedReadCoheres(g, sh.a, sh.ch, sh.writing, sh.reading, sh.asked, id, r', pe.after);
    }
  }

  lemma {:induction false} OnWriteKeeps(g: Geometry, sh: Shared, id: nat, we: W.WriteEvent)
    requires Coheres(g, sh) && Linked(sh.ch.writes, ForWrite, sh.ch.place)
    requires C.LiveWrites(sh.ch.writes.busy) && C.Enabled(sh.ch, C.OnWrite(id, we))
    ensures Coheres(g, OnWriteStep(g, sh, id, we))
  {
    var job, t := sh.ch.writes.busy[id].job, sh.writing[id];
    var job', a' := C.JobAfter(job, we), DisksAfter(g, sh.a, job, t, we);
    WrittenCoheres(g, sh.a, a', sh.ch, sh.writing, sh.reading, sh.asked, id, job', t);
    WrittenIs(sh, id, job', t, a');
  }

  lemma {:induction false} ParityKeepsDisks(
    job: C.WriteJob, ok: bool, image: seq<A.Strip>, rets: seq<FanOut.Ret>, flips: seq<bool>)
    requires C.CanEndParity(job, image, rets, flips) && C.LiveWrite(job)
    ensures var job' := C.JobAfterParity(job, ok, image, rets, flips);
            && job'.w.disks == job.w.disks && job'.w.io.present == job.w.io.present && job'.image == image
            && !job'.xoring
            && (!ok ==> job'.w.released == 1 && job'.w.io.completed == [false])
  {
    if !ok {
      W.ParityFailureEnds(job.w.io.present, image, job.before, rets, flips);
    }
  }

  lemma {:induction false} ParityImage(
    g: Geometry, job: C.WriteJob, t: WriteTask, image: seq<A.Strip>)
    requires DataOk(g, job.w.io.present, job.image, t) && ParityLeaves(g, job, t, true, image)
    ensures ImageOk(g, job.w.io.present, image, t.(started := true))
  {
  }

  /** The parity computation has ended: the write starts, or has ended with nothing written. */
  lemma {:induction false} ParityMoves(
    g: Geometry, a: A.Array, job: C.WriteJob, t: WriteTask, ok: bool, image: seq<A.Strip>, rets: seq<FanOut.Ret>,
    flips: seq<bool>)
    requires A.WellFormed(g, a) && WriteFits(g, a, job, t) && C.CanEndParity(job, image, rets, flips)
    requires C.LiveWrite(job) && ParityLeaves(g, job, t, ok, image)
    ensures MovesTo(g, a, a, t, C.JobAfterParity(job, ok, image, rets, flips), t.(started := ok))
  {
    ParityKeepsDisks(job, ok, image, rets, flips);
    if ok {
      ParityImage(g, job, t, image);
    }
  }

  lemma {:induction false} ParityKeeps(
    g: Geometry, sh: Shared, id: nat, ok: bool, image: seq<A.Strip>, rets: seq<FanOut.Ret>, flips: seq<bool>)
    requires Coheres(g, sh) && Linked(sh.ch.writes, ForWrite, sh.ch.place)
    requires C.LiveWrites(sh.ch.writes.busy) && C.Enabled(sh.ch, C.ParityDone(id, ok, image, rets, flips))
    requires ParityLeaves(g, sh.ch.writes.busy[id].job, sh.writing[id], ok, image)
    ensures Coheres(g, ParityStep(sh, id, ok, image, rets, flips))
  {
    var job, t := sh.ch.writes.busy[id].job, sh.writing[id];
    ParityMoves(g, sh.a, job, t, ok, image, rets, flips);
    var job' := C.JobAfterParity(job, ok, image, rets, flips);
    WrittenCoheres(g, sh.a, sh.a, sh.ch, sh.writing, sh.reading, sh.asked, id, job', t.(started := ok));
    WrittenIs(sh, id, job', t.(started := ok), sh.a);
  }

  lemma {:induction false} LoseDiskKeeps(g: Geometry, sh: Shared, d: nat)
    requires Coheres(g, sh) && d < g.n
    requires Linked(sh.ch.writes, ForWrite, sh.ch.place) && Linked(sh.ch.readers, ForRead, sh.ch.place)
    requires forall p :: p in sh.ch.place ==> sh.ch.place[p].Completed?
    ensures Coheres(g, LoseDiskStep(sh, d))
  {
    LostCoheres(g, sh.a, sh.ch, sh.writing, sh.reading, sh.asked, d);
  }

  // ---- each event keeps requests and array together, and the channel sees its own step ----

  lemma {:induction false} Books(ch: C.Channel)
    requires C.Inv(ch)
    ensures Linked(ch.writes, ForWrite, ch.place) && Linked(ch.readers, ForRead, ch.place)
    ensures ch.writes.free != [] ==> ch.writes.free[0] !in ch.writes.busy
    ensures C.LiveWrites(ch.writes.busy) && C.LiveReads(ch.readers.busy) && C.Disks(ch.n, ch.missing, ch.place)
  {
  }

  lemma {:induction false} AskedKeeps(g: Geometry, sh: Shared, e: Event)
    requires Coheres(g, sh) && Enabled(g, sh, e) && (e.NewRead? || e.Again?)
    ensures Coheres(g, ParentStep(g, sh, e))
  {
    match e
    case NewRead(p, t, ret) => AskKeeps(g, sh, p, t, ret);
    case Again(p, ret) => AskKeeps(g, sh, p, sh.asked[p], ret);
  }

  lemma {:induction false} DirectKeeps(g: Geometry, sh: Shared, e: Event)
    requires Coheres(g, sh) && Enabled(g, sh, e) && e.DirectDone?
    ensures Coheres(g, ParentStep(g, sh, e))
  {
    DirectDoneKeeps(g, sh, e.parent, sh.asked[e.parent].(mem := e.after), e.ok, e.mapped, e.rets);
  }

  lemma {:induction false} MissingKeeps(g: Geometry, sh: Shared, e: Event)
    requires Coheres(g, sh) && Enabled(g, sh, e) && e.NewMissing?
    ensures Coheres(g, ParentStep(g, sh, e))
  {
    DirectDoneKeeps(g, sh, e.parent, e.r, true, e.mapped, e.rets);
  }

  lemma {:induction false} WriteComesKeeps(g: Geometry, sh: Shared, e: Event)
    requires Coheres(g, sh) && Enabled(g, sh, e) && e.NewWrite?
    requires sh.ch.writes.free != [] ==> sh.ch.writes.free[0] !in sh.ch.writes.busy
    ensures Coheres(g, ParentStep(g, sh, e))
  {
    NewWriteKeeps(g, sh, e.parent, e.w, e.mapped, e.noMem, e.image);
  }

  lemma {:induction false} ParentKeeps(g: Geometry, sh: Shared, e: Event)
    requires Coheres(g, sh) && Enabled(g, sh, e) && OfParent(e)
    requires sh.ch.writes.free != [] ==> sh.ch.writes.free[0] !in sh.ch.writes.busy
    ensures Coheres(g, ParentStep(g, sh, e))
  {
    if e.NewWrite? {
      WriteComesKeeps(g, sh, e);
    } else if e.NewRead? || e.Again? {
      AskedKeeps(g, sh, e);
    } else if e.DirectDone? {
      DirectKeeps(g, sh, e);
    } else {
      MissingKeeps(g, sh, e);
    }
  }

  lemma {:induction false} ParityEndsKeeps(g: Geometry, sh: Shared, e: Event)
    requires Coheres(g, sh) && C.LiveWrites(sh.ch.writes.busy) && Enabled(g, sh, e) && e.ParityDone?
    requires Linked(sh.ch.writes, ForWrite, sh.ch.place)
    ensures Coheres(g, RequestStep(g, sh, e))
  {
    ParityKeeps(g, sh, e.id, e.ok, e.image, e.rets, e.flips);
  }

  lemma {:induction false} RequestKeeps(g: Geometry, sh: Shared, e: Event)
    requires Coheres(g, sh) && C.LiveWrites(sh.ch.writes.busy) && Enabled(g, sh, e) && !OfParent(e)
    requires Linked(sh.ch.writes, ForWrite, sh.ch.place) && Linked(sh.ch.readers, ForRead, sh.ch.place)
    ensures Coheres(g, RequestStep(g, sh, e))
  {
    if e.ParityDone? {
      ParityEndsKeeps(g, sh, e);
    } else if e.OnWrite? {
      OnWriteKeeps(g, sh, e.id, e.we);
    } else if e.OnRead? {
      CanRead(g, sh, e.id, e.pe.re);
      OnReadKeeps(g, sh, e.id, e.pe);
    } else {
      LoseDiskKeeps(g, sh, e.disk);
    }
  }

  lemma {:induction false} StepCoheres(g: Geometry, sh: Shared, e: Event)
    requires Coheres(g, sh) && C.LiveWrites(sh.ch.writes.busy) && Enabled(g, sh, e)
    requires Linked(sh.ch.writes, ForWrite, sh.ch.place) && Linked(sh.ch.readers, ForRead, sh.ch.place)
    requires sh.ch.writes.free != [] ==> sh.ch.writes.free[0] !in sh.ch.writes.busy
    ensures Coheres(g, Step(g, sh, e))
  {
    if OfParent(e) {
      ParentKeeps(g, sh, e);
    } else {
      RequestKeeps(g, sh, e);
    }
  }

  // ---- the model follows every event ----

  lemma {:induction false} FollowsNew(
    g: Geometry, a0: A.Array, a: A.Array, ops: seq<A.Op>, writing: map<nat, WriteTask>, torn: set<nat>, id: nat,
    t: WriteTask)
    requires A.WellFormed(g, a) && Follows(g, a0, a, ops, writing, torn) && id !in writing
    ensures Follows(g, a0, a, ops, writing[id := t], torn)
  {
    forall s | NotStarted(writing[id := t], s) ensures NotStarted(writing, s) {
      NotStartedWith(writing, id, t, s);
    }
  }

  lemma {:induction false} FollowsLoss(
    g: Geometry, a0: A.Array, a: A.Array, ops: seq<A.Op>, writing: map<nat, WriteTask>, torn: set<nat>, d: nat)
    requires A.WellFormed(g, a) && Follows(g, a0, a, ops, writing, torn) && a.missing.None? && d < g.n
    ensures Follows(g, a0, a.(missing := Some(d)), ops + [A.Fail(d)], writing, torn)
  {
    Logged(g, a0, ops, A.Fail(d));
    forall s | 0 <= s < g.stripes && s !in torn && NotStarted(writing, s)
      ensures SameStripe(g, a.(missing := Some(d)), A.Run(g, a0, ops + [A.Fail(d)]), s)
    {
      assert SameStripe(g, a, A.Run(g, a0, ops), s);
    }
  }

  lemma {:induction false} OnWriteFollows(g: Geometry, a0: A.Array, sh: Shared, id: nat, we: W.WriteEvent)
    requires A.WellFormed(g, sh.a) && WritesFit(g, sh.a, sh.ch.writes.busy, sh.writing)
    requires C.LiveWrites(sh.ch.writes.busy) && C.Enabled(sh.ch, C.OnWrite(id, we))
    requires Follows(g, a0, sh.a, sh.ops, sh.writing, sh.torn)
    ensures var sh' := OnWriteStep(g, sh, id, we);
            A.WellFormed(g, sh'.a) && Follows(g, a0, sh'.a, sh'.ops, sh'.writing, sh'.torn)
  {
    var job, t := sh.ch.writes.busy[id].job, sh.writing[id];
    var job', a' := C.JobAfter(job, we), DisksAfter(g, sh.a, job, t, we);
    W.StepInv(job.w, we, job.image, job.before);
    WrittenFollows(g, a0, sh, id, job', t, a');
    WrittenIs(sh, id, job', t, a');
  }

  lemma {:induction false} ParitySuccess(
    job: C.WriteJob, ok: bool, image: seq<A.Strip>, rets: seq<FanOut.Ret>, flips: seq<bool>)
    requires C.CanEndParity(job, image, rets, flips) && C.LiveWrite(job)
    ensures var job' := C.JobAfterParity(job, ok, image, rets, flips);
            job'.w.io.completed == [true] ==> W.WriteInv(job'.w, job'.image, job'.before)
  {
    if ok {
      W.StartInv(job.w.io.present, image, job.before, rets, flips);
    } else {
      W.ParityFailureEnds(job.w.io.present, image, job.before, rets, flips);
    }
  }

  lemma {:induction false} ParityFollows(
    g: Geometry, a0: A.Array, sh: Shared, id: nat, ok: bool, image: seq<A.Strip>, rets: seq<FanOut.Ret>,
    flips: seq<bool>)
    requires A.WellFormed(g, sh.a) && WritesFit(g, sh.a, sh.ch.writes.busy, sh.writing)
    requires C.LiveWrites(sh.ch.writes.busy) && C.Enabled(sh.ch, C.ParityDone(id, ok, image, rets, flips))
    requires ParityLeaves(g, sh.ch.writes.busy[id].job, sh.writing[id], ok, image)
    requires Follows(g, a0, sh.a, sh.ops, sh.writing, sh.torn)
    ensures var sh' := ParityStep(sh, id, ok, image, rets, flips);
            A.WellFormed(g, sh'.a) && Follows(g, a0, sh'.a, sh'.ops, sh'.writing, sh'.torn)
  {
    var job, t := sh.ch.writes.busy[id].job, sh.writing[id];
    ParityMoves(g, sh.a, job, t, ok, image, rets, flips);
    ParitySuccess(job, ok, image, rets, flips);
    var job' := C.JobAfterParity(job, ok, image, rets, flips);
    WrittenFollows(g, a0, sh, id, job', t.(started := ok), sh.a);
    WrittenIs(sh, id, job', t.(started := ok), sh.a);
  }

  lemma {:induction false} ParentFollows(g: Geometry, a0: A.Array, sh: Shared, e: Event)
    requires Coheres(g, sh) && Enabled(g, sh, e) && OfParent(e)
    requires sh.ch.writes.free != [] ==> sh.ch.writes.free[0] !in sh.ch.writes.busy
    requires Follows(g, a0, sh.a, sh.ops, sh.writing, sh.torn)
    ensures var sh' := ParentStep(g, sh, e);
            sh'.a == sh.a && Follows(g, a0, sh.a, sh'.ops, sh'.writing, sh'.torn)
  {
    if e.NewWrite? && sh.ch.writes.free != [] {
      FollowsNew(g, a0, sh.a, sh.ops, sh.writing, sh.torn, sh.ch.writes.free[0], e.w);
    }
  }

  lemma {:induction false} RequestFollows(g: Geometry, a0: A.Array, sh: Shared, e: Event)
    requires Coheres(g, sh) && C.LiveWrites(sh.ch.writes.busy) && Enabled(g, sh, e) && !OfParent(e)
    requires Follows(g, a0, sh.a, sh.ops, sh.writing, sh.torn)
    ensures var sh' := RequestStep(g, sh, e);
            A.WellFormed(g, sh'.a) && Follows(g, a0, sh'.a, sh'.ops, sh'.writing, sh'.torn)
  {
    if e.ParityDone? {
      ParityFollows(g, a0, sh, e.id, e.ok, e.image, e.rets, e.flips);
    } else if e.OnWrite? {
      OnWriteFollows(g, a0, sh, e.id, e.we);
    } else if e.LoseDisk? {
      FollowsLoss(g, a0, sh.a, sh.ops, sh.writing, sh.torn, e.disk);
    }
  }

  lemma {:induction false} StepFollows(g: Geometry, a0: A.Array, sh: Shared, e: Event)
    requires Coheres(g, sh) && C.LiveWrites(sh.ch.writes.busy) && Enabled(g, sh, e)
    requires sh.ch.writes.free != [] ==> sh.ch.writes.free[0] !in sh.ch.writes.busy
    requires Follows(g, a0, sh.a, sh.ops, sh.writing, sh.torn)
    ensures var sh' := Step(g, sh, e);
            A.WellFormed(g, sh'.a) && Follows(g, a0, sh'.a, sh'.ops, sh'.writing, sh'.torn)
  {
    if OfParent(e) {
      ParentFollows(g, a0, sh, e);
    } else {
      RequestFollows(g, a0, sh, e);
    }
  }

  /** Each event is one of the channel, and the channel makes its own step. */
  lemma {:induction false} StepOfChannel(g: Geometry, sh: Shared, e: Event)
    requires Coheres(g, sh) && Enabled(g, sh, e)
    requires C.LiveWrites(sh.ch.writes.busy) && C.LiveReads(sh.ch.readers.busy)
    requires C.Disks(sh.ch.n, sh.ch.missing, sh.ch.place)
    ensures C.Enabled(sh.ch, ChannelEvent(g, sh, e))
    ensures Step(g, sh, e).ch == C.Step(sh.ch, ChannelEvent(g, sh, e))
  {
    if e.ParityDone? || e.OnWrite? {
      WriteOfChannel(g, sh, e);
    } else if e.DirectDone? || e.OnRead? {
      ReadOfChannel(g, sh, e);
    } else if e.NewWrite? || e.LoseDisk? {
      WriterOfChannel(g, sh, e);
    } else {
      ReaderOfChannel(g, sh, e);
    }
  }

  lemma {:induction false} WriteOfChannel(g: Geometry, sh: Shared, e: Event)
    requires Coheres(g, sh) && Enabled(g, sh, e)
    requires C.LiveWrites(sh.ch.writes.busy) && C.LiveReads(sh.ch.readers.busy)
    requires C.Disks(sh.ch.n, sh.ch.missing, sh.ch.place)
    requires e.ParityDone? || e.OnWrite?
    ensures C.Enabled(sh.ch, ChannelEvent(g, sh, e))
    ensures Step(g, sh, e).ch == C.Step(sh.ch, ChannelEvent(g, sh, e))
  {
    if e.ParityDone? {
      ParityEventOfChannel(g, sh, e);
    } else {
      WriteEventOfChannel(g, sh, e);
    }
  }

  lemma {:induction false} WriterOfChannel(g: Geometry, sh: Shared, e: Event)
    requires Coheres(g, sh) && Enabled(g, sh, e)
    requires C.LiveWrites(sh.ch.writes.busy) && C.LiveReads(sh.ch.readers.busy)
    requires C.Disks(sh.ch.n, sh.ch.missing, sh.ch.place)
    requires e.NewWrite? || e.LoseDisk?
    ensures C.Enabled(sh.ch, ChannelEvent(g, sh, e))
    ensures Step(g, sh, e).ch == C.Step(sh.ch, ChannelEvent(g, sh, e))
  {
  }

  lemma {:induction false} ReaderOfChannel(g: Geometry, sh: Shared, e: Event)
    requires Coheres(g, sh) && Enabled(g, sh, e)
    requires C.LiveWrites(sh.ch.writes.busy) && C.LiveReads(sh.ch.readers.busy)
    requires C.Disks(sh.ch.n, sh.ch.missing, sh.ch.place)
    requires e.NewRead? || e.Again? || e.NewMissing?
    ensures C.Enabled(sh.ch, ChannelEvent(g, sh, e))
    ensures Step(g, sh, e).ch == C.Step(sh.ch, ChannelEvent(g, sh, e))
  {
  }

  lemma {:induction false} ParityEventIs(g: Geometry, sh: Shared, e: Event)
    requires Coheres(g, sh) && C.LiveWrites(sh.ch.writes.busy) && Enabled(g, sh, e) && e.ParityDone?
    ensures ChannelEvent(g, sh, e) == C.ParityDone(e.id, e.ok, e.image, e.rets, e.flips)
    ensures C.Enabled(sh.ch, C.ParityDone(e.id, e.ok, e.image, e.rets, e.flips))
    ensures sh.ch.writes.busy.Keys == sh.writing.Keys
    ensures Step(g, sh, e) == ParityStep(sh, e.id, e.ok, e.image, e.rets, e.flips)
  {
  }

  lemma {:induction false} ParityEventOfChannel(g: Geometry, sh: Shared, e: Event)
    requires Coheres(g, sh) && Enabled(g, sh, e)
    requires C.LiveWrites(sh.ch.writes.busy) && C.LiveReads(sh.ch.readers.busy)
    requires C.Disks(sh.ch.n, sh.ch.missing, sh.ch.place)
    requires e.ParityDone?
    ensures C.Enabled(sh.ch, ChannelEvent(g, sh, e))
    ensures Step(g, sh, e).ch == C.Step(sh.ch, ChannelEvent(g, sh, e))
  {
    ParityEventIs(g, sh, e);
    ParityOfChannel(sh, e.id, e.ok, e.image, e.rets, e.flips);
  }

  lemma {:induction false} WriteEventOfChannel(g: Geometry, sh: Shared, e: Event)
    requires Coheres(g, sh) && Enabled(g, sh, e)
    requires C.LiveWrites(sh.ch.writes.busy) && C.LiveReads(sh.ch.readers.busy)
    requires C.Disks(sh.ch.n, sh.ch.missing, sh.ch.place)
    requires e.OnWrite?
    ensures C.Enabled(sh.ch, ChannelEvent(g, sh, e))
    ensures Step(g, sh, e).ch == C.Step(sh.ch, ChannelEvent(g, sh, e))
  {
    OnWriteOfChannel(g, sh, e.id, e.we);
  }

  lemma {:induction false} ReadOfChannel(g: Geometry, sh: Shared, e: Event)
    requires Coheres(g, sh) && Enabled(g, sh, e)
    requires C.LiveWrites(sh.ch.writes.busy) && C.LiveReads(sh.ch.readers.busy)
    requires C.Disks(sh.ch.n, sh.ch.missing, sh.ch.place)
    requires e.DirectDone? || e.OnRead?
    ensures C.Enabled(sh.ch, ChannelEvent(g, sh, e))
    ensures Step(g, sh, e).ch == C.Step(sh.ch, ChannelEvent(g, sh, e))
  {
    if e.OnRead? {
      CanRead(g, sh, e.id, e.pe.re);
    }
  }

  lemma {:induction false} ParityOfChannel(
    sh: Shared, id: nat, ok: bool, image: seq<A.Strip>, rets: seq<FanOut.Ret>, flips: seq<bool>)
    requires C.LiveWrites(sh.ch.writes.busy) && C.LiveReads(sh.ch.readers.busy)
    requires C.Disks(sh.ch.n, sh.ch.missing, sh.ch.place) && sh.ch.writes.busy.Keys == sh.writing.Keys
    requires C.Enabled(sh.ch, C.ParityDone(id, ok, image, rets, flips))
    ensures ParityStep(sh, id, ok, image, rets, flips).ch == C.Step(sh.ch, C.ParityDone(id, ok, image, rets, flips))
  {
    WrittenIs(sh, id, C.JobAfterParity(sh.ch.writes.busy[id].job, ok, image, rets, flips),
              sh.writing[id].(started := ok), sh.a);
  }

  lemma {:induction false} OnWriteOfChannel(g: Geometry, sh: Shared, id: nat, we: W.WriteEvent)
    requires C.LiveWrites(sh.ch.writes.busy) && C.LiveReads(sh.ch.readers.busy)
    requires C.Disks(sh.ch.n, sh.ch.missing, sh.ch.place)
    requires A.WellFormed(g, sh.a) && WritesFit(g, sh.a, sh.ch.writes.busy, sh.writing)
    requires C.Enabled(sh.ch, C.OnWrite(id, we))
    ensures OnWriteStep(g, sh, id, we).ch == C.Step(sh.ch, C.OnWrite(id, we))
  {
    var job, t := sh.ch.writes.busy[id].job, sh.writing[id];
    WrittenIs(sh, id, C.JobAfter(job, we), t, DisksAfter(g, sh.a, job, t, we));
  }

  // ---- the parity computation ----

  lemma {:induction false} FailedWritten(sh: Shared, id: nat, job: C.WriteJob, t: WriteTask)
    requires id in sh.writing && id in sh.ch.writes.busy
    requires job.w.released == 1 && job.w.io.completed == [false] && !t.started
    ensures var sh', p := Written(sh, id, job, t, sh.a), sh.ch.writes.busy[id].parent;
            && sh'.a == sh.a && sh'.ops == sh.ops && sh'.torn == sh.torn && sh'.writing == sh.writing - {id}
            && p in sh'.ch.place && sh'.ch.place[p] == Completed(Failed)
  {
  }

  /** After a failed parity computation every disk is as it was, nothing is logged, and no stripe is torn. */
  lemma {:induction false} ParityFailureTouchesNothing(
    g: Geometry, sh: Shared, id: nat, image: seq<A.Strip>, rets: seq<FanOut.Ret>, flips: seq<bool>)
    requires C.LiveWrites(sh.ch.writes.busy) && sh.ch.writes.busy.Keys == sh.writing.Keys
    requires C.Enabled(sh.ch, C.ParityDone(id, false, image, rets, flips))
    requires g.Valid()
    requires var job := sh.ch.writes.busy[id].job; DataOk(g, job.w.io.present, job.image, sh.writing[id])
    requires ParityLeaves(g, sh.ch.writes.busy[id].job, sh.writing[id], false, image)
    ensures var sh', p := ParityStep(sh, id, false, image, rets, flips), sh.ch.writes.busy[id].parent;
            && sh'.a == sh.a && sh'.ops == sh.ops && sh'.torn == sh.torn && sh'.writing == sh.writing - {id}
            && p in sh'.ch.place && sh'.ch.place[p] == Completed(Failed)
    ensures sh.ch.writes.busy[id].job.w.io.present[ParityDisk(g.n, sh.writing[id].stripe)]
  {
    var job := sh.ch.writes.busy[id].job;
    W.ParityFailureEnds(job.w.io.present, image, job.before, rets, flips);
    FailedWritten(sh, id, C.JobAfterParity(job, false, image, rets, flips), sh.writing[id].(started := false));
  }

  /**
   What the preparation of a write leaves is what the parity computation may leave: it went well exactly if the
   preparation is ready to submit.
   */
  lemma {:induction false} PreparedParity(
    g: Geometry, job: C.WriteJob, t: WriteTask, r: DataPath.Prepared, mem: seq<byte>, iovs: seq<seq<Iovec>>,
    image: seq<A.Strip>)
    requires DataOk(g, job.w.io.present, job.image, t) && g.Valid() && !r.Rejected? && |image| == g.n
    requires forall d :: 0 <= d < g.n && d != ParityDisk(g.n, t.stripe) ==> image[d] == job.image[d]
    requires r.ParityFailed? ==> job.w.io.present[ParityDisk(g.n, t.stripe)]
    requires r.ReadyToSubmit? ==>
      && DataPath.ImageReady(g, t.stripe, mem, iovs, t.data, job.w.io.present[ParityDisk(g.n, t.stripe)])
      && E.FromMemory(g, mem, iovs, job.w.io.present, image)
    ensures ParityLeaves(g, job, t, r.ReadyToSubmit?, image)
  {
    if r.ReadyToSubmit? {
      E.ImageIsStored(g, t.stripe, mem, iovs, t.data, job.w.io.present, image);
    }
  }
}
