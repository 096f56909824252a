/** The flush and unmap requests of RAID0: raid0_submit_null_payload_request in raid/raid0.c. */
module Raid0Request {
  import opened FanOut
  import opened RaidIo
  import opened Raid0

  ghost function PieceOf(g: Geometry, offset: nat, count: nat, i: nat): Piece
    requires g.Valid()
  {
    var d := PieceDisk(g, offset, i);
    Piece(d, Below(g, d, offset), PieceBlocks(g, offset, Reach(count), d))
  }

  /** The first `k` pieces. */
  ghost function PiecesOf(g: Geometry, offset: nat, count: nat, k: nat): (s: seq<Piece>)
    requires g.Valid()
    ensures |s| == k
  {
    if k == 0 then [] else PiecesOf(g, offset, count, k - 1) + [PieceOf(g, offset, count, k - 1)]
  }

  /** A parent with as many parts as the request has pieces; RAID0 has no missing base bdev. */
  ghost predicate PartsMatch(io: RaidBdevIo, g: Geometry, offset: nat, count: nat)
    requires g.Valid()
  {
    |io.present| == RangeOf(g, offset, count).nDisksInvolved && forall i :: 0 <= i < |io.present| ==> io.present[i]
  }

  /** What has been handed out so far: the pieces up to `submitted`, each once and in order. */
  ghost predicate HandedOut(io: RaidBdevIo, g: Geometry, offset: nat, count: nat)
    reads io
    requires g.Valid()
  {
    io.handed == PiecesOf(g, offset, count, io.submitted)
  }

  /** The blocks of the disk whose turn it is. */
  method CutPiece(range: IoRange, g: Geometry, ghost offset: nat, ghost count: nat, i: nat) returns (piece: Piece)
    requires g.Valid() && range.Model() == RangeOf(g, offset, count) && i < range.nDisksInvolved
    ensures piece == PieceOf(g, offset, count, i)
  {
    var disk := (range.startDisk + i) % g.n;
    assert disk == PieceDisk(g, offset, i);
    var block, blocks := range.SplitIoRange(g, offset, count, disk);
    piece := Piece(disk, block, blocks);
  }

  /** One round of the loop. */
  method SubmitPiece(io: RaidBdevIo, range: IoRange, g: Geometry, ghost offset: nat, ghost count: nat, ret: Ret)
    returns (stop: bool)
    requires g.Valid() && PartsMatch(io, g, offset, count) && range.Model() == RangeOf(g, offset, count)
    requires Counts(io.Model()) && !Stopped(io.Model()) && io.submitted < range.nDisksInvolved && ret != Error
    requires HandedOut(io, g, offset, count)
    modifies io
    ensures io.Model() == SubmitOne(old(io.Model()), ret) && stop == Stopped(io.Model())
    ensures HandedOut(io, g, offset, count)
  {
    var piece := CutPiece(range, g, offset, count, io.submitted);
    stop := io.SubmitOrWait(io.submitted, ret);
    if !stop {
      io.handed := io.handed + [piece];
    }
  }

  /** The loop, from the first piece not yet handed out. */
  method SubmitPieces(io: RaidBdevIo, range: IoRange, g: Geometry, ghost offset: nat, ghost count: nat, rets: seq<Ret>)
    requires g.Valid() && PartsMatch(io, g, offset, count) && range.Model() == RangeOf(g, offset, count)
    requires Counts(io.Model()) && !Stopped(io.Model()) && |rets| == |io.present| && Error !in rets
    requires HandedOut(io, g, offset, count)
    modifies io
    ensures io.Model() == Pass(old(io.Model()), rets) && HandedOut(io, g, offset, count)
  {
    var stop := false;
    while !stop && io.submitted < range.nDisksInvolved
      invariant range.Model() == RangeOf(g, offset, count)
      invariant Counts(io.Model()) && stop == Stopped(io.Model()) && HandedOut(io, g, offset, count)
      invariant Pass(io.Model(), rets) == Pass(old(io.Model()), rets)
      decreases !stop, range.nDisksInvolved - io.submitted
    {
      stop := SubmitPiece(io, range, g, offset, count, rets[io.submitted]);
    }
  }

  /** One call, first or resumed: it hands out the next pieces, and the counters are those of the protocol. */
  method SubmitNullPayload(io: RaidBdevIo, g: Geometry, offset: nat, count: nat, rets: seq<Ret>)
    requires g.Valid() && PartsMatch(io, g, offset, count)
    requires Callable(io.Model(), WhenNoneRemaining) && |rets| == |io.present| && Error !in rets
    requires HandedOut(io, g, offset, count)
    modifies io
    ensures io.Model() == Submit(old(io.Model()), WhenNoneRemaining, rets) && HandedOut(io, g, offset, count)
  {
    var range := new IoRange();
    range.GetIoRange(g.n, g.strip, offset, count);
    io.EnterWhenNoneRemaining(range.nDisksInvolved, rets);
    SubmitPieces(io, range, g, offset, count, rets);
  }

  /** A retry or the completion of a child. */
  method Handle(io: RaidBdevIo, g: Geometry, offset: nat, count: nat, e: Event)
    requires g.Valid() && PartsMatch(io, g, offset, count)
    requires Inv(io.Model()) && Enabled(io.Model(), e) && (e.Retry? ==> Error !in e.rets)
    requires HandedOut(io, g, offset, count)
    modifies io
    ensures io.Model() == Step(old(io.Model()), WhenNoneRemaining, e) && HandedOut(io, g, offset, count)
  {
    match e
    case Retry(rets) => SubmitNullPayload(io, g, offset, count, rets);
    case Done(i, ok) => var _ := io.ChildComplete(i, ok);
  }

  /**
   A request from its submission on, over any run of the protocol: the calls of the handler, first and resumed, and the
   completions of its children. Once completed it has handed out exactly its pieces.
   */
  method RunNullPayload(
    g: Geometry, offset: nat, count: nat, present: seq<bool>, first: seq<Ret>, events: seq<Event>)
    returns (io: RaidBdevIo)
    requires g.Valid() && |present| == RangeOf(g, offset, count).nDisksInvolved
    requires forall i :: 0 <= i < |present| ==> present[i]
    requires LegalRun(present, WhenNoneRemaining, first, events) && NoErrors(first, events)
    ensures fresh(io) && io.present == present && io.Model() == Run(present, WhenNoneRemaining, first, events)
    ensures HandedOut(io, g, offset, count)
    ensures io.completed != [] ==> io.handed == PiecesOf(g, offset, count, |present|)
    decreases |events|
  {
    if events == [] {
      io := new RaidBdevIo(present);
      SubmitNullPayload(io, g, offset, count, first);
    } else {
      io := RunNullPayload(g, offset, count, present, first, events[..|events| - 1]);
      Handle(io, g, offset, count, events[|events| - 1]);
    }
    if io.completed != [] {
      CompletedHasSubmitted(present, WhenNoneRemaining, first, events);
    }
  }

  /** Each disk the request reaches gets exactly one piece, its own; no other disk gets one. */
  lemma {:induction false} OnePieceADisk(g: Geometry, offset: nat, count: nat, d: nat)
    requires g.Valid() && d < g.n
    ensures var all := PiecesOf(g, offset, count, RangeOf(g, offset, count).nDisksInvolved);
            && (forall i, j :: 0 <= i < j < |all| ==> all[i].disk != all[j].disk)
            && (Below(g, d, offset) < Below(g, d, offset + Reach(count))
                <==> exists i :: 0 <= i < |all| && all[i].disk == d)
  {
    var n := RangeOf(g, offset, count).nDisksInvolved;
    var all := PiecesOf(g, offset, count, n);
    forall i | 0 <= i < n
      ensures all[i] == PieceOf(g, offset, count, i)
    {
      PiecesOfAt(g, offset, count, n, i);
    }
    forall i, j | 0 <= i < j < |all|
      ensures all[i].disk != all[j].disk
    {
      DistinctDisks(g, offset, i, j);
    }
    InvolvedIff(g, offset, Reach(count), d);
    if Involved(g, offset, count, d) {
      var i :| 0 <= i < n && PieceDisk(g, offset, i) == d;
      assert all[i].disk == d;
    }
  }

  lemma {:induction false} PiecesOfAt(g: Geometry, offset: nat, count: nat, to: nat, i: nat)
    requires g.Valid() && i < to
    ensures PiecesOf(g, offset, count, to)[i] == PieceOf(g, offset, count, i)
  {
    if i < to - 1 {
      PiecesOfAt(g, offset, count, to - 1, i);
    }
  }
}
