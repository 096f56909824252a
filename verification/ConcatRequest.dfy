/** The flush and unmap requests of a concatenation: concat_submit_null_payload_request in raid/concat.c. */
module ConcatRequest {
  import opened FanOut
  import opened RaidIo
  import opened Concat

  /** The pieces of a request that reaches from base bdev `a` to base bdev `b`. */
  ghost function AllPieces(ranges: seq<BlockRange>, offset: nat, count: nat, a: nat, b: nat): (s: seq<Piece>)
    requires a <= b < |ranges|
    ensures |s| == b - a + 1
    ensures forall k :: 0 <= k < |s| ==> s[k] == PieceOf(ranges, offset, count, a + k)
  {
    seq(b - a + 1, k requires 0 <= k < b - a + 1 => PieceOf(ranges, offset, count, a + k))
  }

  /** A parent with one part for every base bdev from `a` to `b`. */
  ghost predicate PartsMatch(io: RaidBdevIo, a: nat, b: nat)
  {
    a <= b && |io.present| == b - a + 1 && forall i :: 0 <= i < |io.present| ==> io.present[i]
  }

  /** What the second pass does to its cursors at base bdev `i`. */
  method CutPiece(
    ranges: seq<BlockRange>, ghost offset: nat, ghost count: nat, ghost a: nat, ghost b: nat, i: nat, o: nat,
    num: nat)
    returns (block: nat, blocks: nat, o': nat, num': nat)
    requires InArray(ranges, offset, count) && Ends(ranges, offset, count, a, b) && a <= i <= b
    requires o == PieceBegin(ranges, offset, i) && o + num == offset + count
    ensures Piece(i, block, blocks) == AllPieces(ranges, offset, count, a, b)[i - a]
    ensures o' + num' == offset + count && (i < b ==> o' == PieceBegin(ranges, offset, i + 1))
  {
    PieceOrder(ranges, offset, count, a, b, i);
    assert AllPieces(ranges, offset, count, a, b)[i - a] == PieceOf(ranges, offset, count, i);
    block := o - ranges[i].start;
    blocks := Min(num, ranges[i].length - block);
    o' := o + blocks;
    num' := num - blocks;
    if i < b {
      PieceOrder(ranges, offset, count, a, b, i + 1);
      assert ranges[i + 1].start == ranges[i].End();
    }
  }

  /** What has been handed out so far: the pieces up to `submitted`, each once and in order. */
  ghost predicate HandedOut(io: RaidBdevIo, all: seq<Piece>)
    reads io
  {
    io.submitted <= |all| && io.handed == all[..io.submitted]
  }

  /** The end of a round of the second pass: pieces already handed out are skipped. */
  method SkipOrSubmit(io: RaidBdevIo, ret: Ret, piece: Piece, a: nat, ghost all: seq<Piece>) returns (stop: bool)
    requires Counts(io.Model()) && !Stopped(io.Model()) && ret != Error
    requires a <= piece.disk <= a + io.submitted && piece.disk < a + |io.present| && |all| == |io.present|
    requires piece == all[piece.disk - a] && HandedOut(io, all)
    modifies io
    ensures stop == Stopped(io.Model()) && HandedOut(io, all)
    ensures io.Model()
            == if piece.disk < a + old(io.submitted) then old(io.Model()) else SubmitOne(old(io.Model()), ret)
    ensures io.submitted == old(io.submitted) + if stop || piece.disk < a + old(io.submitted) then 0 else 1
  {
    if piece.disk < a + io.submitted {
      return false;
    }
    stop := io.SubmitOrWait(io.submitted, ret);
    if !stop {
      io.handed := io.handed + [piece];
    }
  }

  /** The second pass: it walks over the pieces already handed out and hands out the next ones. */
  method SecondPass(io: RaidBdevIo, ranges: seq<BlockRange>, offset: nat, count: nat, a: nat, b: nat, rets: seq<Ret>)
    requires InArray(ranges, offset, count) && Ends(ranges, offset, count, a, b) && PartsMatch(io, a, b)
    requires Counts(io.Model()) && !Stopped(io.Model()) && |rets| == |io.present| && Error !in rets
    requires HandedOut(io, AllPieces(ranges, offset, count, a, b))
    modifies io
    ensures io.Model() == Pass(old(io.Model()), rets) && HandedOut(io, AllPieces(ranges, offset, count, a, b))
  {
    ghost var all := AllPieces(ranges, offset, count, a, b);
    var o, num := offset, count;
    var stop := false;
    PieceOrder(ranges, offset, count, a, b, a);
    var i := a;
    while !stop && i <= b
      invariant a <= i <= b + 1
      invariant o + num == offset + count && (i <= b ==> o == PieceBegin(ranges, offset, i))
      invariant Counts(io.Model()) && stop == Stopped(io.Model()) && HandedOut(io, all)
      invariant !stop ==> i <= a + io.submitted
      invariant Pass(io.Model(), rets) == Pass(old(io.Model()), rets)
      decreases b + 1 - i
    {
      var block, blocks;
      block, blocks, o, num := CutPiece(ranges, offset, count, a, b, i, o, num);
      var ret := if io.submitted < |rets| then rets[io.submitted] else Accepted;
      stop := SkipOrSubmit(io, ret, Piece(i, block, blocks), a, all);
      i := i + 1;
    }
  }

  /**
   One call, first or resumed, once the first pass has found the ends: it hands out the next pieces, and the counters
   are those of the protocol.
   */
  method SubmitNullPayload(
    io: RaidBdevIo, ranges: seq<BlockRange>, offset: nat, count: nat, rets: seq<Ret>, ghost a: nat, ghost b: nat)
    requires InArray(ranges, offset, count) && Ends(ranges, offset, count, a, b) && PartsMatch(io, a, b)
    requires Callable(io.Model(), WhenNoneRemaining) && |rets| == |io.present| && Error !in rets
    requires HandedOut(io, AllPieces(ranges, offset, count, a, b))
    modifies io
    ensures io.Model() == Submit(old(io.Model()), WhenNoneRemaining, rets)
    ensures HandedOut(io, AllPieces(ranges, offset, count, a, b))
  {
    var startIdx, stopIdx := FindEnds(ranges, offset, count);
    EndsUnique(ranges, offset, count, startIdx, stopIdx, a, b);
    io.EnterWhenNoneRemaining(stopIdx - startIdx + 1, rets);
    SecondPass(io, ranges, offset, count, startIdx, stopIdx, rets);
  }

  /** A retry or the completion of a child. */
  method Handle(
    io: RaidBdevIo, ranges: seq<BlockRange>, offset: nat, count: nat, ghost a: nat, ghost b: nat, e: Event)
    requires InArray(ranges, offset, count) && Ends(ranges, offset, count, a, b) && PartsMatch(io, a, b)
    requires Inv(io.Model()) && Enabled(io.Model(), e) && (e.Retry? ==> Error !in e.rets)
    requires HandedOut(io, AllPieces(ranges, offset, count, a, b))
    modifies io
    ensures io.Model() == Step(old(io.Model()), WhenNoneRemaining, e)
    ensures HandedOut(io, AllPieces(ranges, offset, count, a, b))
  {
    match e
    case Retry(rets) => SubmitNullPayload(io, ranges, offset, count, rets, a, b);
    case Done(i, ok) => var _ := io.ChildComplete(i, ok);
  }

  /**
   A request from its submission on, over any run of the protocol: the calls of the handler, first and resumed, and the
   completions of its children. Once completed it has handed out exactly its pieces.
   */
  method RunNullPayload(
    ranges: seq<BlockRange>, offset: nat, count: nat, ghost a: nat, ghost b: nat, present: seq<bool>, first: seq<Ret>,
    events: seq<Event>) returns (io: RaidBdevIo)
    requires InArray(ranges, offset, count) && Ends(ranges, offset, count, a, b) && a <= b
    requires |present| == b - a + 1 && forall i :: 0 <= i < |present| ==> present[i]
    requires LegalRun(present, WhenNoneRemaining, first, events) && NoErrors(first, events)
    ensures fresh(io) && io.present == present && io.Model() == Run(present, WhenNoneRemaining, first, events)
    ensures HandedOut(io, AllPieces(ranges, offset, count, a, b))
    ensures io.completed != [] ==> io.handed == AllPieces(ranges, offset, count, a, b)
    decreases |events|
  {
    if events == [] {
      io := new RaidBdevIo(present);
      SubmitNullPayload(io, ranges, offset, count, first, a, b);
    } else {
      io := RunNullPayload(ranges, offset, count, a, b, present, first, events[..|events| - 1]);
      Handle(io, ranges, offset, count, a, b, events[|events| - 1]);
    }
    if io.completed != [] {
      CompletedHasSubmitted(present, WhenNoneRemaining, first, events);
    }
  }
}
