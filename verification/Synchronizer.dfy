/** The restoring loop of the block synchronizer: half-open windows of 100 heights, a one-row checkpoint written before
    the window is published, and restarts from that checkpoint. */
module Synchronizer {
  import opened Model
  import opened Sums

  type Message = BlockWithTransactions

  const WINDOW: int := 100

  /** The single row (id 1) of the restore history. */
  datatype RestoreHistory = RestoreHistory(rangeStart: int, rangeEnd: int, being: int)

  /** What the synchronizer leaves behind: the row, what it handed to Publish, and what Publish accepted. */
  datatype Sync = Sync(history: Option<RestoreHistory>, handed: seq<Message>, published: seq<Message>)

  const FRESH := Sync(None, [], [])

  function StartOf(history: Option<RestoreHistory>): int {
    match history case None => 1 case Some(h) => h.rangeStart
  }

  /** The heights a poll with this offset and limit asks for: greater than offset, less than offset + limit + 1. */
  predicate InWindow(offset: int, limit: int, h: int) { offset < h < offset + limit + 1 }

  // ---------------------------------------------------------------- grouping transactions by block

  function Select(txs: seq<Transaction>, height: int): seq<Transaction> {
    if txs == [] then []
    else
      var front := Select(txs[..|txs| - 1], height);
      if txs[|txs| - 1].blockHeight == height then front + [txs[|txs| - 1]] else front
  }

  function Assemble(blocks: seq<Block>, txs: seq<Transaction>): seq<Message> {
    seq(|blocks|, i requires 0 <= i < |blocks| => BlockWithTransactions(blocks[i], Select(txs, blocks[i].height)))
  }

  method AssembleWindow(blocks: seq<Block>, transactions: seq<Transaction>) returns (blockWithTxs: seq<Message>)
    ensures blockWithTxs == Assemble(blocks, transactions)
  {
    blockWithTxs := [];
    for i := 0 to |blocks|
      invariant blockWithTxs == Assemble(blocks[..i], transactions)
    {
      var txs: seq<Transaction> := [];
      for j := 0 to |transactions|
        invariant txs == Select(transactions[..j], blocks[i].height)
      {
        assert transactions[..j + 1][..j] == transactions[..j];
        if transactions[j].blockHeight == blocks[i].height {
          txs := txs + [transactions[j]];
        }
      }
      assert transactions[..|transactions|] == transactions;
      blockWithTxs := blockWithTxs + [BlockWithTransactions(blocks[i], txs)];
    }
    assert blocks[..|blocks|] == blocks;
  }

  predicate Increasing(positions: seq<nat>) {
    forall i, j :: 0 <= i < j < |positions| ==> positions[i] < positions[j]
  }

  /** The elements at the given positions. */
  ghost predicate Picks<T>(xs: seq<T>, positions: seq<nat>, picked: seq<T>) {
    && |picked| == |positions|
    && forall i :: 0 <= i < |positions| ==> positions[i] < |xs| && picked[i] == xs[positions[i]]
  }

  /** A block's message holds exactly the polled transactions of its height, in their original order. */
  lemma {:induction false} SelectInOrder(txs: seq<Transaction>, height: int) returns (positions: seq<nat>)
    ensures Increasing(positions) && Picks(txs, positions, Select(txs, height))
    ensures forall p: nat :: p < |txs| ==> (p in positions <==> txs[p].blockHeight == height)
    ensures forall p :: p in positions ==> p < |txs|
  {
    positions := [];
    if txs != [] {
      var n := |txs| - 1;
      var front := SelectInOrder(txs[..n], height);
      positions := front;
      assert forall p :: 0 <= p < n ==> txs[..n][p] == txs[p];
      if txs[n].blockHeight == height {
        positions := front + [n];
        IncreasingSnoc(front, n);
      }
    }
  }

  lemma IncreasingSnoc(front: seq<nat>, n: nat)
    requires Increasing(front) && forall p :: p in front ==> p < n
    ensures Increasing(front + [n])
  {
    forall i | 0 <= i < |front| ensures (front + [n])[i] < n { assert front[i] in front; }
  }

  lemma PicksSnoc<T>(xs: seq<T>, positions: seq<nat>, picked: seq<T>)
    requires xs != [] && Picks(xs[..|xs| - 1], positions, picked)
    ensures Picks(xs, positions, picked) && Picks(xs, positions + [|xs| - 1], picked + [xs[|xs| - 1]])
  {
  }

  /** How often a transaction occurs in a message. */
  function Occurrences(tx: Transaction): Message -> int { (m: Message) => SumBy(m.transactions, CountIn(tx)) }

  predicate DistinctHeights(blocks: seq<Block>) {
    forall i, j :: 0 <= i < j < |blocks| ==> blocks[i].height != blocks[j].height
  }

  lemma {:induction false} SelectCount(txs: seq<Transaction>, height: int, tx: Transaction)
    ensures SumBy(Select(txs, height), CountIn(tx)) == if tx.blockHeight == height then SumBy(txs, CountIn(tx)) else 0
  {
    if txs != [] {
      var front, last := txs[..|txs| - 1], txs[|txs| - 1];
      SelectCount(front, height, tx);
      if last.blockHeight == height {
        SumSnoc(Select(front, height), last, CountIn(tx));
      }
    }
  }

  /** Grouping is a partition: with distinct block heights every polled transaction of a polled height is in exactly one
      message, as often as it was polled, and transactions of other heights are in none. */
  lemma {:induction false} Grouping(blocks: seq<Block>, txs: seq<Transaction>, tx: Transaction)
    requires DistinctHeights(blocks)
    ensures SumBy(Assemble(blocks, txs), Occurrences(tx)) ==
            if exists i :: 0 <= i < |blocks| && blocks[i].height == tx.blockHeight then SumBy(txs, CountIn(tx)) else 0
    ensures forall m :: m in Assemble(blocks, txs) && tx in m.transactions ==> m.block.height == tx.blockHeight
  {
    forall m | m in Assemble(blocks, txs) && tx in m.transactions ensures m.block.height == tx.blockHeight {
      var positions := SelectInOrder(txs, m.block.height);
      var i :| 0 <= i < |m.transactions| && m.transactions[i] == tx;
      assert positions[i] in positions;
    }
    if blocks != [] {
      var front, last := blocks[..|blocks| - 1], blocks[|blocks| - 1];
      Grouping(front, txs, tx);
      var m := BlockWithTransactions(last, Select(txs, last.height));
      assert Assemble(blocks, txs) == Assemble(front, txs) + [m];
      SumSnoc(Assemble(front, txs), m, Occurrences(tx));
      SelectCount(txs, last.height, tx);
      if last.height == tx.blockHeight {
        assert blocks[|blocks| - 1].height == tx.blockHeight;
        assert forall i :: 0 <= i < |front| ==> front[i].height != tx.blockHeight;
      } else if i :| 0 <= i < |blocks| && blocks[i].height == tx.blockHeight {
        assert front[i].height == tx.blockHeight;
      }
    }
  }

  // ---------------------------------------------------------------- one run of the loop

  /** What the outside world does during one window: the answers of the two polls, which publishes are accepted, and how
      many of its external calls return before an error or a crash ends the run. In order these calls are PollBlocks,
      SaveRestoringHistory, PollTransactions, and one Publish per block. */
  datatype Window = Window(blocks: seq<Block>, txs: seq<Transaction>, accepts: seq<bool>, calls: nat)

  datatype End = Finished | NoMoreBlocks | Stopped

  /** The messages whose publish succeeds; a failing publish is logged and skipped. */
  function Accepted(ms: seq<Message>, accepts: seq<bool>): seq<Message> {
    if ms == [] then []
    else
      var n := |ms| - 1;
      Accepted(ms[..n], accepts) + if n < |accepts| && !accepts[n] then [] else [ms[n]]
  }

  /** Publish j of a window is refused. */
  predicate Refused(accepts: seq<bool>, j: nat) { j < |accepts| && !accepts[j] }

  /** The published messages are exactly those whose own publish is not refused, in order: a refused publish stops none
      of the others. */
  lemma {:induction false} AcceptedInOrder(ms: seq<Message>, accepts: seq<bool>) returns (positions: seq<nat>)
    ensures Increasing(positions) && Picks(ms, positions, Accepted(ms, accepts))
    ensures forall p: nat :: p < |ms| ==> (p in positions <==> !(p < |accepts| && !accepts[p]))
    ensures forall p :: p in positions ==> p < |ms|
  {
    positions := [];
    if ms != [] {
      var n := |ms| - 1;
      var front := AcceptedInOrder(ms[..n], accepts);
      positions := front;
      PicksSnoc(ms, front, Accepted(ms[..n], accepts));
      if !Refused(accepts, n) {
        positions := front + [n];
        IncreasingSnoc(front, n);
      }
    }
  }

  datatype RunResult = RunResult(sync: Sync, end: End, windows: nat)

  /** The loop from window start i up to the latest height, against the given windows. */
  function RunFrom(s: Sync, i: int, height: int, ws: seq<Window>): RunResult
    decreases height - i
  {
    if i >= height then RunResult(s, Finished, 0)
    else if ws == [] || ws[0].calls == 0 then RunResult(s, Stopped, 0)
    else
      var w := ws[0];
      if w.blocks == [] then RunResult(s, NoMoreBlocks, 0)
      else if w.calls == 1 then RunResult(s, Stopped, 0)
      else
        var saved := s.(history := Some(RestoreHistory(i, i + WINDOW, 0)));
        if w.calls == 2 then RunResult(saved, Stopped, 0)
        else
          var ms := Assemble(w.blocks, w.txs);
          var n := if w.calls - 3 < |ms| then w.calls - 3 else |ms|;
          var after := saved.(handed := saved.handed + ms[..n],
                              published := saved.published + Accepted(ms[..n], w.accepts));
          if n < |ms| then RunResult(after, Stopped, 0)
          else
            var rest := RunFrom(after, i + WINDOW, height, ws[1..]);
            rest.(windows := rest.windows + 1)
  }

  function RunOnce(s: Sync, height: int, ws: seq<Window>): RunResult {
    RunFrom(s, StartOf(s.history), height, ws)
  }

  /** All calls of the window return. */
  predicate Full(w: Window) { w.blocks != [] && w.calls >= 3 + |w.blocks| }

  /** How a run ends, how many windows it completes, and what it leaves in the table. Finished: the next window would
      start at or above the height. No more blocks: the next block poll returned nothing. Stopped: some call of the next
      window did not return. The saved start is that of the last window whose second call returned. */
  lemma {:induction false} HowItEnds(s: Sync, i: int, height: int, ws: seq<Window>)
    ensures var r := RunFrom(s, i, height, ws);
            var n, next := r.windows, i + 100 * r.windows;
            && n <= |ws| && (forall k :: 0 <= k < n ==> i + 100 * k < height && Full(ws[k]))
            && (r.end.Finished? <==> next >= height)
            && (r.end.NoMoreBlocks? <==> next < height && n < |ws| && ws[n].calls >= 1 && ws[n].blocks == [])
            && (r.end.Stopped? <==> next < height &&
                                    (n == |ws| || ws[n].calls == 0 || (ws[n].blocks != [] && !Full(ws[n]))))
            && r.sync.history ==
               if next < height && n < |ws| && ws[n].calls >= 2 && ws[n].blocks != []
               then Some(RestoreHistory(next, next + 100, 0))
               else if n > 0 then Some(RestoreHistory(next - 100, next, 0)) else s.history
    decreases |ws|
  {
    if i < height && ws != [] && Full(ws[0]) {
      var ms := Assemble(ws[0].blocks, ws[0].txs);
      assert ms[..|ms|] == ms;
      var after := Sync(Some(RestoreHistory(i, i + WINDOW, 0)), s.handed + ms,
                        s.published + Accepted(ms, ws[0].accepts));
      HowItEnds(after, i + WINDOW, height, ws[1..]);
      var r := RunFrom(after, i + WINDOW, height, ws[1..]);
      forall k | 0 <= k < r.windows + 1 ensures i + 100 * k < height && Full(ws[k]) {
        if k > 0 { assert Full(ws[1..][k - 1]); }
      }
    }
  }

  class Service {
    var history: Option<RestoreHistory>
    var handed: seq<Message>
    var published: seq<Message>

    function State(): Sync
      reads this
    {
      Sync(history, handed, published)
    }

    constructor ()
      ensures State() == FRESH
    {
      history, handed, published := None, [], [];
    }

    method GetNotSequentialBlockNum() returns (start: int)
      ensures start == StartOf(history)
    {
      if history.None? {
        return 1;
      }
      return history.value.rangeStart;
    }

    /** Insert, or on conflict overwrite, the row with id 1. */
    method SaveRestoringHistory(startBlock: int, endBlock: int)
      modifies this`history
      ensures history == Some(RestoreHistory(startBlock, endBlock, 0))
    {
      history := Some(RestoreHistory(startBlock, endBlock, 0));
    }

    /** Hands the messages over one by one, until the run is cut; failures of single publishes are skipped. */
    method PublishAll(ms: seq<Message>, accepts: seq<bool>, calls: nat) returns (all: bool)
      modifies this`handed, this`published
      ensures var n := if calls < |ms| then calls else |ms|;
              && all == (n == |ms|) && handed == old(handed) + ms[..n]
              && published == old(published) + Accepted(ms[..n], accepts)
    {
      var n := if calls < |ms| then calls else |ms|;
      for j := 0 to n
        invariant handed == old(handed) + ms[..j]
        invariant published == old(published) + Accepted(ms[..j], accepts)
      {
        assert ms[..j + 1][..j] == ms[..j];
        handed := handed + [ms[j]];
        if j >= |accepts| || accepts[j] {
          published := published + [ms[j]];
        }
      }
      return n == |ms|;
    }

    method RestoreMissingBlockAndTransactions(height: int, ws: seq<Window>) returns (end: End, windows: nat)
      modifies this
      ensures RunResult(State(), end, windows) == RunOnce(old(State()), height, ws)
    {
      var i := GetNotSequentialBlockNum();
      windows := 0;
      while i < height
        invariant windows <= |ws|
        invariant var rest := RunFrom(State(), i, height, ws[windows..]);
                  RunOnce(old(State()), height, ws) == rest.(windows := rest.windows + windows)
        decreases height - i
      {
        if windows == |ws| || ws[windows].calls == 0 {
          return Stopped, windows;
        }
        var w := ws[windows];
        assert ws[windows..][0] == w && ws[windows..][1..] == ws[windows + 1..];
        if |w.blocks| == 0 {
          return NoMoreBlocks, windows;
        }
        if w.calls == 1 {
          return Stopped, windows;
        }
        SaveRestoringHistory(i, i + WINDOW);
        if w.calls == 2 {
          return Stopped, windows;
        }
        var blockWithTxs := AssembleWindow(w.blocks, w.txs);
        var all := PublishAll(blockWithTxs, w.accepts, w.calls - 3);
        if !all {
          return Stopped, windows;
        }
        i := i + WINDOW;
        windows := windows + 1;
      }
      return Finished, windows;
    }
  }

  // ---------------------------------------------------------------- the chain the polls see

  /** A contiguous chain: entry h - 1 is the block of height h with its transactions. */
  predicate ValidChain(chain: seq<Message>) {
    forall i :: 0 <= i < |chain| ==>
      chain[i].block.height == i + 1 && forall tx :: tx in chain[i].transactions ==> tx.blockHeight == i + 1
  }

  /** The message is the block of its height, with that block's transactions in some order. */
  ghost predicate Matches(chain: seq<Message>, m: Message) {
    var h := m.block.height;
    1 <= h <= |chain| && m.block == chain[h - 1].block &&
    multiset(m.transactions) == multiset(chain[h - 1].transactions)
  }

  /** A block poll with the chain at the given head: each existing height of the window once, in any order. */
  ghost predicate PolledBlocks(chain: seq<Message>, head: int, i: int, blocks: seq<Block>)
    requires head <= |chain|
  {
    && DistinctHeights(blocks)
    && (forall b :: b in blocks ==>
          InWindow(i, WINDOW, b.height) && 1 <= b.height <= head && b == chain[b.height - 1].block)
    && (forall h :: InWindow(i, WINDOW, h) && 1 <= h <= head ==> chain[h - 1].block in blocks)
  }

  /** A transaction poll: of each height of the window up to that head, exactly its transactions, in any order. */
  ghost predicate PolledTransactions(chain: seq<Message>, head: int, i: int, txs: seq<Transaction>)
    requires head <= |chain|
  {
    forall h :: InWindow(i, WINDOW, h) && 1 <= h <= head ==>
      multiset(Select(txs, h)) == multiset(chain[h - 1].transactions)
  }

  /** A window polled from a chain that only grows: the head was at least the announced height at the block poll, and no
      lower at the transaction poll. */
  ghost predicate HonestAt(chain: seq<Message>, i: int, height: int, w: Window, head: int) {
    height <= head <= |chain| && PolledBlocks(chain, head, i, w.blocks) && PolledTransactions(chain, head, i, w.txs)
  }

  /** Every window the loop may get to is polled so; heads are the heads of the chain at the block polls. */
  ghost predicate Honest(chain: seq<Message>, i: int, height: int, ws: seq<Window>, heads: seq<int>)
    decreases |ws|
  {
    |heads| == |ws| &&
    (i < height && ws != [] ==>
      HonestAt(chain, i, height, ws[0], heads[0]) && Honest(chain, i + WINDOW, height, ws[1..], heads[1..]))
  }

  predicate HasHeight(ms: seq<Message>, h: int) { exists m :: m in ms && m.block.height == h }

  /** Every message of an honest window is a block of the chain with its transactions, and none is missing. */
  lemma WindowMatches(chain: seq<Message>, i: int, height: int, w: Window, head: int)
    requires ValidChain(chain) && HonestAt(chain, i, height, w, head)
    ensures var ms := Assemble(w.blocks, w.txs);
            && (forall m :: m in ms ==>
                  Matches(chain, m) && InWindow(i, WINDOW, m.block.height) && m.block.height <= head)
            && (forall h :: InWindow(i, WINDOW, h) && 1 <= h <= head ==> HasHeight(ms, h))
  {
    var ms := Assemble(w.blocks, w.txs);
    forall m | m in ms
      ensures Matches(chain, m) && InWindow(i, WINDOW, m.block.height) && m.block.height <= head
    {
      assert m.block in w.blocks;
    }
    forall h | InWindow(i, WINDOW, h) && 1 <= h <= head ensures HasHeight(ms, h) {
      assert chain[h - 1].block in w.blocks;
      var n :| 0 <= n < |w.blocks| && w.blocks[n] == chain[h - 1].block;
      assert ms[n] in ms && ms[n].block.height == h;
    }
  }

  // ---------------------------------------------------------------- what a window hands over and publishes

  /** Handing over is not publishing: a failing publish is logged and skipped. */
  lemma {:induction false} PublishedIffAccepted(ms: seq<Message>, accepts: seq<bool>)
    ensures |Accepted(ms, accepts)| <= |ms|
    ensures Accepted(ms, accepts) == ms <==> forall j :: 0 <= j < |ms| && j < |accepts| ==> accepts[j]
  {
    if ms != [] {
      var n := |ms| - 1;
      PublishedIffAccepted(ms[..n], accepts);
      assert ms == ms[..n] + [ms[n]];
      if n < |accepts| && !accepts[n] {
        assert |Accepted(ms, accepts)| < |ms|;
      } else if Accepted(ms, accepts) == ms {
        assert Accepted(ms[..n], accepts) == Accepted(ms, accepts)[..n];
      }
    }
  }

  ghost predicate Between(chain: seq<Message>, ms: seq<Message>, low: int, high: int) {
    forall m :: m in ms ==> Matches(chain, m) && low < m.block.height <= high
  }

  lemma BetweenAppend(chain: seq<Message>, a: seq<Message>, b: seq<Message>, low: int, mid: int, high: int)
    requires Between(chain, a, low, high) && Between(chain, b, mid, high) && low <= mid
    ensures Between(chain, a + b, low, high)
  {
  }

  lemma WindowBetween(chain: seq<Message>, i: int, height: int, w: Window, head: int, high: int)
    requires ValidChain(chain) && HonestAt(chain, i, height, w, head)
    requires i + WINDOW <= high || head <= high
    ensures Between(chain, Assemble(w.blocks, w.txs), i, high)
  {
    WindowMatches(chain, i, height, w, head);
  }

  predicate AllAccept(ws: seq<Window>) { forall w :: w in ws ==> forall j :: 0 <= j < |w.accepts| ==> w.accepts[j] }

  ghost predicate Extends(s: Sync, r: Sync, ms: seq<Message>, ps: seq<Message>) {
    r.handed == s.handed + ms && r.published == s.published + ps
  }

  lemma ExtendsMore(s: Sync, t: Sync, r: Sync, ms: seq<Message>, ps: seq<Message>, ms': seq<Message>, ps': seq<Message>)
    requires Extends(s, t, ms, ps) && Extends(t, r, ms', ps')
    ensures Extends(s, r, ms + ms', ps + ps')
  {
    Regroup(s.handed, ms, ms');
    Regroup(s.published, ps, ps');
  }

  // ---------------------------------------------------------------- coverage

  /** ceil((height - i) / 100) for i below height. */
  function WindowCount(i: int, height: int): nat {
    if i >= height then 0 else (height - i + WINDOW - 1) / WINDOW
  }

  lemma WindowCountStep(i: int, height: int)
    requires i < height
    ensures WindowCount(i, height) == 1 + WindowCount(i + WINDOW, height)
  {
  }

  /** All external calls of the windows return: there is no error of a poll or a save, and no crash. */
  predicate Returning(ws: seq<Window>) { forall w :: w in ws ==> w.calls >= 3 + |w.blocks| }

  predicate Undisturbed(ws: seq<Window>) { Returning(ws) && AllAccept(ws) }

  /** The messages of the windows from i up to height, in order. */
  function AllMessages(i: int, height: int, ws: seq<Window>): seq<Message>
    decreases |ws|
  {
    if i >= height || ws == [] then []
    else Assemble(ws[0].blocks, ws[0].txs) + AllMessages(i + WINDOW, height, ws[1..])
  }

  /** The last height an undisturbed run covers: the end of its last window, or the head if that came first. */
  function Reached(i: int, height: int, heads: seq<int>): int
    decreases |heads|
  {
    if i >= height || heads == [] then i
    else if i + WINDOW >= height then (if i + WINDOW < heads[0] then i + WINDOW else heads[0])
    else Reached(i + WINDOW, height, heads[1..])
  }

  /** The accepted ones among these messages. */
  function AllPublished(i: int, height: int, ws: seq<Window>): seq<Message>
    decreases |ws|
  {
    if i >= height || ws == [] then []
    else Accepted(Assemble(ws[0].blocks, ws[0].txs), ws[0].accepts) + AllPublished(i + WINDOW, height, ws[1..])
  }

  /** Every publish of the windows the loop goes through is accepted. */
  ghost predicate EveryAccepted(i: int, height: int, ws: seq<Window>)
    decreases |ws|
  {
    i < height && ws != [] ==>
      && (forall j :: 0 <= j < |ws[0].blocks| && j < |ws[0].accepts| ==> ws[0].accepts[j])
      && EveryAccepted(i + WINDOW, height, ws[1..])
  }

  lemma ReturningStep(s: Sync, i: int, height: int, ws: seq<Window>)
    requires Returning(ws) && i < height && ws != [] && ws[0].blocks != []
    ensures Returning(ws[1..])
    ensures var ms := Assemble(ws[0].blocks, ws[0].txs);
            var after := Sync(Some(RestoreHistory(i, i + WINDOW, 0)), s.handed + ms,
                              s.published + Accepted(ms, ws[0].accepts));
            var rest := RunFrom(after, i + WINDOW, height, ws[1..]);
            RunFrom(s, i, height, ws) == rest.(windows := rest.windows + 1)
  {
    var w := ws[0];
    assert w in ws;
    var ms := Assemble(w.blocks, w.txs);
    assert ms[..|ms|] == ms;
    forall x | x in ws[1..] ensures x in ws {}
  }

  /** The run ended normally after ceil((height - i) / 100) windows, having handed over ms and published ps. */
  predicate Completes(r: RunResult, s: Sync, i: int, height: int, ms: seq<Message>, ps: seq<Message>) {
    && r.end == Finished && r.windows == WindowCount(i, height)
    && r.sync.handed == s.handed + ms && r.sync.published == s.published + ps
  }

  lemma FirstOfWindow(chain: seq<Message>, i: int, height: int, w: Window, head: int)
    requires HonestAt(chain, i, height, w, head) && 0 <= i < height
    ensures w.blocks != []
  {
    assert InWindow(i, WINDOW, i + 1) && chain[i + 1 - 1].block in w.blocks;
  }

  /** A run all of whose calls return, on a chain that reaches the announced height, takes exactly ceil((height - i) /
      100) windows, never runs into an empty poll, hands over all their messages and publishes the accepted ones. */
  lemma {:induction false} ReturningRun(chain: seq<Message>, s: Sync, i: int, height: int, ws: seq<Window>,
                                        heads: seq<int>)
    requires 1 <= i && Honest(chain, i, height, ws, heads)
    requires Returning(ws) && |ws| >= WindowCount(i, height)
    ensures Completes(RunFrom(s, i, height, ws), s, i, height, AllMessages(i, height, ws), AllPublished(i, height, ws))
    decreases |ws|
  {
    if i < height {
      WindowCountStep(i, height);
      FirstOfWindow(chain, i, height, ws[0], heads[0]);
      ReturningStep(s, i, height, ws);
      var ms := Assemble(ws[0].blocks, ws[0].txs);
      var ps := Accepted(ms, ws[0].accepts);
      var after := Sync(Some(RestoreHistory(i, i + WINDOW, 0)), s.handed + ms, s.published + ps);
      ReturningRun(chain, after, i + WINDOW, height, ws[1..], heads[1..]);
      ExtendsMore(s, after, RunFrom(after, i + WINDOW, height, ws[1..]).sync, ms, ps,
               AllMessages(i + WINDOW, height, ws[1..]), AllPublished(i + WINDOW, height, ws[1..]));
    } else {
      assert s.handed + [] == s.handed && s.published + [] == s.published;
    }
  }

  lemma {:induction false} EveryAcceptedAll(i: int, height: int, ws: seq<Window>)
    requires EveryAccepted(i, height, ws)
    ensures AllPublished(i, height, ws) == AllMessages(i, height, ws)
    decreases |ws|
  {
    if i < height && ws != [] {
      PublishedIffAccepted(Assemble(ws[0].blocks, ws[0].txs), ws[0].accepts);
      EveryAcceptedAll(i + WINDOW, height, ws[1..]);
    }
  }

  lemma {:induction false} AllAcceptEvery(i: int, height: int, ws: seq<Window>)
    requires AllAccept(ws)
    ensures EveryAccepted(i, height, ws)
    decreases |ws|
  {
    if i < height && ws != [] {
      assert ws[0] in ws;
      forall x | x in ws[1..] ensures x in ws {}
      AllAcceptEvery(i + WINDOW, height, ws[1..]);
    }
  }

  /** If besides every publish is accepted, the run publishes all it hands over. */
  lemma Coverage(chain: seq<Message>, s: Sync, i: int, height: int, ws: seq<Window>, heads: seq<int>)
    requires 1 <= i && Honest(chain, i, height, ws, heads)
    requires Undisturbed(ws) && |ws| >= WindowCount(i, height)
    ensures Completes(RunFrom(s, i, height, ws), s, i, height, AllMessages(i, height, ws), AllMessages(i, height, ws))
  {
    ReturningRun(chain, s, i, height, ws, heads);
    AllAcceptEvery(i, height, ws);
    EveryAcceptedAll(i, height, ws);
  }

  /** The windows are disjoint and cover: a height above i lies in window number (h - i - 1) / 100 and in no other. */
  lemma WindowsPartition(i: int, h: int, n: nat)
    requires i < h
    ensures InWindow(i + WINDOW * n, WINDOW, h) <==> n == (h - i - 1) / WINDOW
    ensures forall height :: h <= height ==> (h - i - 1) / WINDOW < WindowCount(i, height)
  {
  }

  lemma {:induction false} ReachedBounds(chain: seq<Message>, i: int, height: int, ws: seq<Window>, heads: seq<int>)
    requires Honest(chain, i, height, ws, heads) && |ws| >= WindowCount(i, height) && i < height
    ensures height <= Reached(i, height, heads) <= |chain|
    decreases |ws|
  {
    WindowCountStep(i, height);
    if i + WINDOW < height {
      ReachedBounds(chain, i + WINDOW, height, ws[1..], heads[1..]);
    }
  }

  /** What an undisturbed run hands over: blocks of the chain, their heights above i and at most Reached, ... */
  lemma {:induction false} MessagesMatch(chain: seq<Message>, i: int, height: int, ws: seq<Window>, heads: seq<int>)
    requires ValidChain(chain) && 1 <= i < height && Honest(chain, i, height, ws, heads)
    requires |ws| >= WindowCount(i, height)
    ensures Between(chain, AllMessages(i, height, ws), i, Reached(i, height, heads))
    decreases |ws|
  {
    WindowCountStep(i, height);
    var high := Reached(i, height, heads);
    var here, rest := Assemble(ws[0].blocks, ws[0].txs), AllMessages(i + WINDOW, height, ws[1..]);
    if i + WINDOW < height {
      assert high == Reached(i + WINDOW, height, heads[1..]);
      MessagesMatch(chain, i + WINDOW, height, ws[1..], heads[1..]);
      ReachedBounds(chain, i + WINDOW, height, ws[1..], heads[1..]);
      WindowBetween(chain, i, height, ws[0], heads[0], high);
      BetweenAppend(chain, here, rest, i, i + WINDOW, high);
    } else {
      WindowBetween(chain, i, height, ws[0], heads[0], high);
      assert rest == [] && here + rest == here;
    }
  }

  /** ... each such height ... */
  lemma {:induction false} MessagesCover(chain: seq<Message>, i: int, height: int, ws: seq<Window>,
                                         heads: seq<int>, h: int)
    requires ValidChain(chain) && 1 <= i < height && Honest(chain, i, height, ws, heads)
    requires |ws| >= WindowCount(i, height)
    requires i < h <= Reached(i, height, heads)
    ensures HasHeight(AllMessages(i, height, ws), h)
    decreases |ws|
  {
    var w, head := ws[0], heads[0];
    WindowCountStep(i, height);
    var here, rest := Assemble(w.blocks, w.txs), AllMessages(i + WINDOW, height, ws[1..]);
    if h <= i + WINDOW {
      WindowMatches(chain, i, height, w, head);
      assert InWindow(i, WINDOW, h);
      var m :| m in here && m.block.height == h;
      assert m in here + rest;
    } else {
      MessagesCover(chain, i + WINDOW, height, ws[1..], heads[1..], h);
      var m :| m in rest && m.block.height == h;
      assert m in here + rest;
    }
  }

  lemma MessagesAbove(chain: seq<Message>, i: int, height: int, ws: seq<Window>, heads: seq<int>)
    requires ValidChain(chain) && 1 <= i && Honest(chain, i, height, ws, heads) && |ws| >= WindowCount(i, height)
    ensures forall m :: m in AllMessages(i, height, ws) ==> i < m.block.height
  {
    if i < height { MessagesMatch(chain, i, height, ws, heads); }
  }

  predicate DistinctMessages(ms: seq<Message>) {
    forall i, j :: 0 <= i < j < |ms| ==> ms[i].block.height != ms[j].block.height
  }

  /** ... exactly once. */
  lemma {:induction false} MessagesDistinct(chain: seq<Message>, i: int, height: int, ws: seq<Window>, heads: seq<int>)
    requires ValidChain(chain) && 1 <= i && Honest(chain, i, height, ws, heads) && |ws| >= WindowCount(i, height)
    ensures DistinctMessages(AllMessages(i, height, ws))
    decreases |ws|
  {
    if i < height {
      var w, head := ws[0], heads[0];
      var later, laterHeads := ws[1..], heads[1..];
      var here, rest := Assemble(w.blocks, w.txs), AllMessages(i + WINDOW, height, later);
      assert AllMessages(i, height, ws) == here + rest;
      assert DistinctMessages(rest) && forall m :: m in rest ==> i + WINDOW < m.block.height by {
        WindowCountStep(i, height);
        MessagesDistinct(chain, i + WINDOW, height, later, laterHeads);
        MessagesAbove(chain, i + WINDOW, height, later, laterHeads);
      }
      WindowDistinct(chain, i, height, w, head);
      DistinctAppend(here, rest, i + WINDOW);
    }
  }

  lemma WindowDistinct(chain: seq<Message>, i: int, height: int, w: Window, head: int)
    requires ValidChain(chain) && HonestAt(chain, i, height, w, head)
    ensures DistinctMessages(Assemble(w.blocks, w.txs))
    ensures forall m :: m in Assemble(w.blocks, w.txs) ==> m.block.height <= i + WINDOW
  {
    WindowMatches(chain, i, height, w, head);
    assert DistinctHeights(w.blocks);
  }

  lemma DistinctAppend(a: seq<Message>, b: seq<Message>, mid: int)
    requires DistinctMessages(a) && DistinctMessages(b)
    requires forall m :: m in a ==> m.block.height <= mid
    requires forall m :: m in b ==> mid < m.block.height
    ensures DistinctMessages(a + b)
  {
  }
}
