/** From the chain to the balances: a restoring run, its messages delivered any number of times in any order to the
    concurrent event processor, and the plain fold over the chain's events. */
module EndToEnd {
  import opened Conservation
  import opened Float64
  import opened Model
  import opened Programs
  import opened Refinement
  import opened Repository
  import opened Rounding
  import opened Sums
  import opened Tables
  import opened Deliveries
  import C = Core
  import P = Pool
  import K = Checkpoint
  import N = Consumer
  import S = Synchronizer

  /** The chain's own entry for a message's height. */
  function Entries(chain: seq<Message>, ms: seq<Message>): seq<Message>
    requires forall m :: m in ms ==> 1 <= m.block.height <= |chain|
  {
    seq(|ms|, i requires 0 <= i < |ms| => chain[ms[i].block.height - 1])
  }

  lemma DistinctNoRepeat(ms: seq<Message>)
    requires S.DistinctMessages(ms)
    ensures NoRepeat(ms)
  {
    forall i, j | 0 <= i < j < |ms| ensures ms[i] != ms[j] {
      assert ms[i].block.height != ms[j].block.height;
    }
  }

  lemma EntryOf(chain: seq<Message>, ms: seq<Message>, low: int, high: int, n: Message)
    requires S.ValidChain(chain) && 0 <= low <= high <= |chain| && S.Between(chain, ms, low, high)
    requires forall h :: low < h <= high ==> S.HasHeight(ms, h)
    ensures n in Entries(chain, ms) <==> n in chain[low..high]
  {
    if n in Entries(chain, ms) { EntryInRange(chain, ms, low, high, n); }
    if n in chain[low..high] { RangeHasEntry(chain, ms, low, high, n); }
  }

  lemma EntryInRange(chain: seq<Message>, ms: seq<Message>, low: int, high: int, n: Message)
    requires S.ValidChain(chain) && 0 <= low <= high <= |chain| && S.Between(chain, ms, low, high)
    requires n in Entries(chain, ms)
    ensures n in chain[low..high]
  {
    var es := Entries(chain, ms);
    var i :| 0 <= i < |es| && es[i] == n;
    assert ms[i] in ms;
    assert chain[low..high][ms[i].block.height - 1 - low] == n;
  }

  lemma RangeHasEntry(chain: seq<Message>, ms: seq<Message>, low: int, high: int, n: Message)
    requires S.ValidChain(chain) && 0 <= low <= high <= |chain| && S.Between(chain, ms, low, high)
    requires forall h :: low < h <= high ==> S.HasHeight(ms, h)
    requires n in chain[low..high]
    ensures n in Entries(chain, ms)
  {
    var es := Entries(chain, ms);
    var i :| 0 <= i < high - low && chain[low..high][i] == n;
    assert S.HasHeight(ms, low + i + 1);
    var m :| m in ms && m.block.height == low + i + 1;
    var j :| 0 <= j < |ms| && ms[j] == m;
    assert es[j] == n;
  }

  lemma EntriesDistinct(chain: seq<Message>, ms: seq<Message>, low: int, high: int)
    requires S.ValidChain(chain) && 0 <= low <= high <= |chain| && S.Between(chain, ms, low, high)
    requires S.DistinctMessages(ms)
    ensures NoRepeat(Entries(chain, ms)) && NoRepeat(chain[low..high])
  {
    var es, part := Entries(chain, ms), chain[low..high];
    forall i, j | 0 <= i < j < |es| ensures es[i] != es[j] {
      assert ms[i] in ms && ms[j] in ms;
      assert ms[i].block.height != ms[j].block.height;
    }
    forall i, j | 0 <= i < j < |part| ensures part[i] != part[j] {
      assert part[i].block.height == low + i + 1 && part[j].block.height == low + j + 1;
    }
  }

  /** Messages that match the chain, one for each height of a range and each with its block's transactions in any order,
      sum to the fold over that part of the chain, whatever is summed over the transactions. */
  lemma FoldOfRange(chain: seq<Message>, ms: seq<Message>, low: int, high: int, f: Message -> int,
                    g: Transaction -> int)
    requires forall m :: f(m) == SumBy(m.transactions, g)
    requires S.ValidChain(chain) && 0 <= low <= high <= |chain| && S.Between(chain, ms, low, high)
    requires S.DistinctMessages(ms)
    requires forall h :: low < h <= high ==> S.HasHeight(ms, h)
    ensures SumBy(ms, f) == SumBy(chain[low..high], f)
  {
    var es, part := Entries(chain, ms), chain[low..high];
    forall i | 0 <= i < |ms| ensures f(ms[i]) == f(es[i]) {
      assert ms[i] in ms;
      SumPermutation(ms[i].transactions, es[i].transactions, g);
    }
    SumMap(ms, es, f, f);
    EntriesDistinct(chain, ms, low, high);
    forall n ensures n in es <==> n in part { EntryOf(chain, ms, low, high, n); }
    SameMembers(es, part);
    SumPermutation(es, part, f);
  }

  /** What the ledger shows for an account: the balance, the reading of the transfers table and, with float64 columns,
      the reported int64 value are all this number. */
  ghost predicate Shows(cfg: Config, t: Tables, k: AccountKey, b: int) {
    && Balance(t.accounts, k) == b && SumBy(t.transfers, RowEffect(k)) == b
    && (cfg.arithmetic.Binary64? ==> ToInt64(Balance(t.accounts, k)) == b)
  }

  /** The pool at rest after messages of distinct heights: each balance is the fold over exactly these messages. */
  lemma PoolFold(cfg: Config, s: P.Pool, ms: seq<Message>, k: AccountKey)
    requires ProperKey(k) && EventsFit(cfg, ms)
    requires P.Reachable(cfg, s) && P.Quiescent(s) && P.NoErrors(s)
    requires S.DistinctMessages(ms) && forall m :: m in s.taken <==> m in ms
    ensures Shows(cfg, s.core.tables, k, SumBy(ms, MessageEffect(k)))
  {
    var got := Messages(s.core.tasks);
    GotMessages(cfg, s, ms);
    forall l ensures SumBy(got, MessageSum(EventAbs(l))) == SumBy(ms, MessageSum(EventAbs(l))) {
      SumPermutation(got, ms, MessageSum(EventAbs(l)));
    }
    RestFold(cfg, s, k);
    SumPermutation(got, ms, MessageEffect(k));
  }

  /** The messages past the gate are those taken. */
  lemma GotMessages(cfg: Config, s: P.Pool, ms: seq<Message>)
    requires P.Reachable(cfg, s) && P.Quiescent(s) && P.NoErrors(s)
    requires S.DistinctMessages(ms) && forall m :: m in s.taken <==> m in ms
    ensures multiset(Messages(s.core.tasks)) == multiset(ms)
  {
    P.CoreReachable(cfg, s);
    C.ReachableStructured(cfg, s.core);
    PoolSettled(cfg, s);
    forall m, n | m in s.taken && n in s.taken && m.block.height == n.block.height ensures m == n {
      var i :| 0 <= i < |ms| && ms[i] == m;
      var j :| 0 <= j < |ms| && ms[j] == n;
      assert i == j;
    }
    var got := Messages(s.core.tasks);
    forall m ensures m in got <==> m in ms { SettledMessages(s.core, s.taken, m); }
    forall i, j | 0 <= i < j < |got| ensures got[i] != got[j] {
      assert C.Height(s.core.tasks[i]) != C.Height(s.core.tasks[j]);
    }
    DistinctNoRepeat(ms);
    SameMembers(got, ms);
  }

  /** End to end. A restoring run from `start` to `height` completes undisturbed and publishes its messages. They, and
      no others, reach the event processor: each at least once, repeated and reordered at will, interleaved over the
      workers, none failing. Then every balance is the plain fold over the chain's events in the heights start + 1 ..
      Reached, each height counted once, and Reached is at least `height`. With float64 columns this takes events whose
      absolute amounts in that range sum to at most 2^53 for every account. */
  lemma ChainToLedger(chain: seq<Message>, sync: S.Sync, height: int, ws: seq<S.Window>, heads: seq<int>,
                      cfg: Config, s: P.Pool, k: AccountKey)
    requires ProperKey(k)
    requires var start := S.StartOf(sync.history);
             && S.ValidChain(chain) && 1 <= start && S.Honest(chain, start, height, ws, heads)
             && S.Undisturbed(ws) && |ws| >= S.WindowCount(start, height)
    requires sync.published == []
    requires var published := S.RunOnce(sync, height, ws).sync.published;
             forall m :: m in s.taken <==> m in published
    requires P.Reachable(cfg, s) && P.Quiescent(s) && P.NoErrors(s)
    requires EventsFit(cfg, Restored(chain, S.StartOf(sync.history), height, heads))
    ensures S.RunOnce(sync, height, ws).end == S.Finished
    ensures var start, reached := S.StartOf(sync.history), S.Reached(S.StartOf(sync.history), height, heads);
            && (start < height ==> height <= reached <= |chain|)
            && Shows(cfg, s.core.tables, k, SumBy(Restored(chain, start, height, heads), MessageEffect(k)))
  {
    var start := S.StartOf(sync.history);
    var ms := S.AllMessages(start, height, ws);
    S.Coverage(chain, sync, start, height, ws, heads);
    S.MessagesDistinct(chain, start, height, ws, heads);
    if start < height {
      RestoredFolds(chain, start, height, ws, heads);
    } else {
      assert ms == [] && Restored(chain, start, height, heads) == [];
    }
    PoolFold(cfg, s, ms, k);
  }

  /** The part of the chain a run restores: the heights above its start, up to what it reaches. */
  function Restored(chain: seq<Message>, start: int, height: int, heads: seq<int>): seq<Message> {
    var reached := S.Reached(start, height, heads);
    if 0 <= start < height && start <= reached <= |chain| then chain[start..reached] else []
  }

  lemma RestoredFolds(chain: seq<Message>, start: int, height: int, ws: seq<S.Window>, heads: seq<int>)
    requires S.ValidChain(chain) && 1 <= start < height && S.Honest(chain, start, height, ws, heads)
    requires |ws| >= S.WindowCount(start, height)
    ensures var reached := S.Reached(start, height, heads);
            height <= reached <= |chain| && Restored(chain, start, height, heads) == chain[start..reached]
    ensures var ms, part := S.AllMessages(start, height, ws), Restored(chain, start, height, heads);
            && (forall k :: SumBy(ms, MessageEffect(k)) == SumBy(part, MessageEffect(k)))
            && (forall k :: SumBy(ms, MessageSum(EventAbs(k))) == SumBy(part, MessageSum(EventAbs(k))))
  {
    var ms, reached := S.AllMessages(start, height, ws), S.Reached(start, height, heads);
    S.MessagesDistinct(chain, start, height, ws, heads);
    S.MessagesMatch(chain, start, height, ws, heads);
    S.ReachedBounds(chain, start, height, ws, heads);
    forall h | start < h <= reached ensures S.HasHeight(ms, h) {
      S.MessagesCover(chain, start, height, ws, heads, h);
    }
    FoldsOfRange(chain, ms, start, reached);
  }

  /** Both folds that matter: what the events change, and how much at most. */
  lemma FoldsOfRange(chain: seq<Message>, ms: seq<Message>, low: int, high: int)
    requires S.ValidChain(chain) && 0 <= low <= high <= |chain| && S.Between(chain, ms, low, high)
    requires S.DistinctMessages(ms)
    requires forall h :: low < h <= high ==> S.HasHeight(ms, h)
    ensures forall k :: SumBy(ms, MessageEffect(k)) == SumBy(chain[low..high], MessageEffect(k))
    ensures forall k :: SumBy(ms, MessageSum(EventAbs(k))) == SumBy(chain[low..high], MessageSum(EventAbs(k)))
  {
    forall k ensures SumBy(ms, MessageEffect(k)) == SumBy(chain[low..high], MessageEffect(k)) {
      FoldOfRange(chain, ms, low, high, MessageEffect(k), TxEffect(k));
    }
    forall k ensures SumBy(ms, MessageSum(EventAbs(k))) == SumBy(chain[low..high], MessageSum(EventAbs(k))) {
      FoldOfRange(chain, ms, low, high, MessageSum(EventAbs(k)), TxSum(EventAbs(k)));
    }
  }

  // ---------------------------------------------------------------- after any number of crashes

  /** The pool at rest after messages that cover a range of the chain, a height perhaps in several messages that list
      its transactions in different orders: each balance is the fold over that range. */
  lemma PoolFoldsChain(cfg: Config, s: P.Pool, chain: seq<Message>, low: int, high: int,
                                          k: AccountKey)
    requires ProperKey(k) && P.Reachable(cfg, s) && P.Quiescent(s) && P.NoErrors(s)
    requires S.ValidChain(chain) && 0 <= low <= high <= |chain| && S.Between(chain, s.taken, low, high)
    requires forall h :: low < h <= high ==> S.HasHeight(s.taken, h)
    requires EventsFit(cfg, chain[low..high])
    ensures Shows(cfg, s.core.tables, k, SumBy(chain[low..high], MessageEffect(k)))
  {
    P.CoreReachable(cfg, s);
    PoolSettled(cfg, s);
    SettledRange(cfg, s.core, s.taken, chain, low, high);
    FoldsOfRange(chain, Messages(s.core.tasks), low, high);
    RestFold(cfg, s, k);
  }

  /** Of several messages of a height one has passed the gate. */
  lemma SettledRange(cfg: Config, c: C.Core, taken: seq<Message>, chain: seq<Message>, low: int,
                                        high: int)
    requires C.Reachable(cfg, c) && Settled(c, taken) && S.Between(chain, taken, low, high)
    requires forall h :: low < h <= high ==> S.HasHeight(taken, h)
    ensures S.Between(chain, Messages(c.tasks), low, high) && S.DistinctMessages(Messages(c.tasks))
    ensures forall h :: low < h <= high ==> S.HasHeight(Messages(c.tasks), h)
  {
    var got := Messages(c.tasks);
    C.ReachableStructured(cfg, c);
    forall i, j | 0 <= i < j < |got| ensures got[i].block.height != got[j].block.height {
      assert C.Height(c.tasks[i]) != C.Height(c.tasks[j]);
    }
    forall h | low < h <= high ensures S.HasHeight(got, h) {
      assert S.HasHeight(taken, h);
      var m :| m in taken && m.block.height == h;
      assert C.Opening(c, m.block.height);
      var i :| 0 <= i < |c.tasks| && C.Height(c.tasks[i]) == h;
      assert got[i] in got;
    }
  }

  /** The lives before the last may have ended anywhere; no poll of theirs saw the chain beyond the height that the last
      one is told; the last one is undisturbed; all publishes are accepted. */
  ghost predicate LivesSucceed(chain: seq<Message>, lives: seq<K.Life>) {
    && lives != [] && K.HonestLives(chain, S.FRESH, lives)
    && (forall n :: 0 <= n < |lives| ==> S.AllAccept(lives[n].windows))
    && var front, last := lives[..|lives| - 1], lives[|lives| - 1];
    && (forall n :: 0 <= n < |front| ==> K.SeenUpTo(chain, front[n].heads, last.height))
    && S.Returning(last.windows)
    && |last.windows| >= S.WindowCount(S.StartOf(K.Lives(S.FRESH, front).history), last.height)
  }

  /** The height up to which the lives restored the chain. */
  function RestoredUpTo(lives: seq<K.Life>): int
    requires lives != []
  {
    var last, start := lives[|lives| - 1], S.StartOf(K.Lives(S.FRESH, lives[..|lives| - 1]).history);
    if start < last.height then S.Reached(start, last.height, last.heads) else start
  }

  /** What all the lives together publish: blocks of the chain from height 2 on, each at least once. */
  lemma LivesPublishRange(chain: seq<Message>, lives: seq<K.Life>)
    requires S.ValidChain(chain) && |chain| >= 1 && LivesSucceed(chain, lives)
    ensures var top, ms := RestoredUpTo(lives), K.Lives(S.FRESH, lives).published;
            && 1 <= top <= |chain| && lives[|lives| - 1].height <= top
            && S.Between(chain, ms, 1, top) && forall h :: 1 < h <= top ==> S.HasHeight(ms, h)
  {
    var front, last := lives[..|lives| - 1], lives[|lives| - 1];
    var before := K.Lives(S.FRESH, front);
    var start, top := S.StartOf(before.history), RestoredUpTo(lives);
    K.HonestFront(chain, S.FRESH, lives);
    K.LivesPublish(S.FRESH, front);
    var ms, ps := K.LivesHandOver(chain, S.FRESH, front, last.height);
    assert before.handed == ms;
    K.NeverAGap(chain, front);
    FrontCovers(chain, before);
    if start < last.height {
      S.Coverage(chain, before, start, last.height, last.windows, last.heads);
      S.MessagesMatch(chain, start, last.height, last.windows, last.heads);
      S.ReachedBounds(chain, start, last.height, last.windows, last.heads);
      var more := S.AllMessages(start, last.height, last.windows);
      forall h | start < h <= top ensures S.HasHeight(more, h) {
        S.MessagesCover(chain, start, last.height, last.windows, last.heads, h);
      }
      JoinRanges(chain, ms, more, start, top);
    }
  }

  lemma FrontCovers(chain: seq<Message>, before: S.Sync)
    requires S.ValidChain(chain) && |chain| >= 1 && K.CrashSafe(chain, before)
    ensures S.StartOf(before.history) <= |chain|
    ensures forall h :: 1 < h <= S.StartOf(before.history) ==> S.HasHeight(before.handed, h)
  {
    var start := S.StartOf(before.history);
    assert start > 1 ==> K.HandedOver(chain, before, start);
    forall h | 1 < h <= start ensures S.HasHeight(before.handed, h) {
      assert K.HandedOver(chain, before, h);
    }
  }

  lemma JoinRanges(chain: seq<Message>, a: seq<Message>, b: seq<Message>, mid: int, top: int)
    requires 1 <= mid <= top && S.Between(chain, a, 1, top) && S.Between(chain, b, mid, top)
    requires forall h :: 1 < h <= mid ==> S.HasHeight(a, h)
    requires forall h :: mid < h <= top ==> S.HasHeight(b, h)
    ensures S.Between(chain, a + b, 1, top) && forall h :: 1 < h <= top ==> S.HasHeight(a + b, h)
  {
    forall h | 1 < h <= top ensures S.HasHeight(a + b, h) {
      if h <= mid {
        assert S.HasHeight(a, h);
        var m :| m in a && m.block.height == h;
        assert m in a + b;
      } else {
        assert S.HasHeight(b, h);
        var m :| m in b && m.block.height == h;
        assert m in a + b;
      }
    }
  }

  /** End to end over crashes. The synchronizer crashes any number of times at any step, restarts from its checkpoint,
      and the last time completes; everything it published in all its lives, and nothing else, is processed, repeated
      and reordered at will, interleaved over the workers, none failing. Then every balance is the plain fold over the
      chain's events in the heights 2 .. top, each height counted once; with float64 columns if these events fit. */
  lemma {:induction false} CrashesToLedger(chain: seq<Message>, lives: seq<K.Life>, cfg: Config, s: P.Pool,
                                           k: AccountKey)
    requires ProperKey(k) && S.ValidChain(chain) && |chain| >= 1 && LivesSucceed(chain, lives)
    requires forall m :: m in s.taken <==> m in K.Lives(S.FRESH, lives).published
    requires P.Reachable(cfg, s) && P.Quiescent(s) && P.NoErrors(s)
    requires 1 <= RestoredUpTo(lives) <= |chain| ==> EventsFit(cfg, chain[1..RestoredUpTo(lives)])
    ensures var top := RestoredUpTo(lives);
            && 1 <= top <= |chain| && lives[|lives| - 1].height <= top
            && Shows(cfg, s.core.tables, k, SumBy(chain[1..top], MessageEffect(k)))
  {
    var top := RestoredUpTo(lives);
    LivesPublishRange(chain, lives);
    SameRange(chain, K.Lives(S.FRESH, lives).published, s.taken, 1, top);
    PoolFoldsChain(cfg, s, chain, 1, top, k);
  }

  lemma SameRange(chain: seq<Message>, a: seq<Message>, b: seq<Message>, low: int, high: int)
    requires S.Between(chain, a, low, high) && forall h :: low < h <= high ==> S.HasHeight(a, h)
    requires forall m :: m in b <==> m in a
    ensures S.Between(chain, b, low, high) && forall h :: low < h <= high ==> S.HasHeight(b, h)
  {
    forall h | low < h <= high ensures S.HasHeight(b, h) {
      assert S.HasHeight(a, h);
      var m :| m in a && m.block.height == h;
      assert m in b;
    }
  }

  /** End to end through the broker. The messages published to the processor's queue are the encoded messages of all
      the synchronizer's lives, in any order and any number; the broker delivers them until it may delete them; every
      delivery finds fewer than 100 messages waiting, no worker reports an error, and all is at rest. Then every
      balance is the fold over the chain. */
  lemma {:induction false} BrokerToLedger(chain: seq<Message>, lives: seq<K.Life>, cfg: Config, q: nat,
                                          decode: string -> Option<Message>, run: seq<N.System>, acts: seq<N.Action>,
                                          k: AccountKey)
    requires ProperKey(k) && S.ValidChain(chain) && |chain| >= 1 && LivesSucceed(chain, lives)
    requires N.Steps(cfg, q, decode, run, acts) && run[0] == N.START
    requires forall m :: N.SentMessage(q, decode, run, acts, |acts|, m) <==> m in K.Lives(S.FRESH, lives).published
    requires N.AtRest(run[|acts|], q) && P.NoErrors(run[|acts|].pool)
    requires forall i :: 0 <= i < |acts| && acts[i].Handover? ==> |run[i].pool.queue| < 100
    requires 1 <= RestoredUpTo(lives) <= |chain| ==> EventsFit(cfg, chain[1..RestoredUpTo(lives)])
    ensures var top := RestoredUpTo(lives);
            && 1 <= top <= |chain| && lives[|lives| - 1].height <= top
            && Shows(cfg, run[|acts|].pool.core.tables, k, SumBy(chain[1..top], MessageEffect(k)))
  {
    var s := run[|acts|].pool;
    N.PoolReachable(cfg, q, decode, run, acts, |acts|);
    forall m ensures m in s.taken <==> m in K.Lives(S.FRESH, lives).published {
      N.TakenIffSent(cfg, q, decode, run, acts, m);
    }
    CrashesToLedger(chain, lives, cfg, s, k);
  }

  // ---------------------------------------------------------------- queries and the live path

  /** The supply query at rest: what GetBalances reports for a token is what the processed events minted, less what they
      burned. */
  lemma ReportedSupply(cfg: Config, c: C.Core, balances: map<string, int>, token: string)
    requires cfg.arithmetic.Exact? && C.Reachable(cfg, c) && token != "" && AllComplete(c)
    requires forall i :: 0 <= i < |c.tasks| ==> Clean(c.tasks[i].msg, token)
    requires GroupSums(balances, c.tables.accounts, Matching(c.tables.accounts, "", ""))
    ensures (if token in balances then balances[token] else 0) ==
            SumBy(Messages(c.tasks), MessageSum(EventMinted(token)))
            - SumBy(Messages(c.tasks), MessageSum(EventBurned(token)))
  {
    SupplyAtRest(cfg, c, token);
    SupplyQuery(balances, c.tables.accounts, token);
    if token !in balances {
      assert Matching(c.tables.accounts, "", token) == Group(c.tables.accounts.Keys, token);
    }
  }

  /** A transaction poll of the live path: the block's own height is the offset, and the limit is 1. */
  predicate LivePolled(txs: seq<Transaction>, height: int) {
    forall tx :: tx in txs ==> S.InWindow(height, 1, tx.blockHeight)
  }

  /** The live message of a block holds none of the block's own transactions. Once it has passed the gate, the restored
      message of that block reports success and does nothing: its events stay unapplied. */
  lemma LiveMessageShadows(cfg: Config, chain: seq<Message>, t: Tables, h: int, txs: seq<Transaction>)
    requires S.ValidChain(chain) && 1 <= h <= |chain| && LivePolled(txs, h)
    requires AddBlock(t, chain[h - 1].block).Inserted?
    ensures forall tx :: tx in chain[h - 1].transactions ==> tx !in txs
    ensures var r := Process(cfg, t, BlockWithTransactions(chain[h - 1].block, txs));
            Process(cfg, r.tables, chain[h - 1]) == Run(r.tables, true)
  {
    RedeliveryIsNoOp(cfg, t, BlockWithTransactions(chain[h - 1].block, txs), chain[h - 1]);
  }
}
