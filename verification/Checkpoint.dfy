/** The restoring loop over many runs: what the saved checkpoint guarantees after crashes, and what is lost for good
    when a publish fails. */
module Checkpoint {
  import opened Model
  import opened Sums
  import opened Synchronizer

  // ---------------------------------------------------------------- crash safety

  /** Height h was handed to Publish, with the chain's block and transactions. */
  ghost predicate HandedOver(chain: seq<Message>, s: Sync, h: int) {
    exists m :: m in s.handed && m.block.height == h && Matches(chain, m)
  }

  ghost predicate HandedUpTo(chain: seq<Message>, s: Sync, i: int) {
    forall h :: 1 < h <= i ==> HandedOver(chain, s, h)
  }

  /** No gap: every height from 2 to the saved start has been handed over, so resuming there skips nothing. */
  ghost predicate CrashSafe(chain: seq<Message>, s: Sync) {
    1 <= StartOf(s.history) && HandedUpTo(chain, s, StartOf(s.history))
  }

  lemma HandingMore(chain: seq<Message>, s: Sync, s': Sync, h: int)
    requires s.handed <= s'.handed && HandedOver(chain, s, h)
    ensures HandedOver(chain, s', h)
  {
    var m :| m in s.handed && m.block.height == h && Matches(chain, m);
    assert m in s'.handed;
  }

  lemma WindowHandsOver(chain: seq<Message>, s: Sync, s': Sync, i: int, height: int, w: Window, head: int)
    requires ValidChain(chain) && HonestAt(chain, i, height, w, head) && 1 <= i
    requires HandedUpTo(chain, s, i) && s'.handed == s.handed + Assemble(w.blocks, w.txs)
    requires i + WINDOW < height
    ensures HandedUpTo(chain, s', i + WINDOW)
  {
    WindowMatches(chain, i, height, w, head);
    forall h | 1 < h <= i + WINDOW ensures HandedOver(chain, s', h) {
      if h <= i {
        HandingMore(chain, s, s', h);
      } else {
        assert InWindow(i, WINDOW, h);
        var m :| m in Assemble(w.blocks, w.txs) && m.block.height == h;
        assert m in s'.handed;
      }
    }
  }

  /** One run, cut off anywhere, keeps the checkpoint safe. */
  lemma {:induction false} RunFromSafe(chain: seq<Message>, s: Sync, i: int, height: int, ws: seq<Window>,
                                       heads: seq<int>)
    requires ValidChain(chain) && Honest(chain, i, height, ws, heads) && 1 <= i
    requires CrashSafe(chain, s) && (i < height ==> HandedUpTo(chain, s, i))
    ensures CrashSafe(chain, RunFrom(s, i, height, ws).sync)
    decreases |ws|
  {
    if i < height && ws != [] && ws[0].calls > 0 && ws[0].blocks != [] && ws[0].calls > 1 {
      var w := ws[0];
      var saved := s.(history := Some(RestoreHistory(i, i + WINDOW, 0)));
      forall h | 1 < h <= i ensures HandedOver(chain, saved, h) { HandingMore(chain, s, saved, h); }
      if w.calls > 2 {
        var ms := Assemble(w.blocks, w.txs);
        var n := if w.calls - 3 < |ms| then w.calls - 3 else |ms|;
        var after := saved.(handed := saved.handed + ms[..n],
                            published := saved.published + Accepted(ms[..n], w.accepts));
        forall h | 1 < h <= i ensures HandedOver(chain, after, h) { HandingMore(chain, saved, after, h); }
        if n == |ms| {
          assert ms[..n] == ms;
          if i + WINDOW < height {
            WindowHandsOver(chain, s, after, i, height, w, heads[0]);
          }
          RunFromSafe(chain, after, i + WINDOW, height, ws[1..], heads[1..]);
        }
      }
    }
  }

  /** A process life: the latest height it was told, and the windows it went through before it ended or was cut off. */
  datatype Life = Life(height: int, windows: seq<Window>, heads: seq<int>)

  function Lives(s: Sync, lives: seq<Life>): Sync {
    if lives == [] then s
    else var before := Lives(s, lives[..|lives| - 1]);
      RunOnce(before, lives[|lives| - 1].height, lives[|lives| - 1].windows).sync
  }

  ghost predicate HonestLives(chain: seq<Message>, s: Sync, lives: seq<Life>) {
    forall n :: 0 <= n < |lives| ==>
      Honest(chain, StartOf(Lives(s, lives[..n]).history), lives[n].height, lives[n].windows, lives[n].heads)
  }

  /** Crash safety: after any sequence of runs, each cut off at any step, every height from 2 to the saved start has
      been handed to Publish: a restart never skips a block. */
  lemma {:induction false} NeverAGap(chain: seq<Message>, lives: seq<Life>)
    requires ValidChain(chain) && HonestLives(chain, FRESH, lives)
    ensures CrashSafe(chain, Lives(FRESH, lives))
  {
    if lives != [] {
      var n := |lives| - 1;
      var front := lives[..n];
      HonestFront(chain, FRESH, lives);
      NeverAGap(chain, front);
      var before := Lives(FRESH, front);
      RunFromSafe(chain, before, StartOf(before.history), lives[n].height, lives[n].windows, lives[n].heads);
    }
  }

  // ---------------------------------------------------------------- what later runs hand over

  /** No poll saw the chain beyond the given height, which may also be the whole chain. */
  predicate SeenUpTo(chain: seq<Message>, heads: seq<int>, high: int) {
    high >= |chain| || forall j :: 0 <= j < |heads| ==> heads[j] <= high
  }

  predicate Among(ps: seq<Message>, ms: seq<Message>) { forall m :: m in ps ==> m in ms }

  /** A run, cut off anywhere, hands over only blocks of the chain above its start, and publishes some of them. The
      saved start does not move back. */
  lemma {:induction false} RunHandsOver(chain: seq<Message>, s: Sync, i: int, height: int, ws: seq<Window>,
                                        heads: seq<int>, high: int) returns (ms: seq<Message>, ps: seq<Message>)
    requires ValidChain(chain) && 1 <= i && Honest(chain, i, height, ws, heads) && SeenUpTo(chain, heads, high)
    ensures var r := RunFrom(s, i, height, ws).sync;
            && Extends(s, r, ms, ps)
            && (r.history == s.history || StartOf(r.history) >= i)
    ensures Between(chain, ms, i, high) && Among(ps, ms)
    decreases |ws|
  {
    ms, ps := [], [];
    if i < height && ws != [] && ws[0].calls > 2 && ws[0].blocks != [] {
      var w := ws[0];
      var n, after := FirstWindow(s, i, height, ws);
      ms := Assemble(w.blocks, w.txs)[..n];
      ps := Accepted(ms, w.accepts);
      PartHandsOver(chain, i, height, w, heads[0], high, n);
      if n == |w.blocks| {
        var ms', ps' := RunHandsOver(chain, after, i + WINDOW, height, ws[1..], heads[1..], high);
        BetweenAppend(chain, ms, ms', i, i + WINDOW, high);
        AmongAppend(ps, ms, ps', ms');
        ExtendsMore(s, after, RunFrom(s, i, height, ws).sync, ms, ps, ms', ps');
        ms, ps := ms + ms', ps + ps';
      }
    }
  }

  lemma AmongAppend(a: seq<Message>, b: seq<Message>, a': seq<Message>, b': seq<Message>)
    requires Among(a, b) && Among(a', b')
    ensures Among(a + a', b + b')
  {
  }

  /** What the first window of a run does, once its blocks are polled and its start is saved. */
  lemma FirstWindow(s: Sync, i: int, height: int, ws: seq<Window>) returns (n: nat, after: Sync)
    requires i < height && ws != [] && ws[0].calls > 2 && ws[0].blocks != []
    ensures n <= |ws[0].blocks| && (n == |ws[0].blocks| <==> ws[0].calls >= 3 + |ws[0].blocks|)
    ensures var ms := Assemble(ws[0].blocks, ws[0].txs)[..n];
            && Extends(s, after, ms, Accepted(ms, ws[0].accepts))
            && after.history == Some(RestoreHistory(i, i + WINDOW, 0))
    ensures RunFrom(s, i, height, ws).sync ==
            if n == |ws[0].blocks| then RunFrom(after, i + WINDOW, height, ws[1..]).sync else after
  {
    var w := ws[0];
    var all := Assemble(w.blocks, w.txs);
    n := if w.calls - 3 < |all| then w.calls - 3 else |all|;
    after := Sync(Some(RestoreHistory(i, i + WINDOW, 0)), s.handed + all[..n],
                  s.published + Accepted(all[..n], w.accepts));
  }

  /** The part of a window that is handed over before the run is cut. */
  lemma PartHandsOver(chain: seq<Message>, i: int, height: int, w: Window, head: int, high: int, n: nat)
    requires ValidChain(chain) && HonestAt(chain, i, height, w, head) && head <= high && n <= |w.blocks|
    ensures var ms := Assemble(w.blocks, w.txs)[..n];
            var ps := Accepted(ms, w.accepts);
            Between(chain, ms, i, high) && Among(ps, ms)
  {
    var all := Assemble(w.blocks, w.txs);
    WindowBetween(chain, i, height, w, head, high);
    forall m | m in all[..n] ensures m in all {}
    AcceptedAmong(all[..n], w.accepts);
  }

  lemma {:induction false} AcceptedAmong(ms: seq<Message>, accepts: seq<bool>)
    ensures forall m :: m in Accepted(ms, accepts) ==> m in ms
  {
    if ms != [] { AcceptedAmong(ms[..|ms| - 1], accepts); }
  }

  /** The same of any sequence of runs from any saved start: none hands over a height at or below that start again. */
  lemma {:induction false} LivesHandOver(chain: seq<Message>, s: Sync, lives: seq<Life>, high: int)
    returns (ms: seq<Message>, ps: seq<Message>)
    requires ValidChain(chain) && HonestLives(chain, s, lives) && 1 <= StartOf(s.history)
    requires forall n :: 0 <= n < |lives| ==> SeenUpTo(chain, lives[n].heads, high)
    ensures var r := Lives(s, lives);
            && Extends(s, r, ms, ps)
            && StartOf(r.history) >= StartOf(s.history)
    ensures Between(chain, ms, StartOf(s.history), high) && Among(ps, ms)
  {
    ms, ps := [], [];
    if lives != [] {
      var front, last := lives[..|lives| - 1], lives[|lives| - 1];
      HonestFront(chain, s, lives);
      var before := Lives(s, front);
      ms, ps := LivesHandOver(chain, s, front, high);
      var ms', ps' :=
        RunHandsOver(chain, before, StartOf(before.history), last.height, last.windows, last.heads, high);
      assert Between(chain, ms', StartOf(s.history), high);
      BetweenAppend(chain, ms, ms', StartOf(s.history), StartOf(s.history), high);
      ExtendsMore(s, before, Lives(s, lives), ms, ps, ms', ps');
      ms, ps := ms + ms', ps + ps';
    }
  }

  /** If every publish is accepted, what is handed over is published. */
  lemma {:induction false} RunPublishes(s: Sync, i: int, height: int, ws: seq<Window>)
    requires AllAccept(ws) && s.published == s.handed
    ensures var r := RunFrom(s, i, height, ws).sync; r.published == r.handed
    decreases |ws|
  {
    if i < height && ws != [] && ws[0].calls > 2 && ws[0].blocks != [] {
      var w := ws[0];
      var n, after := FirstWindow(s, i, height, ws);
      assert w in ws;
      PublishedIffAccepted(Assemble(w.blocks, w.txs)[..n], w.accepts);
      if n == |w.blocks| {
        forall x | x in ws[1..] ensures x in ws {}
        RunPublishes(after, i + WINDOW, height, ws[1..]);
      }
    }
  }

  lemma {:induction false} LivesPublish(s: Sync, lives: seq<Life>)
    requires s.published == s.handed && forall n :: 0 <= n < |lives| ==> AllAccept(lives[n].windows)
    ensures Lives(s, lives).published == Lives(s, lives).handed
  {
    if lives != [] {
      var front, last := lives[..|lives| - 1], lives[|lives| - 1];
      var before := Lives(s, front);
      LivesPublish(s, front);
      RunPublishes(before, StartOf(before.history), last.height, last.windows);
    }
  }

  lemma HonestFront(chain: seq<Message>, s: Sync, lives: seq<Life>)
    requires HonestLives(chain, s, lives) && lives != []
    ensures HonestLives(chain, s, lives[..|lives| - 1])
    ensures var before, last := Lives(s, lives[..|lives| - 1]), lives[|lives| - 1];
            Honest(chain, StartOf(before.history), last.height, last.windows, last.heads)
  {
    var front := lives[..|lives| - 1];
    forall k | 0 <= k < |front|
      ensures Honest(chain, StartOf(Lives(s, front[..k]).history), front[k].height, front[k].windows, front[k].heads)
    {
      assert front[..k] == lives[..k];
      assert Honest(chain, StartOf(Lives(s, lives[..k]).history), lives[k].height, lives[k].windows, lives[k].heads);
    }
  }

  /** Restoring never hands over height 1: it starts above the default start. */
  lemma FirstBlockNeverRestored(chain: seq<Message>, lives: seq<Life>)
    requires ValidChain(chain) && HonestLives(chain, FRESH, lives)
    ensures forall m :: m in Lives(FRESH, lives).handed ==> m.block.height > 1
  {
    var ms, ps := LivesHandOver(chain, FRESH, lives, |chain|);
    assert FRESH.handed + ms == ms;
  }

  /** A height at or below the saved start that is not published by then is never published. */
  lemma NeverPublishedLater(chain: seq<Message>, s: Sync, lives: seq<Life>, h: int)
    requires ValidChain(chain) && HonestLives(chain, s, lives) && 1 <= StartOf(s.history)
    requires h <= StartOf(s.history) && !HasHeight(s.published, h)
    ensures !HasHeight(Lives(s, lives).published, h)
  {
    var ms, ps := LivesHandOver(chain, s, lives, |chain|);
    forall m | m in s.published + ps ensures m.block.height != h {
      if m in ps { assert m in ms; }
    }
  }

  // ---------------------------------------------------------------- publishes that fail

  /** The same windows but for which publishes are accepted. */
  predicate SameButAccepts(ws: seq<Window>, vs: seq<Window>) {
    |ws| == |vs| && forall n :: 0 <= n < |ws| ==> ws[n].(accepts := vs[n].accepts) == vs[n]
  }

  /** The run does not depend on which publishes are accepted: not the saved checkpoint, not what it polls and hands
      over next, not how it ends. */
  lemma {:induction false} AcceptsIgnored(s: Sync, t: Sync, i: int, height: int, ws: seq<Window>, vs: seq<Window>)
    requires SameButAccepts(ws, vs) && s.history == t.history && s.handed == t.handed
    ensures var r, q := RunFrom(s, i, height, ws), RunFrom(t, i, height, vs);
            && r.end == q.end && r.windows == q.windows
            && r.sync.history == q.sync.history && r.sync.handed == q.sync.handed
    decreases |ws|
  {
    if i < height && ws != [] && ws[0].calls > 2 && ws[0].blocks != [] {
      var w, v := ws[0], vs[0];
      assert w.(accepts := v.accepts) == v;
      var all := Assemble(w.blocks, w.txs);
      var n := if w.calls - 3 < |all| then w.calls - 3 else |all|;
      if n == |all| {
        var history := Some(RestoreHistory(i, i + WINDOW, 0));
        AcceptsIgnored(Sync(history, s.handed + all[..n], s.published + Accepted(all[..n], w.accepts)),
                       Sync(history, t.handed + all[..n], t.published + Accepted(all[..n], v.accepts)),
                       i + WINDOW, height, ws[1..], vs[1..]);
      }
    }
  }

  /** With one block for each height, a rejected message's height is not among the accepted ones. */
  lemma {:induction false} RejectedMissing(ms: seq<Message>, accepts: seq<bool>, j: nat)
    requires DistinctMessages(ms) && j < |ms| && j < |accepts| && !accepts[j]
    ensures !HasHeight(Accepted(ms, accepts), ms[j].block.height)
  {
    var n := |ms| - 1;
    var h := ms[j].block.height;
    AcceptedAmong(ms[..n], accepts);
    if j < n {
      assert DistinctMessages(ms[..n]);
      RejectedMissing(ms[..n], accepts, j);
    } else {
      forall m | m in Accepted(ms[..n], accepts) ensures m.block.height != h {
        var k :| 0 <= k < n && ms[..n][k] == m;
        assert ms[k].block.height != ms[n].block.height;
      }
    }
  }

  lemma {:induction false} PublishedAmong(i: int, height: int, ws: seq<Window>)
    ensures forall m :: m in AllPublished(i, height, ws) ==> m in AllMessages(i, height, ws)
    decreases |ws|
  {
    if i < height && ws != [] {
      AcceptedAmong(Assemble(ws[0].blocks, ws[0].txs), ws[0].accepts);
      PublishedAmong(i + WINDOW, height, ws[1..]);
    }
  }

  /** When some publish is rejected, some height of the range is missing from what was published. */
  lemma {:induction false} SomeHeightMissing(chain: seq<Message>, i: int, height: int, ws: seq<Window>, heads: seq<int>)
    returns (h: int)
    requires ValidChain(chain) && 1 <= i < height && Honest(chain, i, height, ws, heads)
    requires |ws| >= WindowCount(i, height)
    requires !EveryAccepted(i, height, ws)
    ensures i < h <= Reached(i, height, heads) && !HasHeight(AllPublished(i, height, ws), h)
    decreases |ws|
  {
    WindowCountStep(i, height);
    var w := ws[0];
    if j :| 0 <= j < |w.blocks| && j < |w.accepts| && !w.accepts[j] {
      h := w.blocks[j].height;
      MissingHere(chain, i, height, ws, heads, j);
    } else {
      h := SomeHeightMissing(chain, i + WINDOW, height, ws[1..], heads[1..]);
      WindowDistinct(chain, i, height, w, heads[0]);
      AcceptedAmong(Assemble(w.blocks, w.txs), w.accepts);
    }
  }

  lemma MissingHere(chain: seq<Message>, i: int, height: int, ws: seq<Window>, heads: seq<int>, j: nat)
    requires ValidChain(chain) && 1 <= i < height && Honest(chain, i, height, ws, heads)
    requires |ws| >= WindowCount(i, height)
    requires |ws| > 0 && j < |ws[0].blocks| && j < |ws[0].accepts| && !ws[0].accepts[j]
    ensures var h := ws[0].blocks[j].height;
            i < h <= Reached(i, height, heads) && !HasHeight(AllPublished(i, height, ws), h)
  {
    var w := ws[0];
    var here, h := Assemble(w.blocks, w.txs), w.blocks[j].height;
    assert DistinctMessages(here) && here[j] in here && h <= i + WINDOW by {
      WindowDistinct(chain, i, height, w, heads[0]);
      assert here[j] in here;
    }
    RejectedMissing(here, w.accepts, j);
    MissingLater(chain, i, height, ws, heads, h);
    NotAmong(Accepted(here, w.accepts), AllPublished(i + WINDOW, height, ws[1..]), h);
    HandedInRange(chain, i, height, ws, heads, here[j]);
  }

  lemma MissingLater(chain: seq<Message>, i: int, height: int, ws: seq<Window>, heads: seq<int>, h: int)
    requires ValidChain(chain) && 1 <= i < height && Honest(chain, i, height, ws, heads)
    requires |ws| >= WindowCount(i, height)
    requires |ws| > 0 && h <= i + WINDOW
    ensures !HasHeight(AllPublished(i + WINDOW, height, ws[1..]), h)
  {
    WindowCountStep(i, height);
    PublishedAmong(i + WINDOW, height, ws[1..]);
    MessagesAbove(chain, i + WINDOW, height, ws[1..], heads[1..]);
  }

  lemma HandedInRange(chain: seq<Message>, i: int, height: int, ws: seq<Window>, heads: seq<int>, m: Message)
    requires ValidChain(chain) && 1 <= i < height && Honest(chain, i, height, ws, heads)
    requires |ws| >= WindowCount(i, height)
    requires |ws| > 0 && m in Assemble(ws[0].blocks, ws[0].txs)
    ensures i < m.block.height <= Reached(i, height, heads)
  {
    assert m in AllMessages(i, height, ws);
    MessagesMatch(chain, i, height, ws, heads);
  }

  lemma NotAmong(a: seq<Message>, b: seq<Message>, h: int)
    requires !HasHeight(a, h) && !HasHeight(b, h)
    ensures !HasHeight(a + b, h)
  {
  }

  /** Exactly when a run all of whose calls return loses nothing: every height above its start, up to what it reached,
      is among the newly published messages if and only if every publish of every window it goes through is accepted. */
  lemma PublishesAllIff(chain: seq<Message>, s: Sync, i: int, height: int, ws: seq<Window>, heads: seq<int>)
    returns (ps: seq<Message>)
    requires ValidChain(chain) && 1 <= i < height && Honest(chain, i, height, ws, heads)
    requires Returning(ws) && |ws| >= WindowCount(i, height)
    ensures var r := RunFrom(s, i, height, ws); r.end == Finished && r.sync.published == s.published + ps
    ensures (forall h :: i < h <= Reached(i, height, heads) ==> HasHeight(ps, h)) <==> EveryAccepted(i, height, ws)
  {
    ps := AllPublished(i, height, ws);
    ReturningRun(chain, s, i, height, ws, heads);
    if EveryAccepted(i, height, ws) {
      EveryAcceptedAll(i, height, ws);
      forall h | i < h <= Reached(i, height, heads) ensures HasHeight(ps, h) {
        MessagesCover(chain, i, height, ws, heads, h);
      }
    } else {
      var h := SomeHeightMissing(chain, i, height, ws, heads);
    }
  }

  // ---------------------------------------------------------------- which heights are published

  /** The run gets to its window n: it starts below the height, and all calls of the windows before it return. */
  predicate GetsTo(i: int, height: int, ws: seq<Window>, n: int) {
    0 <= n < |ws| && i + 100 * n < height && forall k :: 0 <= k < n ==> Full(ws[k])
  }

  /** Among the calls of a window that return is the publish of height h, and it is not refused. */
  predicate PublishedIn(w: Window, h: int) {
    exists j :: 0 <= j < |w.blocks| && w.blocks[j].height == h && 3 + j < w.calls && !Refused(w.accepts, j)
  }

  /** The publish of h in the one window it lies in. */
  predicate OwnPublish(i: int, height: int, ws: seq<Window>, h: int) {
    i < h && var n := (h - i - 1) / 100; GetsTo(i, height, ws, n) && PublishedIn(ws[n], h)
  }

  /** One window's part. */
  lemma WindowPublishes(w: Window, n: nat, h: int)
    requires w.calls > 2 && n == if w.calls - 3 < |w.blocks| then w.calls - 3 else |w.blocks|
    ensures HasHeight(Accepted(Assemble(w.blocks, w.txs)[..n], w.accepts), h) <==> PublishedIn(w, h)
  {
    var ms := Assemble(w.blocks, w.txs)[..n];
    var positions := AcceptedInOrder(ms, w.accepts);
    var ps := Accepted(ms, w.accepts);
    if HasHeight(ps, h) {
      var x :| 0 <= x < |ps| && ps[x].block.height == h;
      var j := positions[x];
      assert j in positions && w.blocks[j].height == h;
    }
    if PublishedIn(w, h) {
      var j :| 0 <= j < |w.blocks| && w.blocks[j].height == h && 3 + j < w.calls && !Refused(w.accepts, j);
      assert j in positions;
      var x :| 0 <= x < |positions| && positions[x] == j;
      assert ps[x] in ps;
    }
  }

  lemma OwnPublishNext(i: int, height: int, ws: seq<Window>, h: int)
    requires i < height && ws != [] && Full(ws[0])
    ensures OwnPublish(i, height, ws, h) <==>
            if h <= i + 100 then i < h && PublishedIn(ws[0], h) else OwnPublish(i + 100, height, ws[1..], h)
  {
    if h > i + 100 {
      var n := (h - i - 1) / 100;
      assert (h - (i + 100) - 1) / 100 == n - 1;
      if GetsTo(i, height, ws, n) {
        forall k | 0 <= k < n - 1 ensures Full(ws[1..][k]) { assert Full(ws[k + 1]); }
      }
      if GetsTo(i + 100, height, ws[1..], n - 1) {
        forall k | 0 <= k < n ensures Full(ws[k]) {
          if k > 0 { assert Full(ws[1..][k - 1]); }
        }
      }
    }
  }

  lemma OwnPublishFirst(i: int, height: int, ws: seq<Window>, h: int)
    requires i < height && ws != [] && !Full(ws[0])
    ensures OwnPublish(i, height, ws, h) <==> i < h <= i + 100 && PublishedIn(ws[0], h)
  {
    if h > i + 100 { assert (h - i - 1) / 100 >= 1; }
  }

  /** What a height of an honest window is. */
  lemma PublishedInWindow(chain: seq<Message>, i: int, height: int, w: Window, head: int, h: int)
    requires HonestAt(chain, i, height, w, head) && PublishedIn(w, h)
    ensures i < h <= i + 100
  {
    var j :| 0 <= j < |w.blocks| && w.blocks[j].height == h && 3 + j < w.calls && !Refused(w.accepts, j);
    assert w.blocks[j] in w.blocks;
  }

  /** A run, cut off anywhere, newly publishes a height if and only if the publish of that very height, in the one
      window it lies in, was made and was not refused; what became of any other publish does not matter. */
  lemma {:induction false} PublishedIffOwnPublish(chain: seq<Message>, s: Sync, i: int, height: int, ws: seq<Window>,
                                                  heads: seq<int>, h: int)
    requires Honest(chain, i, height, ws, heads)
    ensures HasHeight(RunFrom(s, i, height, ws).sync.published, h) <==>
            HasHeight(s.published, h) || OwnPublish(i, height, ws, h)
    decreases |ws|
  {
    if i < height && ws != [] {
      if Full(ws[0]) { OwnPublishNext(i, height, ws, h); } else { OwnPublishFirst(i, height, ws, h); }
      if PublishedIn(ws[0], h) { PublishedInWindow(chain, i, height, ws[0], heads[0], h); }
      if ws[0].calls > 2 && ws[0].blocks != [] {
        var n, after := FirstWindow(s, i, height, ws);
        WindowPublishes(ws[0], n, h);
        HeightAppend(s.published, Accepted(Assemble(ws[0].blocks, ws[0].txs)[..n], ws[0].accepts), h);
        if n == |ws[0].blocks| {
          PublishedIffOwnPublish(chain, after, i + WINDOW, height, ws[1..], heads[1..], h);
        }
      }
    }
  }

  lemma HeightAppend(a: seq<Message>, b: seq<Message>, h: int)
    ensures HasHeight(a + b, h) <==> HasHeight(a, h) || HasHeight(b, h)
  {
    if m :| m in a && m.block.height == h { assert m in a + b; }
    if m :| m in b && m.block.height == h { assert m in a + b; }
  }

  predicate OwnPublishInLife(lives: seq<Life>, k: nat, h: int)
    requires k < |lives|
  {
    OwnPublish(StartOf(Lives(FRESH, lives[..k]).history), lives[k].height, lives[k].windows, h)
  }

  predicate OwnPublishInSome(lives: seq<Life>, h: int) {
    exists k :: 0 <= k < |lives| && OwnPublishInLife(lives, k, h)
  }

  lemma LastLife(lives: seq<Life>, h: int)
    requires lives != []
    ensures OwnPublishInSome(lives, h) <==>
            OwnPublishInLife(lives, |lives| - 1, h) || OwnPublishInSome(lives[..|lives| - 1], h)
  {
    var n := |lives| - 1;
    var front := lives[..n];
    forall k | 0 <= k < n ensures OwnPublishInLife(front, k, h) <==> OwnPublishInLife(lives, k, h) {
      assert front[..k] == lives[..k];
    }
  }

  /** The same over any sequence of lives, each cut off anywhere: a height is published at the end if and only if in
      some life its own publish was made and not refused. */
  lemma {:induction false} PublishedInSomeLife(chain: seq<Message>, lives: seq<Life>, h: int)
    requires HonestLives(chain, FRESH, lives)
    ensures HasHeight(Lives(FRESH, lives).published, h) <==> OwnPublishInSome(lives, h)
  {
    if lives != [] {
      var front, last := lives[..|lives| - 1], lives[|lives| - 1];
      HonestFront(chain, FRESH, lives);
      PublishedInSomeLife(chain, front, h);
      LastLife(lives, h);
      var before := Lives(FRESH, front);
      PublishedIffOwnPublish(chain, before, StartOf(before.history), last.height, last.windows, last.heads, h);
    }
  }

  // ---------------------------------------------------------------- a height that is lost for good

  /** What the chain holds of the heights lo + 1 .. hi. */
  function BlocksOf(chain: seq<Message>, lo: nat, hi: nat): seq<Block>
    requires lo <= hi <= |chain|
  {
    seq(hi - lo, i requires 0 <= i < hi - lo => chain[lo + i].block)
  }

  function TxsOf(chain: seq<Message>, lo: nat, hi: nat): seq<Transaction>
    requires lo <= hi <= |chain|
  {
    if lo == hi then [] else TxsOf(chain, lo, hi - 1) + chain[hi - 1].transactions
  }

  lemma {:induction false} SelectAppend(a: seq<Transaction>, b: seq<Transaction>, h: int)
    ensures Select(a + b, h) == Select(a, h) + Select(b, h)
  {
    if b == [] {
      assert a + b == a;
    } else {
      var n := |b| - 1;
      SelectAppend(a, b[..n], h);
      assert (a + b)[..|a + b| - 1] == a + b[..n] && (a + b)[|a + b| - 1] == b[n];
    }
  }

  lemma {:induction false} SelectOne(txs: seq<Transaction>, height: int, h: int)
    requires forall tx :: tx in txs ==> tx.blockHeight == height
    ensures Select(txs, h) == if h == height then txs else []
  {
    if txs != [] {
      var n := |txs| - 1;
      SelectOne(txs[..n], height, h);
      assert txs == txs[..n] + [txs[n]] && txs[n] in txs;
    }
  }

  lemma {:induction false} SelectOf(chain: seq<Message>, lo: nat, hi: nat, h: int)
    requires ValidChain(chain) && lo <= hi <= |chain|
    ensures Select(TxsOf(chain, lo, hi), h) == if lo < h <= hi then chain[h - 1].transactions else []
  {
    if lo < hi {
      SelectOf(chain, lo, hi - 1, h);
      SelectLast(chain, lo, hi, h);
    }
  }

  lemma SelectLast(chain: seq<Message>, lo: nat, hi: nat, h: int)
    requires ValidChain(chain) && lo < hi <= |chain|
    ensures Select(TxsOf(chain, lo, hi), h) ==
            Select(TxsOf(chain, lo, hi - 1), h) + if h == hi then chain[hi - 1].transactions else []
  {
    SelectOne(chain[hi - 1].transactions, hi, h);
    SelectAppend(TxsOf(chain, lo, hi - 1), chain[hi - 1].transactions, h);
  }

  /** The window as the chain answers it, in order of height. */
  function Poll(chain: seq<Message>, i: nat, hi: nat, accepts: seq<bool>, calls: nat): Window
    requires i <= hi <= |chain|
  {
    Window(BlocksOf(chain, i, hi), TxsOf(chain, i, hi), accepts, calls)
  }

  lemma PollIsHonest(chain: seq<Message>, i: nat, hi: nat, head: nat, height: int, accepts: seq<bool>, calls: nat)
    requires ValidChain(chain) && 1 <= i <= hi && height <= head <= |chain|
    requires hi == if i + WINDOW < head then i + WINDOW else head
    ensures HonestAt(chain, i, height, Poll(chain, i, hi, accepts, calls), head)
  {
    var w := Poll(chain, i, hi, accepts, calls);
    forall h | InWindow(i, WINDOW, h) && 1 <= h <= head
      ensures chain[h - 1].block in w.blocks && Select(w.txs, h) == chain[h - 1].transactions
    {
      assert w.blocks[h - 1 - i] == chain[h - 1].block;
      SelectOf(chain, i, hi, h);
    }
  }

  /** The first life on any chain of 102 blocks or more: the publish of height 2 fails, the next window is saved, and
      then the process dies. */
  function FailingLife(chain: seq<Message>): Life
    requires |chain| >= 102
  {
    Life(102, [Poll(chain, 1, 101, [false], 103), Poll(chain, 101, 102, [], 2)], [102, 102])
  }

  lemma FailingLifeIsHonest(chain: seq<Message>)
    requires ValidChain(chain) && |chain| >= 102
    ensures HonestLives(chain, FRESH, [FailingLife(chain)])
  {
    var life := FailingLife(chain);
    PollIsHonest(chain, 1, 101, 102, 102, [false], 103);
    PollIsHonest(chain, 101, 102, 102, 102, [], 2);
    assert life.windows[1..] == [life.windows[1]] && life.heads[1..] == [102];
    assert Honest(chain, 101, 102, life.windows[1..], life.heads[1..]);
    assert Lives(FRESH, [life][..0]) == FRESH;
  }

  /** What that life leaves behind. */
  lemma FailingLifeLeaves(chain: seq<Message>)
    requires ValidChain(chain) && |chain| >= 102
    ensures var w := FailingLife(chain).windows[0];
            var ms := Assemble(w.blocks, w.txs);
            Lives(FRESH, [FailingLife(chain)]) == Sync(Some(RestoreHistory(101, 201, 0)), ms, Accepted(ms, [false]))
  {
    var life := FailingLife(chain);
    var ms := Assemble(life.windows[0].blocks, life.windows[0].txs);
    assert |ms| == 100 && ms[..100] == ms && |life.windows[1].blocks| == 1;
    var after := Sync(Some(RestoreHistory(1, 101, 0)), [] + ms, [] + Accepted(ms, [false]));
    assert life.windows[1..] == [life.windows[1]];
    assert RunFrom(after, 101, 102, [life.windows[1]]).sync == after.(history := Some(RestoreHistory(101, 201, 0)));
    assert [life][..0] == [];
  }

  /** A failed publish is not made up for. On every chain of at least 102 blocks there is an honest life that hands
      height 2 over, fails to publish it and saves a start above it; and no later lives, however they go, ever publish
      it. */
  lemma LostForGood(chain: seq<Message>, later: seq<Life>)
    requires ValidChain(chain) && |chain| >= 102
    ensures HonestLives(chain, FRESH, [FailingLife(chain)])
    ensures var s := Lives(FRESH, [FailingLife(chain)]);
            && StartOf(s.history) == 101 && HasHeight(s.handed, 2) && !HasHeight(s.published, 2)
            && (HonestLives(chain, s, later) ==> !HasHeight(Lives(s, later).published, 2))
  {
    var w, s := FailingLife(chain).windows[0], Lives(FRESH, [FailingLife(chain)]);
    var ms := Assemble(w.blocks, w.txs);
    FailingLifeIsHonest(chain);
    FailingLifeLeaves(chain);
    PollIsHonest(chain, 1, 101, 102, 102, [false], 103);
    WindowDistinct(chain, 1, 102, w, 102);
    assert ms[0].block.height == 2 && ms[0] in ms;
    RejectedMissing(ms, [false], 0);
    if HonestLives(chain, s, later) {
      NeverPublishedLater(chain, s, later, 2);
    }
  }
}
