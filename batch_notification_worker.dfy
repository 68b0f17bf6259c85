/** The batch coalescing stage (BondsServer/BatchNotificationWorker.cs). It keeps
    the current window as a list of statuses, an id-to-position map and a count
    of raw updates. A repeated id overwrites its entry, a new id is appended, and
    when the count reaches the batch size the window's entries are sent as one
    newline-terminated message and the window is cleared. */
module BatchNotification {
  import opened BondModel
  import opened FirstSeenOrder
  import opened UpdateStream

  /** The broadcast message for a window's entries: each entry followed by a newline. */
  function Format(entries: seq<string>): (message: string) {
    if entries == [] then "" else entries[0] + "\n" + Format(entries[1..])
  }

  /** Formatting distributes over concatenation, so the message can be built entry by entry. */
  lemma {:induction false} FormatConcat(a: seq<string>, b: seq<string>)
    ensures Format(a + b) == Format(a) + Format(b)
    decreases |a|
  {
    if a != [] {
      assert (a + b)[1..] == a[1..] + b;
      FormatConcat(a[1..], b);
    } else {
      assert a + b == b;
    }
  }

  /** The position of the first newline in `s`. */
  function NewlineIndex(s: string): (k: nat)
    requires '\n' in s
    ensures k < |s| && s[k] == '\n' && '\n' !in s[..k]
  {
    if s[0] == '\n' then 0
    else
      assert s == [s[0]] + s[1..];
      var k := NewlineIndex(s[1..]);
      assert s[..k + 1] == [s[0]] + s[1..][..k];
      k + 1
  }

  /** How a subscriber reads a message: the newline-terminated lines, plus a final
      unterminated line if there is one. */
  function Lines(s: string): (lines: seq<string>)
    decreases |s|
  {
    if s == "" then []
    else if '\n' !in s then [s]
    else
      var k := NewlineIndex(s);
      [s[..k]] + Lines(s[k + 1..])
  }

  /** A line without a newline, followed by a newline, is read back as the first line. */
  lemma FirstLine(e: string, rest: string)
    requires '\n' !in e
    ensures Lines(e + "\n" + rest) == [e] + Lines(rest)
  {
    var s := e + "\n" + rest;
    assert s[|e|] == '\n';
    var k := NewlineIndex(s);
    assert s[..|e|] == e;
    assert forall j :: 0 <= j < k ==> s[..k][j] == s[j];
    assert s[..k] == e;
    assert s[k + 1..] == rest;
  }

  /** Reading a message back gives exactly the window's entries, in order, as
      long as no entry contains a newline (the serialiser writes none). */
  lemma {:induction false} LinesOfFormat(entries: seq<string>)
    requires forall e :: e in entries ==> '\n' !in e
    ensures Lines(Format(entries)) == entries
    decreases |entries|
  {
    if entries != [] {
      FirstLine(entries[0], Format(entries[1..]));
      LinesOfFormat(entries[1..]);
    }
  }

  /** The raw updates of consecutive windows, joined. */
  function Concat(windows: seq<seq<BondUpdate>>): (us: seq<BondUpdate>) {
    if windows == [] then [] else windows[0] + Concat(windows[1..])
  }

  lemma {:induction false} ConcatSnoc(windows: seq<seq<BondUpdate>>, w: seq<BondUpdate>)
    ensures Concat(windows + [w]) == Concat(windows) + w
    decreases |windows|
  {
    if windows == [] {
      assert [w][1..] == [];
    } else {
      assert (windows + [w])[1..] == windows[1..] + [w];
      ConcatSnoc(windows[1..], w);
    }
  }

  /** The input split into consecutive blocks of `n` updates, dropping the
      incomplete block at the end. */
  function Blocks(us: seq<BondUpdate>, n: nat): (blocks: seq<seq<BondUpdate>>)
    requires n >= 1
    decreases |us|
  {
    if |us| < n then [] else [us[..n]] + Blocks(us[n..], n)
  }

  /** The updates after the last complete block of `n`. */
  function Rest(us: seq<BondUpdate>, n: nat): (r: seq<BondUpdate>)
    requires n >= 1
    ensures |r| < n
    decreases |us|
  {
    if |us| < n then us else Rest(us[n..], n)
  }

  /** Joining windows of `n` updates each, then a shorter tail, and splitting the
      result into blocks of `n` gives back the windows and the tail. */
  lemma {:induction false} BlocksOfConcat(windows: seq<seq<BondUpdate>>, n: nat, tail: seq<BondUpdate>)
    requires n >= 1 && |tail| < n
    requires forall k :: 0 <= k < |windows| ==> |windows[k]| == n
    ensures Blocks(Concat(windows) + tail, n) == windows
    ensures Rest(Concat(windows) + tail, n) == tail
    decreases |windows|
  {
    if windows != [] {
      var all := Concat(windows) + tail;
      assert all == windows[0] + (Concat(windows[1..]) + tail);
      assert all[..n] == windows[0];
      assert all[n..] == Concat(windows[1..]) + tail;
      BlocksOfConcat(windows[1..], n, tail);
      assert windows == [windows[0]] + windows[1..];
    }
  }

  /** The blocks cover all but fewer than `n` trailing updates. */
  lemma {:induction false} BlockCount(us: seq<BondUpdate>, n: nat)
    requires n >= 1
    ensures |Blocks(us, n)| * n <= |us| < |Blocks(us, n)| * n + n
    decreases |us|
  {
    if |us| >= n {
      BlockCount(us[n..], n);
      assert |Blocks(us[n..], n)| * n + n == (|Blocks(us[n..], n)| + 1) * n;
    }
  }

  /** Block `k` is positions `k * n` to `k * n + n` of the input. */
  lemma {:induction false} BlockAt(us: seq<BondUpdate>, n: nat, k: nat)
    requires n >= 1 && k < |Blocks(us, n)|
    ensures k * n + n <= |us| && Blocks(us, n)[k] == us[k * n..k * n + n]
    decreases k
  {
    if k > 0 {
      BlockAt(us[n..], n, k - 1);
      assert (k - 1) * n + n == k * n;
      var start := (k - 1) * n;
      assert us[n..][start..start + n] == us[n + start..n + start + n];
    }
  }

  /** The updates left over are the suffix after the last complete block. */
  lemma {:induction false} RestAfterBlocks(us: seq<BondUpdate>, n: nat)
    requires n >= 1
    ensures |Blocks(us, n)| * n <= |us| && Rest(us, n) == us[|Blocks(us, n)| * n..]
    decreases |us|
  {
    BlockCount(us, n);
    if |us| >= n {
      RestAfterBlocks(us[n..], n);
      assert |Blocks(us[n..], n)| * n + n == (|Blocks(us[n..], n)| + 1) * n;
      var start := |Blocks(us[n..], n)| * n;
      assert us[n..][start..] == us[n + start..];
    } else {
      assert |Blocks(us, n)| == 0;
    }
  }

  /** The window's list and map describe the window's raw updates: the list is
      the coalescing of the window, and the map sends each id to its position
      in first-seen order. */
  ghost predicate WindowHolds(batch: seq<string>, indices: map<string, nat>, window: seq<BondUpdate>) {
    && |batch| == |FirstSeen(BondIds(window))|
    && IndexesOrder(indices, FirstSeen(BondIds(window)))
    && batch == Coalesce(window)
  }

  lemma EmptyWindowHolds()
    ensures WindowHolds([], map[], [])
  {
    assert FirstSeen(BondIds([])) == [];
  }

  /** A duplicate id: overwriting its entry at the recorded position keeps the window described. */
  lemma WindowAfterOverwrite(batch: seq<string>, indices: map<string, nat>, window: seq<BondUpdate>,
                             u: BondUpdate, batch': seq<string>)
    requires WindowHolds(batch, indices, window)
    requires u.bondId in indices && indices[u.bondId] < |batch|
    requires batch' == batch[indices[u.bondId] := u.serializedStatus]
    ensures WindowHolds(batch', indices, window + [u])
  {
    var ids := FirstSeen(BondIds(window));
    FirstSeenSpec(BondIds(window));
    IndexesOrderIsBijection(indices, ids);
    BondIdsConcat(window, [u]);
    FirstSeenSnoc(BondIds(window), u.bondId);
    CoalesceOverwrite(window, u, indices[u.bondId]);
  }

  /** A new id: appending its entry at position `|batch|` keeps the window described. */
  lemma WindowAfterAppend(batch: seq<string>, indices: map<string, nat>, window: seq<BondUpdate>,
                          u: BondUpdate, batch': seq<string>, indices': map<string, nat>)
    requires WindowHolds(batch, indices, window)
    requires u.bondId !in indices
    requires batch' == batch + [u.serializedStatus] && indices' == indices[u.bondId := |batch|]
    ensures WindowHolds(batch', indices', window + [u])
  {
    var ids := FirstSeen(BondIds(window));
    FirstSeenSpec(BondIds(window));
    BondIdsConcat(window, [u]);
    FirstSeenSnoc(BondIds(window), u.bondId);
    IndexesOrderSnoc(indices, ids, u.bondId);
    CoalesceAppend(window, u);
  }

  /** Every completed window had exactly `n` raw updates and produced the message
      formatted from its coalescing. */
  ghost predicate Delivered(windows: seq<seq<BondUpdate>>, sent: seq<string>, n: int) {
    && |sent| == |windows|
    && forall k :: 0 <= k < |windows| ==> |windows[k]| == n && sent[k] == Format(Coalesce(windows[k]))
  }

  /** Closing a full window: it joins the completed windows with its message,
      and the updates consumed so far are all in completed windows. */
  lemma DeliveredSnoc(windows: seq<seq<BondUpdate>>, sent: seq<string>, n: int, w: seq<BondUpdate>,
                      message: string, consumed: seq<BondUpdate>)
    requires Delivered(windows, sent, n) && |w| == n && message == Format(Coalesce(w))
    requires consumed == Concat(windows) + w
    ensures Delivered(windows + [w], sent + [message], n)
    ensures consumed == Concat(windows + [w]) + []
  {
    ConcatSnoc(windows, w);
  }

  /** Taking element `i` extends the consumed prefix; a separate lemma keeps
      this identity out of the `Run` loop's own proof. */
  lemma TakeSnoc<T>(input: seq<T>, i: nat)
    requires i < |input|
    ensures input[..i] + [input[i]] == input[..i + 1]
  {
  }

  /** A mapped id's position lies inside the window's list. */
  lemma PositionInRange(batch: seq<string>, indices: map<string, nat>, window: seq<BondUpdate>, id: string)
    requires WindowHolds(batch, indices, window) && id in indices
    ensures indices[id] < |batch|
  {
  }

  /** The message for the first `i + 1` entries extends the one for the first `i`. */
  lemma FormatPrefixStep(entries: seq<string>, i: nat)
    requires i < |entries|
    ensures Format(entries[..i + 1]) == Format(entries[..i]) + entries[i] + "\n"
  {
    FormatConcat(entries[..i], [entries[i]]);
    assert entries[..i + 1] == entries[..i] + [entries[i]];
    assert [entries[i]][1..] == [];
  }

  /** A window of between 1 and `n` raw updates yields a message of between 1 and `n` entries. */
  lemma MessageSize(w: seq<BondUpdate>, n: nat)
    requires 1 <= |w| <= n
    ensures 1 <= |Coalesce(w)| <= n
  {
    CoalesceSize(w);
  }

  /** Each message `Run` sends lists between 1 and `n` entries, since block `k`
      holds exactly `n` raw updates; when no status contains a newline, a
      subscriber reads between 1 and `n` lines from it. */
  lemma SentMessageSize(us: seq<BondUpdate>, n: nat, k: nat)
    requires n >= 1 && k < |Blocks(us, n)|
    ensures 1 <= |Coalesce(Blocks(us, n)[k])| <= n
    ensures (forall e :: e in Coalesce(Blocks(us, n)[k]) ==> '\n' !in e) ==>
      1 <= |Lines(Format(Coalesce(Blocks(us, n)[k])))| <= n
  {
    BlockAt(us, n, k);
    MessageSize(Blocks(us, n)[k], n);
    var entries := Coalesce(Blocks(us, n)[k]);
    if forall e :: e in entries ==> '\n' !in e {
      LinesOfFormat(entries);
    }
  }

  /** The coalescing of two updates to different bonds keeps both, in order. */
  lemma CoalesceTwo(u1: BondUpdate, u2: BondUpdate)
    requires u1.bondId != u2.bondId
    ensures BondIds([u1, u2]) == [u1.bondId, u2.bondId]
    ensures FirstSeen(BondIds([u1, u2])) == [u1.bondId, u2.bondId]
    ensures Coalesce([u1, u2]) == [u1.serializedStatus, u2.serializedStatus]
  {
    assert Coalesce([]) == [] by {
      assert FirstSeen(BondIds([])) == [];
    }
    CoalesceAppend([], u1);
    assert [] + [u1] == [u1];
    assert BondIds([u1]) == [u1.bondId];
    CoalesceAppend([u1], u2);
    assert [u1] + [u2] == [u1, u2];
    assert FirstSeen([u1.bondId]) == [u1.bondId] by {
      assert [u1.bondId][..0] == [];
    }
    FirstSeenSnoc([u1.bondId], u2.bondId);
    assert [u1.bondId] + [u2.bondId] == [u1.bondId, u2.bondId];
  }

  /** The message for two entries. */
  lemma FormatTwo(e1: string, e2: string)
    ensures Format([e1, e2]) == e1 + "\n" + e2 + "\n"
  {
    assert [e1, e2][1..] == [e2];
    assert [e2][1..] == [];
    assert Format([e2]) == e2 + "\n" + "";
    assert e2 + "\n" + "" == e2 + "\n";
    assert e1 + "\n" + (e2 + "\n") == e1 + "\n" + e2 + "\n";
  }

  /** With updates A->s1, B->s2, A->s3 in one window, the message is "s3\ns2\n":
      A keeps its first position and its last status, B follows. */
  lemma CoalescingExample(a: string, b: string, s1: string, s2: string, s3: string)
    requires a != b
    ensures Coalesce([BondUpdate(a, s1), BondUpdate(b, s2), BondUpdate(a, s3)]) == [s3, s2]
    ensures Format(Coalesce([BondUpdate(a, s1), BondUpdate(b, s2), BondUpdate(a, s3)])) == s3 + "\n" + s2 + "\n"
  {
    var u1, u2, u3 := BondUpdate(a, s1), BondUpdate(b, s2), BondUpdate(a, s3);
    CoalesceTwo(u1, u2);
    CoalesceOverwrite([u1, u2], u3, 0);
    assert [u1, u2] + [u3] == [u1, u2, u3];
    assert [s1, s2][0 := s3] == [s3, s2];
    FormatTwo(s3, s2);
  }

  /** The map is a bijection between the window's distinct ids and the list
      positions, and each position holds the latest status of its id in the window. */
  lemma WindowBijection(batch: seq<string>, indices: map<string, nat>, window: seq<BondUpdate>)
    requires WindowHolds(batch, indices, window)
    ensures forall id :: id in indices <==> id in BondIds(window)
    ensures forall id :: id in indices ==> indices[id] < |batch|
    ensures forall id, id' :: id in indices && id' in indices && indices[id] == indices[id'] ==> id == id'
    ensures forall id :: id in indices ==> Some(batch[indices[id]]) == LatestStatus(window, id)
    ensures forall i :: 0 <= i < |batch| ==>
      FirstSeen(BondIds(window))[i] in indices && indices[FirstSeen(BondIds(window))[i]] == i
  {
    FirstSeenSpec(BondIds(window));
    IndexesOrderIsBijection(indices, FirstSeen(BondIds(window)));
    CoalesceEntries(window);
  }

  /** The state of `Run` after an update has been added to the window and before
      the flush test: the open window has `count` raw updates (at most `n` when
      `n` is positive) and is described by the list and map; every completed
      window had `n` updates and was sent; and the consumed updates are the
      completed windows followed by the open one. */
  ghost predicate Pending(n: int, batch: seq<string>, indices: map<string, nat>, count: nat, window: seq<BondUpdate>,
                          windows: seq<seq<BondUpdate>>, sent: seq<string>, consumed: seq<BondUpdate>) {
    && count == |window|
    && (n >= 1 ==> count <= n)
    && WindowHolds(batch, indices, window)
    && Delivered(windows, sent, n)
    && consumed == Concat(windows) + window
  }

  /** Taking an update into a window that is not yet full. */
  lemma AccumulateStep(n: int, batch: seq<string>, indices: map<string, nat>, count: nat, window: seq<BondUpdate>,
                       windows: seq<seq<BondUpdate>>, sent: seq<string>, consumed: seq<BondUpdate>,
                       u: BondUpdate, batch': seq<string>, indices': map<string, nat>)
    requires Pending(n, batch, indices, count, window, windows, sent, consumed) && (n >= 1 ==> count < n)
    requires WindowHolds(batch', indices', window + [u])
    ensures Pending(n, batch', indices', count + 1, window + [u], windows, sent, consumed + [u])
  {
    assert consumed + [u] == Concat(windows) + (window + [u]);
  }

  /** Sending a full window and starting an empty one. */
  lemma FlushStep(n: int, batch: seq<string>, indices: map<string, nat>, count: nat, window: seq<BondUpdate>,
                  windows: seq<seq<BondUpdate>>, sent: seq<string>, consumed: seq<BondUpdate>,
                  message: string)
    requires Pending(n, batch, indices, count, window, windows, sent, consumed) && count == n
    requires message == Format(batch)
    ensures Pending(n, [], map[], 0, [], windows + [window], sent + [message], consumed)
  {
    DeliveredSnoc(windows, sent, n, window, message, consumed);
    EmptyWindowHolds();
  }

  /** Once the input has been drained: with a positive batch size, one message
      per complete block of `n` consumed updates, the formatted coalescing of
      that block, and the open window is the coalescing of the updates after the
      last block; otherwise nothing has been sent. */
  lemma DrainedOutcome(n: int, batch: seq<string>, indices: map<string, nat>, count: nat, window: seq<BondUpdate>,
                       windows: seq<seq<BondUpdate>>, sent: seq<string>, consumed: seq<BondUpdate>)
    requires Pending(n, batch, indices, count, window, windows, sent, consumed)
    requires n >= 1 ==> count < n
    requires n < 1 ==> sent == []
    ensures n < 1 ==> sent == []
    ensures n >= 1 ==> |sent| == |Blocks(consumed, n)|
    ensures n >= 1 ==> forall k :: 0 <= k < |sent| ==> sent[k] == Format(Coalesce(Blocks(consumed, n)[k]))
    ensures n >= 1 ==> batch == Coalesce(Rest(consumed, n))
  {
    if n >= 1 {
      BlocksOfConcat(windows, n, window);
    }
  }

  /** Lines 32-42 of the loop body: overwrite a known id's entry at its recorded
      position, or record a new id at the end of the list and append its entry.
      Either way the list and map go on describing the window, now one update longer. */
  method Accumulate(currentBatch: seq<string>, bondIndicesById: map<string, nat>, update: BondUpdate,
                    ghost window: seq<BondUpdate>)
    returns (nextBatch: seq<string>, nextIndices: map<string, nat>)
    requires WindowHolds(currentBatch, bondIndicesById, window)
    ensures WindowHolds(nextBatch, nextIndices, window + [update])
    ensures nextBatch == Coalesce(window + [update])
  {
    if update.bondId in bondIndicesById {
      var index := bondIndicesById[update.bondId];
      PositionInRange(currentBatch, bondIndicesById, window, update.bondId);
      nextBatch, nextIndices := currentBatch[index := update.serializedStatus], bondIndicesById;
      WindowAfterOverwrite(currentBatch, bondIndicesById, window, update, nextBatch);
    } else {
      nextIndices := bondIndicesById[update.bondId := |currentBatch|];
      nextBatch := currentBatch + [update.serializedStatus];
      WindowAfterAppend(currentBatch, bondIndicesById, window, update, nextBatch, nextIndices);
    }
  }

  /** Lines 49-54: append each entry and a newline to the buffer, in list order. */
  method BuildMessage(entries: seq<string>) returns (message: string)
    ensures message == Format(entries)
    ensures (forall e :: e in entries ==> '\n' !in e) ==> Lines(message) == entries
  {
    var sb := "";
    var i := 0;
    while i < |entries|
      invariant 0 <= i <= |entries|
      invariant sb == Format(entries[..i])
    {
      FormatPrefixStep(entries, i);
      sb := sb + entries[i] + "\n";
      i := i + 1;
    }
    assert entries[..|entries|] == entries;
    message := sb;
    if forall e :: e in entries ==> '\n' !in e {
      LinesOfFormat(entries);
    }
  }

  /** The exception `new List<string>(batchSize)` raises for a negative capacity. */
  datatype BatchError = NegativeCapacity

  /** The worker: its batch size, and the loop that drains the input queue. */
  class BatchNotificationWorker {
    const batchSize: int

    constructor (batchSize: int)
      ensures this.batchSize == batchSize
    {
      this.batchSize := batchSize;
    }

    /** The `Run` loop over a finite stretch of the input queue, returning the
        messages handed to the broadcast callback, in order. A negative batch size
        fails when the window's list is allocated, before any update is taken.
        With a positive batch size there is one message per complete block of
        `batchSize` updates, the formatted coalescing of that block (`BlockAt`
        says which input positions a block holds); the updates after the last
        complete block are not sent. With a batch size of zero the count never
        equals it and nothing is sent. */
    method Run(input: seq<BondUpdate>) returns (r: Result<seq<string>, BatchError>)
      ensures r.Failure? <==> batchSize < 0
      ensures batchSize == 0 ==> r == Success([])
      ensures batchSize >= 1 ==> r.Success? && |r.value| == |Blocks(input, batchSize)|
      ensures batchSize >= 1 ==> forall k :: 0 <= k < |r.value| ==>
        r.value[k] == Format(Coalesce(Blocks(input, batchSize)[k]))
    {
      if batchSize < 0 {
        return Failure(NegativeCapacity);
      }
      var currentBatch: seq<string> := [];
      var bondIndicesById: map<string, nat> := map[];
      var numUpdatesProcessed: nat := 0;
      ghost var window: seq<BondUpdate> := [];
      ghost var windows: seq<seq<BondUpdate>> := [];
      var messages: seq<string> := [];
      EmptyWindowHolds();
      var i := 0;
      while i < |input|
        invariant 0 <= i <= |input|
        invariant Pending(batchSize, currentBatch, bondIndicesById, numUpdatesProcessed, window, windows,
                          messages, input[..i])
        invariant batchSize >= 1 ==> numUpdatesProcessed < batchSize
        invariant batchSize < 1 ==> messages == []
      {
        var update := input[i];
        TakeSnoc(input, i);
        var nextBatch, nextIndices := Accumulate(currentBatch, bondIndicesById, update, window);
        AccumulateStep(batchSize, currentBatch, bondIndicesById, numUpdatesProcessed, window, windows,
                       messages, input[..i], update, nextBatch, nextIndices);
        currentBatch, bondIndicesById := nextBatch, nextIndices;
        numUpdatesProcessed := numUpdatesProcessed + 1;
        window := window + [update];

        if numUpdatesProcessed == batchSize {
          var message := BuildMessage(currentBatch);
          FlushStep(batchSize, currentBatch, bondIndicesById, numUpdatesProcessed, window, windows,
                    messages, input[..i + 1], message);
          // The broadcast callback.
          messages := messages + [message];
          windows := windows + [window];
          // Reset for the next window.
          currentBatch, bondIndicesById, numUpdatesProcessed := [], map[], 0;
          window := [];
        }
        i := i + 1;
      }
      assert input[..i] == input;
      DrainedOutcome(batchSize, currentBatch, bondIndicesById, numUpdatesProcessed, window, windows,
                     messages, input);
      r := Success(messages);
    }
  }
}
