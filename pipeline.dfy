/** The two stages wired together as in BondsServer/Main.cs: the updates the
    cache stage adds to its output queue are the batch stage's input queue. The
    queue is first-in first-out, so running the stages one after the other over
    a finite input gives the batch stage the same updates in the same order. */
module Pipeline {
  import opened BondModel
  import opened FirstSeenOrder
  import opened UpdateStream
  import opened CacheUpdate
  import opened BatchNotification

  /** A finite input through both stages. The snapshot exposed by the cache is
      the coalescing of everything it passed on; each message sent by the batch
      stage is the formatted coalescing of one complete block of `batchSize` of
      those updates. */
  method RunPipeline(serialize: BondWithStatistics -> string, batchSize: int, input: seq<BondWithStatistics>)
    returns (outcome: RunOutcome, queued: seq<BondUpdate>, snapshot: seq<Option<string>>,
             delivery: Result<seq<string>, BatchError>)
    ensures outcome.Completed? <==> |FirstSeen(BondIds(Notifications(input, serialize)))| <= MAX_BONDS
    ensures outcome.Completed? ==> queued == Notifications(input, serialize)
    ensures outcome.Stopped? ==> outcome.at < |input| && queued == Notifications(input[..outcome.at], serialize)
    ensures |snapshot| == |Coalesce(queued)|
    ensures forall i :: 0 <= i < |snapshot| ==> snapshot[i] == Some(Coalesce(queued)[i])
    ensures delivery.Failure? <==> batchSize < 0
    ensures batchSize == 0 ==> delivery == Success([])
    ensures batchSize >= 1 ==> delivery.Success? && |delivery.value| == |Blocks(queued, batchSize)|
    ensures batchSize >= 1 ==> forall k :: 0 <= k < |delivery.value| ==>
      delivery.value[k] == Format(Coalesce(Blocks(queued, batchSize)[k]))
  {
    var cache := new CacheUpdateWorker(serialize);
    outcome, queued := cache.Run(input);
    assert [] + input == input && [] + queued == queued;
    snapshot := cache.GetLatestStatuses();
    CoalesceEntries(queued);
    var notifier := new BatchNotificationWorker(batchSize);
    delivery := notifier.Run(queued);
  }

  /** Bond A at one price, bond B, then bond A at a new price, with a batch size
      of three: the cache holds A's newer status in A's slot and B's in the next,
      and the one message lists A's newer status, then B's. */
  method ThreeUpdates(serialize: BondWithStatistics -> string, a: BondWithStatistics, b: BondWithStatistics,
                      a2: BondWithStatistics)
    returns (snapshot: seq<Option<string>>, messages: seq<string>)
    requires a.bond.id == a2.bond.id && a.bond.id != b.bond.id
    ensures snapshot == [Some(serialize(a2)), Some(serialize(b))]
    ensures messages == [serialize(a2) + "\n" + serialize(b) + "\n"]
  {
    var input := [a, b, a2];
    var us := Notifications(input, serialize);
    assert us == [BondUpdate(a.bond.id, serialize(a)), BondUpdate(b.bond.id, serialize(b)),
                  BondUpdate(a.bond.id, serialize(a2))];
    CoalescingExample(a.bond.id, b.bond.id, serialize(a), serialize(b), serialize(a2));
    CoalesceEntries(us);
    assert Blocks(us, 3) == [us] by {
      assert us[..3] == us && us[3..] == [];
    }
    var outcome, queued, delivery;
    outcome, queued, snapshot, delivery := RunPipeline(serialize, 3, input);
    messages := delivery.value;
  }
}
