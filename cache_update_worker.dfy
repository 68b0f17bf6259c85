/** The cache update stage (BondsServer/CacheUpdateWorker.cs). Each bond id gets
    a dense, stable slot in first-seen order; the slot holds the serialisation
    of the bond's latest record; every processed record is passed on as one
    `BondUpdate`. The status table is always the coalescing of the updates the
    stage has emitted. */
module CacheUpdate {
  import opened BondModel
  import opened FirstSeenOrder
  import opened UpdateStream

  /** Capacity of the status table. */
  const MAX_BONDS: nat := 1_000_000

  /** The exception thrown when an unseen bond arrives with the table full. */
  datatype CacheError = MaximumBondsExceeded

  /** How a run over the input queue ends: the queue was drained, or the record
      at position `at` raised the capacity error and the run stopped there. */
  datatype RunOutcome = Completed | Stopped(at: nat, error: CacheError)

  /** The notifications the stage emits for a sequence of records, one per record. */
  function Notifications(bonds: seq<BondWithStatistics>, serialize: BondWithStatistics -> string): (us: seq<BondUpdate>)
    ensures |us| == |bonds|
    ensures forall k :: 0 <= k < |bonds| ==> us[k] == BondUpdate(bonds[k].bond.id, serialize(bonds[k]))
  {
    seq(|bonds|, k requires 0 <= k < |bonds| => BondUpdate(bonds[k].bond.id, serialize(bonds[k])))
  }

  class CacheUpdateWorker {
    /** The JSON serialiser, an opaque function of the record, which need not be injective. */
    const serialize: BondWithStatistics -> string

    /** The status table; None stands for a slot that was never written (null in C#). */
    var latestStatuses: array<Option<string>>
    var numBonds: nat
    /** The id-to-slot dictionary (a local of `Run` in the source; one run per worker). */
    var bondIndicesById: map<string, nat>

    /** Every record processed so far, and the notifications pushed to the output queue. */
    ghost var processed: seq<BondWithStatistics>
    ghost var emitted: seq<BondUpdate>
    /** The ids in slot order: `slotOrder[i]` is the id held in slot `i`. */
    ghost var slotOrder: seq<string>

    ghost predicate Valid()
      reads this, latestStatuses
    {
      && latestStatuses.Length == MAX_BONDS
      && emitted == Notifications(processed, serialize)
      && Consistent(latestStatuses[..], numBonds, bondIndicesById, slotOrder, emitted)
    }

    constructor (serialize: BondWithStatistics -> string)
      ensures Valid() && fresh(latestStatuses)
      ensures this.serialize == serialize
      ensures numBonds == 0 && bondIndicesById == map[] && processed == [] && emitted == []
    {
      this.serialize := serialize;
      latestStatuses := new Option<string>[MAX_BONDS](_ => None);
      numBonds := 0;
      bondIndicesById := map[];
      processed, emitted, slotOrder := [], [], [];
    }

    /** One iteration of the `Run` loop: look the id up, give an unseen id the next
        slot (or fail when the table is full), store the serialisation in the
        slot, expose the new slot, and emit the notification. */
    method Process(b: BondWithStatistics) returns (r: Result<BondUpdate, CacheError>)
      requires Valid()
      modifies this, latestStatuses
      ensures Valid() && latestStatuses == old(latestStatuses)
      ensures r.Failure? <==> b.bond.id !in old(bondIndicesById) && old(numBonds) == MAX_BONDS
      ensures r.Failure? ==>
        && bondIndicesById == old(bondIndicesById) && numBonds == old(numBonds)
        && latestStatuses[..] == old(latestStatuses[..])
        && processed == old(processed) && emitted == old(emitted)
      ensures r.Success? ==>
        && (b.bond.id in old(bondIndicesById) ==>
              bondIndicesById == old(bondIndicesById) && numBonds == old(numBonds))
        && (b.bond.id !in old(bondIndicesById) ==>
              bondIndicesById == old(bondIndicesById)[b.bond.id := old(numBonds)] && numBonds == old(numBonds) + 1)
        && b.bond.id in bondIndicesById
        && latestStatuses[..] == old(latestStatuses[..])[bondIndicesById[b.bond.id] := Some(serialize(b))]
        && r.value == BondUpdate(b.bond.id, serialize(b))
        && processed == old(processed) + [b]
        && emitted == old(emitted) + [r.value]
    {
      var id := b.bond.id;
      var alreadyExists := id in bondIndicesById;
      var index: nat;
      if !alreadyExists {
        if numBonds == MAX_BONDS {
          return Failure(MaximumBondsExceeded);
        }
        index := numBonds;
        bondIndicesById := bondIndicesById[id := index];
      } else {
        index := bondIndicesById[id];
      }

      var serializedStatus := serialize(b);
      ghost var before := latestStatuses[..];
      assert PrefixWritten(before, numBonds);
      latestStatuses[index] := Some(serializedStatus);
      assert latestStatuses[..] == before[index := Some(serializedStatus)];
      // The slot is written before the count that exposes it is raised, so a
      // reader never finds an unwritten slot below `numBonds`.
      assert PrefixWritten(latestStatuses[..], numBonds);

      if !alreadyExists {
        numBonds := numBonds + 1;
      }
      assert PrefixWritten(latestStatuses[..], numBonds);

      var update := BondUpdate(id, serializedStatus);
      ghost var oldEmitted, oldOrder := emitted, slotOrder;
      processed := processed + [b];
      emitted := emitted + [update];
      if !alreadyExists {
        slotOrder := slotOrder + [id];
      }
      assert bondIndicesById == if alreadyExists then old(bondIndicesById) else old(bondIndicesById)[id := old(numBonds)];
      assert Valid() by {
        NotificationsConcat(old(processed), [b], serialize);
        if alreadyExists {
          ConsistentAfterOverwrite(before, numBonds, bondIndicesById, slotOrder, oldEmitted, update,
                                   latestStatuses[..], emitted);
        } else {
          ConsistentAfterAppend(before, old(numBonds), old(bondIndicesById), oldOrder, oldEmitted, update,
                                latestStatuses[..], bondIndicesById, slotOrder, emitted);
        }
      }
      r := Success(update);
    }

    /** The exposed prefix of the table: one entry per distinct id seen, in slot
        order, each the latest status emitted for that id and none of them unwritten. */
    method GetLatestStatuses() returns (statuses: seq<Option<string>>)
      requires Valid()
      ensures statuses == latestStatuses[..numBonds]
      ensures |statuses| == |FirstSeen(BondIds(emitted))|
      ensures forall i :: 0 <= i < |statuses| ==> statuses[i] == Some(Coalesce(emitted)[i])
    {
      statuses := latestStatuses[..numBonds];
    }

    /** The slot dictionary is a bijection between the ids seen and the slots
        `0 .. numBonds - 1`, and each id's slot holds that id's latest status. */
    lemma SlotsAreBijection()
      requires Valid()
      ensures forall id :: id in bondIndicesById ==> bondIndicesById[id] < numBonds
      ensures forall id, id' ::
        id in bondIndicesById && id' in bondIndicesById && bondIndicesById[id] == bondIndicesById[id'] ==> id == id'
      ensures forall i :: 0 <= i < numBonds ==> slotOrder[i] in bondIndicesById && bondIndicesById[slotOrder[i]] == i
      ensures forall id :: id in bondIndicesById ==>
        latestStatuses[bondIndicesById[id]] == LatestStatus(emitted, id)
    {
      IndexesOrderIsBijection(bondIndicesById, slotOrder);
      CoalesceEntries(emitted);
    }

    /** The `Run` loop over a finite input queue, returning the updates it added
        to the output queue, in order. It processes the records in order and stops
        at the first capacity error; so the run completes exactly when the whole
        stream holds at most MAX_BONDS distinct ids, and otherwise stops at the
        first record whose id is the (MAX_BONDS + 1)-th distinct one, having
        passed on one update for each record before it. */
    method Run(input: seq<BondWithStatistics>) returns (outcome: RunOutcome, pushed: seq<BondUpdate>)
      requires Valid()
      modifies this, latestStatuses
      ensures Valid() && latestStatuses == old(latestStatuses)
      ensures outcome.Completed? <==>
        |FirstSeen(BondIds(Notifications(old(processed) + input, serialize)))| <= MAX_BONDS
      ensures outcome.Completed? ==> processed == old(processed) + input
      ensures outcome.Stopped? ==>
        && outcome.at < |input|
        && processed == old(processed) + input[..outcome.at]
        && input[outcome.at].bond.id !in BondIds(emitted)
        && |FirstSeen(BondIds(emitted))| == MAX_BONDS
      ensures pushed == Notifications(if outcome.Completed? then input else input[..outcome.at], serialize)
      ensures emitted == old(emitted) + pushed
    {
      pushed := [];
      var i := 0;
      while i < |input|
        invariant Valid() && latestStatuses == old(latestStatuses)
        invariant 0 <= i <= |input|
        invariant processed == old(processed) + input[..i]
        invariant pushed == Notifications(input[..i], serialize)
        invariant emitted == old(emitted) + pushed
      {
        var r := Process(input[i]);
        SplitAt(old(processed), input, i);
        if r.Failure? {
          SeenIds();
          CapacityExceeded(processed, input[i], input[i + 1..], serialize);
          return Stopped(i, r.error), pushed;
        }
        PushedSnoc(old(emitted), input, i, pushed, r.value, serialize);
        pushed := pushed + [r.value];
        i := i + 1;
      }
      SplitAt(old(processed), input, i);
      SeenIds();
      outcome := Completed;
    }

    /** The dictionary's keys are exactly the ids emitted so far, and the count is
        the number of distinct ones, never above MAX_BONDS. */
    lemma SeenIds()
      requires Valid()
      ensures forall id :: id in bondIndicesById <==> id in BondIds(emitted)
      ensures numBonds == |FirstSeen(BondIds(Notifications(processed, serialize)))| <= MAX_BONDS
    {
      FirstSeenSpec(BondIds(emitted));
    }
  }

  /** With MAX_BONDS distinct ids already seen, a record with yet another id makes
      any stream that continues from there hold more than MAX_BONDS distinct ids. */
  lemma CapacityExceeded(done: seq<BondWithStatistics>, b: BondWithStatistics, rest: seq<BondWithStatistics>,
                         serialize: BondWithStatistics -> string)
    requires |FirstSeen(BondIds(Notifications(done, serialize)))| == MAX_BONDS
    requires b.bond.id !in BondIds(Notifications(done, serialize))
    ensures |FirstSeen(BondIds(Notifications(done + [b] + rest, serialize)))| > MAX_BONDS
  {
    var us, u := Notifications(done, serialize), BondUpdate(b.bond.id, serialize(b));
    var vs := Notifications(rest, serialize);
    NotificationsConcat(done, [b], serialize);
    NotificationsConcat(done + [b], rest, serialize);
    assert Notifications(done + [b] + rest, serialize) == us + [u] + vs;
    BondIdsConcat(us, [u]);
    BondIdsConcat(us + [u], vs);
    FirstSeenSnoc(BondIds(us), u.bondId);
    FirstSeenPrefix(BondIds(us + [u]), BondIds(vs));
  }

  /** The table holds `statuses` in its first `|statuses|` slots and nothing
      (null) in every later slot: no unwritten slot lies inside the exposed prefix. */
  ghost predicate TableHolds(table: seq<Option<string>>, statuses: seq<string>) {
    && |statuses| <= |table|
    && forall i :: 0 <= i < |table| ==> table[i] == if i < |statuses| then Some(statuses[i]) else None
  }

  /** The stage's state after emitting `emitted`: the slots are the ids in
      first-seen order, the dictionary indexes them, the count covers exactly the
      assigned slots, and the table's exposed prefix is the coalescing of the
      emitted updates (each id's latest status) with null beyond it. */
  ghost predicate Consistent(table: seq<Option<string>>, numBonds: nat, slots: map<string, nat>,
                             order: seq<string>, emitted: seq<BondUpdate>)
  {
    && order == FirstSeen(BondIds(emitted))
    && |order| == numBonds
    && IndexesOrder(slots, order)
    && |Coalesce(emitted)| == numBonds
    && TableHolds(table, Coalesce(emitted))
  }

  /** A record for an id that already has a slot: writing its serialisation into
      that slot, with dictionary and count unchanged, keeps the state consistent. */
  lemma ConsistentAfterOverwrite(table: seq<Option<string>>, numBonds: nat, slots: map<string, nat>,
                                 order: seq<string>, emitted: seq<BondUpdate>, u: BondUpdate,
                                 table': seq<Option<string>>, emitted': seq<BondUpdate>)
    requires Consistent(table, numBonds, slots, order, emitted)
    requires u.bondId in slots
    requires slots[u.bondId] < |table| && table' == table[slots[u.bondId] := Some(u.serializedStatus)]
    requires emitted' == emitted + [u]
    ensures Consistent(table', numBonds, slots, order, emitted')
  {
    IndexesOrderIsBijection(slots, order);
    var pos := slots[u.bondId];
    BondIdsConcat(emitted, [u]);
    FirstSeenSnoc(BondIds(emitted), u.bondId);
    CoalesceOverwrite(emitted, u, pos);
    TableOverwrite(table, Coalesce(emitted), pos, u.serializedStatus);
  }

  /** A record for an unseen id with a free slot: writing slot `numBonds`,
      recording it in the dictionary and then raising the count keeps the state consistent. */
  lemma ConsistentAfterAppend(table: seq<Option<string>>, numBonds: nat, slots: map<string, nat>,
                              order: seq<string>, emitted: seq<BondUpdate>, u: BondUpdate,
                              table': seq<Option<string>>, slots': map<string, nat>,
                              order': seq<string>, emitted': seq<BondUpdate>)
    requires Consistent(table, numBonds, slots, order, emitted)
    requires u.bondId !in slots && numBonds < |table|
    requires table' == table[numBonds := Some(u.serializedStatus)]
    requires slots' == slots[u.bondId := numBonds] && order' == order + [u.bondId] && emitted' == emitted + [u]
    ensures Consistent(table', numBonds + 1, slots', order', emitted')
  {
    BondIdsConcat(emitted, [u]);
    FirstSeenSnoc(BondIds(emitted), u.bondId);
    IndexesOrderSnoc(slots, order, u.bondId);
    CoalesceAppend(emitted, u);
    TableAppend(table, Coalesce(emitted), u.serializedStatus);
  }

  /** Writing a slot inside the exposed prefix replaces exactly that entry. */
  lemma TableOverwrite(table: seq<Option<string>>, statuses: seq<string>, pos: nat, s: string)
    requires TableHolds(table, statuses) && pos < |statuses|
    ensures TableHolds(table[pos := Some(s)], statuses[pos := s])
  {
  }

  /** Every slot below `count` has been written. */
  ghost predicate PrefixWritten(table: seq<Option<string>>, count: nat) {
    count <= |table| && forall i :: 0 <= i < count ==> table[i].Some?
  }

  /** Writing the first unexposed slot, then raising the count, exposes exactly
      the new entry, and no unwritten slot is exposed at any point. Raising the
      count first would expose the unwritten slot. */
  lemma TableAppend(table: seq<Option<string>>, statuses: seq<string>, s: string)
    requires TableHolds(table, statuses) && |statuses| < |table|
    ensures PrefixWritten(table, |statuses|)
    ensures PrefixWritten(table[|statuses| := Some(s)], |statuses|)
    ensures PrefixWritten(table[|statuses| := Some(s)], |statuses| + 1)
    ensures TableHolds(table[|statuses| := Some(s)], statuses + [s])
    ensures !PrefixWritten(table, |statuses| + 1)
  {
    assert table[|statuses|] == None;
  }

  /** `done + input` cut at position `i` of `input`; a separate lemma keeps these
      sequence identities out of the `Run` loop's own proof. */
  lemma SplitAt<T>(done: seq<T>, input: seq<T>, i: nat)
    requires i <= |input|
    ensures i == |input| ==> done + input[..i] == done + input
    ensures i < |input| ==>
      && done + input[..i + 1] == done + input[..i] + [input[i]]
      && done + input == done + input[..i] + [input[i]] + input[i + 1..]
  {
    if i < |input| {
      assert input[..i + 1] == input[..i] + [input[i]];
      assert input == input[..i] + [input[i]] + input[i + 1..];
    } else {
      assert input[..i] == input;
    }
  }

  /** The update for record `i` extends the notifications for the records before it.
      The second clause, regrouping the emitted log, is stated here so that the
      `Run` loop's own proof does not have to find it. */
  lemma PushedSnoc(before: seq<BondUpdate>, input: seq<BondWithStatistics>, i: nat, pushed: seq<BondUpdate>,
                   u: BondUpdate, serialize: BondWithStatistics -> string)
    requires i < |input| && pushed == Notifications(input[..i], serialize)
    requires u == BondUpdate(input[i].bond.id, serialize(input[i]))
    ensures pushed + [u] == Notifications(input[..i + 1], serialize)
    ensures before + pushed + [u] == before + (pushed + [u])
  {
    assert input[..i + 1] == input[..i] + [input[i]];
    NotificationsConcat(input[..i], [input[i]], serialize);
  }

  lemma NotificationsConcat(a: seq<BondWithStatistics>, b: seq<BondWithStatistics>, serialize: BondWithStatistics -> string)
    ensures Notifications(a + b, serialize) == Notifications(a, serialize) + Notifications(b, serialize)
  {
  }
}
