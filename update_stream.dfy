/** What a stream of `BondUpdate`s says about each bond. The cache stage's
    status table and every batch message are both the coalescing of a stream:
    one entry per distinct bond id, in first-seen order, holding the status of
    the last update for that id. */
module UpdateStream {
  import opened BondModel
  import opened FirstSeenOrder

  /** The bond ids of a stream, update by update. */
  function BondIds(us: seq<BondUpdate>): (ids: seq<string>)
    ensures |ids| == |us|
    ensures forall i :: 0 <= i < |us| ==> ids[i] == us[i].bondId
  {
    seq(|us|, i requires 0 <= i < |us| => us[i].bondId)
  }

  lemma BondIdsConcat(us: seq<BondUpdate>, vs: seq<BondUpdate>)
    ensures BondIds(us + vs) == BondIds(us) + BondIds(vs)
  {
  }

  /** The status carried by the last update for `id`, or None when `id` never occurs. */
  function LatestStatus(us: seq<BondUpdate>, id: string): (status: Option<string>)
    decreases |us|
  {
    if us == [] then None
    else if us[|us| - 1].bondId == id then Some(us[|us| - 1].serializedStatus)
    else LatestStatus(us[..|us| - 1], id)
  }

  /** LatestStatus finds a status exactly for the ids that occur in the stream. */
  lemma {:induction false} LatestStatusFound(us: seq<BondUpdate>, id: string)
    ensures LatestStatus(us, id).Some? <==> id in BondIds(us)
    decreases |us|
  {
    if us != [] {
      var init, last := us[..|us| - 1], us[|us| - 1];
      assert us == init + [last];
      BondIdsConcat(init, [last]);
      if last.bondId != id {
        LatestStatusFound(init, id);
      } else {
        assert BondIds(us)[|us| - 1] == id;
      }
    }
  }

  /** What LatestStatus finds is the status of an update for that id after which
      no update for the same id follows. */
  lemma {:induction false} LatestStatusIsLast(us: seq<BondUpdate>, id: string)
    requires LatestStatus(us, id).Some?
    ensures exists i ::
              && 0 <= i < |us| && us[i] == BondUpdate(id, LatestStatus(us, id).value)
              && (forall j :: i < j < |us| ==> us[j].bondId != id)
    decreases |us|
  {
    var n := |us| - 1;
    var init, last := us[..n], us[n];
    if last.bondId == id {
      assert us[n] == BondUpdate(id, LatestStatus(us, id).value);
    } else {
      LatestStatusIsLast(init, id);
      var i :| && 0 <= i < n && init[i] == BondUpdate(id, LatestStatus(init, id).value)
               && (forall j :: i < j < n ==> init[j].bondId != id);
      assert us[i] == init[i];
      forall j | i < j <= n
        ensures us[j].bondId != id
      {
        if j < n {
          assert us[j] == init[j];
        }
      }
    }
  }

  lemma LatestStatusSnoc(us: seq<BondUpdate>, u: BondUpdate, id: string)
    ensures LatestStatus(us + [u], id) ==
      if u.bondId == id then Some(u.serializedStatus) else LatestStatus(us, id)
  {
    assert (us + [u])[..|us|] == us;
  }

  /** Last write wins: once `u` has arrived, later updates for other bonds leave
      `u`'s status as the latest one for its bond. */
  lemma {:induction false} LastWriteWins(us: seq<BondUpdate>, u: BondUpdate, later: seq<BondUpdate>)
    requires u.bondId !in BondIds(later)
    ensures LatestStatus(us + [u] + later, u.bondId) == Some(u.serializedStatus)
    decreases |later|
  {
    if later == [] {
      assert us + [u] + later == us + [u];
      LatestStatusSnoc(us, u, u.bondId);
    } else {
      var init, last := later[..|later| - 1], later[|later| - 1];
      assert last.bondId != u.bondId by {
        assert BondIds(later)[|later| - 1] == last.bondId;
      }
      assert u.bondId !in BondIds(init) by {
        BondIdsConcat(init, [last]);
        assert later == init + [last];
      }
      LastWriteWins(us, u, init);
      assert us + [u] + later == (us + [u] + init) + [last];
      LatestStatusSnoc(us + [u] + init, last, u.bondId);
    }
  }

  /** The coalescing of a stream: for each distinct bond id, in order of first
      appearance, the status of its last update. */
  function Coalesce(us: seq<BondUpdate>): (statuses: seq<string>) {
    var ids := FirstSeen(BondIds(us));
    FirstSeenSpec(BondIds(us));
    seq(|ids|, i requires 0 <= i < |ids| => LatestStatusFound(us, ids[i]); LatestStatus(us, ids[i]).value)
  }

  /** The coalescing has one entry per distinct bond id, each id's latest status. */
  lemma CoalesceEntries(us: seq<BondUpdate>)
    ensures |Coalesce(us)| == |FirstSeen(BondIds(us))|
    ensures forall i :: 0 <= i < |Coalesce(us)| ==>
      Some(Coalesce(us)[i]) == LatestStatus(us, FirstSeen(BondIds(us))[i])
  {
    var ids := FirstSeen(BondIds(us));
    FirstSeenSpec(BondIds(us));
    forall i | 0 <= i < |ids|
      ensures Some(Coalesce(us)[i]) == LatestStatus(us, ids[i])
    {
      LatestStatusFound(us, ids[i]);
    }
  }

  /** A nonempty stream of at most `n` updates coalesces to between 1 and `n` entries. */
  lemma CoalesceSize(us: seq<BondUpdate>)
    ensures |Coalesce(us)| <= |us|
    ensures us != [] ==> |Coalesce(us)| >= 1
  {
    FirstSeenSpec(BondIds(us));
    if us != [] {
      assert us[0].bondId in BondIds(us);
    }
  }

  /** An update for a bond already in the stream overwrites that bond's entry
      in place; length and every other entry are unchanged. */
  lemma CoalesceOverwrite(us: seq<BondUpdate>, u: BondUpdate, pos: nat)
    requires pos < |FirstSeen(BondIds(us))| && FirstSeen(BondIds(us))[pos] == u.bondId
    ensures pos < |Coalesce(us)|
    ensures Coalesce(us + [u]) == Coalesce(us)[pos := u.serializedStatus]
  {
    var ids := FirstSeen(BondIds(us));
    FirstSeenSpec(BondIds(us));
    BondIdsConcat(us, [u]);
    assert u.bondId in BondIds(us);
    FirstSeenSnoc(BondIds(us), u.bondId);
    assert FirstSeen(BondIds(us + [u])) == ids;
    forall i | 0 <= i < |ids|
      ensures Coalesce(us + [u])[i] == Coalesce(us)[pos := u.serializedStatus][i]
    {
      LatestStatusSnoc(us, u, ids[i]);
      assert ids[i] == u.bondId <==> i == pos;
    }
  }

  /** An update for a bond not yet in the stream appends one entry at the end. */
  lemma CoalesceAppend(us: seq<BondUpdate>, u: BondUpdate)
    requires u.bondId !in BondIds(us)
    ensures Coalesce(us + [u]) == Coalesce(us) + [u.serializedStatus]
  {
    var ids := FirstSeen(BondIds(us));
    BondIdsConcat(us, [u]);
    FirstSeenSnoc(BondIds(us), u.bondId);
    assert FirstSeen(BondIds(us + [u])) == ids + [u.bondId];
    forall i | 0 <= i <= |ids|
      ensures Coalesce(us + [u])[i] == (Coalesce(us) + [u.serializedStatus])[i]
    {
      LatestStatusSnoc(us, u, (ids + [u.bondId])[i]);
    }
  }
}
