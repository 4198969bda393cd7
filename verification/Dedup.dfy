/** Per-market duplicate filter (dedup.rs). */
module Dedup {
  import opened Base
  import opened SlotRing

  predicate Newer(slot: u64, seqNo: u64, than: (u64, u64)) {
    slot > than.0 || (slot == than.0 && seqNo > than.1)
  }

  /** The state remembers the newest accepted event of each market, and the accepted events of
      one market are strictly increasing by (slot, seq). */
  ghost predicate Consistent(accepted: seq<Event>, state: map<u64, (u64, u64)>) {
    && (forall i :: 0 <= i < |accepted| ==>
          accepted[i].marketId in state && !Newer(accepted[i].slot, accepted[i].seqNo, state[accepted[i].marketId]))
    && (forall m :: m in state ==> Remembers(accepted, m, state[m]))
    && (forall i, j :: 0 <= i < j < |accepted| && accepted[i].marketId == accepted[j].marketId ==>
          Newer(accepted[j].slot, accepted[j].seqNo, (accepted[i].slot, accepted[i].seqNo)))
  }

  ghost predicate Remembers(accepted: seq<Event>, m: u64, last: (u64, u64)) {
    exists i :: 0 <= i < |accepted| && accepted[i].marketId == m && last == (accepted[i].slot, accepted[i].seqNo)
  }

  /** Newer than everything accepted for its market. */
  ghost predicate Fresh(accepted: seq<Event>, e: Event) {
    forall i :: 0 <= i < |accepted| && accepted[i].marketId == e.marketId ==>
      Newer(e.slot, e.seqNo, (accepted[i].slot, accepted[i].seqNo))
  }

  lemma FreshByState(accepted: seq<Event>, state: map<u64, (u64, u64)>, e: Event)
    requires Consistent(accepted, state)
    ensures Fresh(accepted, e) <==> e.marketId !in state || Newer(e.slot, e.seqNo, state[e.marketId])
  {
    if e.marketId in state {
      assert Remembers(accepted, e.marketId, state[e.marketId]);
      var i :| 0 <= i < |accepted| && accepted[i].marketId == e.marketId &&
        state[e.marketId] == (accepted[i].slot, accepted[i].seqNo);
    }
  }

  lemma Accept(accepted: seq<Event>, state: map<u64, (u64, u64)>, e: Event)
    requires Consistent(accepted, state) && Fresh(accepted, e)
    ensures Consistent(accepted + [e], state[e.marketId := (e.slot, e.seqNo)])
  {
    var state' := state[e.marketId := (e.slot, e.seqNo)];
    var accepted' := accepted + [e];
    forall m | m in state'
      ensures Remembers(accepted', m, state'[m])
    {
      if m == e.marketId {
        assert accepted'[|accepted|] == e;
      } else {
        assert Remembers(accepted, m, state[m]);
        var i :| 0 <= i < |accepted| && accepted[i].marketId == m && state[m] == (accepted[i].slot, accepted[i].seqNo);
        assert accepted'[i] == accepted[i];
      }
    }
  }

  class Deduplicator {
    var state: map<u64, (u64, u64)>
    var filtered: nat

    /** Every event accepted so far. */
    ghost var accepted: seq<Event>

    ghost predicate Valid()
      reads this
    {
      Consistent(accepted, state)
    }

    constructor ()
      ensures Valid() && accepted == [] && filtered == 0
    {
      state, filtered, accepted := map[], 0, [];
    }

    /** `is_new`: true exactly when the event is newer than everything accepted for its market. */
    method IsNew(e: Event) returns (isNew: bool)
      requires Valid()
      modifies this
      ensures Valid() && isNew == Fresh(old(accepted), e)
      ensures isNew <==> forall i :: 0 <= i < |old(accepted)| && old(accepted)[i].marketId == e.marketId ==>
                           var a := old(accepted)[i]; a.slot < e.slot || (a.slot == e.slot && a.seqNo < e.seqNo)
      ensures isNew ==> accepted == old(accepted) + [e] && filtered == old(filtered)
      ensures !isNew ==> accepted == old(accepted) && filtered == old(filtered) + 1
    {
      FreshByState(accepted, state, e);
      if e.marketId in state {
        var (lastSlot, lastSeq) := state[e.marketId];
        if e.slot > lastSlot || (e.slot == lastSlot && e.seqNo > lastSeq) {
          Remember(e);
          return true;
        }
        filtered := filtered + 1;
        return false;
      }
      Remember(e);
      return true;
    }

    /** `state.insert`. */
    method Remember(e: Event)
      requires Valid() && Fresh(accepted, e)
      modifies this`state, this`accepted
      ensures Valid() && accepted == old(accepted) + [e]
    {
      Accept(accepted, state, e);
      state := state[e.marketId := (e.slot, e.seqNo)];
      accepted := accepted + [e];
    }
  }
}
