/**
 The busy flags of platform/hal/hal_intersys.c: as long as any channel is busy the mailbox votes for 26M, and
 for 32K otherwise.
*/
module IntersysBusy {
  import opened Clock

  const ID_QTY: nat := 2
  const USER_INTERSYS: nat := 4

  predicate AnyBusy(chans: seq<bool>) { exists i | 0 <= i < |chans| :: chans[i] }

  class BusyVote {
    var chanBusy: seq<bool>
    var busyNow: bool
    const cmu: Cmu

    ghost predicate Valid()
      reads this, cmu
    {
      && |chanBusy| == ID_QTY && busyNow == AnyBusy(chanBusy) && Clock.Valid(cmu.St())
      && cmu.votes[USER_INTERSYS] == if busyNow then FREQ_26M else FREQ_32K
    }

    constructor (cmu: Cmu)
      requires Clock.Valid(cmu.St()) && cmu.votes[USER_INTERSYS] == FREQ_32K
      ensures Valid() && chanBusy == [false, false] && this.cmu == cmu
    {
      chanBusy, busyNow, this.cmu := [false, false], false, cmu;
    }

    /** hal_intersys_busy: the flag is set, the vote follows, and nobody else's vote is touched. */
    method SetBusy(id: nat, busy: bool)
      requires Valid() && id < ID_QTY
      modifies this, cmu
      ensures Valid() && chanBusy == old(chanBusy)[id := busy]
      ensures cmu.votes == old(cmu.votes)[USER_INTERSYS := if AnyBusy(chanBusy) then FREQ_26M else FREQ_32K]
    {
      ghost var was, votes := chanBusy, cmu.votes;
      assert votes == votes[USER_INTERSYS := votes[USER_INTERSYS]];
      if chanBusy[id] == busy {
        assert was == was[id := busy];
        return;
      }
      chanBusy := chanBusy[id := busy];
      if busyNow == busy {
        assert busy ==> chanBusy[id];
        return;
      }
      if busy {
        VotesAreServed(cmu.St(), USER_INTERSYS, FREQ_26M);
        var _ := cmu.HalSysfreqReq(USER_INTERSYS, FREQ_26M);
        busyNow := true;
        assert chanBusy[id];
      } else {
        var newState, i := false, 0;
        while i < ID_QTY && !newState
          invariant 0 <= i <= ID_QTY && newState == exists j | 0 <= j < i :: chanBusy[j]
        {
          newState := chanBusy[i];
          i := i + 1;
        }
        if !newState {
          VotesAreServed(cmu.St(), USER_INTERSYS, FREQ_32K);
          var _ := cmu.HalSysfreqReq(USER_INTERSYS, FREQ_32K);
          busyNow := false;
        }
      }
    }
  }
}
