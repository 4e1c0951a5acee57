/**
  electLeader of internal/application/app.go on the fields it updates: the leadership flag with its edge
  channel (module Wakeups) and the end of the lease, which together take the step of module Lease.
 */
module Election {
  import L = Lease
  import W = Wakeups

  class Elector {
    const flag: W.LeaderFlag
    var leaseValidUntil: int

    constructor ()
      ensures fresh(flag) && flag.View() == W.Flag(false, W.None, 0, {}) && leaseValidUntil == 0
    {
      flag := new W.LeaderFlag();
      leaseValidUntil := 0;
    }

    /** The node of the election protocol that these fields stand for, between two elections. */
    ghost function Node(phase: L.Phase, due: int, first: bool): L.Node
      reads this, flag
    {
      L.Node(flag.isLeader, leaseValidUntil, phase, due, first)
    }

    /**
      Acting on the answer of the lease transaction: what the protocol does, and every change of
      leadership closes the edge channel that was out.
     */
    method ElectLeader(enabled: bool, start: int, answer: L.Answer)
      modifies this, flag
      ensures enabled ==> forall due, now ::
                Node(L.Idle, due, false) == L.AfterAnswer(old(Node(L.Idle, due, false)), start, answer, now)
      ensures !enabled ==> !flag.isLeader && leaseValidUntil == old(leaseValidUntil)
      ensures flag.isLeader != old(flag.isLeader) ==> old(flag.changed).Some? ==> old(flag.changed).value in flag.closed
    {
      if !enabled {
        var _ := flag.SetLeaderState(false);
        return;
      }
      if answer == L.Error {
        if flag.isLeader && start >= leaseValidUntil { var _ := flag.SetLeaderState(false); }
        return;
      }
      if answer == L.Granted { leaseValidUntil := start + L.LEASE; }
      var _ := flag.SetLeaderState(answer == L.Granted);
    }
  }
}
