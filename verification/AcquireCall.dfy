/**
 One wait for a connection: the `settled` flag that the timer and the pool's
 answer race for, and the statement that runs on the borrowed connection.
 */
module AcquireCall {
  import opened Wrappers
  import TP = TenantProtocol
  import PC = PoolCache
  import opened TenantPools

  class AcquireConnection {
    const timed: bool
    ghost const pool: nat
    var settled: bool
    var answers: seq<TP.Answer>
    ghost var wire: TP.Wire
    ghost var holding: bool
    ghost var granted: nat
    ghost var returned: nat

    ghost function Abs(): TP.Request
      reads this
    {
      TP.Request(pool, timed, settled, wire, answers, holding, granted, returned)
    }

    constructor (ghost pool: nat, timeoutMs: int)
      ensures Abs() == TP.Request(pool, timeoutMs > 0, false, TP.Waiting, [], false, 0, 0)
    {
      this.pool, timed := pool, timeoutMs > 0;
      settled, answers := false, [];
      wire, holding, granted, returned := TP.Waiting, false, 0, 0;
    }

    // The timer callback; it is cleared as soon as the call is settled.
    method TimerFires()
      requires timed && !settled
      modifies this
      ensures Abs() == TP.OnTimer(old(Abs()))
    {
      settled := true;
      answers := answers + [TP.Rejected];
    }

    method ConnectionArrives(pools: TenantPools, entry: PoolEntry, now: int)
      requires pools.Valid() && pools.Known(entry) && entry.id == pool
      modifies this, pools`state, entry
      ensures Abs() == TP.OnGrant(old(Abs()))
      ensures pools.Valid() && pool < |old(pools.state).entries|
      ensures pools.state == if TP.GaveUp(old(Abs()))
                             then PC.Update(old(pools.state), pool,
                                            PC.ReleaseEntry(old(pools.state).entries[pool], now))
                             else old(pools.state)
    {
      wire := TP.Consumed;
      if timed && settled {
        returned := returned + 1;
        pools.ConnectionReleased(entry, now);
        return;
      }
      settled := true;
      answers := answers + [TP.Delivered];
      holding := true;
    }

    method RequestFails()
      modifies this
      ensures Abs() == TP.OnFailure(old(Abs()))
    {
      wire := TP.Consumed;
      if settled { return; }
      settled := true;
      answers := answers + [TP.Rejected];
    }

    // conn.release() in executeOn's finally, or the caller's own release.
    method GiveBack(pools: TenantPools, entry: PoolEntry, now: int)
      requires pools.Valid() && pools.Known(entry) && entry.id == pool && holding
      modifies this, pools`state, entry
      ensures Abs() == TP.GiveBack(old(Abs()))
      ensures pools.Valid() && pool < |old(pools.state).entries|
      ensures pools.state == PC.Update(old(pools.state), pool, PC.ReleaseEntry(old(pools.state).entries[pool], now))
    {
      holding := false;
      returned := returned + 1;
      pools.ConnectionReleased(entry, now);
    }
  }
}
