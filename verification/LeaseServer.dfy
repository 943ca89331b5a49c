/** The controller's side of cluster-wide remediation leases: the in-memory lease map of
    pkg/controller/server.go and the lease table of pkg/controller/storage.go. */
module LeaseServer {
  import opened MonitorTypes

  type LeaseId = string

  datatype LeaseStatus = Active | Completed | Expired | Cancelled

  /** A lease, in memory or as a table row. `completedAt` is the nullable completion column. */
  datatype Lease = Lease(node: string, kind: string, grantedAt: int, expiresAt: int,
                         status: LeaseStatus, completedAt: Option<int>)

  type Leases = map<LeaseId, Lease>

  datatype Coordination = Coordination(maxConcurrent: nat, defaultDuration: int, cooldown: int)

  /** The controller's memory and its table. */
  datatype Controller = Controller(leases: Leases, rows: Leases)

  predicate Live(l: Lease, now: int) {
    l.status == Active && now < l.expiresAt
  }

  function LiveIds(leases: Leases, now: int): set<LeaseId> {
    set id | id in leases && Live(leases[id], now)
  }

  predicate NodeHasLease(leases: Leases, node: string, now: int) {
    exists id :: id in leases && leases[id].node == node && Live(leases[id], now)
  }

  predicate FinishedFor(l: Lease, node: string) {
    l.node == node && l.status in {Completed, Expired}
  }

  /** Some finished lease of the node completed less than `cooldown` ago. */
  predicate CoolingDown(rows: Leases, node: string, cooldown: int, now: int) {
    exists id :: id in rows && FinishedFor(rows[id], node) && rows[id].completedAt.Some?
                 && now < rows[id].completedAt.value + cooldown
  }

  /** `until` is the cooldown after the latest completion time of the node's finished leases. */
  ghost predicate CooldownEnds(rows: Leases, node: string, cooldown: int, until: int) {
    && (exists id :: id in rows && FinishedFor(rows[id], node) && rows[id].completedAt == Some(until - cooldown))
    && forall id :: id in rows && FinishedFor(rows[id], node) && rows[id].completedAt.Some? ==> rows[id].completedAt.value + cooldown <= until
  }

  datatype Verdict = Grant | AtCapacity | NodeBusy | InCooldown

  /** What requestLease decides, in its order; an unreadable table skips the cooldown check. */
  function Decision(c: Controller, cfg: Coordination, node: string, now: int, readable: bool): Verdict {
    if |LiveIds(c.leases, now)| >= cfg.maxConcurrent then AtCapacity
    else if NodeHasLease(c.leases, node, now) then NodeBusy
    else if cfg.cooldown > 0 && readable && CoolingDown(c.rows, node, cfg.cooldown, now) then InCooldown
    else Grant
  }

  function NewLease(cfg: Coordination, node: string, kind: string, requested: Option<int>, now: int): Lease {
    var duration := if requested.Some? then requested.value else cfg.defaultDuration;
    Lease(node, kind, now, now + duration, Active, None)
  }

  function Granted(c: Controller, id: LeaseId, lease: Lease, saved: bool): Controller {
    Controller(c.leases[id := lease], if saved then c.rows[id := lease] else c.rows)
  }

  /** releaseLease, first half: the memory update under the lock. */
  function Released(c: Controller, id: LeaseId): Controller {
    if id in c.leases then c.(leases := c.leases[id := c.leases[id].(status := Completed)]) else c
  }

  /** Every status but active stamps the completion time; active clears it. */
  function StatusSet(rows: Leases, id: LeaseId, status: LeaseStatus, now: int): Leases {
    if id in rows then rows[id := rows[id].(status := status, completedAt := if status == Active then None else Some(now))]
    else rows
  }

  predicate Overdue(l: Lease, now: int) {
    l.status == Active && l.expiresAt < now
  }

  function ExpireIf(l: Lease, expire: bool, now: int): Lease {
    if expire then l.(status := Expired, completedAt := Some(now)) else l
  }

  /** The cleanup pass over `ids`: overdue leases expire in memory, and in the table where the write succeeds. */
  function CleanedUp(c: Controller, now: int, saved: set<LeaseId>, ids: set<LeaseId>): Controller {
    Controller(
      map id | id in c.leases :: ExpireIf(c.leases[id], id in ids && Overdue(c.leases[id], now), now),
      map id | id in c.rows ::
        ExpireIf(c.rows[id], id in ids && id in saved && id in c.leases && Overdue(c.leases[id], now), now))
  }

  lemma {:induction false} CleanNone(c: Controller, now: int, saved: set<LeaseId>)
    ensures CleanedUp(c, now, saved, {}) == c
  {
  }

  lemma {:induction false} CleanOne(c: Controller, now: int, saved: set<LeaseId>, ids: set<LeaseId>, id: LeaseId)
    requires id in c.leases && id !in ids
    ensures var part := CleanedUp(c, now, saved, ids);
            var lease := c.leases[id];
            id in part.leases && part.leases[id] == lease &&
            CleanedUp(c, now, saved, ids + {id}) ==
              if Overdue(lease, now)
              then Controller(part.leases[id := ExpireIf(lease, true, now)],
                              if id in saved then StatusSet(part.rows, id, Expired, now) else part.rows)
              else part
  {
  }

  /** ExpireLeases on the table. */
  function RowsExpired(rows: Leases, now: int): Leases {
    map id | id in rows :: ExpireIf(rows[id], Overdue(rows[id], now), now)
  }

  /** What GetActiveLeases returns. */
  function ActiveRows(rows: Leases, now: int): Leases {
    map id | id in rows && Live(rows[id], now) :: rows[id]
  }

  lemma {:induction false} LoadOne(before: Leases, rows: Leases, todo: set<LeaseId>, id: LeaseId, now: int)
    requires todo <= rows.Keys && id in todo
    ensures before + ActiveRows(rows - (todo - {id}), now) ==
            if Live(rows[id], now) then (before + ActiveRows(rows - todo, now))[id := rows[id]] else before + ActiveRows(rows - todo, now)
  {
    assert ActiveRows(rows - (todo - {id}), now) ==
           if Live(rows[id], now) then ActiveRows(rows - todo, now)[id := rows[id]] else ActiveRows(rows - todo, now);
  }

  /** Expiring leaves no active lease overdue, in memory or, where written, in the table, and changes nothing else. */
  lemma {:induction false} ExpiryExact(c: Controller, now: int, saved: set<LeaseId>, id: LeaseId)
    ensures var after := CleanedUp(c, now, saved, c.leases.Keys);
            && after.leases.Keys == c.leases.Keys && after.rows.Keys == c.rows.Keys
            && (id in c.leases && c.leases[id].status == Active && c.leases[id].expiresAt < now ==>
                  after.leases[id] == c.leases[id].(status := Expired, completedAt := Some(now))
                  && (id in c.rows && id in saved ==> after.rows[id] == c.rows[id].(status := Expired, completedAt := Some(now))))
            && (id in c.leases && !(c.leases[id].status == Active && c.leases[id].expiresAt < now) ==> after.leases[id] == c.leases[id])
            && (id in c.rows && (id !in c.leases || id !in saved || after.leases[id] == c.leases[id]) ==> after.rows[id] == c.rows[id])
    ensures var rows := RowsExpired(c.rows, now);
            rows.Keys == c.rows.Keys &&
            (id in rows ==> rows[id] == if c.rows[id].status == Active && c.rows[id].expiresAt < now
                                        then c.rows[id].(status := Expired, completedAt := Some(now)) else c.rows[id])
  {
  }

  // ----- The table -----

  class SQLiteStorage {
    var rows: Leases

    constructor ()
      ensures rows == map[]
    {
      rows := map[];
    }

    method SaveLease(id: LeaseId, lease: Lease, writeOk: bool) returns (ok: bool)
      modifies this
      ensures ok == writeOk
      ensures rows == if writeOk then old(rows)[id := lease.(completedAt := None)] else old(rows)
    {
      if writeOk {
        rows := rows[id := lease.(completedAt := None)];
      }
      return writeOk;
    }

    method UpdateLeaseStatus(id: LeaseId, status: LeaseStatus, now: int, writeOk: bool) returns (ok: bool)
      modifies this
      ensures ok == writeOk
      ensures rows == if writeOk then StatusSet(old(rows), id, status, now) else old(rows)
    {
      var completedAt := None;
      if status == Completed || status == Expired || status == Cancelled {
        completedAt := Some(now);
      }
      if writeOk && id in rows {
        rows := rows[id := rows[id].(status := status, completedAt := completedAt)];
      }
      return writeOk;
    }

    method ExpireLeases(now: int)
      modifies this
      ensures rows == RowsExpired(old(rows), now)
    {
      rows := map id | id in rows ::
        if rows[id].status == Active && rows[id].expiresAt < now
        then rows[id].(status := Expired, completedAt := Some(now)) else rows[id];
    }

    /** The most recent finished lease of the node, NULL completion times sorting last. */
    method GetLastCompletedLease(node: string) returns (last: Option<Lease>)
      ensures last.None? <==> forall id :: id in rows ==> !FinishedFor(rows[id], node)
      ensures last.Some? ==> FinishedFor(last.value, node) && exists id :: id in rows && rows[id] == last.value
      ensures last.Some? ==> forall id :: id in rows && FinishedFor(rows[id], node) && rows[id].completedAt.Some? ==>
                last.value.completedAt.Some? && rows[id].completedAt.value <= last.value.completedAt.value
    {
      last := None;
      var todo := rows.Keys;
      while todo != {}
        invariant todo <= rows.Keys
        invariant last.None? <==> forall id :: id in rows && id !in todo ==> !FinishedFor(rows[id], node)
        invariant last.Some? ==> FinishedFor(last.value, node) && exists id :: id in rows && rows[id] == last.value
        invariant last.Some? ==> forall id :: id in rows && id !in todo && FinishedFor(rows[id], node) && rows[id].completedAt.Some? ==>
                    last.value.completedAt.Some? && rows[id].completedAt.value <= last.value.completedAt.value
        decreases |todo|
      {
        var id :| id in todo;
        todo := todo - {id};
        var row := rows[id];
        if FinishedFor(row, node) {
          if last.None? || last.value.completedAt.None?
             || (row.completedAt.Some? && last.value.completedAt.value < row.completedAt.value) {
            last := Some(row);
          }
        }
      }
    }
  }

  // ----- The server -----

  datatype Reply = BadRequest | Approved(id: LeaseId, expiresAt: int) | TooManyRequests | Conflict(id: LeaseId) | Cooldown(until: int)

  class Server {
    const config: Coordination
    const storage: SQLiteStorage
    var leases: Leases

    ghost function Model(): Controller
      reads this, storage
    {
      Controller(leases, storage.rows)
    }

    constructor (config: Coordination, storage: SQLiteStorage)
      ensures this.config == config && this.storage == storage && Model() == Controller(map[], storage.rows)
    {
      this.config, this.storage, leases := config, storage, map[];
    }

    method CountLive(now: int) returns (count: nat)
      ensures count == |LiveIds(leases, now)|
    {
      count := 0;
      var todo := leases.Keys;
      ghost var done := {};
      while todo != {}
        invariant done !! todo && done + todo == leases.Keys
        invariant count == |LiveIds(leases, now) * done|
        decreases |todo|
      {
        var id :| id in todo;
        todo := todo - {id};
        if Live(leases[id], now) {
          assert LiveIds(leases, now) * (done + {id}) == LiveIds(leases, now) * done + {id};
          count := count + 1;
        } else {
          assert LiveIds(leases, now) * (done + {id}) == LiveIds(leases, now) * done;
        }
        done := done + {id};
      }
      assert LiveIds(leases, now) * done == LiveIds(leases, now);
    }

    method FindNodeLease(node: string, now: int) returns (found: Option<LeaseId>)
      ensures found.Some? <==> NodeHasLease(leases, node, now)
      ensures found.Some? ==> found.value in leases && leases[found.value].node == node && Live(leases[found.value], now)
    {
      var todo := leases.Keys;
      while todo != {}
        invariant todo <= leases.Keys
        invariant forall id :: id in leases && id !in todo ==> !(leases[id].node == node && Live(leases[id], now))
        decreases |todo|
      {
        var id :| id in todo;
        todo := todo - {id};
        if leases[id].node == node && Live(leases[id], now) {
          return Some(id);
        }
      }
      return None;
    }

    /** The reply follows Decision, and only a grant changes anything. */
    method RequestLease(node: string, kind: string, requested: Option<int>, now: int, id: LeaseId,
                        readOk: bool, writeOk: bool) returns (reply: Reply)
      modifies this, storage
      ensures reply.BadRequest? <==> node == "" || kind == ""
      ensures !reply.BadRequest? ==>
                match Decision(old(Model()), config, node, now, readOk)
                case Grant => reply == Approved(id, NewLease(config, node, kind, requested, now).expiresAt)
                case AtCapacity => reply == TooManyRequests
                case NodeBusy => reply.Conflict? && reply.id in LiveIds(leases, now) && leases[reply.id].node == node
                case InCooldown => reply.Cooldown? && now < reply.until && CooldownEnds(storage.rows, node, config.cooldown, reply.until)
      ensures reply.Approved? ==>
                reply.expiresAt == now + (if requested.Some? then requested.value else config.defaultDuration)
                && id in leases && leases[id] == Lease(node, kind, now, reply.expiresAt, Active, None)
      ensures Model() == if reply.Approved?
                         then Granted(old(Model()), id, NewLease(config, node, kind, requested, now), writeOk)
                         else old(Model())
    {
      if node == "" || kind == "" {
        return BadRequest;
      }
      var activeCount := CountLive(now);
      if activeCount >= config.maxConcurrent {
        return TooManyRequests;
      }
      var held := FindNodeLease(node, now);
      if held.Some? {
        return Conflict(held.value);
      }
      if config.cooldown > 0 && readOk {
        var last := storage.GetLastCompletedLease(node);
        if last.Some? && last.value.completedAt.Some? {
          var cooldownEnds := last.value.completedAt.value + config.cooldown;
          if now < cooldownEnds {
            return Cooldown(cooldownEnds);
          }
        }
      }
      var duration := config.defaultDuration;
      if requested.Some? {
        duration := requested.value;
      }
      var lease := Lease(node, kind, now, now + duration, Active, None);
      leases := leases[id := lease];
      var _ := storage.SaveLease(id, lease, writeOk);
      return Approved(id, lease.expiresAt);
    }

    /** First half of releaseLease, under the lock. */
    method ReleaseInMemory(id: LeaseId) returns (found: bool)
      modifies this
      ensures found <==> id in old(leases)
      ensures Model() == Released(old(Model()), id)
    {
      if id !in leases {
        return false;
      }
      leases := leases[id := leases[id].(status := Completed)];
      return true;
    }

    /** Second half of releaseLease, after the lock is dropped. */
    method CompleteInStorage(id: LeaseId, now: int, writeOk: bool)
      modifies storage
      ensures Model() == old(Model()).(rows := if writeOk then StatusSet(old(storage.rows), id, Completed, now) else old(storage.rows))
    {
      var _ := storage.UpdateLeaseStatus(id, Completed, now, writeOk);
    }

    method CleanupExpiredLeases(now: int, saved: set<LeaseId>)
      modifies this, storage
      ensures Model() == CleanedUp(old(Model()), now, saved, old(leases).Keys)
    {
      ghost var before := Model();
      var todo := leases.Keys;
      ghost var done := {};
      CleanNone(before, now, saved);
      hide CleanedUp;
      while todo != {}
        invariant done !! todo && done + todo == before.leases.Keys
        invariant Model() == CleanedUp(before, now, saved, done)
        decreases |todo|
      {
        var id :| id in todo;
        todo := todo - {id};
        CleanOne(before, now, saved, done, id);
        done := done + {id};
        if leases[id].status == Active && leases[id].expiresAt < now {
          leases := leases[id := leases[id].(status := Expired, completedAt := Some(now))];
          var _ := storage.UpdateLeaseStatus(id, Expired, now, id in saved);
        }
      }
    }

    /** An unreadable table leaves the memory as it was. */
    method RehydrateFromStorage(now: int, readOk: bool)
      modifies this
      ensures Model() == Controller(if readOk then old(leases) + ActiveRows(storage.rows, now) else old(leases), old(storage.rows))
    {
      if !readOk {
        return;
      }
      var todo := storage.rows.Keys;
      ghost var before := leases;
      while todo != {}
        invariant todo <= storage.rows.Keys
        invariant leases == before + ActiveRows(storage.rows - todo, now)
        decreases |todo|
      {
        var id :| id in todo;
        LoadOne(before, storage.rows, todo, id, now);
        todo := todo - {id};
        hide ActiveRows;
        if Live(storage.rows[id], now) {
          leases := leases[id := storage.rows[id]];
        }
      }
      assert storage.rows - {} == storage.rows;
    }
  }
}
