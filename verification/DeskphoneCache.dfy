/**
 The deskphone cache as the object it is. Each method is one step of the protocol, or one uninterrupted stretch of
 the writer's own work, and says so by equating the new view of the object with the protocol's step.
 */
module DeskphoneCache {
  import opened Basics
  import opened Text
  import opened EndpointTable
  import opened CacheProtocol

  class Cache {
    const expiry: nat
    /** The bound parameters of the writer's insert statement, filled in place and kept between rows. */
    const params: array<SqlValue>
    var batch: seq<Op>
    var run: bool
    var pc: Pc
    var working: seq<Op>
    /** The table inside the writer's open transaction, and the table every other connection reads. */
    var staged: Table
    var committed: Table
    var pending: map<nat, Pending>
    ghost var initial: Table
    ghost var log: seq<Op>
    ghost var batches: seq<seq<Op>>

    ghost predicate Valid()
      reads this
    {
      params.Length == 8
    }

    ghost function View(): State
      requires Valid()
      reads this, params
    {
      State(expiry, run, batch, pc, working, Db(params[..], staged), committed, pending, initial, log, batches)
    }

    constructor (stored: Table, expiry: nat)
      ensures Valid() && fresh(params)
      ensures View() == Init(stored, expiry)
    {
      this.expiry := expiry;
      params := new SqlValue[8](_ => Null);
      batch, run, pc, working := [], true, AtTest, [];
      staged, committed, pending := ExpireAll(stored), ExpireAll(stored), map[];
      initial, log, batches := ExpireAll(stored), [], [];
      new;
      assert params[..] == BLANK;
    }

    /** Opens the cache with the configured liveliness, in minutes and never less than an hour; the clock ticks in ns. */
    static method Create(stored: Table, minutes: nat) returns (cache: Cache)
      ensures fresh(cache) && cache.Valid() && fresh(cache.params)
      ensures cache.expiry == (if minutes < 60 then 60 else minutes) * 60_000_000_000
      ensures cache.View() == Init(stored, cache.expiry)
    {
      cache := new Cache(stored, (if minutes < 60 then 60 else minutes) * 60_000_000_000);
    }

    /** First half of addEndpoint: the lookup in the committed table. */
    method CheckEndpoint(caller: nat, aor: string, endpoint: string, now: int)
      requires Valid() && Enabled(View(), AddRead(caller, aor, endpoint, now))
      modifies this
      ensures Valid() && View() == Step(old(View()), AddRead(caller, aor, endpoint, now))
    {
      var key := Key(aor, endpoint);
      var found := key in committed && committed[key].expiry > now;
      pending := pending[caller := Pending(aor, endpoint, now, found)];
    }

    /** Second half of addEndpoint: the enqueue under the batch mutex, and the answer. */
    method EnqueueEndpoint(caller: nat) returns (isNew: bool)
      requires Valid() && Enabled(View(), AddEnqueue(caller))
      modifies this
      ensures Valid() && View() == Step(old(View()), AddEnqueue(caller))
      ensures isNew == !old(pending)[caller].known
      ensures var p := old(pending)[caller]; batch == old(batch) + [Insert(p.aor, p.endpoint, p.now + expiry)]
    {
      var p := pending[caller];
      batch := batch + [Insert(p.aor, p.endpoint, p.now + expiry)];
      log := log + [Insert(p.aor, p.endpoint, p.now + expiry)];
      pending := pending - {caller};
      isNew := !p.known;
    }

    method DeleteEndpoint(aor: string, ip: string)
      requires Valid()
      modifies this
      ensures Valid() && View() == Step(old(View()), DeleteEnqueue(aor, ip))
      ensures batch == old(batch) + [Remove(aor, ip)]
    {
      batch := batch + [Remove(aor, ip)];
      log := log + [Remove(aor, ip)];
    }

    /** Each AoR with a live endpoint is visited once, and no other. */
    method ForEachAor(now: int) returns (visited: seq<string>)
      requires Valid()
      ensures NoDup(visited)
      ensures forall aor :: aor in visited <==> exists endpoint :: Live(committed, Key(aor, endpoint), now)
      ensures forall aor :: aor in visited <==> exists k :: k in committed && k.aor == aor && committed[k].expiry > now
    {
      var rows := set k | k in committed && committed[k].expiry > now :: k.aor;
      assert forall aor :: aor in rows <==> exists endpoint :: Live(committed, Key(aor, endpoint), now) by {
        forall aor ensures aor in rows <==> exists endpoint :: Live(committed, Key(aor, endpoint), now) {
          if aor in rows {
            var k :| k in committed && committed[k].expiry > now && k.aor == aor;
            assert Live(committed, Key(aor, k.endpoint), now);
          }
        }
      }
      ghost var all := rows;
      visited := [];
      while rows != {}
        invariant NoDup(visited)
        invariant rows <= all && SetOf(visited) == all - rows
        decreases |rows|
      {
        var aor :| aor in rows;
        assert aor !in SetOf(visited);
        NoDupSnoc(visited, aor);
        visited := visited + [aor];
        rows := rows - {aor};
      }
      assert forall aor :: aor in visited <==> aor in SetOf(visited);
    }

    // ---------- The writer thread ----------

    /** The loop condition of the service loop. */
    method TestRunFlag() returns (continuing: bool)
      requires Valid() && Enabled(View(), TestRun)
      modifies this
      ensures Valid() && View() == Step(old(View()), TestRun)
      ensures continuing == pc.AtWait?
    {
      pc := if run then AtWait else Exited;
      continuing := pc.AtWait?;
    }

    /** The wake-up: the queue is swapped with the empty working batch, and BEGIN is executed. */
    method SwapBatch()
      requires Valid() && Enabled(View(), Swap)
      modifies this
      ensures Valid() && View() == Step(old(View()), Swap)
    {
      batch, working := [], batch;
      pc := Writing(0);
    }

    /** Binds one parameter of the insert statement; the statement has parameters 1 to 7 only. */
    method BindValue(slot: int, value: SqlValue)
      requires Valid()
      modifies params
      ensures params[..] == if 1 <= slot < 8 then old(params[..])[slot := value] else old(params[..])
    {
      if 1 <= slot < 8 {
        params[slot] := value;
      }
    }

    /** Splits an endpoint and binds its fields from slot `first` on; slots it has no field for are not touched. */
    method BindFields(first: int, endpoint: string)
      requires Valid() && first == 4
      modifies params
      ensures forall i :: 1 <= i < 8 ==>
                params[i] == if first <= i < first + |Fields(endpoint)| then Parse(endpoint, i) else old(params[i])
      ensures params[0] == old(params[0])
    {
      var fields := Fields(endpoint);
      var idx := first;
      for k := 0 to |fields|
        invariant idx == first + k
        invariant forall i :: 1 <= i < 8 ==>
                    params[i] == if first <= i < idx then Parse(endpoint, i) else old(params[i])
        invariant params[0] == old(params[0])
      {
        var field := fields[k];
        ghost var before := params[..];
        if idx != 7 {
          BindValue(idx, Txt(field));
        } else {
          match FromChars(field)
          case Number(port) => BindValue(idx, Int(port));
          case _ => BindValue(idx, Null);
        }
        assert forall i :: 0 <= i < 8 ==> params[i] == params[..][i] && before[i] == if i == idx then before[i] else params[i];
        idx := idx + 1;
      }
    }

    /** Executes one insert inside the open transaction. */
    method ExecuteInsert(op: Op)
      requires Valid() && op.Insert?
      modifies this`staged, params
      ensures Db(params[..], staged) == Apply(Db(old(params[..]), old(staged)), op)
    {
      BindValue(1, Txt(op.aor));
      BindValue(2, Txt(op.endpoint));
      BindValue(3, Int(op.expiry));
      ghost var before := params[..];
      BindFields(4, op.endpoint);
      assert params[..] == Bound(old(params[..]), op) by {
        assert forall i :: 0 <= i < 8 ==> params[..][i] == params[i];
      }
      if params[6] != Null {
        staged := staged[Key(op.aor, op.endpoint) := Row(op.expiry, params[4], params[5], params[6], params[7])];
      }
    }

    /** The writer's loop over its batch. */
    method WriteRows()
      requires Valid() && pc == Writing(0)
      modifies this`staged, this`pc, params
      ensures Valid() && View() == Written(old(View()))
    {
      var i := 0;
      assert working[0..0] == [];
      while i < |working|
        invariant 0 <= i <= |working| && pc == Writing(i)
        invariant Db(params[..], staged) == Fold(Db(old(params[..]), old(staged)), working[..i])
      {
        var data := working[i];
        assert working[..i + 1][..i] == working[..i];
        if data.Insert? {
          ExecuteInsert(data);
        } else {
          staged := ExpireByIp(staged, data.aor, data.ip);
        }
        i := i + 1;
        pc := Writing(i);
      }
      assert working[..i] == working[0..];
    }

    method CommitBatch()
      requires Valid() && Enabled(View(), Commit)
      modifies this
      ensures Valid() && View() == Step(old(View()), Commit)
    {
      batches := batches + [working];
      working := [];
      committed := staged;
      pc := AtTest;
    }

    /** One turn of the service loop, left alone by the other threads. */
    method ServiceTurn()
      requires Valid() && pc.AtWait? && (!run || batch != [])
      requires staged == committed && working == []
      modifies this, params
      ensures Valid() && pc.AtTest? && batch == [] && working == []
      ensures Db(params[..], committed) == Fold(Db(old(params[..]), old(committed)), old(batch))
      ensures staged == committed && batches == old(batches) + [old(batch)] && log == old(log)
    {
      SwapBatch();
      assert working[0..] == working;
      WriteRows();
      CommitBatch();
    }

    // ---------- Shutdown ----------

    method ClearRunFlag()
      requires Valid()
      modifies this`run
      ensures Valid() && View() == Step(old(View()), Stop)
    {
      run := false;
    }

    /** The destructor's DELETE, after the writer has been joined. */
    method ExpungeExpired(now: int)
      requires Valid() && pc.Exited?
      modifies this`committed
      ensures committed == Expunge(old(committed), now)
      ensures forall key :: key in committed <==> key in old(committed) && now <= old(committed)[key].expiry
      ensures forall key, t :: t >= now ==> Live(committed, key, t) == Live(old(committed), key, t)
    {
      committed := Expunge(committed, now);
    }
  }
}
