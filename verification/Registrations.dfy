/**
 What a lookup answers, in terms of the calls that were made: the log, the batches and the table are only how the
 program gets there. A registration is a caller's lookup and the enqueue that completes it.
 */
module Registrations {
  import opened Text
  import opened EndpointTable
  import opened CacheProtocol

  /** Caller `c` looked `key` up at time `n` in step `from`, and step `at` is the enqueue that belongs to it. */
  predicate Registers(actions: seq<Action>, from: int, at: int, c: nat, key: Key, n: int) {
    && 0 <= from < at < |actions|
    && actions[from] == AddRead(c, key.aor, key.endpoint, n)
    && actions[at] == AddEnqueue(c)
    && forall j :: from < j < at ==> actions[j] != AddEnqueue(c) && !(actions[j].AddRead? && actions[j].caller == c)
  }

  predicate IsEnqueue(a: Action) {
    a.AddEnqueue? || a.DeleteEnqueue?
  }

  /** Number of enqueues among the steps. */
  function Enqueued(actions: seq<Action>): nat {
    if actions == [] then 0
    else Enqueued(actions[..|actions| - 1]) + if IsEnqueue(actions[|actions| - 1]) then 1 else 0
  }

  /** The enqueue in step `j` is in the table that readers see. */
  predicate Committed(s: State, actions: seq<Action>, j: int) {
    0 <= j < |actions| && IsEnqueue(actions[j]) && Enqueued(actions[..j]) < |Flatten(s.batches)|
  }

  // ---------- Runs, one step longer ----------

  lemma {:induction false} LastStep(s: State, actions: seq<Action>, t: State) returns (mid: State)
    requires actions != [] && Reaches(s, actions, t)
    ensures Reaches(s, actions[..|actions| - 1], mid)
    ensures Enabled(mid, actions[|actions| - 1]) && t == Step(mid, actions[|actions| - 1])
    decreases |actions|
  {
    hide Enabled, Step;
    if |actions| == 1 {
      mid := s;
      assert Reaches(Step(s, actions[0]), [], t);
    } else {
      var rest := actions[1..];
      mid := LastStep(Step(s, actions[0]), rest, t);
      var front := actions[..|actions| - 1];
      assert front[1..] == rest[..|rest| - 1];
    }
  }

  lemma {:induction false} EnqueuedUpTo(actions: seq<Action>, j: nat, k: nat)
    requires j < k <= |actions|
    ensures Enqueued(actions[..j]) + (if IsEnqueue(actions[j]) then 1 else 0) <= Enqueued(actions[..k])
  {
    hide IsEnqueue;
    assert actions[..k][..k - 1] == actions[..k - 1];
    if j < k - 1 {
      EnqueuedUpTo(actions, j, k - 1);
    }
  }

  /** The enqueue that made the log's entry number `m`. */
  lemma {:induction false} EnqueueOf(actions: seq<Action>, m: nat) returns (j: nat)
    requires m < Enqueued(actions)
    ensures j < |actions| && IsEnqueue(actions[j]) && Enqueued(actions[..j]) == m
  {
    hide IsEnqueue;
    var n := |actions| - 1;
    if IsEnqueue(actions[n]) && Enqueued(actions[..n]) == m {
      j := n;
    } else {
      j := EnqueueOf(actions[..n], m);
      assert actions[..n][..j] == actions[..j];
    }
  }

  // ---------- What the calls leave in the log ----------

  /** Step `from` is the caller's lookup, and it has not been completed. */
  predicate IsPending(actions: seq<Action>, from: int, c: nat, p: Pending) {
    && 0 <= from < |actions|
    && actions[from] == AddRead(c, p.aor, p.endpoint, p.now)
    && forall j :: from < j < |actions| ==> actions[j] != AddEnqueue(c) && !(actions[j].AddRead? && actions[j].caller == c)
  }

  /** What step `j` has put into the log. */
  ghost predicate LoggedBy(expiry: nat, actions: seq<Action>, j: int, op: Op)
    requires 0 <= j < |actions|
  {
    match actions[j]
    case DeleteEnqueue(aor, ip) => op == Remove(aor, ip)
    case AddEnqueue(c) =>
      op.Insert? && exists from, n :: Registers(actions, from, j, c, KeyOf(op), n) && op.expiry == n + expiry
    case _ => false
  }

  ghost predicate Traced(expiry: nat, actions: seq<Action>, s: State) {
    && s.expiry == expiry
    && |s.log| == Enqueued(actions)
    && (forall c :: c in s.pending ==> exists from :: IsPending(actions, from, c, s.pending[c]))
    && forall j :: 0 <= j < |actions| && IsEnqueue(actions[j]) ==>
         Enqueued(actions[..j]) < |s.log| && LoggedBy(expiry, actions, j, s.log[Enqueued(actions[..j])])
  }

  lemma LoggedByLonger(expiry: nat, actions: seq<Action>, a: Action, j: nat, op: Op)
    requires j < |actions| && LoggedBy(expiry, actions, j, op)
    ensures LoggedBy(expiry, actions + [a], j, op)
  {
    var more := actions + [a];
    if actions[j].AddEnqueue? {
      var from, n :| Registers(actions, from, j, actions[j].caller, KeyOf(op), n) && op.expiry == n + expiry;
      assert Registers(more, from, j, actions[j].caller, KeyOf(op), n);
    }
  }

  lemma PendingLonger(actions: seq<Action>, a: Action, s: State, c: nat)
    requires Enabled(s, a) && c in Step(s, a).pending
    requires c in s.pending ==> exists from :: IsPending(actions, from, c, s.pending[c])
    ensures exists from :: IsPending(actions + [a], from, c, Step(s, a).pending[c])
  {
    hide Live;
    var more := actions + [a];
    if c in s.pending {
      var from :| IsPending(actions, from, c, s.pending[c]);
      assert Step(s, a).pending[c] == s.pending[c];
      assert IsPending(more, from, c, s.pending[c]);
    } else {
      assert IsPending(more, |actions|, c, Step(s, a).pending[c]);
    }
  }

  /** The step's own entry in the log, when it makes one. */
  lemma StepLogs(expiry: nat, actions: seq<Action>, a: Action, s: State)
    requires Enabled(s, a) && IsEnqueue(a) && s.expiry == expiry
    requires forall c :: c in s.pending ==> exists from :: IsPending(actions, from, c, s.pending[c])
    ensures |Step(s, a).log| == |s.log| + 1 && LoggedBy(expiry, actions + [a], |actions|, Step(s, a).log[|s.log|])
  {
    if a.AddEnqueue? {
      var from :| IsPending(actions, from, a.caller, s.pending[a.caller]);
      var p, op, more := s.pending[a.caller], Step(s, a).log[|s.log|], actions + [a];
      assert more[|actions|] == a && KeyOf(op) == Key(p.aor, p.endpoint);
      assert Registers(more, from, |actions|, a.caller, KeyOf(op), p.now);
    }
  }

  lemma TracedStep(expiry: nat, actions: seq<Action>, s: State, a: Action)
    requires Traced(expiry, actions, s) && Enabled(s, a)
    ensures Traced(expiry, actions + [a], Step(s, a))
  {
    hide LoggedBy, IsPending;
    var more, t, n := actions + [a], Step(s, a), |actions|;
    assert more[..n] == actions;
    if IsEnqueue(a) {
      StepLogs(expiry, actions, a, s);
    }
    assert s.log <= t.log;
    forall c | c in t.pending ensures exists from :: IsPending(more, from, c, t.pending[c]) {
      PendingLonger(actions, a, s, c);
    }
    forall j: int | 0 <= j < n && IsEnqueue(more[j])
      ensures Enqueued(more[..j]) < |t.log| && LoggedBy(expiry, more, j, t.log[Enqueued(more[..j])])
    {
      assert more[..j] == actions[..j];
      LoggedByLonger(expiry, actions, a, j, s.log[Enqueued(actions[..j])]);
    }
  }

  lemma {:induction false} RunIsTraced(table: Table, expiry: nat, actions: seq<Action>, s: State)
    requires Reaches(Init(table, expiry), actions, s)
    ensures Traced(expiry, actions, s)
    decreases |actions|
  {
    hide Step, Enabled;
    if actions != [] {
      var n := |actions| - 1;
      var mid := LastStep(Init(table, expiry), actions, s);
      RunIsTraced(table, expiry, actions[..n], mid);
      TracedStep(expiry, actions[..n], mid, actions[n]);
      assert actions[..n] + [actions[n]] == actions;
    }
  }

  lemma RunFacts(table: Table, expiry: nat, actions: seq<Action>, s: State)
    requires Reaches(Init(table, expiry), actions, s)
    ensures Inv(s) && Traced(expiry, actions, s)
  {
    RunKeepsInv(Init(table, expiry), actions, s);
    RunIsTraced(table, expiry, actions, s);
  }

  /** A completed lookup belongs to one enqueue only. */
  lemma OneRegistration(actions: seq<Action>, at: int, f: int, c: nat, key: Key, n: int, g: int, d: nat, other: Key, m: int)
    requires Registers(actions, f, at, c, key, n) && Registers(actions, g, at, d, other, m)
    ensures f == g && c == d && key == other && n == m
  {
  }

  // ---------- Committed entries and committed enqueues ----------

  /** Entry `i` of the committed log and step `j` are the same operation. */
  predicate Same(s: State, actions: seq<Action>, j: int, i: int) {
    0 <= i < |Done(s)| && Committed(s, actions, j) && Enqueued(actions[..j]) == i
  }

  lemma EntryOfStep(expiry: nat, actions: seq<Action>, s: State, j: int)
    requires Inv(s) && Traced(expiry, actions, s) && Committed(s, actions, j)
    ensures Same(s, actions, j, Enqueued(actions[..j]))
    ensures LoggedBy(expiry, actions, j, Done(s)[Enqueued(actions[..j])])
  {
    assert s.log[Enqueued(actions[..j])] == Done(s)[Enqueued(actions[..j])];
  }

  lemma StepOfEntry(expiry: nat, actions: seq<Action>, s: State, i: nat) returns (j: nat)
    requires Inv(s) && Traced(expiry, actions, s) && i < |Done(s)|
    ensures Same(s, actions, j, i) && LoggedBy(expiry, actions, j, Done(s)[i])
  {
    j := EnqueueOf(actions, i);
    EntryOfStep(expiry, actions, s, j);
  }

  /** Operations are committed in the order of their enqueues. */
  lemma SameOrder(actions: seq<Action>, s: State, j: int, i: int, k: int, l: int)
    requires Same(s, actions, j, i) && Same(s, actions, k, l)
    ensures j < k <==> i < l
  {
    if j < k {
      EnqueuedUpTo(actions, j, k);
    } else if k < j {
      EnqueuedUpTo(actions, k, j);
    }
  }

  /** A committed step is an insert of the key iff it completes a registration of it, and a remove iff it asks for one. */
  lemma EntryMeans(expiry: nat, actions: seq<Action>, s: State, j: int, i: int, key: Key)
    requires Inv(s) && Traced(expiry, actions, s) && Same(s, actions, j, i)
    ensures Inserts(Done(s)[i], key) <==> exists f, c, n :: Registers(actions, f, j, c, key, n)
    ensures forall f, c, n :: Registers(actions, f, j, c, key, n) ==>
              Inserts(Done(s)[i], key) && Done(s)[i].expiry == n + expiry
    ensures forall aor, ip :: Done(s)[i] == Remove(aor, ip) <==> actions[j] == DeleteEnqueue(aor, ip)
  {
    EntryOfStep(expiry, actions, s, j);
    var op := Done(s)[i];
    if actions[j].AddEnqueue? {
      var g, m :| Registers(actions, g, j, actions[j].caller, KeyOf(op), m) && op.expiry == m + expiry;
      forall f, c, n | Registers(actions, f, j, c, key, n)
        ensures Inserts(op, key) && op.expiry == n + expiry
      {
        OneRegistration(actions, j, f, c, key, n, g, actions[j].caller, KeyOf(op), m);
      }
    }
  }

  // ---------- What a lookup answers ----------

  /**
   A phone is answered as known only after a registration of the same AoR and endpoint, at a time `n` that the time of
   the lookup is less than one expiry after.
   */
  lemma KnownMeansRegistered(table: Table, expiry: nat, actions: seq<Action>, s: State,
                             caller: nat, aor: string, endpoint: string, t: int)
    requires Reaches(Init(table, expiry), actions, s) && Enabled(s, AddRead(caller, aor, endpoint, t))
    requires Step(s, AddRead(caller, aor, endpoint, t)).pending[caller].known
    ensures exists from, at, c, n ::
              Registers(actions, from, at, c, Key(aor, endpoint), n) && Committed(s, actions, at) && t < n + expiry
  {
    hide Committed, Registers, LoggedBy, Fold;
    var key := Key(aor, endpoint);
    RunFacts(table, expiry, actions, s);
    ReadIsJustified(s, key, t);
    var i :| 0 <= i < |Done(s)| && Inserts(Done(s)[i], key) && Done(s)[i].expiry > t;
    var j := StepOfEntry(expiry, actions, s, i);
    EntryMeans(expiry, actions, s, j, i, key);
    var f, c, n :| Registers(actions, f, j, c, key, n);
  }

  /** After step `at` a committed step registered the phone again, or a manual expiry named its AoR and this ip. */
  ghost predicate Overtaken(s: State, actions: seq<Action>, at: int, key: Key, ip: string) {
    exists j :: at < j < |actions| && Committed(s, actions, j)
                && (actions[j] == DeleteEnqueue(key.aor, ip) || Completes(actions, j, key))
  }

  ghost predicate Completes(actions: seq<Action>, j: int, key: Key) {
    exists f, c, n :: Registers(actions, f, j, c, key, n)
  }

  /** Nothing overtook a committed step: exactly if no later entry of the committed log concerns the phone. */
  lemma OvertakenEntries(expiry: nat, actions: seq<Action>, s: State, at: int, i: int, key: Key, ip: string)
    requires Inv(s) && Traced(expiry, actions, s) && Same(s, actions, at, i)
    ensures Overtaken(s, actions, at, key, ip) <==>
              exists l :: i < l < |Done(s)| && (Inserts(Done(s)[l], key) || Done(s)[l] == Remove(key.aor, ip))
  {
    hide Inv, Traced, Registers, LoggedBy, Inserts;
    if Overtaken(s, actions, at, key, ip) {
      var j :| at < j < |actions| && Committed(s, actions, j)
               && (actions[j] == DeleteEnqueue(key.aor, ip) || Completes(actions, j, key));
      var l := Enqueued(actions[..j]);
      EntryOfStep(expiry, actions, s, j);
      hide Same, Committed;
      EntryMeans(expiry, actions, s, j, l, key);
      SameOrder(actions, s, at, i, j, l);
      EntryRange(actions, s, j, l);
    }
    if l :| i < l < |Done(s)| && (Inserts(Done(s)[l], key) || Done(s)[l] == Remove(key.aor, ip)) {
      var j := StepOfEntry(expiry, actions, s, l);
      EntryMeans(expiry, actions, s, j, l, key);
      SameOrder(actions, s, at, i, j, l);
    }
  }

  lemma EntryRange(actions: seq<Action>, s: State, j: int, l: int)
    requires Same(s, actions, j, l)
    ensures 0 <= j < |actions| && 0 <= l < |Done(s)| && Committed(s, actions, j)
  {
  }

  lemma LastEntryDecides(ops: seq<Op>, table: Table, key: Key, t: int, i: nat)
    requires AllExpired(table) && t >= 0 && |Fields(key.endpoint)| >= 3
    requires i < |ops| && Inserts(ops[i], key)
    requires forall l :: i < l < |ops| ==> !Inserts(ops[l], key) && ops[l] != Remove(key.aor, Fields(key.endpoint)[2])
    ensures Live(Fold(Db(BLANK, table), ops).table, key, t) <==> t < ops[i].expiry
  {
    hide Fold, Fields, Live, Split;
    LiveByOwnIp(ops, table, key, t);
    var ip := Fields(key.endpoint)[2];
    assert !RemovedAfter(ops, key, i, ip);
    if k: nat :| k < |ops| && Inserts(ops[k], key) && ops[k].expiry > t
                 && (forall j :: k < j < |ops| ==> !Inserts(ops[j], key)) && !RemovedAfter(ops, key, k, ip) {
      assert k == i;
    }
  }

  /** A committed registration that nothing has overtaken decides every lookup: known until one expiry has passed. */
  lemma RegistrationDecides(table: Table, expiry: nat, actions: seq<Action>, s: State,
                            from: int, at: int, c: nat, n: int, caller: nat, aor: string, endpoint: string, t: int)
    requires Reaches(Init(table, expiry), actions, s) && Enabled(s, AddRead(caller, aor, endpoint, t))
    requires |Split(endpoint, '/')| >= 3
    requires Registers(actions, from, at, c, Key(aor, endpoint), n) && Committed(s, actions, at)
    requires !Overtaken(s, actions, at, Key(aor, endpoint), Split(endpoint, '/')[2])
    ensures Step(s, AddRead(caller, aor, endpoint, t)).pending[caller].known <==> t < n + expiry
  {
    var key, i := Key(aor, endpoint), Enqueued(actions[..at]);
    hide Registers, LoggedBy, Fold, Committed, Overtaken, Reaches, Traced;
    RunFacts(table, expiry, actions, s);
    EntryOfStep(expiry, actions, s, at);
    EntryMeans(expiry, actions, s, at, i, key);
    OvertakenEntries(expiry, actions, s, at, i, key, Split(endpoint, '/')[2]);
    EntryRange(actions, s, at, i);
    hide Same, Live, Inserts;
    LastEntryDecides(Done(s), s.initial, key, t, i);
  }

  /**
   What a lookup of an endpoint with an ip field answers, exactly: the phone is known iff the last of its committed
   registrations that counts was made less than one expiry before, and no manual expiry of its AoR and own ip was
   committed after that.
   */
  lemma KnownExactly(table: Table, expiry: nat, actions: seq<Action>, s: State,
                     caller: nat, aor: string, endpoint: string, t: int)
    requires Reaches(Init(table, expiry), actions, s) && Enabled(s, AddRead(caller, aor, endpoint, t))
    requires |Split(endpoint, '/')| >= 3
    ensures Step(s, AddRead(caller, aor, endpoint, t)).pending[caller].known <==>
              exists from, at, c, n ::
                && Registers(actions, from, at, c, Key(aor, endpoint), n) && Committed(s, actions, at)
                && t < n + expiry
                && !Overtaken(s, actions, at, Key(aor, endpoint), Split(endpoint, '/')[2])
  {
    hide Registers, LoggedBy, Fold, Committed, Overtaken, Reaches, Traced;
    var key, ip := Key(aor, endpoint), Split(endpoint, '/')[2];
    if Step(s, AddRead(caller, aor, endpoint, t)).pending[caller].known {
      RunFacts(table, expiry, actions, s);
      LiveByOwnIp(Done(s), s.initial, key, t);
      var i: nat :| i < |Done(s)| && Inserts(Done(s)[i], key) && Done(s)[i].expiry > t
                    && (forall j :: i < j < |Done(s)| ==> !Inserts(Done(s)[j], key))
                    && !RemovedAfter(Done(s), key, i, ip);
      var at := StepOfEntry(expiry, actions, s, i);
      EntryMeans(expiry, actions, s, at, i, key);
      EntryRange(actions, s, at, i);
      OvertakenEntries(expiry, actions, s, at, i, key, ip);
      var from, c, n :| Registers(actions, from, at, c, key, n);
    }
    if from, at, c, n :| Registers(actions, from, at, c, key, n) && Committed(s, actions, at)
                         && t < n + expiry && !Overtaken(s, actions, at, key, ip) {
      RegistrationDecides(table, expiry, actions, s, from, at, c, n, caller, aor, endpoint, t);
    }
  }

  /** Every enqueue is committed once two more commits have happened. */
  lemma CommittedAfterTwo(table: Table, expiry: nat, actions: seq<Action>, s: State, more: seq<Action>, t: State, j: nat)
    requires Reaches(Init(table, expiry), actions, s) && Reaches(s, more, t) && |t.batches| >= |s.batches| + 2
    requires j < |actions| && IsEnqueue(actions[j])
    ensures Committed(t, actions + more, j)
  {
    RunFacts(table, expiry, actions, s);
    CommittedWithinTwo(s, more, t);
    hide Inv, Traced, Reaches, Flatten;
    assert (actions + more)[..j] == actions[..j];
    EnqueuedUpTo(actions, j, |actions|);
    assert actions[..|actions|] == actions;
  }
}
