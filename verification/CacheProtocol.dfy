/**
 The deskphone cache as a concurrent protocol. Callers read the committed table and enqueue writes without a lock in
 between; one writer thread swaps the queue out, applies it row by row inside a transaction and commits. A step is
 what happens under one lock, one atomic access or one statement of the writer's own transaction.
 */
module CacheProtocol {
  import opened EndpointTable

  /** A caller of addEndpoint between its read and its enqueue. */
  datatype Pending = Pending(aor: string, endpoint: string, now: int, known: bool)

  /** Where the writer thread stands: before the flag test, before the wait, writing row `next`, or gone. */
  datatype Pc = AtTest | AtWait | Writing(next: nat) | Exited

  /** `initial`, `log` and `batches` are history: the table at start, every operation enqueued, every batch committed. */
  datatype State = State(
    expiry: nat,
    run: bool,
    batch: seq<Op>,
    pc: Pc,
    working: seq<Op>,
    staged: Db,
    committed: Table,
    pending: map<nat, Pending>,
    initial: Table,
    log: seq<Op>,
    batches: seq<seq<Op>>)

  datatype Action =
    | AddRead(caller: nat, aor: string, endpoint: string, now: int)
    | AddEnqueue(caller: nat)
    | DeleteEnqueue(aor: string, ip: string)
    | TestRun
    | Swap
    | ApplyRow
    | Commit
    | Stop

  /** UPDATE endpoints SET expiry = 0, run once at start. */
  function ExpireAll(table: Table): (t: Table)
    ensures AllExpired(t) && t.Keys == table.Keys
  {
    map k | k in table :: Expired(table[k])
  }

  function Init(table: Table, expiry: nat): State {
    var start := ExpireAll(table);
    State(expiry, true, [], AtTest, [], Db(BLANK, start), start, map[], start, [], [])
  }

  predicate Enabled(s: State, a: Action) {
    match a
    case AddRead(caller, _, _, now) => caller !in s.pending && now >= 0
    case AddEnqueue(caller) => caller in s.pending
    case DeleteEnqueue(_, _) => true
    case TestRun => s.pc.AtTest?
    case Swap => s.pc.AtWait? && (!s.run || s.batch != [])
    case ApplyRow => s.pc.Writing? && s.pc.next < |s.working|
    case Commit => s.pc.Writing? && s.pc.next == |s.working|
    case Stop => true
  }

  function Enqueue(s: State, op: Op): State {
    s.(batch := s.batch + [op], log := s.log + [op])
  }

  function Step(s: State, a: Action): State
    requires Enabled(s, a)
  {
    match a
    case AddRead(caller, aor, endpoint, now) =>
      s.(pending := s.pending[caller := Pending(aor, endpoint, now, Live(s.committed, Key(aor, endpoint), now))])
    case AddEnqueue(caller) =>
      var p := s.pending[caller];
      Enqueue(s, Insert(p.aor, p.endpoint, p.now + s.expiry)).(pending := s.pending - {caller})
    case DeleteEnqueue(aor, ip) => Enqueue(s, Remove(aor, ip))
    case TestRun => s.(pc := if s.run then AtWait else Exited)
    case Swap => s.(pc := Writing(0), working := s.batch, batch := [])
    case ApplyRow =>
      s.(pc := Writing(s.pc.next + 1), staged := Apply(s.staged, s.working[s.pc.next]))
    case Commit =>
      s.(pc := AtTest, working := [], committed := s.staged.table, batches := s.batches + [s.working])
    case Stop => s.(run := false)
  }

  /** `t` is reached from `s` by the actions in order. */
  predicate Reaches(s: State, actions: seq<Action>, t: State)
    decreases |actions|
  {
    if actions == [] then s == t
    else Enabled(s, actions[0]) && Reaches(Step(s, actions[0]), actions[1..], t)
  }

  // ---------- The invariant ----------

  function Done(s: State): seq<Op> {
    Flatten(s.batches)
  }

  function Base(s: State): Db {
    Db(BLANK, s.initial)
  }

  /** A "known" answer rests on an insert of the same key that is already committed and outlives the time of the read. */
  predicate Justified(s: State, p: Pending) {
    exists i :: 0 <= i < |Done(s)| && Inserts(Done(s)[i], Key(p.aor, p.endpoint)) && Done(s)[i].expiry > p.now
  }

  predicate Inv(s: State) {
    && AllExpired(s.initial)
    && s.log == Done(s) + s.working + s.batch
    && s.committed == Fold(Base(s), Done(s)).table
    && (if s.pc.Writing? then
          s.pc.next <= |s.working| && s.staged == Fold(Base(s), Done(s) + s.working[..s.pc.next])
        else
          s.working == [] && s.staged == Fold(Base(s), Done(s)))
    && (s.pc.Exited? ==> !s.run)
    && (forall c :: c in s.pending ==> s.pending[c].now >= 0)
    && (forall c :: c in s.pending && s.pending[c].known ==> Justified(s, s.pending[c]))
  }

  lemma {:induction false} FlattenSnoc(batches: seq<seq<Op>>, b: seq<Op>)
    ensures Flatten(batches + [b]) == Flatten(batches) + b
  {
    if batches == [] {
      assert Flatten([b]) == b + Flatten([]);
    } else {
      FlattenSnoc(batches[1..], b);
      assert (batches + [b])[1..] == batches[1..] + [b];
    }
  }

  lemma ReadIsJustified(s: State, key: Key, now: int)
    requires Inv(s) && now >= 0 && Live(s.committed, key, now)
    ensures exists i :: 0 <= i < |Done(s)| && Inserts(Done(s)[i], key) && Done(s)[i].expiry > now
  {
    LiveIsJustified(Done(s), s.initial, key, now);
  }

  lemma ApplyRowFolds(db: Db, done: seq<Op>, working: seq<Op>, n: nat)
    requires n < |working|
    ensures Fold(db, done + working[..n + 1]) == Apply(Fold(db, done + working[..n]), working[n])
  {
    var ops := done + working[..n + 1];
    assert ops[..|ops| - 1] == done + working[..n];
  }

  lemma JustifiedLater(s: State, t: State)
    requires Done(s) <= Done(t)
    ensures forall p :: Justified(s, p) ==> Justified(t, p)
  {
    forall p | Justified(s, p) ensures Justified(t, p) {
      var i :| 0 <= i < |Done(s)| && Inserts(Done(s)[i], Key(p.aor, p.endpoint)) && Done(s)[i].expiry > p.now;
      assert Done(t)[i] == Done(s)[i];
    }
  }

  lemma EnqueueKeepsInv(s: State, op: Op)
    requires Inv(s)
    ensures Inv(Enqueue(s, op))
  {
    JustifiedLater(s, Enqueue(s, op));
    assert Done(s) + s.working + (s.batch + [op]) == Done(s) + s.working + s.batch + [op];
  }

  lemma CommitKeepsInv(s: State)
    requires Inv(s) && Enabled(s, Commit)
    ensures Inv(Step(s, Commit))
  {
    var t := Step(s, Commit);
    FlattenSnoc(s.batches, s.working);
    JustifiedLater(s, t);
    assert s.working[..s.pc.next] == s.working;
    assert t.log == Done(t) + t.working + t.batch;
  }

  lemma SwapKeepsInv(s: State)
    requires Inv(s) && Enabled(s, Swap)
    ensures Inv(Step(s, Swap))
  {
    var t := Step(s, Swap);
    JustifiedLater(s, t);
    assert Done(s) + t.working[..0] == Done(s);
    assert t.log == Done(t) + t.working + t.batch;
  }

  lemma ReadKeepsInv(s: State, caller: nat, aor: string, endpoint: string, now: int)
    requires Inv(s) && Enabled(s, AddRead(caller, aor, endpoint, now))
    ensures Inv(Step(s, AddRead(caller, aor, endpoint, now)))
  {
    hide Fold, Live, Flatten;
    JustifiedLater(s, Step(s, AddRead(caller, aor, endpoint, now)));
    if Live(s.committed, Key(aor, endpoint), now) {
      ReadIsJustified(s, Key(aor, endpoint), now);
    }
  }

  lemma RowKeepsInv(s: State)
    requires Inv(s) && Enabled(s, ApplyRow)
    ensures Inv(Step(s, ApplyRow))
  {
    hide Apply, Flatten;
    ApplyRowFolds(Base(s), Done(s), s.working, s.pc.next);
    JustifiedLater(s, Step(s, ApplyRow));
  }

  lemma StepKeepsInv(s: State, a: Action)
    requires Inv(s) && Enabled(s, a)
    ensures Inv(Step(s, a))
  {
    hide Fold, Live, Flatten, Apply;
    match a
    case AddRead(caller, aor, endpoint, now) => ReadKeepsInv(s, caller, aor, endpoint, now);
    case AddEnqueue(caller) =>
      var p := s.pending[caller];
      EnqueueKeepsInv(s, Insert(p.aor, p.endpoint, p.now + s.expiry));
    case DeleteEnqueue(aor, ip) => EnqueueKeepsInv(s, Remove(aor, ip));
    case Swap => SwapKeepsInv(s);
    case ApplyRow => RowKeepsInv(s);
    case Commit => CommitKeepsInv(s);
    case _ => JustifiedLater(s, Step(s, a));
  }

  lemma {:induction false} RunKeepsInv(s: State, actions: seq<Action>, t: State)
    requires Inv(s) && Reaches(s, actions, t)
    ensures Inv(t)
    decreases |actions|
  {
    if actions != [] {
      StepKeepsInv(s, actions[0]);
      RunKeepsInv(Step(s, actions[0]), actions[1..], t);
    }
  }

  predicate Reachable(table: Table, expiry: nat, actions: seq<Action>, s: State) {
    Reaches(Init(table, expiry), actions, s)
  }

  // ---------- What every run guarantees ----------

  /** Write-behind refinement: the log splits into committed, in flight and queued; readers see whole batches only. */
  lemma WriteBehindRefinement(table: Table, expiry: nat, actions: seq<Action>, s: State)
    requires Reachable(table, expiry, actions, s)
    ensures Inv(s)
    ensures s.log == Flatten(s.batches) + s.working + s.batch
    ensures s.committed == Fold(Db(BLANK, s.initial), Flatten(s.batches)).table
                        == FoldBatches(Db(BLANK, s.initial), s.batches).table
  {
    RunKeepsInv(Init(table, expiry), actions, s);
    BatchingIrrelevant(Base(s), s.batches);
  }

  /** Two runs over the same stored table that committed the same operations answer every lookup alike. */
  lemma SameLogSameAnswers(table: Table, expiry: nat, actions: seq<Action>, s: State,
                           otherExpiry: nat, otherActions: seq<Action>, other: State, key: Key, now: int)
    requires Reachable(table, expiry, actions, s) && Reachable(table, otherExpiry, otherActions, other)
    requires Flatten(s.batches) == Flatten(other.batches)
    ensures Live(s.committed, key, now) == Live(other.committed, key, now)
  {
    hide Inv, Live;
    WriteBehindRefinement(table, expiry, actions, s);
    WriteBehindRefinement(table, otherExpiry, otherActions, other);
    InitialStays(Init(table, expiry), actions, s);
    InitialStays(Init(table, otherExpiry), otherActions, other);
  }

  lemma {:induction false} InitialStays(s: State, actions: seq<Action>, t: State)
    requires Reaches(s, actions, t)
    ensures t.initial == s.initial
    decreases |actions|
  {
    if actions != [] {
      InitialStays(Step(s, actions[0]), actions[1..], t);
    }
  }

  /** The first registration of a key in a session always finds it unknown. */
  lemma FirstAnswerIsNew(s: State, caller: nat, aor: string, endpoint: string, now: int)
    requires Inv(s) && Enabled(s, AddRead(caller, aor, endpoint, now))
    requires !IsInserted(s.log, Key(aor, endpoint))
    ensures !Step(s, AddRead(caller, aor, endpoint, now)).pending[caller].known
  {
    assert forall i :: 0 <= i < |Done(s)| ==> s.log[i] == Done(s)[i];
    if Live(s.committed, Key(aor, endpoint), now) {
      ReadIsJustified(s, Key(aor, endpoint), now);
    }
  }

  /** With nothing queued and nothing in flight the answer is exactly liveness in the sequential fold of the whole log. */
  lemma QuietAnswerIsExact(s: State, caller: nat, aor: string, endpoint: string, now: int)
    requires Inv(s) && Enabled(s, AddRead(caller, aor, endpoint, now))
    requires s.batch == [] && s.working == []
    ensures Step(s, AddRead(caller, aor, endpoint, now)).pending[caller].known <==>
              exists i :: LastStored(s.log, Key(aor, endpoint), i) && s.log[i].expiry > now
                          && !RemovedAfter(s.log, Key(aor, endpoint), i, IpParam(s.log[..i + 1]).text)
  {
    assert s.log == Done(s);
    LiveClosedForm(s.log, s.initial, Key(aor, endpoint), now);
  }

  // ---------- Bounded lag and stopping ----------

  /** Progress of the first `n` logged operations, counted in commits since there were `c` of them. */
  predicate Lag(s: State, n: nat, c: nat) {
    && n <= |s.log|
    && c <= |s.batches|
    && (|s.batches| > c && s.pc.Writing? ==> n <= |Done(s)| + |s.working|)
    && (|s.batches| > c + 1 ==> n <= |Done(s)|)
  }

  lemma LagStep(s: State, a: Action, n: nat, c: nat)
    requires Inv(s) && Enabled(s, a) && Lag(s, n, c)
    ensures Lag(Step(s, a), n, c)
  {
    hide Fold, Justified, Live, Apply;
    if a.Commit? {
      FlattenSnoc(s.batches, s.working);
    }
    hide Flatten;
  }

  lemma {:induction false} LagKept(s: State, actions: seq<Action>, t: State, n: nat, c: nat)
    requires Inv(s) && Reaches(s, actions, t) && Lag(s, n, c)
    ensures Inv(t) && Lag(t, n, c)
    decreases |actions|
  {
    hide Inv, Lag, Enabled, Step;
    if actions != [] {
      StepKeepsInv(s, actions[0]);
      LagStep(s, actions[0], n, c);
      LagKept(Step(s, actions[0]), actions[1..], t, n, c);
    }
  }

  /** Whatever was logged is committed, in the same positions, as soon as two more commits have happened. */
  lemma CommittedWithinTwo(s: State, actions: seq<Action>, t: State)
    requires Inv(s) && Reaches(s, actions, t) && |t.batches| >= |s.batches| + 2
    ensures s.log <= Flatten(t.batches)
  {
    LagKept(s, actions, t, |s.log|, |s.batches|);
    LogGrows(s, actions, t);
    assert t.log[..|s.log|] == Done(t)[..|s.log|];
  }

  lemma {:induction false} LogGrows(s: State, actions: seq<Action>, t: State)
    requires Reaches(s, actions, t)
    ensures s.log <= t.log && s.batches <= t.batches && (!s.run ==> !t.run)
    decreases |actions|
  {
    if actions != [] {
      LogGrows(Step(s, actions[0]), actions[1..], t);
    }
  }

  /** Commits that can still happen once the run flag is down. */
  function Remaining(pc: Pc): nat {
    if pc.AtWait? || pc.Writing? then 1 else 0
  }

  /** After stop at most one more batch is committed, and none once the writer has passed its flag test. */
  lemma {:induction false} StopEndsWriting(s: State, actions: seq<Action>, t: State)
    requires !s.run && Reaches(s, actions, t)
    ensures |t.batches| + Remaining(t.pc) <= |s.batches| + Remaining(s.pc)
    ensures |t.batches| <= |s.batches| + 1
    ensures s.pc.AtTest? || s.pc.Exited? ==> |t.batches| == |s.batches|
    decreases |actions|
  {
    if actions != [] {
      StopEndsWriting(Step(s, actions[0]), actions[1..], t);
    }
  }

  /** With the flag down and the writer past its wait, no further operation leaves the queue. */
  lemma {:induction false} NoMoreSwaps(s: State, actions: seq<Action>, t: State)
    requires Inv(s) && !s.run && !s.pc.AtWait? && Reaches(s, actions, t)
    ensures Inv(t) && !t.pc.AtWait? && Done(t) + t.working == Done(s) + s.working
    decreases |actions|
  {
    if actions != [] {
      StepKeepsInv(s, actions[0]);
      if actions[0].Commit? {
        FlattenSnoc(s.batches, s.working);
      }
      NoMoreSwaps(Step(s, actions[0]), actions[1..], t);
    }
  }

  /** A writer that was already waiting when the flag went down takes the whole queue once more. */
  lemma {:induction false} LastSwap(s: State, actions: seq<Action>, t: State)
    requires Inv(s) && !s.run && s.pc.AtWait? && Reaches(s, actions, t) && !t.pc.AtWait?
    ensures Inv(t) && s.log <= Done(t) + t.working
    decreases |actions|
  {
    StepKeepsInv(s, actions[0]);
    var next := Step(s, actions[0]);
    if actions[0].Swap? {
      NoMoreSwaps(next, actions[1..], t);
      assert Done(next) + next.working == s.log;
    } else {
      LastSwap(next, actions[1..], t);
    }
  }

  /** Exactly when everything enqueued before the stop survives it: nothing was queued, or the writer was at its wait. */
  lemma SurvivesStopExactly(s: State, actions: seq<Action>, t: State)
    requires Inv(s) && !s.run && Reaches(s, actions, t) && t.pc.Exited?
    ensures s.log <= Flatten(t.batches) <==> s.batch == [] || s.pc.AtWait?
  {
    if s.pc.AtWait? {
      LastSwap(s, actions, t);
    } else {
      NoMoreSwaps(s, actions, t);
      assert |s.log| == |Done(t)| + |s.batch|;
    }
  }

  // ---------- Writing a whole batch ----------

  /** The state after the writer's loop over the rest of its batch. */
  function Written(s: State): State
    requires s.pc.Writing? && s.pc.next <= |s.working|
  {
    s.(pc := Writing(|s.working|), staged := Fold(s.staged, s.working[s.pc.next..]))
  }

  lemma FoldHead(db: Db, row: Op, tail: seq<Op>)
    ensures Fold(db, [row] + tail) == Fold(Apply(db, row), tail)
  {
    FoldConcat(db, [row], tail);
    assert [row][..0] == [];
  }

  lemma WrittenAfterRow(s: State)
    requires s.pc.Writing? && s.pc.next < |s.working|
    ensures Written(Step(s, ApplyRow)) == Written(s)
  {
    var tail := s.working[s.pc.next + 1..];
    assert s.working[s.pc.next..] == [s.working[s.pc.next]] + tail;
    FoldHead(s.staged, s.working[s.pc.next], tail);
  }

  lemma FirstStep(s: State, a: Action, rest: seq<Action>, t: State)
    requires Enabled(s, a) && Reaches(Step(s, a), rest, t)
    ensures Reaches(s, [a] + rest, t)
  {
    assert ([a] + rest)[1..] == rest;
  }

  /** The loop is a run of row steps and nothing else. */
  lemma {:induction false} WrittenIsSteps(s: State) returns (actions: seq<Action>)
    requires s.pc.Writing? && s.pc.next <= |s.working|
    ensures forall a :: a in actions ==> a == ApplyRow
    ensures Reaches(s, actions, Written(s))
    decreases |s.working| - s.pc.next
  {
    if s.pc.next == |s.working| {
      actions := [];
      assert s.working[s.pc.next..] == [];
      assert Written(s) == s;
    } else {
      WrittenAfterRow(s);
      var rest := WrittenIsSteps(Step(s, ApplyRow));
      FirstStep(s, ApplyRow, rest, Written(s));
      actions := [ApplyRow] + rest;
    }
  }

  /** Wherever stop lands, a finished writer leaves whole batches in the table and exactly the rest of the log queued. */
  lemma CleanStop(table: Table, expiry: nat, actions: seq<Action>, s: State, now: int, key: Key, t: int)
    requires Reachable(table, expiry, actions, s) && s.pc.Exited?
    ensures s.log == Flatten(s.batches) + s.batch
    ensures s.committed == FoldBatches(Db(BLANK, s.initial), s.batches).table
    ensures t >= now ==> Live(Expunge(s.committed, now), key, t) == Live(s.committed, key, t)
  {
    WriteBehindRefinement(table, expiry, actions, s);
    ExpungeExactly(now, t);
  }

  /** A run can be extended at its end by any enabled action. */
  lemma {:induction false} Then(s: State, actions: seq<Action>, t: State, a: Action) returns (more: seq<Action>, u: State)
    requires Reaches(s, actions, t) && Enabled(t, a)
    ensures more == actions + [a] && u == Step(t, a) && Reaches(s, more, u)
    decreases |actions|
  {
    more, u := actions + [a], Step(t, a);
    if actions == [] {
      assert Reaches(u, more[1..], u);
    } else {
      var rest, _ := Then(Step(s, actions[0]), actions[1..], t, a);
      assert more[1..] == rest;
    }
  }

  /** A write that arrives while the last batch is in flight is still queued when the writer has gone. */
  lemma LostWriteExample(table: Table) returns (actions: seq<Action>, s: State)
    ensures Reachable(table, 60, actions, s)
    ensures s.pc.Exited? && s.log == [Remove("a", "1"), Remove("b", "2")]
    ensures Flatten(s.batches) == [Remove("a", "1")] && s.batch == [Remove("b", "2")]
  {
    var start := Init(table, 60);
    actions, s := [], start;
    actions, s := Then(start, actions, s, DeleteEnqueue("a", "1"));
    assert s.batch == [Remove("a", "1")];
    actions, s := Then(start, actions, s, TestRun);
    actions, s := Then(start, actions, s, Swap);
    actions, s := Then(start, actions, s, DeleteEnqueue("b", "2"));
    assert s.log == [Remove("a", "1"), Remove("b", "2")] && s.batch == [Remove("b", "2")];
    actions, s := Then(start, actions, s, Stop);
    actions, s := Then(start, actions, s, ApplyRow);
    actions, s := Then(start, actions, s, Commit);
    FlattenSnoc([], [Remove("a", "1")]);
    assert [] + [[Remove("a", "1")]] == s.batches;
    actions, s := Then(start, actions, s, TestRun);
  }
}
