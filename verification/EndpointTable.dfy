/**
 The `endpoints` table of the deskphone cache and the sequential meaning of the writer's two prepared statements.
 The insert statement keeps its bound parameters between rows, so the meaning of a log of operations is a fold over
 the parameters and the table together.
 */
module EndpointTable {
  import opened Text

  datatype SqlValue = Null | Txt(text: string) | Int(number: int)

  datatype Key = Key(aor: string, endpoint: string)

  datatype Row = Row(expiry: int, ipVer: SqlValue, trans: SqlValue, ip: SqlValue, port: SqlValue)

  type Table = map<Key, Row>

  datatype Op =
    | Insert(aor: string, endpoint: string, expiry: int)
    | Remove(aor: string, ip: string)

  /** Slots 1 to 7 are the parameters of the insert statement; slot 0 is unused. */
  type Params = p: seq<SqlValue> | |p| == 8 witness [Null, Null, Null, Null, Null, Null, Null, Null]

  const BLANK: Params := [Null, Null, Null, Null, Null, Null, Null, Null]

  datatype Db = Db(params: Params, table: Table)

  // ---------- The insert statement ----------

  function Fields(endpoint: string): seq<string> {
    Split(endpoint, '/')
  }

  /** The port column takes a number when its field starts with one that fits an int, and is null otherwise. */
  function FieldValue(slot: int, field: string): SqlValue {
    if slot != 7 then Txt(field)
    else
      match FromChars(field)
      case Number(n) => Int(n)
      case _ => Null
  }

  /** The pure parse of an endpoint into one of the slots 4 to 7; a missing field has no value. */
  function Parse(endpoint: string, slot: int): SqlValue {
    if 4 <= slot < 4 + |Fields(endpoint)| then FieldValue(slot, Fields(endpoint)[slot - 4]) else Null
  }

  function ParsedRow(endpoint: string, expiry: int): Row {
    Row(expiry, Parse(endpoint, 4), Parse(endpoint, 5), Parse(endpoint, 6), Parse(endpoint, 7))
  }

  /** The parameters after binding one row: slots that the endpoint has no field for keep what they held. */
  function Bound(params: Params, op: Op): Params
    requires op.Insert?
  {
    seq(8, (i: nat) requires i < 8 =>
      if i == 1 then Txt(op.aor)
      else if i == 2 then Txt(op.endpoint)
      else if i == 3 then Int(op.expiry)
      else if 4 <= i < 4 + |Fields(op.endpoint)| then Parse(op.endpoint, i)
      else params[i])
  }

  function RowOf(params: Params, expiry: int): Row {
    Row(expiry, params[4], params[5], params[6], params[7])
  }

  function KeyOf(op: Op): Key
    requires op.Insert?
  {
    Key(op.aor, op.endpoint)
  }

  /** INSERT ... ON CONFLICT DO UPDATE; a null ip breaks the column's NOT NULL constraint and stores nothing. */
  function Upsert(table: Table, params: Params, op: Op): Table
    requires op.Insert?
  {
    if params[6].Null? then table else table[KeyOf(op) := RowOf(params, op.expiry)]
  }

  function Expired(row: Row): Row {
    row.(expiry := 0)
  }

  /** UPDATE endpoints SET expiry = 0 WHERE aor = ? AND ip = ?. */
  function ExpireByIp(table: Table, aor: string, ip: string): Table {
    map k | k in table :: if k.aor == aor && table[k].ip == Txt(ip) then Expired(table[k]) else table[k]
  }

  function Apply(db: Db, op: Op): Db {
    match op
    case Insert(_, _, _) =>
      var params := Bound(db.params, op);
      Db(params, Upsert(db.table, params, op))
    case Remove(aor, ip) =>
      db.(table := ExpireByIp(db.table, aor, ip))
  }

  function Fold(db: Db, ops: seq<Op>): Db {
    if ops == [] then db else Apply(Fold(db, ops[..|ops| - 1]), ops[|ops| - 1])
  }

  lemma {:induction false} FoldConcat(db: Db, a: seq<Op>, b: seq<Op>)
    ensures Fold(db, a + b) == Fold(Fold(db, a), b)
  {
    if b == [] {
      assert a + b == a;
    } else {
      var init := b[..|b| - 1];
      FoldConcat(db, a, init);
      assert (a + b)[..|a + b| - 1] == a + init;
    }
  }

  /** However a log is cut into batches, applying the batches in turn equals applying the log. */
  function FoldBatches(db: Db, batches: seq<seq<Op>>): Db
    decreases |batches|
  {
    if batches == [] then db else FoldBatches(Fold(db, batches[0]), batches[1..])
  }

  function Flatten(batches: seq<seq<Op>>): seq<Op> {
    if batches == [] then [] else batches[0] + Flatten(batches[1..])
  }

  lemma {:induction false} BatchingIrrelevant(db: Db, batches: seq<seq<Op>>)
    ensures FoldBatches(db, batches) == Fold(db, Flatten(batches))
    decreases |batches|
  {
    if batches != [] {
      BatchingIrrelevant(Fold(db, batches[0]), batches[1..]);
      FoldConcat(db, batches[0], Flatten(batches[1..]));
    }
  }

  // ---------- Liveness and its closed form ----------

  predicate Live(table: Table, key: Key, t: int) {
    key in table && table[key].expiry > t
  }

  predicate AllExpired(table: Table) {
    forall k :: k in table ==> table[k].expiry == 0
  }

  /** What slot 6 holds after `ops`: the third field of the latest insert that had one. */
  function IpParam(ops: seq<Op>): SqlValue {
    if ops == [] then Null
    else
      var last := ops[|ops| - 1];
      if last.Insert? && |Fields(last.endpoint)| >= 3 then Txt(Fields(last.endpoint)[2])
      else IpParam(ops[..|ops| - 1])
  }

  predicate Inserts(op: Op, key: Key) {
    op.Insert? && KeyOf(op) == key
  }

  /** Operation `i` is the last one that stored a row for `key`. */
  predicate LastStored(ops: seq<Op>, key: Key, i: int) {
    && 0 <= i < |ops|
    && Inserts(ops[i], key)
    && IpParam(ops[..i + 1]).Txt?
    && forall j :: i < j < |ops| ==> !Inserts(ops[j], key)
  }

  /** After operation `i` stored `key` with address `ip`, a later manual expiry named them both. */
  predicate RemovedAfter(ops: seq<Op>, key: Key, i: int, ip: string) {
    exists j :: 0 <= i < j < |ops| && ops[j] == Remove(key.aor, ip)
  }

  lemma {:induction false} IpSlot(ops: seq<Op>, table: Table)
    ensures Fold(Db(BLANK, table), ops).params[6] == IpParam(ops)
    ensures !IpParam(ops).Int?
  {
    if ops != [] {
      IpSlot(ops[..|ops| - 1], table);
    }
  }

  /** Once the ip slot has been bound it never becomes null again. */
  lemma {:induction false} IpParamStays(ops: seq<Op>, i: nat)
    requires i <= |ops| && IpParam(ops[..i]).Txt?
    ensures IpParam(ops).Txt?
  {
    if i == |ops| {
      assert ops[..i] == ops;
    } else {
      assert ops[..|ops| - 1][..i] == ops[..i];
      IpParamStays(ops[..|ops| - 1], i);
    }
  }

  /** What the table holds for `key` after `ops`, in terms of the last operation that stored it. */
  predicate Explains(ops: seq<Op>, key: Key, i: int, row: Row) {
    && LastStored(ops, key, i)
    && row.ip == IpParam(ops[..i + 1])
    && row.expiry == if RemovedAfter(ops, key, i, row.ip.text) then 0 else ops[i].expiry
  }

  lemma {:induction false} RowExplained(ops: seq<Op>, table: Table, key: Key)
    requires AllExpired(table)
    ensures var final := Fold(Db(BLANK, table), ops).table;
            if exists i :: LastStored(ops, key, i)
            then key in final && exists i :: Explains(ops, key, i, final[key])
            else key in final ==> final[key].expiry == 0
  {
    if ops != [] {
      var n := |ops| - 1;
      var init, last := ops[..n], ops[n];
      RowExplained(init, table, key);
      IpSlot(ops, table);
      IpSlot(init, table);
      assert ops[..n + 1] == ops;
      var final := Fold(Db(BLANK, table), ops).table;
      if Inserts(last, key) {
        if IpParam(ops).Txt? {
          assert LastStored(ops, key, n);
          assert Explains(ops, key, n, final[key]);
        } else {
          assert forall i :: LastStored(ops, key, i) ==> i == n;
          forall i | LastStored(init, key, i) ensures false {
            assert init[..i + 1] == ops[..i + 1];
            IpParamStays(ops, i + 1);
          }
        }
      } else {
        EarlierStored(ops, key);
        var before := Fold(Db(BLANK, table), init).table;
        if j :| LastStored(ops, key, j) {
          assert LastStored(init, key, j);
          var i :| Explains(init, key, i, before[key]);
          ExplainsStep(ops, key, i, before[key], final[key]);
        } else {
          assert forall j :: LastStored(init, key, j) ==> LastStored(ops, key, j);
        }
      }
    }
  }

  lemma EarlierStored(ops: seq<Op>, key: Key)
    requires ops != [] && !Inserts(ops[|ops| - 1], key)
    ensures forall i :: LastStored(ops, key, i) <==> LastStored(ops[..|ops| - 1], key, i)
  {
    forall i ensures LastStored(ops, key, i) <==> LastStored(ops[..|ops| - 1], key, i) {
      if 0 <= i < |ops| - 1 {
        assert ops[..|ops| - 1][..i + 1] == ops[..i + 1];
      }
    }
  }

  /** An operation other than an insert of `key` leaves the explanation in place and may only zero the expiry. */
  lemma ExplainsStep(ops: seq<Op>, key: Key, i: int, before: Row, after: Row)
    requires ops != [] && !Inserts(ops[|ops| - 1], key)
    requires Explains(ops[..|ops| - 1], key, i, before)
    requires after == if ops[|ops| - 1] == Remove(key.aor, before.ip.text) then before.(expiry := 0) else before
    ensures Explains(ops, key, i, after)
  {
    var init := ops[..|ops| - 1];
    EarlierStored(ops, key);
    assert init[..i + 1] == ops[..i + 1];
    var ip := before.ip.text;
    assert RemovedAfter(ops, key, i, ip) <==> RemovedAfter(init, key, i, ip) || ops[|ops| - 1] == Remove(key.aor, ip) by {
      if j :| 0 <= i < j < |init| && init[j] == Remove(key.aor, ip) {
        assert ops[j] == Remove(key.aor, ip);
      }
      if j :| 0 <= i < j < |ops| && ops[j] == Remove(key.aor, ip) {
        assert j < |init| ==> init[j] == Remove(key.aor, ip);
      }
    }
  }

  /** Closed form of liveness, for every log and every endpoint text. */
  lemma LiveClosedForm(ops: seq<Op>, table: Table, key: Key, t: int)
    requires AllExpired(table) && t >= 0
    ensures Live(Fold(Db(BLANK, table), ops).table, key, t) <==>
              exists i :: LastStored(ops, key, i) && ops[i].expiry > t
                          && !RemovedAfter(ops, key, i, IpParam(ops[..i + 1]).text)
  {
    RowExplained(ops, table, key);
    hide Fold, IpParam, RemovedAfter;
    forall i, j | LastStored(ops, key, i) && LastStored(ops, key, j) ensures i == j {
    }
  }

  /** A key whose endpoint has an ip field is live iff its last insert is and no later expiry names that very ip. */
  lemma LiveByOwnIp(ops: seq<Op>, table: Table, key: Key, t: int)
    requires AllExpired(table) && t >= 0 && |Fields(key.endpoint)| >= 3
    ensures Live(Fold(Db(BLANK, table), ops).table, key, t) <==>
              exists i: nat :: i < |ops| && Inserts(ops[i], key) && ops[i].expiry > t
                               && (forall j :: i < j < |ops| ==> !Inserts(ops[j], key))
                               && !RemovedAfter(ops, key, i, Fields(key.endpoint)[2])
  {
    LiveClosedForm(ops, table, key, t);
    forall i: nat | i < |ops| && Inserts(ops[i], key)
      ensures IpParam(ops[..i + 1]) == Txt(Fields(key.endpoint)[2])
    {
      assert ops[..i + 1][i] == ops[i];
    }
  }

  /** A live key was inserted by one of the operations, with an expiry after `t`. */
  lemma {:induction false} LiveIsJustified(ops: seq<Op>, table: Table, key: Key, t: int)
    requires AllExpired(table) && t >= 0
    requires Live(Fold(Db(BLANK, table), ops).table, key, t)
    ensures exists i :: 0 <= i < |ops| && Inserts(ops[i], key) && ops[i].expiry > t
  {
    LiveClosedForm(ops, table, key, t);
    var i :| LastStored(ops, key, i) && ops[i].expiry > t && !RemovedAfter(ops, key, i, IpParam(ops[..i + 1]).text);
    assert Inserts(ops[i], key);
  }

  // ---------- Stored columns ----------

  predicate IsInserted(ops: seq<Op>, key: Key) {
    exists i :: 0 <= i < |ops| && Inserts(ops[i], key)
  }

  /** The table after a log holds `key`, and its row is the parse of the key's own endpoint. */
  predicate StoredAsParsed(db: Db, ops: seq<Op>, key: Key) {
    var table := Fold(db, ops).table;
    key in table && table[key] == ParsedRow(key.endpoint, table[key].expiry)
  }

  /** An endpoint with its four fields is stored as its own parse, whatever was bound before and by whom. */
  lemma {:induction false} RowsAreParsed(db: Db, ops: seq<Op>, key: Key)
    requires |Fields(key.endpoint)| >= 4 && IsInserted(ops, key)
    ensures StoredAsParsed(db, ops, key)
  {
    var n := |ops| - 1;
    var init, last := ops[..n], ops[n];
    if !Inserts(last, key) {
      var i :| 0 <= i < |ops| && Inserts(ops[i], key);
      assert init[i] == ops[i];
      RowsAreParsed(db, init, key);
    }
  }

  /** Re-registering a phone that is already stored changes nothing but that row's expiry. */
  lemma ReinsertOnlyMovesExpiry(db: Db, ops: seq<Op>, op: Op)
    requires op.Insert? && |Fields(op.endpoint)| >= 4 && IsInserted(ops, KeyOf(op))
    ensures var before := Fold(db, ops).table;
            && KeyOf(op) in before
            && Fold(db, ops + [op]).table == before[KeyOf(op) := before[KeyOf(op)].(expiry := op.expiry)]
  {
    RowsAreParsed(db, ops, KeyOf(op));
    assert (ops + [op])[..|ops|] == ops;
  }

  /** Whatever the session's log, a registered endpoint is stored as its own parse: exactly if it has its four fields. */
  lemma {:induction false} ParsedExactly(table: Table, key: Key)
    ensures (forall ops :: IsInserted(ops, key) ==> StoredAsParsed(Db(BLANK, table), ops, key))
            <==> |Fields(key.endpoint)| >= 4
  {
    if |Fields(key.endpoint)| >= 4 {
      forall ops | IsInserted(ops, key) ensures StoredAsParsed(Db(BLANK, table), ops, key) {
        RowsAreParsed(Db(BLANK, table), ops, key);
      }
    } else {
      StalePort(table, key);
    }
  }

  /** A registration with a port leaves that port to a shorter endpoint that is registered next. */
  lemma StalePort(table: Table, key: Key)
    requires |Fields(key.endpoint)| < 4
    ensures var ops := [Insert("1001", "4/u/a/1", 9), Insert(key.aor, key.endpoint, 9)];
            IsInserted(ops, key) && !StoredAsParsed(Db(BLANK, table), ops, key)
  {
    var first, second := Insert("1001", "4/u/a/1", 9), Insert(key.aor, key.endpoint, 9);
    ExamplePort();
    FoldTwo(Db(BLANK, table), first, second);
    assert Inserts([first, second][1], key);
    var before := Bound(BLANK, first);
    SlotBound(BLANK, first, 7);
    SlotBound(BLANK, first, 6);
    SlotBound(before, second, 7);
    SlotBound(before, second, 6);
    hide Fold, Fields, Bound, FieldValue;
    assert Bound(before, second)[7] == Int(1) && Parse(key.endpoint, 7) == Null;
  }

  /** A slot takes its field, or keeps what it held when there is none. */
  lemma SlotBound(params: Params, op: Op, slot: nat)
    requires op.Insert? && 4 <= slot < 8
    ensures Bound(params, op)[slot] == if slot < 4 + |Fields(op.endpoint)| then Parse(op.endpoint, slot) else params[slot]
    ensures Parse(op.endpoint, slot).Null? ==> slot == 7 || slot >= 4 + |Fields(op.endpoint)|
    ensures slot >= 4 + |Fields(op.endpoint)| ==> Parse(op.endpoint, slot) == Null
  {
    hide Fields, FromChars;
  }

  lemma ExamplePort()
    ensures |Fields("4/u/a/1")| == 4 && Parse("4/u/a/1", 7) == Int(1)
  {
    hide FromChars, Fields;
    ExampleFields();
    ScanDecimal(1, "");
    assert Decimal(1) + "" == "1";
  }

  lemma FoldTwo(db: Db, first: Op, second: Op)
    ensures Fold(db, [first, second]) == Apply(Apply(db, first), second)
  {
    hide Apply;
    assert [first][..0] == [] && [first, second][..1] == [first];
    assert Fold(db, [first]) == Apply(db, first);
  }

  lemma FourFields(ver: string, trans: string, ip: string, port: string)
    requires '/' !in ver && '/' !in trans && '/' !in ip && '/' !in port
    ensures Fields(ver + "/" + trans + "/" + ip + "/" + port) == [ver, trans, ip, port]
  {
    var fields := [ver, trans, ip, port];
    SplitJoinExactly(fields, '/');
    assert fields[1..] == [trans, ip, port] && fields[1..][1..] == [ip, port] && fields[1..][1..][1..] == [port];
    assert Join([ip, port], '/') == ip + "/" + port;
    assert Join([trans, ip, port], '/') == trans + "/" + (ip + "/" + port);
    assert Join(fields, '/') == ver + "/" + (trans + "/" + (ip + "/" + port));
    assert ver + "/" + (trans + "/" + (ip + "/" + port)) == ver + "/" + trans + "/" + ip + "/" + port;
  }

  /** Which field goes to which column: IP version, transport, address and port, in this order. */
  lemma RowColumns(db: Db, aor: string, ver: string, trans: string, ip: string, port: string, expiry: int)
    requires '/' !in ver && '/' !in trans && '/' !in ip && '/' !in port
    ensures var endpoint := ver + "/" + trans + "/" + ip + "/" + port;
            var after := Apply(db, Insert(aor, endpoint, expiry)).table;
            && Key(aor, endpoint) in after
            && var row := after[Key(aor, endpoint)];
               && row.expiry == expiry && row.ipVer == Txt(ver) && row.trans == Txt(trans) && row.ip == Txt(ip)
               && row.port == (if FromChars(port).Number? then Int(FromChars(port).value) else Null)
  {
    hide FromChars;
    FourFields(ver, trans, ip, port);
    hide Fields;
    var op := Insert(aor, ver + "/" + trans + "/" + ip + "/" + port, expiry);
    var params := Bound(db.params, op);
    assert params[4] == Txt(ver) && params[5] == Txt(trans) && params[6] == Txt(ip);
    assert params[7] == FieldValue(7, port);
  }

  /** Two concrete endpoints: one with its four fields, one with only two. */
  lemma ExampleFields()
    ensures Fields("4/u/a/1") == ["4", "u", "a", "1"] && Fields("6/t") == ["6", "t"]
  {
    SplitJoinExactly(["4", "u", "a", "1"], '/');
    SplitJoinExactly(["6", "t"], '/');
    assert Join(["6", "t"], '/') == "6/t";
    assert Join(["4", "u", "a", "1"], '/') == "4/u/a/1" by {
      assert Join(["a", "1"], '/') == "a/1";
      assert Join(["u", "a", "1"], '/') == "u/a/1";
    }
  }

  /** A short endpoint inherits the previous phone's address, and expiring that address takes the wrong phone down. */
  lemma StaleAddressExample(db: Db)
    ensures var first, second := Insert("1001", "4/u/a/1", 9), Insert("1002", "6/t", 9);
            var after := Apply(Apply(db, first), second);
            && Parse("6/t", 6) == Null
            && KeyOf(second) in after.table && after.table[KeyOf(second)].ip == Txt("a")
            && Live(after.table, KeyOf(second), 0)
            && !Live(Apply(after, Remove("1002", "a")).table, KeyOf(second), 0)
  {
    ExampleFields();
    var first, second := Insert("1001", "4/u/a/1", 9), Insert("1002", "6/t", 9);
    assert Bound(db.params, first)[6] == Txt("a");
    assert Bound(Bound(db.params, first), second)[6] == Txt("a");
  }

  // ---------- Destructor ----------

  /** DELETE FROM endpoints WHERE expiry < ?. */
  function Expunge(table: Table, now: int): Table {
    map k | k in table && !(table[k].expiry < now) :: table[k]
  }

  /** The rows that are left are those that had not expired before `now`, as they were. */
  lemma ExpungeKeeps(table: Table, now: int, key: Key)
    ensures key in Expunge(table, now) <==> key in table && now <= table[key].expiry
    ensures key in Expunge(table, now) ==> Expunge(table, now)[key] == table[key]
  {
  }

  /** Expunging at `now` keeps every liveness answer for time `t`, whatever the table, iff `t` is not before `now - 1`. */
  lemma ExpungeExactly(now: int, t: int)
    ensures (forall table: Table, key: Key :: Live(Expunge(table, now), key, t) == Live(table, key, t)) <==> t >= now - 1
  {
    if t < now - 1 {
      var key := Key("1001", "4/u/a/1");
      var table: Table := map[key := Row(now - 1, Null, Null, Txt("a"), Null)];
      assert Live(table, key, t) && !Live(Expunge(table, now), key, t);
    }
  }

  /** A phone that a read two ticks earlier still finds is gone for such a read once the expunge has run. */
  lemma ExpungeExample()
    ensures var key := Key("1001", "4/u/a/1");
            var table: Table := map[key := ParsedRow(key.endpoint, 9)];
            Live(table, key, 8) && !Live(Expunge(table, 10), key, 8)
  {
  }
}
