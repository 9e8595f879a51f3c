/** Nested nanodbc transactions on one connection, as a value: what every run keeps. */
module TransactionRuns {

  /** Arithmetic of std::size_t. */
  function Word(n: int): nat {
    n % 0x1_0000_0000_0000_0000
  }

  /** The data source as ODBC presents it: what is durable, and what waits for the end of the transaction. */
  datatype Db = Db(durable: seq<int>, pending: seq<int>, autocommit: bool)

  function WriteTo(db: Db, w: int): Db {
    if db.autocommit then db.(durable := db.durable + [w]) else db.(pending := db.pending + [w])
  }

  function EndTran(db: Db, commit: bool): Db {
    Db(if commit then db.durable + db.pending else db.durable, [], db.autocommit)
  }

  /** Switching autocommit on commits what is pending. */
  function SetAutocommit(db: Db, on: bool): Db {
    if on then EndTran(db, true).(autocommit := true) else db.(autocommit := false)
  }

  /** A connection is connected or not throughout a run.  `open` and `closed` count the live transaction
      objects that are uncommitted and committed; `counter` is `transactions_` and `mark` is `rollback_`. */
  datatype Conn = Conn(connected: bool, open: nat, closed: nat, counter: nat, mark: bool, db: Db)

  datatype Op = Begin | Commit | Rollback | DestroyOpen | DestroyCommitted | Write(w: int)

  function Start(connected: bool, durable: seq<int>): Conn {
    Conn(connected, 0, 0, 0, false, Db(durable, [], true))
  }

  /** The start of the destructor. */
  function Left(s: Conn, committed: bool): Conn
    requires 0 < if committed then s.closed else s.open
  {
    if committed then s.(closed := s.closed - 1)
    else s.(open := s.open - 1, counter := Word(s.counter + 1), mark := true)
  }

  /** The tail of the destructor. */
  function Released(s: Conn): Conn {
    if s.counter != 0 || !s.connected then s
    else
      var db := if s.mark then EndTran(s.db, false) else s.db;
      s.(mark := false, db := SetAutocommit(db, true))
  }

  /** The constructor. */
  function Begun(s: Conn): Conn {
    s.(open := s.open + 1, counter := Word(s.counter - 1),
       db := if s.counter == 0 && s.connected then SetAutocommit(s.db, false) else s.db)
  }

  /** The rest of `commit`, once the object counts as committed. */
  function GroupEnded(s: Conn): Conn {
    var counter := Word(s.counter + 1);
    s.(counter := counter, db := if counter == 0 && s.connected then EndTran(s.db, true) else s.db)
  }

  predicate Enabled(s: Conn, op: Op) {
    match op
    case Begin => s.open + 1 < 0x1_0000_0000_0000_0000
    case Commit => 0 < s.open
    case Rollback => 0 < s.open
    case DestroyOpen => 0 < s.open
    case DestroyCommitted => 0 < s.closed
    case Write(_) => s.connected
  }

  function Step(s: Conn, op: Op): Conn
    requires Enabled(s, op)
  {
    match op
    case Begin =>
      Begun(s)
    case Commit =>
      GroupEnded(s.(open := s.open - 1, closed := s.closed + 1))
    case Rollback =>
      s.(mark := true)
    case DestroyOpen =>
      Released(Left(s, false))
    case DestroyCommitted =>
      Released(Left(s, true))
    case Write(w) =>
      s.(db := WriteTo(s.db, w))
  }

  predicate Inv(s: Conn) {
    && s.open < 0x1_0000_0000_0000_0000
    && s.counter == Word(0 - s.open)
    && (s.connected && 0 < s.open ==> !s.db.autocommit)
    && (s.connected && s.open + s.closed == 0 ==> !s.mark && s.db.autocommit)
    && (!s.connected ==> s.db.autocommit)
    && (s.db.autocommit ==> s.db.pending == [])
  }

  /** The counter runs downwards from zero, yet it is zero exactly when no transaction is uncommitted. */
  lemma CounterZero(s: Conn)
    requires Inv(s)
    ensures s.counter == 0 <==> s.open == 0
  {
  }

  /** Being minus that number, it is the number that `connection::transactions()` is documented to return
      only when there is none, or exactly half a word of them. */
  lemma CounterIsCountIff(s: Conn)
    requires Inv(s)
    ensures s.counter == s.open <==> s.open == 0 || s.open == 0x8000_0000_0000_0000
  {
    if 0 < s.open { assert Word(0 - s.open) == 0x1_0000_0000_0000_0000 - s.open; }
  }

  /** With one transaction begun the counter is the largest word. */
  lemma OneCountsAsAll(connected: bool, durable: seq<int>)
    ensures Inv(Start(connected, durable)) && Enabled(Start(connected, durable), Begin)
    ensures var s := Step(Start(connected, durable), Begin); s.open == 1 && s.counter == 0xFFFF_FFFF_FFFF_FFFF
  {
  }

  lemma Down(n: nat)
    ensures Word(Word(0 - n) - 1) == Word(0 - (n + 1))
  {
  }

  lemma Up(n: nat)
    requires 0 < n
    ensures Word(Word(0 - n) + 1) == Word(0 - (n - 1))
  {
  }

  lemma LeftReleased(s: Conn, committed: bool)
    requires Inv(s) && 0 < if committed then s.closed else s.open
    ensures Inv(Released(Left(s, committed)))
  {
    if !committed { Up(s.open); }
    var m := Left(s, committed);
    assert m.counter == Word(0 - m.open);
    assert m.counter == 0 <==> m.open == 0;
  }

  lemma StepKeeps(s: Conn, op: Op)
    requires Inv(s) && Enabled(s, op)
    ensures Inv(Step(s, op))
  {
    CounterZero(s);
    match op
    case Begin => Down(s.open);
    case Commit => Up(s.open);
    case Rollback =>
    case DestroyOpen => LeftReleased(s, false);
    case DestroyCommitted => LeftReleased(s, true);
    case Write(_) =>
  }

  lemma BeginStep(s: Conn) returns (after: Conn)
    requires Inv(s) && Enabled(s, Begin)
    ensures after == Step(s, Begin) == Begun(s) && Inv(after)
  {
    StepKeeps(s, Begin);
    after := Step(s, Begin);
  }

  lemma CommitStep(s: Conn) returns (after: Conn)
    requires Inv(s) && 0 < s.open
    ensures after == Step(s, Commit) == GroupEnded(s.(open := s.open - 1, closed := s.closed + 1)) && Inv(after)
  {
    StepKeeps(s, Commit);
    after := Step(s, Commit);
  }

  lemma DestroyStep(s: Conn, committed: bool) returns (after: Conn)
    requires Inv(s) && 0 < if committed then s.closed else s.open
    ensures after == Step(s, if committed then DestroyCommitted else DestroyOpen) == Released(Left(s, committed))
            && Inv(after)
  {
    LeftReleased(s, committed);
    after := Released(Left(s, committed));
  }

  predicate EnabledAll(s: Conn, ops: seq<Op>)
    decreases |ops|, 0
  {
    ops == [] || (EnabledAll(s, ops[..|ops| - 1]) && Enabled(Run(s, ops[..|ops| - 1]), ops[|ops| - 1]))
  }

  function Run(s: Conn, ops: seq<Op>): Conn
    requires EnabledAll(s, ops)
    decreases |ops|, 1
  {
    if ops == [] then s else Step(Run(s, ops[..|ops| - 1]), ops[|ops| - 1])
  }

  /** Across any interleaving on one connection the counter is minus the number of uncommitted live
      transactions, modulo the word.  If it is connected, autocommit is off while there is one, and with no
      transaction object alive the counter is zero, the rollback mark is clear and autocommit is on. */
  lemma {:induction false} RunKeeps(s: Conn, ops: seq<Op>)
    requires Inv(s) && EnabledAll(s, ops)
    ensures Inv(Run(s, ops))
    decreases |ops|
  {
    if ops != [] {
      RunKeeps(s, ops[..|ops| - 1]);
      StepKeeps(Run(s, ops[..|ops| - 1]), ops[|ops| - 1]);
    }
  }

  lemma {:induction false} RunFromStart(connected: bool, durable: seq<int>, ops: seq<Op>)
    requires EnabledAll(Start(connected, durable), ops)
    ensures var s := Run(Start(connected, durable), ops);
            && s.counter == Word(0 - s.open)
            && (connected && 0 < s.open ==> !s.db.autocommit)
            && (connected && s.open + s.closed == 0 ==>
                s.counter == 0 && !s.mark && s.db.autocommit && s.db.pending == [])
            && (!connected ==> s.db == Start(connected, durable).db)
  {
    RunKeeps(Start(connected, durable), ops);
    Untouched(Start(connected, durable), ops);
  }

  /** Without a connection to the data source no operation reaches it. */
  lemma {:induction false} Untouched(s: Conn, ops: seq<Op>)
    requires EnabledAll(s, ops)
    ensures Run(s, ops).connected == s.connected
    ensures !s.connected ==> Run(s, ops).db == s.db
    decreases |ops|
  {
    if ops != [] { Untouched(s, ops[..|ops| - 1]); }
  }

  // ---------- the fate of a group of transactions ----------

  function Writes(ops: seq<Op>): seq<int> {
    if ops == [] then [] else Writes(ops[..|ops| - 1]) + Written(ops[|ops| - 1])
  }

  function Written(op: Op): seq<int> {
    match op case Write(w) => [w] case _ => []
  }

  /** One operation that leaves a transaction uncommitted. */
  lemma StepWaits(s: Conn, op: Op)
    requires Inv(s) && Enabled(s, op) && (0 < s.open || op == Begin) && 0 < Step(s, op).open
    ensures Step(s, op).db.durable == s.db.durable && Step(s, op).db.pending == s.db.pending + Written(op)
  {
    CounterZero(s);
    StepKeeps(s, op);
    CounterZero(Step(s, op));
    if op.Commit? { Up(s.open); }
    if op.DestroyOpen? { Up(s.open); }
  }

  /** Some transaction is uncommitted after each of these operations. */
  predicate StaysOpen(s: Conn, ops: seq<Op>)
    requires EnabledAll(s, ops)
    decreases |ops|
  {
    ops == [] || (StaysOpen(s, ops[..|ops| - 1]) && 0 < Run(s, ops).open)
  }

  /** Durable data never changes while some transaction is uncommitted; the work waits in order. */
  lemma {:induction false} NothingDurableWhileOpen(s: Conn, ops: seq<Op>)
    requires Inv(s) && EnabledAll(s, ops) && StaysOpen(s, ops) && (0 < s.open || (ops != [] && ops[0] == Begin))
    ensures Run(s, ops).db.durable == s.db.durable
    ensures Run(s, ops).db.pending == s.db.pending + Writes(ops)
    decreases |ops|
  {
    if ops != [] {
      var init := ops[..|ops| - 1];
      if init == [] {
        RunNone(s);
      } else {
        NothingDurableWhileOpen(s, init);
        RunKeeps(s, init);
      }
      StepWaits(Run(s, init), ops[|ops| - 1]);
    }
  }

  /** The operation that brings the number of uncommitted transactions to zero decides the whole group: a
      commit makes all of it durable, whatever was rolled back inside; a destruction discards all of it. */
  lemma {:induction false} LastOneDecides(s: Conn, ops: seq<Op>, last: Op)
    requires Inv(s) && s.connected && s.open == 0 && ops != [] && ops[0] == Begin
    requires EnabledAll(s, ops + [last]) && EnabledAll(s, ops) && StaysOpen(s, ops)
    requires Run(s, ops + [last]).open == 0
    ensures last == Commit || last == DestroyOpen
    ensures Run(s, ops + [last]).db.pending == []
    ensures Run(s, ops + [last]).db.durable ==
            if last == Commit then s.db.durable + (s.db.pending + Writes(ops)) else s.db.durable
  {
    assert (ops + [last])[..|ops|] == ops;
    NothingDurableWhileOpen(s, ops);
    RunKeeps(s, ops);
    Untouched(s, ops);
    CounterZero(Run(s, ops));
    StepKeeps(Run(s, ops), last);
    CounterZero(Run(s, ops + [last]));
  }

  lemma RunNone(s: Conn)
    ensures EnabledAll(s, []) && Run(s, []) == s
  {
  }

  lemma RunMore(s: Conn, ops: seq<Op>, op: Op)
    requires EnabledAll(s, ops) && Enabled(Run(s, ops), op)
    ensures EnabledAll(s, ops + [op]) && Run(s, ops + [op]) == Step(Run(s, ops), op)
  {
    assert (ops + [op])[..|ops|] == ops;
  }

  lemma RunThree(s: Conn, ops: seq<Op>, a: Op, b: Op, c: Op) returns (longer: seq<Op>, t: Conn)
    requires EnabledAll(s, ops) && Enabled(Run(s, ops), a) && Enabled(Step(Run(s, ops), a), b)
    requires Enabled(Step(Step(Run(s, ops), a), b), c)
    ensures longer == ops + [a, b, c] && EnabledAll(s, longer)
    ensures t == Run(s, longer) == Step(Step(Step(Run(s, ops), a), b), c)
  {
    RunMore(s, ops, a);
    RunMore(s, ops + [a], b);
    RunMore(s, ops + [a] + [b], c);
    longer := ops + [a] + [b] + [c];
    t := Run(s, longer);
  }

  /** An inner transaction that writes, rolls back and is destroyed does not keep the outer commit from
      making its work durable. */
  lemma InnerRollbackIsLost(durable: seq<int>, w: int) returns (ops: seq<Op>)
    ensures ops == [Begin, Begin, Write(w)] + [Rollback, DestroyOpen, Commit]
    ensures EnabledAll(Start(true, durable), ops) && Run(Start(true, durable), ops).db.durable == durable + [w]
  {
    hide Run, EnabledAll;
    var s, t := Start(true, durable), Start(true, durable);
    RunNone(s);
    ops, t := RunThree(s, [], Begin, Begin, Write(w));
    ops, t := RunThree(s, ops, Rollback, DestroyOpen, Commit);
  }

  // ---------- the same, told by the operations alone ----------

  /** How many transactions were begun, and neither committed nor destroyed before that. */
  function Uncommitted(ops: seq<Op>): int {
    if ops == [] then 0
    else
      var op := ops[|ops| - 1];
      Uncommitted(ops[..|ops| - 1]) + if op == Begin then 1 else if op == Commit || op == DestroyOpen then -1 else 0
  }

  /** How many were committed and are not destroyed yet. */
  function CommittedAlive(ops: seq<Op>): int {
    if ops == [] then 0
    else
      var op := ops[|ops| - 1];
      CommittedAlive(ops[..|ops| - 1]) + if op == Commit then 1 else if op == DestroyCommitted then -1 else 0
  }

  /** Operation `i` is a destruction that leaves no transaction uncommitted. */
  predicate Releases(ops: seq<Op>, i: nat)
    requires i < |ops|
  {
    (ops[i] == DestroyOpen || ops[i] == DestroyCommitted) && Uncommitted(ops[..i + 1]) == 0
  }

  predicate Unreleased(ops: seq<Op>, i: nat) {
    forall j :: i <= j < |ops| ==> !Releases(ops, j)
  }

  /** There was such an operation, and no destruction since has left no transaction uncommitted. */
  predicate Since(ops: seq<Op>, kind: Op -> bool) {
    exists i :: 0 <= i < |ops| && kind(ops[i]) && Unreleased(ops, i)
  }

  /** A rollback, or the destruction of an uncommitted transaction. */
  predicate Marks(op: Op) {
    op == Rollback || op == DestroyOpen
  }

  predicate Begins(op: Op) {
    op == Begin
  }

  lemma UnreleasedStep(ops: seq<Op>, i: nat)
    requires i < |ops|
    ensures Unreleased(ops, i) <==> !Releases(ops, |ops| - 1) && Unreleased(ops[..|ops| - 1], i)
  {
    var init := ops[..|ops| - 1];
    forall j: nat | j < |init| ensures Releases(init, j) <==> Releases(ops, j) {
      assert init[..j + 1] == ops[..j + 1];
    }
  }

  lemma SinceStep(ops: seq<Op>, kind: Op -> bool)
    requires ops != []
    ensures Since(ops, kind) <==>
            !Releases(ops, |ops| - 1) && (kind(ops[|ops| - 1]) || Since(ops[..|ops| - 1], kind))
  {
    var init, n := ops[..|ops| - 1], |ops| - 1;
    forall i: nat | i < |ops| ensures Unreleased(ops, i) <==> !Releases(ops, n) && Unreleased(init, i) {
      UnreleasedStep(ops, i);
    }
    if Since(init, kind) && !Releases(ops, n) {
      var i :| 0 <= i < n && kind(init[i]) && Unreleased(init, i);
      assert kind(ops[i]) && Unreleased(ops, i);
    }
    if kind(ops[n]) && !Releases(ops, n) {
      assert Unreleased(ops, n);
    }
    if Since(ops, kind) {
      var i :| 0 <= i < |ops| && kind(ops[i]) && Unreleased(ops, i);
      assert i < n ==> kind(init[i]) && Unreleased(init, i);
    }
  }

  /** The numbers of live transaction objects, after any run. */
  lemma {:induction false} LiveCounts(connected: bool, durable: seq<int>, ops: seq<Op>)
    requires EnabledAll(Start(connected, durable), ops)
    ensures var s := Run(Start(connected, durable), ops);
            Inv(s) && s.connected == connected && s.open == Uncommitted(ops) && s.closed == CommittedAlive(ops)
    decreases |ops|
  {
    RunKeeps(Start(connected, durable), ops);
    Untouched(Start(connected, durable), ops);
    if ops != [] { LiveCounts(connected, durable, ops[..|ops| - 1]); }
  }

  /** The last operation of a run releases the connection exactly when it leaves the counter at zero. */
  lemma LastReleases(connected: bool, durable: seq<int>, ops: seq<Op>) returns (before: Conn, after: Conn)
    requires ops != [] && EnabledAll(Start(connected, durable), ops)
    ensures EnabledAll(Start(connected, durable), ops[..|ops| - 1])
    ensures before == Run(Start(connected, durable), ops[..|ops| - 1]) && before.connected == connected && Inv(before)
    ensures Enabled(before, ops[|ops| - 1]) && after == Step(before, ops[|ops| - 1]) && Inv(after)
    ensures after == Run(Start(connected, durable), ops) && after.open == Uncommitted(ops)
    ensures (after.counter == 0 <==> after.open == 0) && after.counter == Word(0 - after.open)
    ensures Releases(ops, |ops| - 1) <==>
            (ops[|ops| - 1] == DestroyOpen || ops[|ops| - 1] == DestroyCommitted) && after.counter == 0
  {
    before, after := Run(Start(connected, durable), ops[..|ops| - 1]), Run(Start(connected, durable), ops);
    LiveCounts(connected, durable, ops[..|ops| - 1]);
    LiveCounts(connected, durable, ops);
    CounterZero(after);
    assert ops[..|ops|] == ops;
  }

  /** The connection is marked for rollback exactly when there was a rollback, or the destruction of an
      uncommitted transaction, after the last destruction that left no transaction uncommitted. */
  lemma {:induction false} MarkedIff(durable: seq<int>, ops: seq<Op>)
    requires EnabledAll(Start(true, durable), ops)
    ensures Run(Start(true, durable), ops).mark <==> Since(ops, Marks)
    decreases |ops|
  {
    if ops != [] {
      var before, after := LastReleases(true, durable, ops);
      MarkedIff(durable, ops[..|ops| - 1]);
      SinceStep(ops, Marks);
    }
  }

  /** Autocommit is off exactly when a transaction was begun after that destruction. */
  lemma {:induction false} AutocommitOffIff(durable: seq<int>, ops: seq<Op>)
    requires EnabledAll(Start(true, durable), ops)
    ensures !Run(Start(true, durable), ops).db.autocommit <==> Since(ops, Begins)
    decreases |ops|
  {
    if ops != [] {
      var before, after := LastReleases(true, durable, ops);
      AutocommitOffIff(durable, ops[..|ops| - 1]);
      SinceStep(ops, Begins);
      CounterZero(before);
    }
  }

  /** Without a connection a mark is never cleared. */
  lemma {:induction false} MarkStays(durable: seq<int>, ops: seq<Op>)
    requires EnabledAll(Start(false, durable), ops)
    ensures Run(Start(false, durable), ops).mark <==> exists i :: 0 <= i < |ops| && Marks(ops[i])
    decreases |ops|
  {
    if ops != [] {
      var before, after := LastReleases(false, durable, ops);
      MarkStays(durable, ops[..|ops| - 1]);
      var init := ops[..|ops| - 1];
      if i :| 0 <= i < |init| && Marks(init[i]) { assert Marks(ops[i]); }
      if i :| 0 <= i < |ops| && Marks(ops[i]) { assert i < |init| ==> Marks(init[i]); }
    }
  }

  /** What is durable, and what waits. */
  datatype Work = Work(durable: seq<int>, pending: seq<int>)

  /** The fate of all work, told without counter, mark and autocommit: a write is durable at once unless a
      transaction was begun since the last release; what waits is made durable by the commit that leaves no
      transaction uncommitted, and at the latest decided by the destruction that does: it is discarded when
      that transaction was uncommitted or something was rolled back since the last release, else durable. */
  function Ledger(durable: seq<int>, ops: seq<Op>): Work {
    if ops == [] then Work(durable, [])
    else
      var init := ops[..|ops| - 1];
      var work := Ledger(durable, init);
      var kept, dropped := Work(work.durable + work.pending, []), Work(work.durable, []);
      match ops[|ops| - 1]
      case Write(w) =>
        if Since(init, Begins) then work.(pending := work.pending + [w]) else work.(durable := work.durable + [w])
      case Commit => if Uncommitted(ops) == 0 then kept else work
      case DestroyOpen => if Uncommitted(ops) == 0 then dropped else work
      case DestroyCommitted =>
        if Uncommitted(ops) != 0 then work else if Since(init, Marks) then dropped else kept
      case _ => work
  }

  /** In every run on a connected connection, what is durable and what waits is what the ledger says. */
  lemma {:induction false} RunIsLedger(durable: seq<int>, ops: seq<Op>)
    requires EnabledAll(Start(true, durable), ops)
    ensures var db := Run(Start(true, durable), ops).db; Ledger(durable, ops) == Work(db.durable, db.pending)
    decreases |ops|
  {
    if ops != [] {
      var init := ops[..|ops| - 1];
      var before, after := LastReleases(true, durable, ops);
      RunIsLedger(durable, init);
      MarkedIff(durable, init);
      AutocommitOffIff(durable, init);
      EntryMade(before, ops[|ops| - 1]);
    }
  }

  /** What one operation does to the work, in terms of the connection's fields. */
  lemma EntryMade(s: Conn, op: Op)
    requires Inv(s) && s.connected && Enabled(s, op)
    ensures var db := Step(s, op).db;
            var kept, dropped := (s.db.durable + s.db.pending, []), (s.db.durable, []);
            (db.durable, db.pending) ==
            match op
            case Write(w) =>
              if s.db.autocommit then (s.db.durable + [w], s.db.pending) else (s.db.durable, s.db.pending + [w])
            case Commit => if Step(s, op).open == 0 then kept else (s.db.durable, s.db.pending)
            case DestroyOpen => if Step(s, op).open == 0 then dropped else (s.db.durable, s.db.pending)
            case DestroyCommitted =>
              if Step(s, op).open != 0 then (s.db.durable, s.db.pending) else if s.mark then dropped else kept
            case _ => (s.db.durable, s.db.pending)
  {
    StepKeeps(s, op);
    CounterZero(s);
    CounterZero(Step(s, op));
    assert s.db.durable + [] == s.db.durable && s.db.durable + s.db.pending + [] == s.db.durable + s.db.pending;
  }

  /** A committed object destroyed last discards the work that waits if and only if the connection is marked,
      and makes it durable otherwise. */
  lemma LastDestroyed(durable: seq<int>, ops: seq<Op>)
    requires EnabledAll(Start(true, durable), ops + [DestroyCommitted]) && EnabledAll(Start(true, durable), ops)
    requires Uncommitted(ops) == 0
    ensures var s, t := Run(Start(true, durable), ops), Run(Start(true, durable), ops + [DestroyCommitted]);
            && t.db.pending == [] && t.db.autocommit && !t.mark
            && t.db.durable == s.db.durable + if Since(ops, Marks) then [] else s.db.pending
  {
    assert (ops + [DestroyCommitted])[..|ops|] == ops;
    LiveCounts(true, durable, ops);
    MarkedIff(durable, ops);
    StepKeeps(Run(Start(true, durable), ops), DestroyCommitted);
    EntryMade(Run(Start(true, durable), ops), DestroyCommitted);
    CounterZero(Run(Start(true, durable), ops));
  }

  /** Work written after the last commit, while autocommit is still off, waits in order. */
  lemma {:induction false} WrittenLate(s: Conn, ws: seq<Op>)
    requires Inv(s) && s.connected && !s.db.autocommit && forall op <- ws :: op.Write?
    ensures EnabledAll(s, ws)
    ensures Run(s, ws) == s.(db := s.db.(pending := s.db.pending + Writes(ws)))
    decreases |ws|
  {
    if ws != [] {
      WrittenLate(s, ws[..|ws| - 1]);
      assert ws[|ws| - 1] in ws;
      assert s.db.pending + Writes(ws) == s.db.pending + Writes(ws[..|ws| - 1]) + Written(ws[|ws| - 1]);
    } else {
      assert s.db.pending + [] == s.db.pending;
    }
  }
}
