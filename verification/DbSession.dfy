/** Database sessions: nested transactions, their guards, and what a whole run may commit. */
module DbSessions {
  import opened Prelude

  // ----- a connection with nested transactions -----

  /** The durable database and, innermost last, what each open transaction sees. */
  datatype Conn<D> = Conn(committed: D, stack: seq<D>) {
    function Visible(): D {
      if stack == [] then committed else stack[|stack| - 1]
    }

    function Write(d: D): Conn<D> {
      if stack == [] then Conn(d, []) else Conn(committed, stack[..|stack| - 1] + [d])
    }

    function Begin(): Conn<D> {
      Conn(committed, stack + [Visible()])
    }

    /** Ends the innermost transaction: its view becomes that of the one around it, or durable. */
    function Commit(): Conn<D>
      requires stack != []
    {
      Conn(committed, stack[..|stack| - 1]).Write(Visible())
    }

    function Rollback(): Conn<D>
      requires stack != []
    {
      Conn(committed, stack[..|stack| - 1])
    }

    /** A commit that fails ends its transaction without effect. */
    function End(commit: bool, ok: bool): Conn<D>
      requires stack != []
    {
      if commit && ok then Commit() else Rollback()
    }
  }

  // ----- the session -----

  datatype State = Active | Pending(transaction: bool) | Closed

  datatype Key = Resolved(id: int) | Unresolved(profile: string)

  /** What can happen to a session. Calls that fail carry ok = false. */
  datatype Op<D> =
    | MakeActive(acquired: bool, started: bool, found: Option<int>)
    | Write(data: D)
    | Begin(ok: bool)
    | AsTransaction(ok: bool)
    | GuardCommit(ok: bool)
    | GuardDrop
    | GuardForget
    | Close(commit: bool, ok: bool)
    | Drop

  /**
   * A session and its connection. `guard` is the live transaction guard, if any, and whether it
   * must end a transaction. `asked` (opened as a transaction) and `leaked` (guards forgotten
   * without being dropped) record history only.
   */
  datatype View<D> = View(
    state: State, depth: nat, key: Key, conn: Conn<D>, guard: Option<bool>, asked: bool, leaked: nat)

  function New<D>(db: D, profile: string, transaction: bool): View<D> {
    View(Pending(transaction), 0, Unresolved(profile), Conn(db, []), None, transaction, 0)
  }

  /** The transactions that should be open on the connection. */
  function Open<D>(v: View<D>): nat {
    (if v.asked then 1 else 0) + v.leaked + (if v.guard == Some(true) then 1 else 0)
  }

  /** The depth counts the transactions open on the connection, and a closed session has none left unless leaked. */
  predicate Inv<D>(v: View<D>) {
    match v.state
    case Pending(transaction) =>
      transaction == v.asked && v.depth == 0 && |v.conn.stack| == 0 && v.guard.None? && v.leaked == 0
    case Active => v.depth == |v.conn.stack| == Open(v)
    case Closed => v.depth == 0 && v.guard.None? && (v.leaked == 0 ==> |v.conn.stack| == 0)
  }

  /** The guard borrows the session, so nothing else runs while it lives; a closed session is unusable. */
  predicate Enabled<D>(v: View<D>, op: Op<D>) {
    match op
    case MakeActive(_, _, _) => v.state != Closed && v.guard.None?
    case Write(_) => v.state == Active
    case Begin(_) => v.state == Active && v.guard.None?
    case AsTransaction(_) => v.state == Active && v.guard.None?
    case GuardCommit(_) => v.guard.Some?
    case GuardDrop => v.guard.Some?
    case GuardForget => v.guard.Some?
    case Close(_, _) => v.guard.None?
    case Drop => v.guard.None?
  }

  function Activate<D>(v: View<D>, acquired: bool, started: bool): Option<View<D>> {
    if !v.state.Pending? then Some(v)
    else if !acquired || (v.state.transaction && !started) then None
    else if v.state.transaction then Some(v.(state := Active, depth := v.depth + 1, conn := v.conn.Begin()))
    else Some(v.(state := Active))
  }

  /** The profile name is taken out before the lookup, so a failed lookup leaves it empty. */
  function ResolveKey(key: Key, found: Option<int>): Key {
    match key
    case Resolved(_) => key
    case Unresolved(_) => if found.Some? then Resolved(found.value) else Unresolved("")
  }

  function EndGuard<D>(v: View<D>, commit: bool, ok: bool): View<D>
    requires Inv(v) && v.guard.Some?
  {
    if v.guard.value then v.(depth := v.depth - 1, conn := v.conn.End(commit, ok), guard := None) else v.(guard := None)
  }

  function Ended<D>(v: View<D>, commit: bool, ok: bool): View<D>
    requires Inv(v)
  {
    v.(state := Closed, depth := 0, conn := if v.depth > 0 then v.conn.End(commit, ok) else v.conn)
  }

  /** One operation. No counter underflows and no transaction is ended that is not open. */
  function Step<D>(v: View<D>, op: Op<D>): (v': View<D>)
    requires Inv(v) && Enabled(v, op)
    ensures Inv(v')
  {
    match op
    case MakeActive(acquired, started, found) =>
      var active := Activate(v, acquired, started);
      if active.None? then v else active.value.(key := ResolveKey(v.key, found))
    case Write(data) => v.(conn := v.conn.Write(data))
    case Begin(ok) => if ok then v.(depth := v.depth + 1, conn := v.conn.Begin(), guard := Some(true)) else v
    case AsTransaction(ok) =>
      if v.depth > 0 then v.(guard := Some(false))
      else if ok then v.(depth := v.depth + 1, conn := v.conn.Begin(), guard := Some(true))
      else v
    case GuardCommit(ok) => EndGuard(v, true, ok)
    case GuardDrop => EndGuard(v, false, true)
    case GuardForget => v.(guard := None, leaked := v.leaked + if v.guard.value then 1 else 0)
    case Close(commit, ok) => Ended(v, commit, ok)
    case Drop => Ended(v, false, true)
  }

  // ----- whole runs -----

  /** A run: operations each enabled when its turn comes. */
  ghost predicate Runs<D>(v: View<D>, ops: seq<Op<D>>)
    requires Inv(v)
    decreases |ops|
  {
    ops == [] || (Enabled(v, ops[0]) && Runs(Step(v, ops[0]), ops[1..]))
  }

  ghost function After<D>(v: View<D>, ops: seq<Op<D>>): (v': View<D>)
    requires Inv(v) && Runs(v, ops)
    ensures Inv(v')
    decreases |ops|
  {
    if ops == [] then v else After(Step(v, ops[0]), ops[1..])
  }

  /**
   * In every state a run reaches: while the session is open its depth is the number of transactions
   * open on the connection; once it is closed or dropped the depth is 0, and no transaction is left
   * open if every guard was committed or dropped.
   */
  lemma DepthCountsTransactions<D>(db: D, profile: string, transaction: bool, ops: seq<Op<D>>)
    requires Runs(New(db, profile, transaction), ops)
    ensures var v := After(New(db, profile, transaction), ops);
      && (v.state != Closed ==> v.depth == |v.conn.stack|)
      && (v.state == Closed ==> v.depth == 0)
      && (v.state == Closed && (forall op | op in ops :: !op.GuardForget?) ==> v.conn.stack == [])
  {
    if forall op | op in ops :: !op.GuardForget? {
      NothingLeaks(New(db, profile, transaction), ops);
    }
  }

  lemma {:induction false} NothingLeaks<D>(v: View<D>, ops: seq<Op<D>>)
    requires Inv(v) && Runs(v, ops) && forall op | op in ops :: !op.GuardForget?
    ensures After(v, ops).leaked == v.leaked
    decreases |ops|
  {
    if ops != [] {
      assert ops[0] in ops;
      NothingLeaks(Step(v, ops[0]), ops[1..]);
    }
  }

  /** Closing ends one transaction, so it leaves a clean connection exactly when at most one was open. */
  lemma CloseCleansExactly<D>(v: View<D>, commit: bool, ok: bool)
    requires Inv(v) && v.state == Active && v.guard.None?
    ensures Step(v, Close(commit, ok)).conn.stack == [] <==> (if v.asked then 1 else 0) + v.leaked <= 1
  {
  }

  // ----- isolation of transaction sessions -----

  predicate Publishes<D>(op: Op<D>) {
    op.Close? && op.commit && op.ok
  }

  lemma StepIsolated<D>(v: View<D>, op: Op<D>)
    requires Inv(v) && Enabled(v, op) && v.asked && !Publishes(op)
    ensures Step(v, op).conn.committed == v.conn.committed && Step(v, op).asked
  {
  }

  /** A session opened as a transaction changes nothing durable unless it is closed with a commit. */
  lemma {:induction false} OnlyClosingCommits<D>(v: View<D>, ops: seq<Op<D>>)
    requires Inv(v) && v.asked && Runs(v, ops) && forall op | op in ops :: !Publishes(op)
    ensures After(v, ops).conn.committed == v.conn.committed
    decreases |ops|
  {
    if ops != [] {
      assert ops[0] in ops;
      StepIsolated(v, ops[0]);
      OnlyClosingCommits(Step(v, ops[0]), ops[1..]);
    }
  }

  /** Closing with commit publishes what the session sees exactly when no guard was leaked. */
  lemma ClosePublishes<D>(v: View<D>)
    requires Inv(v) && v.state == Active && v.guard.None? && v.asked
    ensures Step(v, Close(true, true)).conn.committed == if v.leaked == 0 then v.conn.Visible() else v.conn.committed
  {
  }

  // ----- the simple reading of a run -----

  /** No stack of transactions: what is durable, what is visible, and what the live guard would restore. */
  datatype Simple<D> = Simple(durable: D, current: D, saved: Option<D>)

  /** `transaction` says whether the session was opened as one. */
  function SimpleStep<D>(s: Simple<D>, transaction: bool, op: Op<D>): Simple<D> {
    match op
    case MakeActive(_, _, _) => s
    case Write(data) =>
      if transaction || s.saved.Some? then s.(current := data) else s.(current := data, durable := data)
    case Begin(ok) => if ok then s.(saved := Some(s.current)) else s
    case AsTransaction(ok) => if !transaction && ok then s.(saved := Some(s.current)) else s
    case GuardCommit(ok) =>
      if s.saved.None? then s
      else
        var kept := if ok then s.current else s.saved.value;
        Simple(if transaction then s.durable else kept, kept, None)
    case GuardDrop => if s.saved.None? then s else Simple(s.durable, s.saved.value, None)
    case GuardForget => s
    case Close(commit, ok) => if commit && ok then s.(durable := s.current) else s.(current := s.durable)
    case Drop => s.(current := s.durable)
  }

  function SimpleAfter<D>(s: Simple<D>, transaction: bool, ops: seq<Op<D>>): Simple<D>
    decreases |ops|
  {
    if ops == [] then s else SimpleAfter(SimpleStep(s, transaction, ops[0]), transaction, ops[1..])
  }

  /** The connection's stack and the simple reading tell the same story. */
  ghost predicate Reads<D>(v: View<D>, s: Simple<D>) {
    && v.leaked == 0
    && s.durable == v.conn.committed
    && s.current == v.conn.Visible()
    && (if v.guard == Some(true) then
          |v.conn.stack| > 0 && s.saved == Some(Conn(v.conn.committed, v.conn.stack[..|v.conn.stack| - 1]).Visible())
        else s.saved.None?)
    && (!v.asked && v.guard.None? ==> v.conn.stack == [])
    && (v.guard.Some? && !v.guard.value ==> v.asked)
  }

  lemma StepReads<D>(v: View<D>, s: Simple<D>, op: Op<D>)
    requires Inv(v) && Enabled(v, op) && Reads(v, s) && !op.GuardForget?
    ensures Reads(Step(v, op), SimpleStep(s, v.asked, op)) && Step(v, op).asked == v.asked
  {
  }

  /** Every run in which no guard is forgotten does to the database what the simple reading says. */
  lemma {:induction false} RunReads<D>(v: View<D>, s: Simple<D>, ops: seq<Op<D>>)
    requires Inv(v) && Runs(v, ops) && Reads(v, s) && forall op | op in ops :: !op.GuardForget?
    ensures Reads(After(v, ops), SimpleAfter(s, v.asked, ops))
    decreases |ops|
  {
    if ops != [] {
      assert ops[0] in ops;
      StepReads(v, s, ops[0]);
      RunReads(Step(v, ops[0]), SimpleStep(s, v.asked, ops[0]), ops[1..]);
    }
  }

  lemma {:induction false} RunFromNewReads<D>(db: D, profile: string, transaction: bool, ops: seq<Op<D>>)
    requires Runs(New(db, profile, transaction), ops) && forall op | op in ops :: !op.GuardForget?
    ensures var v, s := After(New(db, profile, transaction), ops), SimpleAfter(Simple(db, db, None), transaction, ops);
      v.conn.committed == s.durable && v.conn.Visible() == s.current
  {
    RunReads(New(db, profile, transaction), Simple(db, db, None), ops);
  }

  // ----- a failed key lookup -----

  predicate NameLost<D>(v: View<D>) {
    v.key == Unresolved("")
  }

  /** Once a lookup has failed, the session never asks for its own profile again. */
  lemma {:induction false} LostNameStaysLost<D>(v: View<D>, ops: seq<Op<D>>)
    requires Inv(v) && NameLost(v) && Runs(v, ops)
    ensures var k := After(v, ops).key; k.Unresolved? ==> k.profile == ""
    decreases |ops|
  {
    if ops != [] {
      var v' := Step(v, ops[0]);
      if v'.key.Unresolved? {
        LostNameStaysLost(v', ops[1..]);
      } else {
        ResolvedStays(v', ops[1..]);
      }
    }
  }

  lemma {:induction false} ResolvedStays<D>(v: View<D>, ops: seq<Op<D>>)
    requires Inv(v) && v.key.Resolved? && Runs(v, ops)
    ensures After(v, ops).key == v.key
    decreases |ops|
  {
    if ops != [] {
      ResolvedStays(Step(v, ops[0]), ops[1..]);
    }
  }

  // ----- the profile a session works on -----

  /** Whether the connection is up after the i-th operation, if it was (or was not) before the first. */
  ghost predicate Up<D>(ops: seq<Op<D>>, i: nat, up: bool, transaction: bool)
    requires i < |ops|
  {
    up || exists j | 0 <= j <= i :: ops[j].MakeActive? && ops[j].acquired && (transaction ==> ops[j].started)
  }

  /** The i-th operation asks for the profile over a connection that is up, and finds it. */
  ghost predicate Finds<D>(ops: seq<Op<D>>, i: nat, up: bool, transaction: bool)
    requires i < |ops|
  {
    ops[i].MakeActive? && ops[i].found.Some? && Up(ops, i, up, transaction)
  }

  ghost predicate FirstFinds<D>(ops: seq<Op<D>>, i: nat, up: bool, transaction: bool)
    requires i < |ops|
  {
    Finds(ops, i, up, transaction) && forall j | 0 <= j < i :: !Finds(ops, j, up, transaction)
  }

  /** Some operation asks for the profile over a connection that is up. */
  ghost predicate EverAsks<D>(ops: seq<Op<D>>, up: bool, transaction: bool) {
    exists i | 0 <= i < |ops| :: ops[i].MakeActive? && Up(ops, i, up, transaction)
  }

  lemma UpShifts<D>(ops: seq<Op<D>>, up: bool, up': bool, transaction: bool)
    requires ops != [] && up' == Up(ops, 0, up, transaction)
    ensures forall i | 0 <= i < |ops| - 1 :: Up(ops[1..], i, up', transaction) == Up(ops, i + 1, up, transaction)
    ensures forall i | 0 <= i < |ops| - 1 :: Finds(ops[1..], i, up', transaction) == Finds(ops, i + 1, up, transaction)
  {
    forall i | 0 <= i < |ops| - 1
      ensures Up(ops[1..], i, up', transaction) == Up(ops, i + 1, up, transaction)
    {
      assert forall j | 0 <= j <= i :: ops[1..][j] == ops[j + 1];
    }
  }

  lemma {:induction false} ClosedAsksNothing<D>(v: View<D>, ops: seq<Op<D>>)
    requires Inv(v) && v.state == Closed && Runs(v, ops)
    ensures forall i | 0 <= i < |ops| :: !ops[i].MakeActive?
    ensures After(v, ops).key == v.key
    decreases |ops|
  {
    if ops != [] {
      ClosedAsksNothing(Step(v, ops[0]), ops[1..]);
    }
  }

  /** The key after a run from v whose connection is up or not. */
  ghost predicate KeyIs<D>(key: Key, v: View<D>, ops: seq<Op<D>>, up: bool)
    requires v.key.Unresolved?
  {
    && (forall k :: key == Resolved(k) <==>
         exists i | 0 <= i < |ops| :: FirstFinds(ops, i, up, v.asked) && ops[i].found == Some(k))
    && (key.Unresolved? ==> key.profile == if EverAsks(ops, up, v.asked) then "" else v.key.profile)
  }

  lemma {:induction false} KeyAfter<D>(v: View<D>, ops: seq<Op<D>>, up: bool)
    requires Inv(v) && Runs(v, ops) && v.key.Unresolved? && (v.state != Closed ==> up == (v.state == Active))
    ensures KeyIs(After(v, ops).key, v, ops, up)
    decreases |ops|
  {
    if v.state == Closed {
      ClosedAsksNothing(v, ops);
    } else if ops != [] {
      var v', up' := Step(v, ops[0]), Up(ops, 0, up, v.asked);
      UpShifts(ops, up, up', v.asked);
      if v'.key.Resolved? {
        ResolvedStays(v', ops[1..]);
        assert FirstFinds(ops, 0, up, v.asked);
      } else {
        KeyAfter(v', ops[1..], up');
        KeyShifts(After(v, ops).key, v, v', ops, up, up');
      }
    }
  }

  lemma {:induction false} KeyShifts<D>(key: Key, v: View<D>, v': View<D>, ops: seq<Op<D>>, up: bool, up': bool)
    requires ops != [] && v.key.Unresolved? && v'.key.Unresolved? && v'.asked == v.asked
    requires up' == Up(ops, 0, up, v.asked) && !Finds(ops, 0, up, v.asked)
    requires v'.key.profile == if ops[0].MakeActive? && up' then "" else v.key.profile
    requires KeyIs(key, v', ops[1..], up')
    ensures KeyIs(key, v, ops, up)
  {
    UpShifts(ops, up, up', v.asked);
    forall i | 0 <= i < |ops| - 1
      ensures FirstFinds(ops[1..], i, up', v.asked) == FirstFinds(ops, i + 1, up, v.asked)
    {
      if !FirstFinds(ops[1..], i, up', v.asked) && Finds(ops[1..], i, up', v.asked) {
        var j :| 0 <= j < i && Finds(ops[1..], j, up', v.asked);
        assert Finds(ops, j + 1, up, v.asked);
      }
      if !FirstFinds(ops, i + 1, up, v.asked) && Finds(ops, i + 1, up, v.asked) {
        var j :| 0 <= j < i + 1 && Finds(ops, j, up, v.asked);
        assert Finds(ops[1..], j - 1, up', v.asked);
      }
    }
  }

  /**
   * Over every run of a new session, the key is resolved to k exactly when k is the id found by the
   * first make_active that had a connection and found one. Until then the name asked for is the
   * session's own, and empty once a lookup has failed.
   */
  lemma KeyIsFirstFound<D>(db: D, profile: string, transaction: bool, ops: seq<Op<D>>)
    requires Runs(New(db, profile, transaction), ops)
    ensures var key := After(New(db, profile, transaction), ops).key;
      && (forall k :: key == Resolved(k) <==>
           exists i | 0 <= i < |ops| :: FirstFinds(ops, i, false, transaction) && ops[i].found == Some(k))
      && (key.Unresolved? ==> key.profile == if EverAsks(ops, false, transaction) then "" else profile)
  {
    KeyAfter(New(db, profile, transaction), ops, false);
  }

  // ----- the session object and its transaction guard -----

  class DbSession<D> {
    var profileKey: Key
    var state: State
    var txnDepth: nat
    var conn: Conn<D>
    ghost const asked: bool
    ghost var guard: Option<bool>
    ghost var leaked: nat

    ghost function AsView(): View<D>
      reads this
    {
      View(state, txnDepth, profileKey, conn, guard, asked, leaked)
    }

    constructor (db: D, profile: string, transaction: bool)
      ensures AsView() == New(db, profile, transaction)
    {
      profileKey := Unresolved(profile);
      state := Pending(transaction);
      txnDepth := 0;
      conn := Conn(db, []);
      asked := transaction;
      guard := None;
      leaked := 0;
    }

    method MakeActive(acquired: bool, started: bool, found: Option<int>) returns (id: Option<int>)
      requires Inv(AsView()) && Enabled(AsView(), Op<D>.MakeActive(acquired, started, found))
      modifies this
      ensures AsView() == Step(old(AsView()), Op<D>.MakeActive(acquired, started, found))
      ensures var pending := old(state).Pending?;
        if pending && (!acquired || (asked && !started)) then id == None && AsView() == old(AsView())
        else
          && state == Active && guard == old(guard) && leaked == old(leaked)
          && txnDepth == old(txnDepth) + (if pending && asked then 1 else 0)
          && conn == (if pending && asked then old(conn).Begin() else old(conn))
          && match old(profileKey)
             case Resolved(k) => id == Some(k) && profileKey == Resolved(k)
             case Unresolved(_) =>
               id == found && profileKey == if found.Some? then Resolved(found.value) else Unresolved("")
    {
      if state.Pending? {
        if !acquired {
          return None;
        }
        var c := conn;
        if state.transaction {
          if !started {
            return None;
          }
          c := c.Begin();
          txnDepth := txnDepth + 1;
        }
        conn := c;
        state := Active;
      }
      match profileKey
      case Resolved(profileId) =>
        return Some(profileId);
      case Unresolved(profile) =>
        profileKey := Unresolved("");
        if found.None? {
          return None;
        }
        profileKey := Resolved(found.value);
        return found;
    }

    method WriteData(data: D)
      requires Inv(AsView()) && Enabled(AsView(), Op<D>.Write(data))
      modifies this
      ensures AsView() == Step(old(AsView()), Op<D>.Write(data))
    {
      conn := conn.Write(data);
    }

    method Begin(ok: bool) returns (txn: DbSessionTxn?<D>)
      requires Inv(AsView()) && Enabled(AsView(), Op<D>.Begin(ok))
      modifies this
      ensures AsView() == Step(old(AsView()), Op<D>.Begin(ok))
      ensures txn != null <==> ok
      ensures ok ==> fresh(txn) && txn.inner == this && guard == Some(txn.rollback)
    {
      if !ok {
        return null;
      }
      conn := conn.Begin();
      txnDepth := txnDepth + 1;
      guard := Some(true);
      txn := new DbSessionTxn(this, true);
    }

    method AsTransaction(ok: bool) returns (txn: DbSessionTxn?<D>)
      requires Inv(AsView()) && Enabled(AsView(), Op<D>.AsTransaction(ok))
      modifies this
      ensures AsView() == Step(old(AsView()), Op<D>.AsTransaction(ok))
      ensures txn != null <==> ok || old(txnDepth) > 0
      ensures txn != null ==> fresh(txn) && txn.inner == this && guard == Some(txn.rollback)
    {
      if txnDepth == 0 {
        if !ok {
          return null;
        }
        conn := conn.Begin();
        txnDepth := txnDepth + 1;
        guard := Some(true);
        txn := new DbSessionTxn(this, true);
      } else {
        guard := Some(false);
        txn := new DbSessionTxn(this, false);
      }
    }

    method Close(commit: bool, ok: bool)
      requires Inv(AsView()) && Enabled(AsView(), Op<D>.Close(commit, ok))
      modifies this
      ensures AsView() == Step(old(AsView()), Op<D>.Close(commit, ok))
    {
      var before := state;
      state := Closed;
      if txnDepth > 0 {
        txnDepth := 0;
        if before == Active {
          conn := conn.End(commit, ok);
        }
      }
    }

    /** The destructor rolls back. */
    method DropSession()
      requires Inv(AsView()) && Enabled(AsView(), Op<D>.Drop)
      modifies this
      ensures AsView() == Step(old(AsView()), Op<D>.Drop)
    {
      if txnDepth > 0 {
        txnDepth := 0;
        conn := conn.Rollback();
      }
      state := Closed;
    }
  }

  class DbSessionTxn<D> {
    const inner: DbSession<D>
    var rollback: bool

    constructor (inner: DbSession<D>, rollback: bool)
      ensures this.inner == inner && this.rollback == rollback
    {
      this.inner := inner;
      this.rollback := rollback;
    }

    /** Consumes the guard. The depth is lowered before the commit is attempted. */
    method Commit(ok: bool)
      requires Inv(inner.AsView()) && inner.guard == Some(rollback)
      modifies this, inner
      ensures inner.AsView() == Step(old(inner.AsView()), Op<D>.GuardCommit(ok)) && !rollback
    {
      if rollback {
        rollback := false;
        inner.txnDepth := inner.txnDepth - 1;
        inner.conn := inner.conn.End(true, ok);
      }
      inner.guard := None;
    }

    method DropGuard()
      requires Inv(inner.AsView()) && inner.guard == Some(rollback)
      modifies this, inner
      ensures inner.AsView() == Step(old(inner.AsView()), Op<D>.GuardDrop)
    {
      if rollback {
        inner.txnDepth := inner.txnDepth - 1;
        inner.conn := inner.conn.Rollback();
      }
      inner.guard := None;
    }
  }
}
