/** nanodbc's `connection_impl` and `transaction_impl`, as far as transactions go. */
module Transactions {
  import opened TransactionRuns

  /** The data source behind the connection handle. */
  class DataSource {
    var db: Db

    constructor (durable: seq<int>)
      ensures db == Db(durable, [], true)
    {
      db := Db(durable, [], true);
    }

    method Execute(w: int)
      modifies this
      ensures db == WriteTo(old(db), w)
    {
      db := WriteTo(db, w);
    }

    method SqlEndTran(commit: bool)
      modifies this
      ensures db == EndTran(old(db), commit)
    {
      db := EndTran(db, commit);
    }

    method SqlSetAutocommit(on: bool)
      modifies this
      ensures db == SetAutocommit(old(db), on)
    {
      db := SetAutocommit(db, on);
    }
  }

  class Connection {
    const source: DataSource
    const connected: bool
    var transactions: nat
    var rollback: bool

    ghost var open: set<Transaction>
    ghost var closed: set<Transaction>

    /** The transaction objects that are alive, and what the fields hold. */
    ghost predicate Valid()
      reads this, source, open, closed
    {
      Inv(View()) && Registered(open, closed)
    }

    ghost predicate Registered(open: set<Transaction>, closed: set<Transaction>)
      reads open`committed, closed`committed
    {
      && open !! closed
      && (forall t <- open :: t.conn == this && !t.committed)
      && (forall t <- closed :: t.conn == this && t.committed)
    }

    ghost function View(): Conn
      reads this, source
    {
      Conn(connected, |open|, |closed|, transactions, rollback, source.db)
    }

    constructor (source: DataSource, connected: bool)
      requires source.db.autocommit && source.db.pending == []
      ensures Valid() && View() == Start(connected, source.db.durable).(db := source.db) && this.source == source
      ensures open == {} && closed == {}
    {
      this.source, this.connected := source, connected;
      transactions, rollback, open, closed := 0, false, {}, {};
    }

    method RefTransaction() returns (r: nat)
      modifies this`transactions
      ensures r == transactions == Word(old(transactions) - 1)
    {
      transactions := Word(transactions - 1);
      return transactions;
    }

    method UnrefTransaction() returns (r: nat)
      modifies this`transactions
      ensures r == transactions == Word(old(transactions) + 1)
    {
      transactions := Word(transactions + 1);
      return transactions;
    }

    /** A new transaction object is alive. */
    ghost method Enlist(t: Transaction)
      requires Registered(open, closed) && t !in open + closed && t.conn == this && !t.committed
      modifies this`open
      ensures Registered(open, closed) && open == old(open) + {t}
              && View() == old(View()).(open := old(View()).open + 1)
    {
      open := open + {t};
    }

    /** A transaction object leaves the live ones. */
    ghost method Forget(t: Transaction)
      requires Registered(open, closed) && t in open + closed
      modifies this`open, this`closed
      ensures Registered(open, closed) && open == old(open) - {t} && closed == old(closed) - {t}
      ensures |open| == |old(open)| - (if t.committed then 0 else 1)
      ensures |closed| == |old(closed)| - (if t.committed then 1 else 0)
    {
      assert if t.committed then open - {t} == open else closed - {t} == closed;
      open, closed := open - {t}, closed - {t};
    }

    lemma Counted(t: Transaction)
      requires Registered(open, closed) && t in open + closed
      ensures 0 < (if t.committed then View().closed else View().open) && (t in open ==> !t.committed)
    {
      assert if t.committed then t in closed else t in open;
    }

    /** A live transaction object is now a committed one. */
    ghost method Settle(t: Transaction)
      requires open !! closed && t in open
      modifies this`open, this`closed
      ensures open == old(open) - {t} && closed == old(closed) + {t}
      ensures View() == old(View()).(open := |old(open)| - 1, closed := |old(closed)| + 1)
    {
      open, closed := open - {t}, closed + {t};
    }

    /** The tail of the transaction's destructor. */
    method Release()
      modifies this`rollback, source
      ensures View() == Released(old(View()))
    {
      if transactions == 0 && connected {
        if rollback {
          source.SqlEndTran(false);
          rollback := false;
        }
        source.SqlSetAutocommit(true);
      }
    }

    method Write(w: int)
      requires Valid() && connected
      modifies source
      ensures Valid() && View() == Step(old(View()), Op.Write(w))
    {
      source.Execute(w);
    }
  }

  class Transaction {
    const conn: Connection
    var committed: bool

    constructor (conn: Connection)
      requires conn.Valid() && Enabled(conn.View(), Begin)
      modifies conn, conn.source
      ensures conn.Valid() && conn.View() == Step(old(conn.View()), Begin)
      ensures this.conn == conn && !committed && conn.open == old(conn.open) + {this} && conn.closed == old(conn.closed)
    {
      this.conn, committed := conn, false;
      new;
      hide Inv, Step, Begun, Connection.Registered;
      assert conn.Registered(conn.open, conn.closed) && this !in conn.open + conn.closed;
      ghost var after := BeginStep(conn.View());
      Start();
      conn.Enlist(this);
      assert conn.View() == after;
    }

    /** The first of a group switches autocommit off. */
    method Start()
      modifies conn`transactions, conn.source
      ensures conn.View() == Begun(old(conn.View())).(open := old(conn.View()).open)
    {
      if conn.transactions == 0 && conn.connected {
        conn.source.SqlSetAutocommit(false);
      }
      var _ := conn.RefTransaction();
    }

    /** The destructor. */
    method Destroy()
      requires conn.Valid() && this in conn.open + conn.closed
      modifies conn, conn.source
      ensures conn.Valid() && conn.View() == Step(old(conn.View()), if committed then DestroyCommitted else DestroyOpen)
      ensures conn.open == old(conn.open) - {this} && conn.closed == old(conn.closed) - {this}
    {
      hide Inv, Step, Released, Left, Connection.Registered;
      conn.Counted(this);
      ghost var after := DestroyStep(conn.View(), committed);
      Abandon();
      conn.Release();
      assert conn.View() == after;
    }

    /** The first part of the destructor: an uncommitted transaction marks the connection. */
    method Abandon()
      requires conn.Registered(conn.open, conn.closed) && this in conn.open + conn.closed
      requires 0 < if committed then conn.View().closed else conn.View().open
      modifies conn`open, conn`closed, conn`rollback, conn`transactions
      ensures conn.Registered(conn.open, conn.closed) && conn.View() == Left(old(conn.View()), committed)
      ensures conn.open == old(conn.open) - {this} && conn.closed == old(conn.closed) - {this}
    {
      hide Word, Connection.Registered;
      conn.Forget(this);
      if !committed {
        conn.rollback := true;
        var _ := conn.UnrefTransaction();
      }
    }

    method Commit()
      requires conn.Valid() && this in conn.open + conn.closed
      modifies this, conn, conn.source
      ensures conn.Valid() && committed
      ensures conn.View() == if old(committed) then old(conn.View()) else Step(old(conn.View()), Op.Commit)
      ensures conn.open == old(conn.open) - {this} && conn.closed == old(conn.closed) + {this}
    {
      if committed {
        return;
      }
      CommitOpen();
    }

    method CommitOpen()
      requires conn.Valid() && this in conn.open
      modifies this`committed, conn, conn.source
      ensures conn.Valid() && committed && conn.View() == Step(old(conn.View()), Op.Commit)
      ensures conn.open == old(conn.open) - {this} && conn.closed == old(conn.closed) + {this}
    {
      hide Inv, Step, GroupEnded, Connection.Registered, Connection.View;
      conn.Counted(this);
      ghost var v := conn.View();
      ghost var after := CommitStep(v);
      Conclude(v);
      EndGroup(conn.View());
      assert conn.View() == after;
    }

    /** From now on this is a committed transaction. */
    method Conclude(ghost v: Conn)
      requires v == conn.View() && 0 < v.open && conn.Registered(conn.open, conn.closed) && this in conn.open
      modifies this`committed, conn`open, conn`closed
      ensures committed && conn.Registered(conn.open, conn.closed)
      ensures conn.open == old(conn.open) - {this} && conn.closed == old(conn.closed) + {this}
      ensures conn.View() == v.(open := v.open - 1, closed := v.closed + 1)
    {
      committed := true;
      conn.Settle(this);
    }

    /** The rest of `commit`: the last of a group commits what the connection has done. */
    method EndGroup(ghost v: Conn)
      requires v == conn.View()
      modifies conn`transactions, conn.source
      ensures conn.View() == GroupEnded(v)
    {
      var n := conn.UnrefTransaction();
      if n == 0 && conn.connected {
        conn.source.SqlEndTran(true);
      }
    }

    method Rollback()
      requires conn.Valid() && this in conn.open + conn.closed
      modifies conn`rollback
      ensures conn.Valid()
      ensures conn.rollback == (old(conn.rollback) || !committed)
      ensures conn.View() == if committed then old(conn.View()) else Step(old(conn.View()), Op.Rollback)
    {
      if committed {
        return;
      }
      conn.rollback := true;
    }
  }
}
