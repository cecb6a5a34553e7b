/** The connection list of the proxy, as the object it is. Each method that holds the lock does one
    step of `Registry`; between the two steps of `RemoveByKey` other goroutines may do any steps. */
module Connections {
  import opened Registry

  class Connection {
    const ideKey: string
    const ipAddress: string
    const port: string
    const ssl: bool
    var claimed: bool
    var closeRequests: nat  // close messages sent on the ControlRequests channel

    predicate IsNew()
      reads this
    {
      !claimed && closeRequests == 0
    }

    constructor (ideKey: string, ipAddress: string, port: string, ssl: bool)
      ensures this.ideKey == ideKey && this.ipAddress == ipAddress && this.port == port && this.ssl == ssl
      ensures IsNew()
    {
      this.ideKey, this.ipAddress, this.port, this.ssl := ideKey, ipAddress, port, ssl;
      claimed, closeRequests := false, 0;
    }
  }

  class ConnectionList {
    const forceAdd: bool
    var connections: map<string, Connection>
    var pending: set<Connection>  // unlinked by a goroutine that has yet to look at `claimed`
    ghost var known: set<Connection>
    ghost var view: Reg<Connection>  // the state, with its history, as a value

    /** What the fields say. */
    ghost function Fields(): Reg<Connection>
      reads this, known
    {
      Reg(forceAdd, connections, (map c | c in known :: c.ideKey), (set c | c in known && c.claimed), pending, view.log)
    }

    /** `view` is what the fields say, some run leads to it, and each connection was sent the close
        messages that the history records. */
    ghost predicate Valid()
      reads this, known
    {
      && view == Fields() && IsReached(view)
      && (forall c | c in known :: c.closeRequests == CloseCount(view.log, c))
    }

    constructor (forceAdd: bool)
      ensures this.forceAdd == forceAdd && known == {} && Valid()
      ensures view == Start(forceAdd)
    {
      this.forceAdd := forceAdd;
      connections, pending, known, view := map[], {}, {}, Start(forceAdd);
      StartIsReached<Connection>(forceAdd);
    }

    /** A step keeps `Valid` if it sends the close messages it records. */
    twostate lemma ValidAfter(op: Op<Connection>)
      requires old(Valid()) && Enabled(old(view), op) && view == Apply(old(view), op) && view == Fields()
      requires forall c | c in old(known) && c in known ::
        c.closeRequests == old(c.closeRequests) + ClosesOf(Outcome(old(view), op), c)
      requires forall c | c in known && c !in old(known) :: c.closeRequests == 0
      ensures Valid()
    {
      var s := old(view);
      StepKeepsReached(s, op);
      assert s.keys.Keys == old(known);
      forall c | c in known ensures c.closeRequests == CloseCount(view.log, c) {
        if c in old(known) {
          ClosesAfter(s, op, c);
        } else {
          NewIsUnclosed(s, op, c);
        }
      }
    }

    lemma StoredAreKnown()
      requires Valid()
      ensures connections.Values <= known && pending <= known && connections.Values !! pending
      ensures forall k | k in connections :: connections[k].ideKey == k
    {
      ReachedIsValid(view);
      assert forall k | k in connections :: connections[k] in view.keys && connections[k] !in pending;
      assert forall c | c in pending :: c in view.keys;
    }

    lemma StoredUnderOwnKey(c: Connection)
      requires Valid()
      ensures c in connections.Values <==> c.ideKey in connections && connections[c.ideKey] == c
    {
      StoredAreKnown();
    }

    /** `Add`; its callers all pass a connection they have just made. */
    method Add(connection: Connection) returns (ok: bool)
      requires Valid() && connection !in known && connection.IsNew()
      modifies this`connections, this`known, this`view
      ensures Valid() && view == Apply(old(view), Op.Add(connection.ideKey, connection))
      ensures known == old(known) + {connection}
      ensures connections.Values <= old(connections).Values + {connection}
      ensures ok <==> forceAdd || connection.ideKey !in old(connections)
    {
      var key := connection.ideKey;
      ok := true;
      if key in connections {
        if forceAdd {
          connections := connections - {key};
        } else {
          ok := false;
        }
      } else {
        connections := connections[key := connection];
      }
      known := known + {connection};
      view := Apply(view, Op.Add(key, connection));
      assert view.keys == old(view.keys)[connection := key] && view.claimed == old(view.claimed);
      ValidAfter(Op.Add(key, connection));
    }

    method FindByKey(key: string) returns (connection: Connection?)
      requires Valid()
      ensures connection == (if key in connections then connections[key] else null)
      ensures connection != null ==> connection in known && connection.ideKey == key
    {
      if key in connections {
        StoredAreKnown();
        return connections[key];
      }
      return null;
    }

    method ClaimConnection(key: string) returns (connection: Connection?)
      requires Valid()
      modifies this`view, connections.Values`claimed
      ensures Valid() && view == Apply(old(view), Claim(key))
      ensures connection != null <==> key in connections && !old(connections[key].claimed)
      ensures connection != null ==> connection == connections[key] && connection.claimed
    {
      if key !in connections {
        connection := null;
      } else {
        StoredAreKnown();
        if connections[key].claimed {
          connection := null;
        } else {
          connection := connections[key];
          connection.claimed := true;
        }
      }
      view := Apply(view, Claim(key));
      ValidAfter(Claim(key));
    }

    method UnclaimConnection(key: string) returns (ok: bool)
      requires Valid()
      modifies this`view, connections.Values`claimed
      ensures Valid() && view == Apply(old(view), Unclaim(key))
      ensures ok <==> key in connections && old(connections[key].claimed)
    {
      if key !in connections {
        ok := false;
      } else {
        StoredAreKnown();
        ok := connections[key].claimed;
        if ok {
          connections[key].claimed := false;
        }
      }
      view := Apply(view, Unclaim(key));
      ValidAfter(Unclaim(key));
    }

    /** The part of `RemoveByKey` under the lock. */
    method TakeOut(key: string) returns (connection: Connection?)
      requires Valid()
      modifies this`connections, this`pending, this`view
      ensures Valid() && view == Apply(old(view), Unlink(key))
      ensures connection == (if key in old(connections) then old(connections)[key] else null)
    {
      connection := null;
      if key in connections {
        connection := connections[key];
        connections := connections - {key};
        pending := pending + {connection};
      }
      view := Apply(view, Unlink(key));
      ValidAfter(Unlink(key));
    }

    /** A connection that was taken out but not yet looked at. */
    lemma PendingIsUntold(connection: Connection)
      requires Valid() && connection in pending
      ensures connection in known && connection.closeRequests == 0
      ensures connection !in connections.Values
    {
      ReachedIsValid(view);
      ReachedHasLife(view, connection);
    }

    /** The part of `RemoveByKey` after unlocking. */
    method TellIfClaimed(connection: Connection)
      requires Valid() && connection in pending
      modifies this`pending, this`view, connection`closeRequests
      ensures Valid() && view == Apply(old(view), Notify(connection))
      ensures connection.closeRequests == old(connection.closeRequests) + if connection.claimed then 1 else 0
      ensures connection !in pending
    {
      StoredAreKnown();
      if connection.claimed {
        connection.closeRequests := connection.closeRequests + 1;
      }
      pending := pending - {connection};
      view := Apply(view, Notify(connection));
      ValidAfter(Notify(connection));
    }

    /** A run of other goroutines' steps, none of which is the look at a connection of `mine`. */
    ghost predicate IsOthers(ops: seq<Op<Connection>>, mine: set<Connection>) {
      forall c | c in mine :: NoNotifyOf(ops, c)
    }

    /** Some goroutine registers a connection for `key`. */
    method AddNew(key: string) returns (ghost op: Op<Connection>)
      requires Valid()
      modifies this`connections, this`known, this`view
      ensures Valid() && pending == old(pending)
      ensures connections.Values * old(known) <= old(connections).Values
      ensures old(known) <= known && fresh(known - old(known))
      ensures op.Add? && Enabled(old(view), op) && view == Apply(old(view), op)
    {
      var ip: string := *;
      var port: string := *;
      var ssl: bool := *;
      var c := new Connection(key, ip, port, ssl);
      assert c !in known;
      var _ := Add(c);
      op := Op.Add(key, c);
    }

    /** Any one step of another goroutine. */
    method OtherStep(mine: set<Connection>) returns (ghost op: Op<Connection>)
      requires Valid() && mine <= pending
      modifies this, known - mine
      ensures Valid() && mine <= pending
      ensures connections.Values * old(known) <= old(connections).Values
      ensures old(known) <= known && fresh(known - old(known))
      ensures Enabled(old(view), op) && view == Apply(old(view), op)
      ensures IsOthers([op], mine)
    {
      var choice: int := *;
      var key: string := *;
      StoredAreKnown();
      if choice == 0 {
        op := AddNew(key);
      } else if choice == 1 {
        var _ := TakeOut(key);
        op := Unlink(key);
      } else if choice == 2 && pending - mine != {} {
        var c :| c in pending - mine;
        TellIfClaimed(c);
        op := Notify(c);
      } else if choice == 3 {
        var _ := ClaimConnection(key);
        op := Claim(key);
      } else {
        var _ := UnclaimConnection(key);
        op := Unclaim(key);
      }
    }

    lemma OneMoreStep(before: Reg<Connection>, now: Reg<Connection>, op: Op<Connection>, mine: set<Connection>)
      requires Later(before, now) && IsOthers(Between(before, now), mine)
      requires Enabled(now, op) && IsOthers([op], mine)
      ensures Later(before, Apply(now, op)) && IsOthers(Between(before, Apply(now, op)), mine)
    {
      StepIsLater(now, op);
      LaterIsTransitive(before, now, Apply(now, op));
      forall c | c in mine ensures NoNotifyOf(Between(before, now) + [op], c) {
        assert !IsNotifyOf([op][0], c);
      }
    }

    /** What other goroutines do while this one does not hold the lock: any number of steps. */
    method Interfere(mine: set<Connection>)
      requires Valid() && mine <= pending
      modifies this, known - mine
      ensures Valid() && mine <= pending
      ensures connections.Values * old(known) <= old(connections).Values
      ensures old(known) <= known && fresh(known - old(known))
      ensures Later(old(view), view) && IsOthers(Between(old(view), view), mine)
    {
      LaterIsReflexive(view);
      var n: nat := *;
      while n > 0
        invariant Valid() && mine <= pending
        invariant old(known) <= known && fresh(known - old(known))
        invariant Later(old(view), view) && IsOthers(Between(old(view), view), mine)
        invariant connections.Values * old(known) <= old(connections).Values
      {
        ghost var now := view;
        ghost var op := OtherStep(mine);
        OneMoreStep(old(view), now, op, mine);
        n := n - 1;
      }
    }

    lemma {:induction false} ClaimIsStable(taken: Reg<Connection>, connection: Connection)
      requires Valid() && IsReached(taken) && connection in taken.pending
      requires Later(taken, view) && NoNotifyOf(Between(taken, view), connection)
      ensures connection in known
      ensures connection.claimed <==> connection in taken.claimed
    {
      ReachedIsValid(taken);
      LaterIsRun(taken, view);
      PendingIsStable(taken, Between(taken, view), connection);
      ReachedIsValid(view);
      assert connection.claimed <==> connection in view.claimed;
    }

    /** `RemoveByKey`, with interference where it has let go of the lock: the connection gets a close
        message exactly if it was claimed when it was taken out, and is never stored again. */
    method RemoveByKey(key: string) returns (ok: bool)
      requires Valid()
      modifies this, known
      ensures Valid() && old(known) <= known && fresh(known - old(known))
      ensures connections.Values * old(known) <= old(connections).Values
      ensures ok <==> key in old(connections)
      ensures ok ==>
        var c := old(connections)[key];
        && c.claimed == old(c.claimed)
        && c.closeRequests == (if old(c.claimed) then 1 else 0)
        && c !in connections.Values && c !in pending
      ensures IsRemoval(old(view), key, view)
    {
      var connection := TakeOut(key);
      if connection == null {
        return false;
      }
      ghost var taken := view;
      Interfere({connection});
      assert connection in {connection} && IsOthers(Between(taken, view), {connection});
      ClaimIsStable(taken, connection);
      PendingIsUntold(connection);
      ghost var last := view;
      TellIfClaimed(connection);
      IsARemoval(old(view), key, last, connection);
      return true;
    }
  }
}
