/** The commands the proxy and the cloud act upon, as objects over the shared connection list, and
    the proxy's handler for an IDE's connection: one command is read, applied and answered. */
module Commands {
  import opened Text
  import opened Decimal
  import opened Wire
  import opened Stream
  import opened Arguments
  import opened CommandLine
  import opened Registry
  import opened Connections

  /** A reply, before it is written as XML. */
  datatype Reply =
    | InitReply(success: bool, key: string, ip: string, port: int, ssl: bool)
    | StopReply(success: bool, key: string)
    | CloudReply(success: bool, user: string)

  /** `ProxyInitCommand.Handle`. */
  method HandleProxyInit(list: ConnectionList, ip: string, settings: Settings)
    returns (reply: Reply, connection: Connection)
    requires list.Valid()
    modifies list`connections, list`known, list`view
    ensures list.Valid() && fresh(connection) && list.known == old(list.known) + {connection}
    ensures connection.ideKey == settings.key && connection.ipAddress == ip
    ensures connection.port == Itoa(settings.port) && connection.ssl == settings.ssl
    ensures list.view == Apply(old(list.view), Op.Add(settings.key, connection))
    ensures reply == InitReply(
      list.forceAdd || settings.key !in old(list.connections), settings.key, ip, settings.port, settings.ssl)
  {
    connection := new Connection(settings.key, ip, Itoa(settings.port), settings.ssl);
    var ok := list.Add(connection);
    reply := InitReply(ok, settings.key, ip, settings.port, settings.ssl);
  }

  /** `ProxyStopCommand.Handle`, and `CloudStopCommand`'s `Handle` and `ActUponConnection`: the
      removal of one key. */
  method HandleStop(list: ConnectionList, key: string) returns (ok: bool)
    requires list.Valid()
    modifies list, list.known
    ensures list.Valid() && old(list.known) <= list.known && fresh(list.known - old(list.known))
    ensures ok <==> key in old(list.connections)
    ensures ok ==> old(list.connections)[key] !in list.connections.Values
    ensures IsRemoval(old(list.view), key, list.view)
  {
    ok := list.RemoveByKey(key);
  }

  /** A cloud session's command. */
  class CloudInitCommand {
    const list: ConnectionList
    const userId: string
    var needsRemoving: bool

    constructor (list: ConnectionList, userId: string)
      ensures this.list == list && this.userId == userId && needsRemoving
    {
      this.list, this.userId := list, userId;
      needsRemoving := true;
    }

    /** `ActUponConnection`. A refused session will not remove anything later. */
    method ActUponConnection() returns (ok: bool)
      requires list.Valid()
      modifies this`needsRemoving, list`connections, list`known, list`view
      ensures list.Valid()
      ensures ok <==> list.forceAdd || userId !in old(list.connections)
      ensures needsRemoving == (old(needsRemoving) && ok)
      ensures exists c ::
        c in list.known && fresh(c) && list.view == Apply(old(list.view), Op.Add(userId, c))
    {
      var connection := new Connection(userId, "", "", true);
      ok := list.Add(connection);
      if !ok {
        needsRemoving := false;
      }
    }

    /** `Handle`: the same, answered with a reply. */
    method Handle() returns (reply: Reply)
      requires list.Valid()
      modifies this`needsRemoving, list`connections, list`known, list`view
      ensures list.Valid()
      ensures reply == CloudReply(list.forceAdd || userId !in old(list.connections), userId)
      ensures needsRemoving == (old(needsRemoving) && reply.success)
      ensures exists c ::
        c in list.known && fresh(c) && list.view == Apply(old(list.view), Op.Add(userId, c))
    {
      var ok := ActUponConnection();
      reply := CloudReply(ok, userId);
    }

    /** `Close` leaves the list alone if the registration was refused, and otherwise removes whatever
        sits under the session's key. */
    method Close()
      requires list.Valid()
      modifies list, list.known
      ensures list.Valid()
      ensures !needsRemoving ==> list.view == old(list.view)
      ensures needsRemoving ==> IsRemoval(old(list.view), userId, list.view)
      ensures needsRemoving && userId in old(list.connections) ==>
        old(list.connections)[userId] !in list.connections.Values
    {
      if needsRemoving {
        var _ := list.RemoveByKey(userId);
      }
    }
  }

  // ----- The effect of a command on the registry -----

  /** A registration: one new connection with the settings given is passed to `Add`. */
  ghost predicate IsInit(before: Reg<Connection>, c: Connection, ip: string, s: Settings, after: Reg<Connection>) {
    && c !in before.keys
    && c.ideKey == s.key && c.ipAddress == ip && c.port == Itoa(s.port) && c.ssl == s.ssl
    && after == Apply(before, Op.Add(s.key, c))
  }

  /** What a command does and answers, as a relation of the registry before and after. */
  ghost predicate Done(command: Command, ip: string, reply: Reply, before: Reg<Connection>, after: Reg<Connection>) {
    match command
    case ProxyInit(_, s) =>
      && reply == InitReply(before.forceAdd || s.key !in before.table, s.key, ip, s.port, s.ssl)
      && exists c | c in after.keys :: IsInit(before, c, ip, s, after)
    case ProxyStop(key) =>
      reply == StopReply(key in before.table, key) && IsRemoval(before, key, after)
  }

  /** The success flag tells whether the command's own step changed the table, with forceAdd too,
      and whether a key just registered is there: it is exactly if it was not there before. */
  lemma FlagTellsOfChange(command: Command, ip: string, reply: Reply, before: Reg<Connection>, after: Reg<Connection>)
    requires Done(command, ip, reply, before, after)
    ensures command.ProxyInit? ==>
      && (reply.success <==> after.table != before.table)
      && (reply.success ==> (command.settings.key in after.table <==> command.settings.key !in before.table))
    ensures command.ProxyStop? ==>
      (reply.success <==> Apply(before, Unlink(command.key)).table != before.table)
    ensures command.ProxyStop? && !reply.success ==> after.table == before.table
  {
    if command.ProxyInit? {
      var c :| c in after.keys && IsInit(before, c, ip, command.settings, after);
      assert reply.success ==> (command.settings.key in after.table <==> command.settings.key !in before.table);
    } else {
      assert command.key !in Apply(before, Unlink(command.key)).table;
    }
  }

  method Act(list: ConnectionList, command: Command, ip: string) returns (reply: Reply)
    requires list.Valid()
    modifies list, list.known
    ensures list.Valid() && old(list.known) <= list.known && fresh(list.known - old(list.known))
    ensures Done(command, ip, reply, old(list.view), list.view)
  {
    match command {
      case ProxyInit(_, settings) =>
        var connection;
        reply, connection := HandleProxyInit(list, ip, settings);
        assert IsInit(old(list.view), connection, ip, settings, list.view);
      case ProxyStop(key) =>
        var ok := HandleStop(list, key);
        reply := StopReply(ok, key);
    }
  }

  /** `Act`, with what others do before and after: `before` and `after` are the registry right before
      and right after the command. */
  method ActAmongOthers(list: ConnectionList, command: Command, ip: string)
    returns (reply: Reply, ghost before: Reg<Connection>, ghost after: Reg<Connection>)
    requires list.Valid()
    modifies list, list.known
    ensures list.Valid()
    ensures Later(old(list.view), before) && Later(after, list.view)
    ensures Done(command, ip, reply, before, after)
  {
    list.Interfere({});
    before := list.view;
    reply := Act(list, command, ip);
    after := list.view;
    list.Interfere({});
  }

  // ----- Reading commands and answering them -----

  /** `parseLine`, with the parsers' loops. */
  method ParseCommand(data: string, ip: string) returns (r: Result<Command>)
    ensures r == ParseLine(data, ip)
  {
    var parts := Split(data, ' ');
    if parts[0] == "proxyinit" {
      var settings := CreateProxyInit(parts[1..]);
      match settings
      case Err(error) => return Err(error);
      case Ok(s) => return Ok(ProxyInit(ip, s));
    } else if parts[0] == "proxystop" {
      var key := CreateKeyed("-k", parts[1..]);
      match key
      case Err(error) => return Err(error);
      case Ok(k) => return Ok(ProxyStop(k));
    }
    return Err(UnknownCommand(parts));
  }

  /** `parseCloudLine`, with the parsers' loops. */
  method ParseCloudCommand(data: string) returns (r: Result<CloudCommand>)
    ensures r == ParseCloudLine(data)
  {
    var parts := Split(data, ' ');
    if parts[0] == "cloudinit" || parts[0] == "cloudstop" {
      var user := CreateKeyed("-u", parts[1..]);
      match user
      case Err(error) => return Err(error);
      case Ok(u) => return Ok(if parts[0] == "cloudinit" then CloudInit(u) else CloudStop(u));
    }
    return Err(UnknownCommand(parts));
  }

  /** One line is read and parsed. */
  method Receive(conn: Conn, ip: string) returns (received: Option<Result<Command>>)
    modifies conn`pending
    ensures received == ReceiveCommand(old(conn.Items()), conn.End(), ip).0
  {
    var reader := new BufReader(conn);
    var field := reader.ReadBytes();
    if field.Cut? {
      return None;
    }
    var parsed := ParseCommand(TrimRight(field.data, c => c == NUL), ip);
    return Some(parsed);
  }

  /** `ReadCloudCommand`. */
  method ReadCloudCommand(reader: BufReader) returns (r: Option<Result<CloudCommand>>)
    modifies reader`buffer, reader.conn`pending
    ensures (r, reader.Items()) == ReceiveCloudCommand(old(reader.Items()), reader.conn.End())
  {
    var field := reader.ReadBytes();
    if field.Cut? {
      return None;
    }
    var parsed := ParseCloudCommand(TrimRight(field.data, c => c == NUL));
    return Some(parsed);
  }

  method SendResponse(conn: Conn, xml: string)
    modifies conn`sent
    ensures conn.sent == old(conn.sent) + Frame(xml)
    ensures ByLength(conn.sent[|old(conn.sent)|..]) == Some([xml])
  {
    ByLengthIsFrames(Frame(xml), [xml]);
    assert Frames([xml]) == Frame(xml) + Frames([]) == Frame(xml);
    conn.sent := conn.sent + (Itoa(|xml|) + [NUL] + xml + [NUL]);
  }

  /** `ClientHandler.Handle`: one line is read, one command done, and its reply sent in a frame.
      Nothing is done or sent for a line that cannot be read or parsed. Others use the list while the
      line is awaited and while the reply is sent: the command is done on the registry of that moment,
      `before`, and leaves it as `after`. */
  method HandleClient(conn: Conn, list: ConnectionList, ip: string, asXml: Reply -> string)
    returns (handled: bool, reply: Reply, ghost before: Reg<Connection>, ghost after: Reg<Connection>)
    requires list.Valid()
    modifies conn`pending, conn`sent, list, list.known
    ensures list.Valid()
    ensures Later(old(list.view), before) && Later(after, list.view)
    ensures var received := ReceiveCommand(old(conn.Items()), conn.End(), ip).0;
      && handled == (received.Some? && received.value.Ok?)
      && (handled ==> Done(received.value.value, ip, reply, before, after)
                      && conn.sent == old(conn.sent) + Frame(asXml(reply))
                      && ByLength(conn.sent[|old(conn.sent)|..]) == Some([asXml(reply)]))
      && (!handled ==> after == before && conn.sent == old(conn.sent))
  {
    var received := Receive(conn, ip);
    handled, reply := received.Some? && received.value.Ok?, StopReply(false, "");
    if handled {
      reply, before, after := ActAmongOthers(list, received.value.value, ip);
      SendResponse(conn, asXml(reply));
    } else {
      list.Interfere({});
      before, after := list.view, list.view;
      LaterIsReflexive(list.view);
    }
  }
}
