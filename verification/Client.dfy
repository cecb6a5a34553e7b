/** The protocol client: reads packets, numbers and sends command lines. */
module Client {
  import opened Text
  import opened Decimal
  import opened Wire
  import opened Stream
  import opened Xml
  import opened CommandLine

  /** How `RunCommand` ends. `Crashed` is the nil dereference after an XML reply of unknown kind. */
  datatype RunResult =
    | Done
    | WriteFailed
    | ReadFailure(cause: Cause)
    | NotXmlReply
    | Refused
    | Crashed

  function Judge(response: Wire.Response, decode: Decoder): RunResult
    requires !response.TimedOut?
  {
    match response
    case Failed(cause) => ReadFailure(cause)
    case Packet(data) =>
      if !IsValidXml(data) then NotXmlReply
      else
        match FormatXml(decode(data))
        case None => Crashed
        case Some(m) => if IsSuccess(m) then Done else Refused
  }

  /** What a response means for a command, on the response itself. */
  lemma JudgeMeans(response: Wire.Response, decode: Decoder)
    requires !response.TimedOut?
    ensures response.Failed? ==> Judge(response, decode) == ReadFailure(response.cause)
    ensures response.Packet? ==>
      var doc := decode(response.data);
      Judge(response, decode) ==
        if !("<?xml" <= response.data) then NotXmlReply
        else if !(&& doc.Element? && doc.decodes
                  && (|| doc.root == "response" || doc.root == "ctrl-response" || doc.root == "init"
                      || doc.root == "notify" || doc.root == "stream" || doc.root == "proxyinit"
                      || doc.root == "proxystop" || doc.root == "cloudinit" || doc.root == "cloudstop")) then Crashed
        else if doc.success != 1
          && (|| doc.root == "proxyinit" || doc.root == "proxystop" || doc.root == "cloudinit" || doc.root == "cloudstop"
              || (doc.root == "response" && doc.command != "detach")) then Refused
        else Done
  {
    if response.Packet? {
      MessageTable(decode(response.data));
    }
  }

  ghost predicate HasNoTimeout(items: seq<Item>) {
    forall i | 0 <= i < |items| :: !items[i].Timeout?
  }

  lemma {:induction false} NoTimeoutEvents(events: seq<Event>)
    ensures HasNoTimeout(Flatten(WithoutDeadlines(events)))
  {
    if events != [] {
      NoTimeoutEvents(events[1..]);
      var rest := WithoutDeadlines(events[1..]);
      if !events[0].Expire? {
        assert ([events[0]] + rest)[1..] == rest;
      } else {
        assert [] + rest == rest;
      }
    }
  }

  lemma NoTimeout(buffer: string, events: seq<Event>)
    ensures HasNoTimeout(AsItems(buffer) + Flatten(WithoutDeadlines(events)))
    ensures HasNoTimeout(AsItems(buffer))
  {
    NoTimeoutEvents(events);
  }

  lemma TimesOutOnTimeout(items: seq<Item>, end: Cause)
    requires !end.Deadline? && NextResponse(items, end).0.TimedOut?
    ensures !HasNoTimeout(items)
  {
    ReadFieldShape(items, end);
    var field := ReadField(items, end).0;
    assert items[|field.data|].Timeout?;
  }

  class DbgpClient {
    const conn: Conn
    const reader: BufReader
    const decode: Decoder
    var counter: int
    var lastSourceBegin: int
    var abortRequested: bool

    ghost predicate Valid() {
      reader.conn == conn
    }

    constructor (conn: Conn, decode: Decoder)
      ensures Valid() && this.conn == conn && this.decode == decode && fresh(reader)
      ensures reader.buffer == "" && counter == 1 && lastSourceBegin == 1 && !abortRequested
    {
      this.conn := conn;
      this.decode := decode;
      this.reader := new BufReader(conn);
      counter, lastSourceBegin, abortRequested := 1, 1, false;
    }

    /** `readResponse`. */
    method ReadRaw() returns (response: Wire.Response)
      requires Valid()
      modifies reader`buffer, conn`pending
      ensures (response, reader.Items()) == NextResponse(old(reader.Items()), conn.End())
      ensures IsTail(conn.pending, old(conn.pending))
      ensures !response.Failed? ==> |conn.pending| < |old(conn.pending)| || |reader.buffer| < |old(reader.buffer)|
    {
      var length := reader.ReadBytes();
      if length.Cut? {
        if length.cause.Deadline? {
          return TimedOut(length.cause.ideGone);
        }
        return Failed(length.cause);
      }
      ghost var before := conn.pending;
      var data := reader.ReadBytes();
      TailOfTail(conn.pending, before, old(conn.pending));
      if data.Cut? {
        return Failed(data.cause);
      }
      return Packet(data.data);
    }

    method ReadResponseWithTimeout() returns (response: Wire.Response)
      requires Valid()
      modifies reader`buffer, conn`pending, conn`deadline
      ensures conn.deadline
      ensures (response, reader.ItemsWith(true)) == NextResponse(old(reader.ItemsWith(true)), conn.End())
      ensures IsTail(conn.pending, old(conn.pending))
      ensures !response.Failed? ==> |conn.pending| < |old(conn.pending)| || |reader.buffer| < |old(reader.buffer)|
    {
      conn.deadline := true;
      assert reader.Items() == old(reader.ItemsWith(true));
      response := ReadRaw();
    }

    method ReadResponse() returns (response: Wire.Response)
      requires Valid()
      modifies reader`buffer, conn`pending, conn`deadline
      ensures !response.TimedOut?
      ensures (response, reader.ItemsWith(false)) == NextResponse(old(reader.ItemsWith(false)), conn.End())
      ensures IsTail(conn.pending, old(conn.pending))
    {
      conn.deadline := false;
      assert reader.Items() == old(reader.ItemsWith(false));
      NoTimeout(reader.buffer, conn.pending);
      ghost var items := reader.Items();
      response := ReadRaw();
      if response.TimedOut? {
        TimesOutOnTimeout(items, conn.End());
      }
    }

    method SignalAbort()
      modifies this`abortRequested
      ensures abortRequested
    {
      abortRequested := true;
    }

    method InjectIIfNeeded(parts: seq<string>) returns (r: seq<string>)
      requires |parts| >= 1
      modifies this`counter
      ensures r == WithId(parts, old(counter)) && counter == NextCounter(parts, old(counter))
      ensures "-i" in parts ==> r == parts && counter == old(counter)
      ensures "-i" !in parts ==>
        r == [parts[0], "-i", Itoa(old(counter))] + parts[1..] && counter == old(counter) + 1
    {
      for i := 0 to |parts|
        invariant !HasId(parts[..i])
      {
        if parts[i] == "-i" {
          return parts;
        }
      }
      assert parts[..|parts|] == parts;
      r := [parts[0]];
      r := r + ["-i", Itoa(counter)];
      r := r + parts[1..];
      counter := counter + 1;
    }

    method StoreSourceBeginIfPresent(parts: seq<string>)
      modifies this`lastSourceBegin
      ensures lastSourceBegin == WindowStart(parts)
    {
      var found := false;
      lastSourceBegin := 1;
      for i := 0 to |parts|
        invariant found == (i > 0 && parts[i - 1] == "-b")
        invariant lastSourceBegin == WindowStart(parts[..i])
      {
        assert parts[..i + 1][..i] == parts[..i];
        if found {
          var value := Atoi(parts[i]);
          if value.Some? && value.value > 0 {
            lastSourceBegin := value.value;
          }
          found := false;
        }
        if parts[i] == "-b" {
          found := true;
        }
      }
      assert parts[..|parts|] == parts;
    }

    method ProcessLine(line: string) returns (r: string)
      modifies this`counter, this`lastSourceBegin
      ensures r == Rewrite(line, old(counter))
      ensures counter == NextCounter(Tokens(line), old(counter))
      ensures lastSourceBegin == WindowStart(Split(r, ' '))
      ensures var tokens := Split(TrimSpace(line), ' ');
        if "-i" in tokens then Split(r, ' ') == tokens && counter == old(counter)
        else Split(r, ' ') == [tokens[0], "-i", Itoa(old(counter))] + tokens[1..] && counter == old(counter) + 1
    {
      RewriteInserts(line, counter);
      var parts := Split(TrimSpace(line), ' ');
      RewriteKeepsTokens(line, counter);
      parts := InjectIIfNeeded(parts);
      StoreSourceBeginIfPresent(parts);
      r := Join(parts, ' ');
    }

    /** The line and its NUL are handed to the connection in one write, which may fail. */
    method SendCommand(line: string) returns (ok: bool)
      requires Valid()
      modifies this`counter, this`lastSourceBegin, conn`sent
      ensures conn.sent == old(conn.sent) + Rewrite(line, old(counter)) + [NUL]
      ensures counter == NextCounter(Tokens(line), old(counter))
      ensures lastSourceBegin == WindowStart(Split(Rewrite(line, old(counter)), ' '))
    {
      var text := ProcessLine(line);
      conn.sent := conn.sent + text + [NUL];
      ok := *;
    }

    method RunCommand(command: string) returns (r: RunResult)
      requires Valid()
      modifies this`counter, this`lastSourceBegin, reader`buffer, conn`sent, conn`pending, conn`deadline
      ensures conn.sent == old(conn.sent) + Rewrite(command, old(counter)) + [NUL]
      ensures r.WriteFailed? ==> conn.Left() == old(conn.Left())
      ensures !r.WriteFailed? ==>
        var (response, rest) := NextResponse(old(reader.ItemsWith(false)), conn.End());
        !response.TimedOut? && r == Judge(response, decode) && reader.ItemsWith(false) == rest
      ensures IsTail(conn.pending, old(conn.pending))
    {
      var ok := SendCommand(command);
      if !ok {
        return WriteFailed;
      }
      var response := ReadResponse();
      if response.Failed? {
        return ReadFailure(response.cause);
      }
      if !IsValidXml(response.data) {
        return NotXmlReply;
      }
      var formatted := FormatXml(decode(response.data));
      if formatted == None {
        return Crashed;
      }
      return if IsSuccess(formatted.value) then Done else Refused;
    }
  }
}
