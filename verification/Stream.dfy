/** A network connection that delivers chunks, expired deadlines and failures in any order, and
    the buffered reader (`bufio.Reader`) that looks for NULs in them. */
module Stream {
  import opened Text
  import opened Wire

  datatype Event = Chunk(bytes: string) | Expire(ideGone: bool) | Fail

  datatype ReadResult = Got(bytes: string) | Error(cause: Cause)

  /** The events as single items. How the bytes were cut into chunks is lost here. */
  function Flatten(events: seq<Event>): seq<Item> {
    if events == [] then []
    else
      (match events[0]
       case Chunk(bytes) => AsItems(bytes)
       case Expire(ideGone) => [Timeout(ideGone)]
       case Fail => [Reset])
      + Flatten(events[1..])
  }

  function WithoutDeadlines(events: seq<Event>): seq<Event> {
    if events == [] then []
    else (if events[0].Expire? then [] else [events[0]]) + WithoutDeadlines(events[1..])
  }

  /** What a connection still has to deliver, as a value. */
  datatype Feed = Feed(events: seq<Event>, closed: bool)

  /** What reads find in a feed from here on if a deadline is set before each, or none is. */
  function ItemsOf(feed: Feed, deadline: bool): seq<Item> {
    if feed.closed then [] else Flatten(if deadline then feed.events else WithoutDeadlines(feed.events))
  }

  /** What a read finds when nothing is left. */
  function EndOf(feed: Feed): (end: Cause)
    ensures !end.Deadline?
  {
    if feed.closed then Lost else Eof
  }

  predicate IsTail<T(==)>(tail: seq<T>, s: seq<T>) {
    |tail| <= |s| && tail == s[|s| - |tail|..]
  }

  lemma TailOfTail<T>(a: seq<T>, b: seq<T>, c: seq<T>)
    requires IsTail(a, b) && IsTail(b, c)
    ensures IsTail(a, c)
  {
  }

  /** What one `Read` takes from the items of a connection. */
  ghost predicate Delivers(r: ReadResult, before: seq<Item>, after: seq<Item>, end: Cause) {
    match r
    case Got(bytes) => before == AsItems(bytes) + after
    case Error(Deadline(ideGone)) => before == [Timeout(ideGone)] + after
    case Error(Lost) => before == [Reset] + after || (before == after == [] && end == Lost)
    case Error(Eof) => before == after == [] && end == Eof
  }

  class Conn {
    var pending: seq<Event>  // what the network will deliver
    var deadline: bool       // whether a read deadline is set
    var closed: bool
    var sent: string         // everything handed to Write

    constructor (pending: seq<Event>)
      ensures this.pending == pending && !closed && !deadline && sent == ""
    {
      this.pending := pending;
      deadline, closed, sent := false, false, "";
    }

    function Left(): Feed
      reads this
    {
      Feed(pending, closed)
    }

    ghost function ItemsWith(deadline: bool): seq<Item>
      reads this
    {
      ItemsOf(Left(), deadline)
    }

    ghost function Items(): seq<Item>
      reads this
    {
      ItemsWith(deadline)
    }

    ghost function End(): (end: Cause)
      reads this
      ensures !end.Deadline?
    {
      EndOf(Left())
    }

    method Read() returns (r: ReadResult)
      modifies this`pending
      ensures Delivers(r, old(Items()), Items(), End())
      ensures IsTail(pending, old(pending))
      ensures r.Got? || r.cause.Deadline? ==> |pending| < |old(pending)|
    {
      if closed {
        return Error(Lost);
      }
      while !deadline && pending != [] && pending[0].Expire?
        invariant Items() == old(Items()) && IsTail(pending, old(pending))
        decreases |pending|
      {
        assert WithoutDeadlines(pending) == WithoutDeadlines(pending[1..]);
        pending := pending[1..];
      }
      if pending == [] {
        return Error(Eof);
      }
      var event := pending[0];
      pending := pending[1..];
      match event
      case Chunk(bytes) => r := Got(bytes);
      case Expire(ideGone) => r := Error(Deadline(ideGone));
      case Fail => r := Error(Lost);
    }
  }

  lemma AsItemsConcat(a: string, b: string)
    ensures AsItems(a + b) == AsItems(a) + AsItems(b)
  {
  }

  lemma FillKeeps(buffer: string, bytes: string, after: seq<Item>)
    ensures AsItems(buffer + bytes) + after == AsItems(buffer) + (AsItems(bytes) + after)
  {
    AsItemsConcat(buffer, bytes);
  }

  method IndexOfNul(s: string) returns (n: nat)
    requires NUL in s
    ensures n < |s| && s[n] == NUL && NUL !in s[..n]
  {
    n := 0;
    while s[n] != NUL
      invariant n < |s|
      invariant NUL !in s[..n]
      invariant NUL in s[n..]
      decreases |s| - n
    {
      n := n + 1;
    }
  }

  lemma ErrorCuts(buffer: string, cause: Cause, before: seq<Item>, after: seq<Item>, end: Cause)
    requires NUL !in buffer && !end.Deadline?
    requires Delivers(Error(cause), before, after, end)
    ensures ReadField(AsItems(buffer) + before, end) == (Cut(buffer, cause), after)
  {
    ReadFieldCut(buffer, before, end);
    if before != [] {
      assert before[1..] == after;
    }
  }

  lemma FieldInBuffer(buffer: string, n: nat, items: seq<Item>, end: Cause)
    requires n < |buffer| && buffer[n] == NUL && NUL !in buffer[..n]
    ensures ReadField(AsItems(buffer) + items, end)
      == (Field(buffer[..n + 1]), AsItems(buffer[n + 1..]) + items)
  {
    assert buffer == buffer[..n + 1] + buffer[n + 1..];
    AsItemsConcat(buffer[..n + 1], buffer[n + 1..]);
    assert buffer[..n + 1][..n] == buffer[..n];
    ReadFieldWhole(buffer[..n + 1], AsItems(buffer[n + 1..]) + items, end);
    assert AsItems(buffer) + items == AsItems(buffer[..n + 1]) + (AsItems(buffer[n + 1..]) + items);
  }

  class BufReader {
    const conn: Conn
    var buffer: string

    /** Everything this reader will see: first what it holds, then what the connection delivers. */
    ghost function Items(): seq<Item>
      reads this, conn
    {
      AsItems(buffer) + conn.Items()
    }

    constructor (conn: Conn)
      ensures this.conn == conn && buffer == ""
      ensures Items() == conn.Items()
    {
      this.conn := conn;
      buffer := "";
    }

    ghost function ItemsWith(deadline: bool): seq<Item>
      reads this, conn
    {
      AsItems(buffer) + conn.ItemsWith(deadline)
    }

    /** One `Read` of the connection into the buffer. */
    method Fill() returns (stop: Option<Cause>)
      modifies this`buffer, conn`pending
      ensures IsTail(conn.pending, old(conn.pending))
      ensures stop.None? || stop.value.Deadline? ==> |conn.pending| < |old(conn.pending)|
      ensures stop.None? ==> Items() == old(Items())
      ensures stop.Some? ==> buffer == old(buffer)
      ensures stop.Some? ==> Delivers(Error(stop.value), old(conn.Items()), conn.Items(), conn.End())
    {
      var r := conn.Read();
      match r {
        case Got(bytes) =>
          FillKeeps(buffer, bytes, conn.Items());
          buffer := buffer + bytes;
          stop := None;
        case Error(cause) =>
          stop := Some(cause);
      }
    }

    /** `ReadBytes('\0')`: however the bytes are cut into chunks, the outcome and what is left are
        those of `ReadField` on the single items. */
    method ReadBytes() returns (field: Field)
      modifies this`buffer, conn`pending
      ensures (field, Items()) == ReadField(old(Items()), conn.End())
      ensures IsTail(conn.pending, old(conn.pending))
      ensures field.Field? || field.cause.Deadline? ==>
        |conn.pending| < |old(conn.pending)| || |buffer| < |old(buffer)|
      ensures |conn.pending| == |old(conn.pending)| ==> |buffer| <= |old(buffer)|
    {
      while NUL !in buffer
        invariant Items() == old(Items())
        invariant IsTail(conn.pending, old(conn.pending))
        invariant |conn.pending| == |old(conn.pending)| ==> buffer == old(buffer)
        decreases |conn.pending|
      {
        ghost var items := conn.Items();
        ghost var before := conn.pending;
        var stop := Fill();
        TailOfTail(conn.pending, before, old(conn.pending));
        if stop.Some? {
          ErrorCuts(buffer, stop.value, items, conn.Items(), conn.End());
          field := Cut(buffer, stop.value);
          buffer := "";
          assert Items() == conn.Items();
          return;
        }
      }
      var n := IndexOfNul(buffer);
      FieldInBuffer(buffer, n, conn.Items(), conn.End());
      field := Field(buffer[..n + 1]);
      buffer := buffer[n + 1..];
    }
  }
}
