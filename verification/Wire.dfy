/** The packet framing of DBGp (section 6, "Message Packets"): an engine sends
    `length NUL data NUL`. This module says what a reader of such a stream finds when bytes,
    expired read deadlines and failures arrive in any order, one item at a time.
    A `char` is one byte here. */
module Wire {
  import opened Text
  import opened Decimal

  /** What a connection delivers. `ideGone` is what a poll of the IDE's side finds at the
      moment a read deadline expires. */
  datatype Item = Byte(c: char) | Timeout(ideGone: bool) | Reset

  datatype Cause = Deadline(ideGone: bool) | Eof | Lost

  /** What one `ReadBytes('\0')` returns: a whole field with its NUL, or the bytes before an error. */
  datatype Field = Field(data: string) | Cut(data: string, cause: Cause)

  /** What one `readResponse` returns. */
  datatype Response = Packet(data: string) | TimedOut(ideGone: bool) | Failed(cause: Cause)

  /** How the forwarder's read loop ends. */
  datatype Exit = IdeGone | ReadFailed(cause: Cause) | Closing

  datatype Forwarded = Forwarded(payloads: seq<string>, exit: Exit, rest: seq<Item>)

  function AsItems(bytes: string): seq<Item> {
    seq(|bytes|, i requires 0 <= i < |bytes| => Byte(bytes[i]))
  }

  function Bytes(items: seq<Item>): string {
    if items == [] then ""
    else (if items[0].Byte? then [items[0].c] else "") + Bytes(items[1..])
  }

  /** Frame of a payload, as the DBGp specification has it. */
  function Frame(payload: string): string {
    Itoa(|payload|) + [NUL] + payload + [NUL]
  }

  function Frames(payloads: seq<string>): string {
    if payloads == [] then "" else Frame(payloads[0]) + Frames(payloads[1..])
  }

  // ----- Reading, one item at a time -----

  function ReadField(items: seq<Item>, end: Cause): (r: (Field, seq<Item>))
    ensures |r.1| <= |items|
    ensures items != [] ==> |r.1| < |items|
  {
    if items == [] then (Cut("", end), [])
    else
      match items[0]
      case Timeout(ideGone) => (Cut("", Deadline(ideGone)), items[1..])
      case Reset => (Cut("", Lost), items[1..])
      case Byte(c) =>
        if c == NUL then (Field([c]), items[1..])
        else
          var (field, rest) := ReadField(items[1..], end);
          (field.(data := [c] + field.data), rest)
  }

  /** The length field is read and thrown away. A deadline that expires in it is a timeout;
      one that expires in the data is an error like any other. */
  function NextResponse(items: seq<Item>, end: Cause): (r: (Response, seq<Item>))
    ensures |r.1| <= |items|
    ensures items != [] ==> |r.1| < |items|
    ensures items == [] && !end.Deadline? ==> r.0.Failed?
  {
    var (length, rest) := ReadField(items, end);
    match length
    case Cut(_, Deadline(ideGone)) => (TimedOut(ideGone), rest)
    case Cut(_, cause) => (Failed(cause), rest)
    case Field(_) =>
      var (data, rest') := ReadField(rest, end);
      match data
      case Field(d) => (Packet(d), rest')
      case Cut(_, cause) => (Failed(cause), rest')
  }

  ghost predicate EndsInNul(d: string) {
    |d| >= 1 && d[|d| - 1] == NUL && NUL !in d[..|d| - 1]
  }

  /** What `ReadField` consumed: the bytes it returned, then at most one event. */
  ghost predicate FieldOf(field: Field, items: seq<Item>, rest: seq<Item>, end: Cause) {
    match field
    case Field(d) =>
      EndsInNul(d) && items == AsItems(d) + rest
    case Cut(d, cause) =>
      && NUL !in d
      && (|| (cause.Deadline? && items == AsItems(d) + ([Timeout(cause.ideGone)] + rest))
          || (cause == Lost && items == AsItems(d) + ([Reset] + rest))
          || (cause == end && rest == [] && items == AsItems(d)))
  }

  lemma AsItemsCons(c: char, s: string)
    ensures AsItems([c] + s) == [Byte(c)] + AsItems(s)
  {
  }

  lemma FieldCons(c: char, field: Field, items: seq<Item>, rest: seq<Item>, end: Cause)
    requires c != NUL && FieldOf(field, items, rest, end)
    ensures FieldOf(field.(data := [c] + field.data), [Byte(c)] + items, rest, end)
  {
    var d := [c] + field.data;
    AsItemsCons(c, field.data);
    if field.Field? {
      assert d[..|d| - 1] == [c] + field.data[..|field.data| - 1];
    }
  }

  lemma {:induction false} ReadFieldShape(items: seq<Item>, end: Cause)
    ensures var (field, rest) := ReadField(items, end); FieldOf(field, items, rest, end)
  {
    var (field, rest) := ReadField(items, end);
    if items == [] {
    } else if items[0].Byte? && items[0].c != NUL {
      ReadFieldShape(items[1..], end);
      var (tail, _) := ReadField(items[1..], end);
      FieldCons(items[0].c, tail, items[1..], rest, end);
      assert items == [items[0]] + items[1..];
    } else if items[0].Byte? {
      assert items == AsItems([NUL]) + items[1..];
    } else {
      assert items == AsItems("") + ([items[0]] + items[1..]);
    }
  }

  lemma PacketEndsInNul(items: seq<Item>, end: Cause)
    ensures var r := NextResponse(items, end).0;
      r.Packet? ==> EndsInNul(r.data)
  {
    var (length, rest) := ReadField(items, end);
    ReadFieldShape(rest, end);
  }

  /** The packets the forwarder's loop passes on, without their trailing NUL, and why it ends. */
  function Forward(items: seq<Item>, end: Cause, closes: string -> bool): Forwarded
    requires !end.Deadline?
    decreases |items|
  {
    var (response, rest) := NextResponse(items, end);
    match response
    case TimedOut(ideGone) =>
      if ideGone then Forwarded([], IdeGone, rest) else Forward(rest, end, closes)
    case Failed(cause) => Forwarded([], ReadFailed(cause), rest)
    case Packet(d) =>
      if closes(d) then Forwarded([], Closing, rest)
      else
        var r := Forward(rest, end, closes);
        PacketEndsInNul(items, end);
        r.(payloads := [d[..|d| - 1]] + r.payloads)
  }

  // ----- The same stream, seen as a whole -----

  function EverySecond(fields: seq<string>): seq<string> {
    if |fields| < 3 then [] else [fields[1]] + EverySecond(fields[2..])
  }

  /** The complete packets of a byte stream: every second of its NUL-separated fields. What a
      length field says plays no part, and the field after the last NUL is incomplete. */
  function Packets(bytes: string): seq<string> {
    EverySecond(Split(bytes, NUL))
  }

  function NulCount(items: seq<Item>): nat {
    if items == [] then 0 else (if items[0] == Byte(NUL) then 1 else 0) + NulCount(items[1..])
  }

  /** The item at `i` ends a reading that starts in a data part (`inData`) or in a length part:
      the connection fails, a deadline expires inside data, or one expires and the IDE is gone.
      Whether item `i` arrives inside data is the parity of the NULs before it. */
  ghost predicate Ends(items: seq<Item>, inData: bool, i: nat)
    requires i < |items|
  {
    || items[i].Reset?
    || (items[i].Timeout? && (items[i].ideGone || (NulCount(items[..i]) % 2 == 1) != inData))
  }

  /** Index of the first item that ends the reading, or the number of items if none does. */
  function Stop(items: seq<Item>, inData: bool): (n: nat)
    ensures n <= |items|
  {
    if items == [] then 0
    else
      match items[0]
      case Reset => 0
      case Timeout(ideGone) => if ideGone || inData then 0 else 1 + Stop(items[1..], inData)
      case Byte(c) => 1 + Stop(items[1..], if c == NUL then !inData else inData)
  }

  /** The bytes that arrive before the reading ends. */
  function Arrived(items: seq<Item>, inData: bool): string {
    Bytes(items[..Stop(items, inData)])
  }

  /** Why a reading ends that meets no closing packet. */
  function StopExit(items: seq<Item>, inData: bool, end: Cause): Exit {
    var n := Stop(items, inData);
    if n == |items| then ReadFailed(end)
    else if items[n].Reset? then ReadFailed(Lost)
    else if items[n].Timeout? then
      if (NulCount(items[..n]) % 2 == 1) != inData then ReadFailed(Deadline(items[n].ideGone)) else IdeGone
    else ReadFailed(end)
  }

  function Until(payloads: seq<string>, closes: string -> bool): seq<string> {
    if payloads == [] || closes(payloads[0] + [NUL]) then []
    else [payloads[0]] + Until(payloads[1..], closes)
  }

  /** What is passed on is everything before the first packet that closes. */
  lemma {:induction false} UntilStops(payloads: seq<string>, closes: string -> bool)
    ensures var n := |Until(payloads, closes)|;
      && n <= |payloads| && Until(payloads, closes) == payloads[..n]
      && (forall i | 0 <= i < n :: !closes(payloads[i] + [NUL]))
      && (n < |payloads| ==> closes(payloads[n] + [NUL]))
  {
    if payloads != [] && !closes(payloads[0] + [NUL]) {
      UntilStops(payloads[1..], closes);
      var n := |Until(payloads, closes)|;
      assert payloads[..n] == [payloads[0]] + payloads[1..][..n - 1];
    }
  }

  // ----- Lemmas -----

  lemma {:induction false} StopEnds(items: seq<Item>, inData: bool)
    ensures var n := Stop(items, inData);
      && (forall i: nat | i < n :: !Ends(items, inData, i))
      && (n < |items| ==> Ends(items, inData, n))
  {
    if items == [] {
    } else {
      var inData' := if items[0] == Byte(NUL) then !inData else inData;
      var n := Stop(items, inData);
      StopEnds(items[1..], inData');
      forall i: nat | 0 < i < |items|
        ensures Ends(items, inData, i) == Ends(items[1..], inData', i - 1)
      {
        assert items[..i][1..] == items[1..][..i - 1];
      }
      assert items[..0] == [];
      if n > 0 {
        forall i: nat | i < n ensures !Ends(items, inData, i) {
          if i > 0 {
            assert !Ends(items[1..], inData', i - 1);
          }
        }
      }
    }
  }

  /** The reading stops at the first failure, the first deadline that expires inside data, or the first
      one that finds the IDE gone: inside data is where the NULs before are odd in number, counted from
      the start of a length, or even, counted from the start of data. */
  lemma StopIsFirst(items: seq<Item>, inData: bool)
    ensures var n := Stop(items, inData);
      && (forall i | 0 <= i < n ::
            || items[i].Byte?
            || (items[i].Timeout? && !items[i].ideGone && NulCount(items[..i]) % 2 == if inData then 1 else 0))
      && (n < |items| ==>
            || items[n].Reset?
            || (items[n].Timeout? && (items[n].ideGone || NulCount(items[..n]) % 2 == if inData then 0 else 1)))
  {
    StopEnds(items, inData);
    var n := Stop(items, inData);
    forall i | 0 <= i < n
      ensures
        || items[i].Byte?
        || (items[i].Timeout? && !items[i].ideGone && NulCount(items[..i]) % 2 == if inData then 1 else 0)
    {
      assert !Ends(items, inData, i);
    }
  }

  // What arrives, as items are put in front of a stream.

  lemma ArrivedByte(c: char, rest: seq<Item>, inData: bool, end: Cause)
    ensures var items := [Byte(c)] + rest;
      var inData' := if c == NUL then !inData else inData;
      && Arrived(items, inData) == [c] + Arrived(rest, inData')
      && StopExit(items, inData, end) == StopExit(rest, inData', end)
  {
    var items := [Byte(c)] + rest;
    var n := Stop(items, inData);
    assert items[1..] == rest;
    assert items[..n][1..] == rest[..n - 1];
  }

  lemma {:induction false} ArrivedBytes(d: string, rest: seq<Item>, inData: bool, end: Cause)
    requires NUL !in d
    ensures Arrived(AsItems(d) + rest, inData) == d + Arrived(rest, inData)
    ensures StopExit(AsItems(d) + rest, inData, end) == StopExit(rest, inData, end)
  {
    if d == "" {
      assert AsItems(d) + rest == rest;
    } else {
      assert d == [d[0]] + d[1..] && d[0] in d;
      AsItemsCons(d[0], d[1..]);
      assert AsItems(d) + rest == [Byte(d[0])] + (AsItems(d[1..]) + rest);
      ArrivedBytes(d[1..], rest, inData, end);
      ArrivedByte(d[0], AsItems(d[1..]) + rest, inData, end);
    }
  }

  lemma ArrivedField(d: string, rest: seq<Item>, inData: bool, end: Cause)
    requires EndsInNul(d)
    ensures Arrived(AsItems(d) + rest, inData) == d + Arrived(rest, !inData)
    ensures StopExit(AsItems(d) + rest, inData, end) == StopExit(rest, !inData, end)
  {
    var d' := d[..|d| - 1];
    assert AsItems(d) + rest == AsItems(d') + ([Byte(NUL)] + rest);
    ArrivedBytes(d', [Byte(NUL)] + rest, inData, end);
    ArrivedByte(NUL, rest, inData, end);
    assert d == d' + [NUL];
  }

  lemma ArrivedTimeout(ideGone: bool, rest: seq<Item>, inData: bool, end: Cause)
    ensures var items := [Timeout(ideGone)] + rest;
      if inData then Arrived(items, inData) == "" && StopExit(items, inData, end) == ReadFailed(Deadline(ideGone))
      else if ideGone then Arrived(items, inData) == "" && StopExit(items, inData, end) == IdeGone
      else Arrived(items, inData) == Arrived(rest, inData) && StopExit(items, inData, end) == StopExit(rest, inData, end)
  {
    var items := [Timeout(ideGone)] + rest;
    var n := Stop(items, inData);
    assert items[1..] == rest;
    if n > 0 {
      assert items[..n][1..] == rest[..n - 1];
    }
  }

  // How packets and NULs line up.

  lemma {:induction false} SplitPrefix(d: string, bytes: string)
    requires NUL !in d
    ensures var parts := Split(bytes, NUL);
      Split(d + bytes, NUL) == [d + parts[0]] + parts[1..]
  {
    if d == "" {
      var parts := Split(bytes, NUL);
      assert d + bytes == bytes && d + parts[0] == parts[0];
      assert [parts[0]] + parts[1..] == parts;
    } else {
      assert d == [d[0]] + d[1..] && d[0] in d;
      SplitPrefix(d[1..], bytes);
      assert (d + bytes)[1..] == d[1..] + bytes;
      var parts := Split(bytes, NUL);
      assert d + parts[0] == [d[0]] + (d[1..] + parts[0]);
    }
  }

  /** Bytes without a NUL that end up in front of a length field change no packet. */
  lemma PacketsSkip(d: string, bytes: string)
    requires NUL !in d
    ensures Packets(d + bytes) == Packets(bytes)
  {
    SplitPrefix(d, bytes);
    var parts := Split(bytes, NUL);
    if |parts| >= 3 {
      assert Split(d + bytes, NUL)[2..] == parts[2..];
    }
  }

  lemma PacketsCons(length: string, payload: string, bytes: string)
    requires NUL !in length && NUL !in payload
    ensures Packets(length + [NUL] + payload + [NUL] + bytes) == [payload] + Packets(bytes)
  {
    SplitFirst(payload, bytes, NUL);
    SplitFirst(length, payload + [NUL] + bytes, NUL);
    assert length + [NUL] + payload + [NUL] + bytes == length + [NUL] + (payload + [NUL] + bytes);
    var parts := Split(bytes, NUL);
    assert ([length] + ([payload] + parts))[2..] == parts;
  }

  lemma PacketsIncomplete(length: string, data: string)
    requires NUL !in length && NUL !in data
    ensures Packets(length) == []
    ensures Packets(length + [NUL] + data) == []
  {
    SplitFree(length, NUL);
    SplitFree(data, NUL);
    SplitFirst(length, data, NUL);
  }

  ghost predicate ForwardsArrived(items: seq<Item>, end: Cause, closes: string -> bool)
    requires !end.Deadline?
  {
    var r := Forward(items, end, closes);
    var packets := Packets(Arrived(items, false));
    && r.payloads == Until(packets, closes)
    && r.exit == if |r.payloads| < |packets| then Closing else StopExit(items, false, end)
  }

  lemma ForwardPacket(items: seq<Item>, d: string, rest: seq<Item>, end: Cause, closes: string -> bool)
    requires !end.Deadline? && EndsInNul(d)
    requires NextResponse(items, end) == (Packet(d), rest)
    requires Packets(Arrived(items, false)) == [d[..|d| - 1]] + Packets(Arrived(rest, false))
    requires StopExit(items, false, end) == StopExit(rest, false, end)
    requires ForwardsArrived(rest, end, closes)
    ensures ForwardsArrived(items, end, closes)
  {
    var packets := Packets(Arrived(items, false));
    assert packets[0] + [NUL] == d && packets[1..] == Packets(Arrived(rest, false));
    assert Forward(items, end, closes) ==
      if closes(d) then Forwarded([], Closing, rest)
      else var r := Forward(rest, end, closes); r.(payloads := [d[..|d| - 1]] + r.payloads);
  }

  lemma CutInLength(items: seq<Item>, d: string, cause: Cause, rest: seq<Item>, end: Cause)
    requires !end.Deadline? && FieldOf(Cut(d, cause), items, rest, end)
    ensures cause.Deadline? && !cause.ideGone ==>
      && Packets(Arrived(items, false)) == Packets(Arrived(rest, false))
      && StopExit(items, false, end) == StopExit(rest, false, end)
    ensures !(cause.Deadline? && !cause.ideGone) ==>
      && Packets(Arrived(items, false)) == []
      && StopExit(items, false, end) == if cause.Deadline? then IdeGone else ReadFailed(cause)
  {
    PacketsIncomplete(d, "");
    if cause.Deadline? {
      ArrivedBytes(d, [Timeout(cause.ideGone)] + rest, false, end);
      ArrivedTimeout(cause.ideGone, rest, false, end);
      PacketsSkip(d, Arrived(rest, false));
      assert d + "" == d;
    } else if items == AsItems(d) + ([Reset] + rest) && cause == Lost {
      ArrivedBytes(d, [Reset] + rest, false, end);
      assert d + "" == d;
    } else {
      ArrivedBytes(d, [], false, end);
      assert d + "" == d && AsItems(d) + [] == AsItems(d);
    }
  }

  lemma CutInData(items: seq<Item>, d: string, cause: Cause, rest: seq<Item>, end: Cause)
    requires !end.Deadline? && FieldOf(Cut(d, cause), items, rest, end)
    ensures Arrived(items, true) == d && StopExit(items, true, end) == ReadFailed(cause)
  {
    if cause.Deadline? {
      ArrivedBytes(d, [Timeout(cause.ideGone)] + rest, true, end);
      ArrivedTimeout(cause.ideGone, rest, true, end);
    } else if items == AsItems(d) + ([Reset] + rest) && cause == Lost {
      ArrivedBytes(d, [Reset] + rest, true, end);
    } else {
      ArrivedBytes(d, [], true, end);
      assert AsItems(d) + [] == AsItems(d);
    }
    assert d + "" == d;
  }

  lemma NulAtEnd(l: string, d: string)
    requires EndsInNul(l)
    ensures l + d == l[..|l| - 1] + [NUL] + d
  {
  }

  lemma CutAfterLength(l: string, items: seq<Item>, d: string, cause: Cause, rest: seq<Item>, end: Cause)
    requires !end.Deadline? && EndsInNul(l) && FieldOf(Cut(d, cause), items, rest, end)
    ensures Packets(Arrived(AsItems(l) + items, false)) == []
    ensures StopExit(AsItems(l) + items, false, end) == ReadFailed(cause)
  {
    ArrivedField(l, items, false, end);
    CutInData(items, d, cause, rest, end);
    PacketsIncomplete(l[..|l| - 1], d);
    NulAtEnd(l, d);
  }

  lemma WholePacket(l: string, d: string, rest: seq<Item>, end: Cause)
    requires EndsInNul(l) && EndsInNul(d)
    ensures var items := AsItems(l) + AsItems(d) + rest;
      && Packets(Arrived(items, false)) == [d[..|d| - 1]] + Packets(Arrived(rest, false))
      && StopExit(items, false, end) == StopExit(rest, false, end)
  {
    ArrivedField(l, AsItems(d) + rest, false, end);
    ArrivedField(d, rest, true, end);
    assert AsItems(l) + AsItems(d) + rest == AsItems(l) + (AsItems(d) + rest);
    var bytes := Arrived(rest, false);
    PacketsCons(l[..|l| - 1], d[..|d| - 1], bytes);
    assert l + (d + bytes) == l[..|l| - 1] + [NUL] + d[..|d| - 1] + [NUL] + bytes;
  }

  lemma PacketForwards(items: seq<Item>, l: string, inside: seq<Item>, d: string, rest: seq<Item>,
                       end: Cause, closes: string -> bool)
    requires !end.Deadline? && NextResponse(items, end) == (Packet(d), rest)
    requires FieldOf(Field(l), items, inside, end) && FieldOf(Field(d), inside, rest, end)
    requires ForwardsArrived(rest, end, closes)
    ensures ForwardsArrived(items, end, closes)
  {
    WholePacket(l, d, rest, end);
    assert items == AsItems(l) + AsItems(d) + rest;
    ForwardPacket(items, d, rest, end, closes);
  }

  /** The forwarder's read loop, for every order of bytes, deadlines and failures: it passes on
      the complete packets of the bytes that arrive before the reading ends, up to the first
      closing packet. Deadlines that expire in a length part cost nothing, and no length field
      is looked at. */
  lemma {:induction false} ForwardIsSplit(items: seq<Item>, end: Cause, closes: string -> bool)
    requires !end.Deadline?
    ensures var r := Forward(items, end, closes);
      var packets := Packets(Arrived(items, false));
      && r.payloads == Until(packets, closes)
      && r.exit == if |r.payloads| < |packets| then Closing else StopExit(items, false, end)
    decreases |items|
  {
    var (length, rest) := ReadField(items, end);
    ReadFieldShape(items, end);
    match length
    case Cut(d, cause) =>
      CutInLength(items, d, cause, rest, end);
      if cause.Deadline? && !cause.ideGone {
        ForwardIsSplit(rest, end, closes);
      }
    case Field(l) =>
      var (data, rest') := ReadField(rest, end);
      ReadFieldShape(rest, end);
      match data {
        case Cut(d, cause) => CutAfterLength(l, rest, d, cause, rest', end);
        case Field(d) =>
          ForwardIsSplit(rest', end, closes);
          PacketForwards(items, l, rest, d, rest', end, closes);
      }
  }

  // ----- Round trips -----

  /** The forwarder's re-framing of a packet that still has its trailing NUL. */
  function Reframe(data: string): string {
    Itoa(|data| - 1) + [NUL] + data
  }

  lemma ReframeIsFrame(payload: string)
    ensures Reframe(payload + [NUL]) == Frame(payload)
  {
    assert Itoa(|payload|) + [NUL] + (payload + [NUL]) == Frame(payload);
  }

  /** A stream of packets with arbitrary text where the lengths should be. */
  function Stream(lengths: seq<string>, payloads: seq<string>): string
    requires |lengths| == |payloads|
  {
    if payloads == [] then ""
    else lengths[0] + [NUL] + payloads[0] + [NUL] + Stream(lengths[1..], payloads[1..])
  }

  lemma {:induction false} PacketsOfStream(lengths: seq<string>, payloads: seq<string>, tail: string)
    requires |lengths| == |payloads| && AllFree(lengths, NUL) && AllFree(payloads, NUL)
    ensures Packets(Stream(lengths, payloads) + tail) == payloads + Packets(tail)
  {
    if payloads == [] {
      assert Stream(lengths, payloads) + tail == tail;
    } else {
      var rest := Stream(lengths[1..], payloads[1..]);
      PacketsOfStream(lengths[1..], payloads[1..], tail);
      PacketsCons(lengths[0], payloads[0], rest + tail);
      assert Stream(lengths, payloads) + tail
        == lengths[0] + [NUL] + payloads[0] + [NUL] + (rest + tail);
      assert payloads == [payloads[0]] + payloads[1..];
    }
  }

  /** When no item ends the reading, all bytes arrive. */
  lemma {:induction false} ArrivedWhole(items: seq<Item>)
    requires forall i: nat | i < |items| :: !Ends(items, false, i)
    ensures Arrived(items, false) == Bytes(items)
  {
    StopEnds(items, false);
    assert Stop(items, false) == |items|;
    assert items[..|items|] == items;
  }

  /** From engine to IDE: whatever the lengths say, however the bytes are cut up, and wherever
      deadlines expire between the data parts, the packets passed on are those sent, up to the
      first closing one. A trailing piece that holds no whole packet is not passed on. */
  lemma {:induction false} EngineToIde(items: seq<Item>, end: Cause, closes: string -> bool,
                    lengths: seq<string>, payloads: seq<string>, tail: string)
    requires !end.Deadline?
    requires forall i | 0 <= i < |items| ::
      items[i].Byte? || (items[i].Timeout? && !items[i].ideGone && NulCount(items[..i]) % 2 == 0)
    requires |lengths| == |payloads| && AllFree(lengths, NUL) && AllFree(payloads, NUL)
    requires Packets(tail) == []
    requires Bytes(items) == Stream(lengths, payloads) + tail
    ensures Forward(items, end, closes).payloads == Until(payloads, closes)
    ensures Forward(items, end, closes).exit
      == if |Until(payloads, closes)| < |payloads| then Closing else ReadFailed(end)
  {
    assert forall i: nat | i < |items| :: !Ends(items, false, i);
    ForwardIsSplit(items, end, closes);
    ArrivedWhole(items);
    StopEnds(items, false);
    PacketsOfStream(lengths, payloads, tail);
    assert payloads + [] == payloads;
  }

  lemma {:induction false} ReadFieldWhole(d: string, rest: seq<Item>, end: Cause)
    requires EndsInNul(d)
    ensures ReadField(AsItems(d) + rest, end) == (Field(d), rest)
  {
    var items := AsItems(d) + rest;
    assert items[0] == Byte(d[0]);
    if |d| == 1 {
      assert items[1..] == rest && d == [NUL];
    } else {
      assert d[0] == d[..|d| - 1][0];
      assert d[1..][..|d| - 2] == d[..|d| - 1][1..];
      AsItemsCons(d[0], d[1..]);
      assert d == [d[0]] + d[1..];
      assert items[1..] == AsItems(d[1..]) + rest;
      ReadFieldWhole(d[1..], rest, end);
    }
  }

  lemma {:induction false} ReadFieldCut(d: string, rest: seq<Item>, end: Cause)
    requires NUL !in d
    requires rest == [] || !rest[0].Byte?
    ensures ReadField(AsItems(d) + rest, end) ==
      (ReadField(rest, end).0.(data := d), ReadField(rest, end).1)
  {
    var items := AsItems(d) + rest;
    if d == "" {
      assert items == rest;
    } else {
      assert items[0] == Byte(d[0]) && d[0] in d;
      AsItemsCons(d[0], d[1..]);
      assert d == [d[0]] + d[1..];
      assert items[1..] == AsItems(d[1..]) + rest;
      ReadFieldCut(d[1..], rest, end);
    }
  }

  /** `n` calls of `readResponse` in a row. */
  function Responses(items: seq<Item>, end: Cause, n: nat): (seq<Response>, seq<Item>)
    decreases n
  {
    if n == 0 then ([], items)
    else
      var (response, rest) := NextResponse(items, end);
      var (more, rest') := Responses(rest, end, n - 1);
      ([response] + more, rest')
  }

  /** One more call. */
  lemma {:induction false} ResponsesSnoc(items: seq<Item>, end: Cause, n: nat)
    ensures var (responses, rest) := Responses(items, end, n);
      var (response, rest') := NextResponse(rest, end);
      Responses(items, end, n + 1) == (responses + [response], rest')
    decreases n
  {
    var (response, rest) := NextResponse(items, end);
    if n == 0 {
      assert Responses(rest, end, 0) == ([], rest);
      assert [response] + [] == [] + [response];
    } else {
      ResponsesSnoc(rest, end, n - 1);
      var (more, rest') := Responses(rest, end, n - 1);
      var (last, _) := NextResponse(rest', end);
      assert [response] + (more + [last]) == ([response] + more) + [last];
    }
  }

  function AsPackets(payloads: seq<string>): seq<Response> {
    seq(|payloads|, i requires 0 <= i < |payloads| => Packet(payloads[i] + [NUL]))
  }

  lemma FrameFirst(length: string, body: string, more: string, rest: seq<Item>)
    ensures AsItems((length + body) + more) + rest
      == AsItems(length) + (AsItems(body) + (AsItems(more) + rest))
  {
  }

  /** One frame, whatever comes behind it. */
  lemma ReadFrame(p: string, tail: seq<Item>, end: Cause)
    requires NUL !in p
    ensures NextResponse(AsItems(Itoa(|p|) + [NUL]) + (AsItems(p + [NUL]) + tail), end) == (Packet(p + [NUL]), tail)
  {
    var length := Itoa(|p|) + [NUL];
    assert length[..|length| - 1] == Itoa(|p|);
    ReadFieldWhole(length, AsItems(p + [NUL]) + tail, end);
    assert (p + [NUL])[..|p|] == p;
    ReadFieldWhole(p + [NUL], tail, end);
  }

  /** Decoding what `SendResponse` encoded: every payload comes back with its NUL, and exactly
      the frames are consumed. */
  lemma {:induction false} FramesRoundTrip(payloads: seq<string>, rest: seq<Item>, end: Cause)
    requires AllFree(payloads, NUL)
    ensures Responses(AsItems(Frames(payloads)) + rest, end, |payloads|) == (AsPackets(payloads), rest)
  {
    if payloads == [] {
      assert AsItems(Frames(payloads)) + rest == rest;
    } else {
      var p := payloads[0];
      ReadFrame(p, AsItems(Frames(payloads[1..])) + rest, end);
      FrameFirst(Itoa(|p|) + [NUL], p + [NUL], Frames(payloads[1..]), rest);
      assert Frame(p) == (Itoa(|p|) + [NUL]) + (p + [NUL]);
      FramesRoundTrip(payloads[1..], rest, end);
      assert AsPackets(payloads) == [Packet(p + [NUL])] + AsPackets(payloads[1..]);
    }
  }

  // ----- A receiver that goes by the lengths -----

  lemma FramesFirst(payload: string, rest: seq<string>)
    ensures Frames([payload] + rest) == Frame(payload) + Frames(rest)
  {
    assert ([payload] + rest)[1..] == rest;
  }

  function ToNul(bytes: string): (n: nat)
    ensures n <= |bytes| && NUL !in bytes[..n]
    ensures n < |bytes| ==> bytes[n] == NUL
  {
    if bytes == "" || bytes[0] == NUL then 0 else 1 + ToNul(bytes[1..])
  }

  predicate IsNumeral(text: string) {
    AllDigits(text) && (|text| == 1 || text[0] != '0')
  }

  /** Takes one packet off a stream by its length: a decimal number up to the first NUL, exactly that many
      bytes, a NUL. It never looks for a NUL in the data. */
  function TakeByLength(bytes: string): (r: Option<(string, string)>)
    ensures r.Some? ==> |r.value.1| < |bytes|
  {
    var k := ToNul(bytes);
    if k == |bytes| || !IsNumeral(bytes[..k]) then None
    else
      var stop := k + 1 + DigitsValue(bytes[..k]);
      if stop >= |bytes| || bytes[stop] != NUL then None else Some((bytes[k + 1..stop], bytes[stop + 1..]))
  }

  /** A strict receiver: nothing but such packets, to the end. */
  function ByLength(bytes: string): Option<seq<string>>
    decreases |bytes|
  {
    if bytes == "" then Some([])
    else
      match TakeByLength(bytes)
      case None => None
      case Some((payload, rest)) =>
        match ByLength(rest)
        case None => None
        case Some(payloads) => Some([payload] + payloads)
  }

  lemma {:induction false} ToNulAt(front: string, rest: string)
    requires NUL !in front
    ensures ToNul(front + [NUL] + rest) == |front|
  {
    var bytes := front + [NUL] + rest;
    if front != "" {
      assert front[0] in front;
      ToNulAt(front[1..], rest);
      assert bytes[1..] == front[1..] + [NUL] + rest;
    }
  }

  lemma {:induction false} DigitsAreNumeral(n: nat)
    ensures IsNumeral(Digits(n)) && NUL !in Digits(n)
    ensures n > 0 ==> Digits(n)[0] != '0'
  {
    if n >= 10 {
      DigitsAreNumeral(n / 10);
    }
  }

  /** One frame read by its length. */
  lemma FrameByLength(payload: string, rest: string)
    ensures var bytes := Frame(payload) + rest;
      var k := |Digits(|payload|)|;
      && ToNul(bytes) == k && bytes[..k] == Digits(|payload|)
      && bytes[k + 1..k + 1 + |payload|] == payload && bytes[k + 1 + |payload|] == NUL
      && bytes[k + 2 + |payload|..] == rest
  {
    var length := Digits(|payload|);
    DigitsAreNumeral(|payload|);
    assert Frame(payload) + rest == length + [NUL] + (payload + [NUL] + rest);
    ToNulAt(length, payload + [NUL] + rest);
  }

  lemma TakeFrame(payload: string, rest: string)
    ensures TakeByLength(Frame(payload) + rest) == Some((payload, rest))
  {
    FrameByLength(payload, rest);
    DigitsAreNumeral(|payload|);
    DigitsValueDigits(|payload|);
  }

  lemma {:induction false} FramesByLength(payloads: seq<string>)
    ensures ByLength(Frames(payloads)) == Some(payloads)
  {
    if payloads != [] {
      TakeFrame(payloads[0], Frames(payloads[1..]));
      FramesByLength(payloads[1..]);
      assert [payloads[0]] + payloads[1..] == payloads;
    }
  }

  lemma NumeralIsDigits(text: string)
    requires IsNumeral(text)
    ensures text == Digits(DigitsValue(text))
  {
    var zeros := ZerosAndDigits(text);
  }

  lemma CutAtNuls(bytes: string, i: nat, j: nat)
    requires i < j < |bytes| && bytes[i] == NUL && bytes[j] == NUL
    ensures bytes == (bytes[..i] + [NUL] + bytes[i + 1..j] + [NUL]) + bytes[j + 1..]
  {
  }

  lemma TakenIsFrame(bytes: string)
    requires TakeByLength(bytes).Some?
    ensures bytes == Frame(TakeByLength(bytes).value.0) + TakeByLength(bytes).value.1
  {
    var k := ToNul(bytes);
    var stop := k + 1 + DigitsValue(bytes[..k]);
    var payload := bytes[k + 1..stop];
    NumeralIsDigits(bytes[..k]);
    CutAtNuls(bytes, k, stop);
  }

  lemma {:induction false} ByLengthFrames(bytes: string)
    requires ByLength(bytes).Some?
    ensures bytes == Frames(ByLength(bytes).value)
    decreases |bytes|
  {
    if bytes != "" {
      var (payload, rest) := TakeByLength(bytes).value;
      TakenIsFrame(bytes);
      ByLengthFrames(rest);
      FramesFirst(payload, ByLength(rest).value);
    }
  }

  /** The strict receiver reads exactly the streams of frames, each as its payloads, with or without NULs
      in them: so a frame carries the length of its payload, in decimal and without zeros in front. */
  lemma ByLengthIsFrames(bytes: string, payloads: seq<string>)
    ensures ByLength(bytes) == Some(payloads) <==> bytes == Frames(payloads)
  {
    FramesByLength(payloads);
    if ByLength(bytes).Some? {
      ByLengthFrames(bytes);
    }
  }
}
