/** The life of a command line: printed by the client, given a transaction id, sent with a NUL,
    read by the proxy and parsed there. */
module CommandLine {
  import opened Text
  import opened Decimal
  import opened Wire
  import opened Arguments

  // ----- The client's rewriting of a line -----

  function Tokens(line: string): (tokens: seq<string>)
    ensures |tokens| >= 1
  {
    Split(TrimSpace(line), ' ')
  }

  predicate HasId(tokens: seq<string>) {
    exists i | 0 <= i < |tokens| :: tokens[i] == "-i"
  }

  function WithId(tokens: seq<string>, counter: int): (r: seq<string>)
    requires |tokens| >= 1
    ensures |r| >= 1
  {
    if HasId(tokens) then tokens else [tokens[0], "-i", Itoa(counter)] + tokens[1..]
  }

  function NextCounter(tokens: seq<string>, counter: int): int {
    if HasId(tokens) then counter else counter + 1
  }

  function Rewrite(line: string, counter: int): string {
    Join(WithId(Tokens(line), counter), ' ')
  }

  predicate IsPositive(text: string) {
    Atoi(text).Some? && Atoi(text).value > 0
  }

  /** Where a source listing starts: looking from the end, the first positive number that directly
      follows a `-b`; 1 if there is none. */
  function WindowStart(tokens: seq<string>): int {
    if |tokens| < 2 then 1
    else
      var n := |tokens| - 1;
      if tokens[n - 1] == "-b" && IsPositive(tokens[n]) then Atoi(tokens[n]).value
      else WindowStart(tokens[..n])
  }

  ghost predicate IsWindow(tokens: seq<string>, i: nat) {
    0 < i < |tokens| && tokens[i - 1] == "-b" && IsPositive(tokens[i])
  }

  ghost predicate IsLastWindow(tokens: seq<string>, i: nat) {
    && IsWindow(tokens, i)
    && forall j: nat | j > i :: !IsWindow(tokens, j)
  }

  lemma WindowStartStep(tokens: seq<string>)
    requires |tokens| >= 2
    ensures var n := |tokens| - 1;
      WindowStart(tokens) == if IsWindow(tokens, n) then Atoi(tokens[n]).value else WindowStart(tokens[..n])
  {
  }

  lemma WindowsOfFront(tokens: seq<string>, n: nat, i: nat)
    requires n < |tokens|
    ensures IsWindow(tokens[..n], i) <==> i < n && IsWindow(tokens, i)
  {
  }

  lemma {:induction false} WindowStartAt(tokens: seq<string>, i: nat)
    requires IsLastWindow(tokens, i)
    ensures WindowStart(tokens) == Atoi(tokens[i]).value
  {
    var n := |tokens| - 1;
    WindowStartStep(tokens);
    if i < n {
      WindowsOfFront(tokens, n, i);
      forall j: nat | j > i ensures !IsWindow(tokens[..n], j) {
        WindowsOfFront(tokens, n, j);
      }
      WindowStartAt(tokens[..n], i);
    }
  }

  lemma {:induction false} NoWindowStart(tokens: seq<string>)
    requires forall i: nat :: !IsWindow(tokens, i)
    ensures WindowStart(tokens) == 1
  {
    if |tokens| >= 2 {
      var n := |tokens| - 1;
      WindowStartStep(tokens);
      forall j: nat ensures !IsWindow(tokens[..n], j) {
        WindowsOfFront(tokens, n, j);
      }
      NoWindowStart(tokens[..n]);
    }
  }

  /** The window start is the last positive number that directly follows a `-b`, or 1: `i` is where it
      stands, or 0 if there is none. */
  lemma {:induction false} WindowStartIsLast(tokens: seq<string>, i: nat)
    requires i > 0 ==> i < |tokens| && tokens[i - 1] == "-b" && Atoi(tokens[i]).Some? && Atoi(tokens[i]).value > 0
    requires forall j | i < j < |tokens| ::
      tokens[j - 1] == "-b" ==> Atoi(tokens[j]).None? || Atoi(tokens[j]).value <= 0
    ensures WindowStart(tokens) == if i > 0 then Atoi(tokens[i]).value else 1
  {
    if i > 0 {
      assert IsLastWindow(tokens, i);
      WindowStartAt(tokens, i);
    } else {
      NoWindowStart(tokens);
    }
  }

  // ----- Faithfulness of the rewriting -----

  lemma TokensJoin(line: string)
    ensures AllFree(Tokens(line), ' ') && Join(Tokens(line), ' ') == TrimSpace(line)
  {
    SplitIsFree(TrimSpace(line), ' ');
    JoinSplit(TrimSpace(line), ' ');
  }

  lemma ItoaFree(n: int, c: char)
    requires !IsDigit(c) && c != '-'
    ensures c !in Itoa(n)
  {
  }

  lemma HasIdIs(tokens: seq<string>)
    ensures HasId(tokens) <==> "-i" in tokens
  {
  }

  lemma ItoaIsNoFlag(n: int)
    ensures Itoa(n) != "-i"
  {
    var text := Itoa(n);
    assert IsDigit(text[|text| - 1]);
  }

  /** The rewritten line has the tokens of the trimmed line, in order, with at most one `-i n` put
      straight after the first. */
  lemma RewriteKeepsTokens(line: string, counter: int)
    ensures var tokens := Tokens(line);
      var sent := Split(Rewrite(line, counter), ' ');
      && sent == WithId(tokens, counter)
      && (sent == tokens || (sent[..1] + sent[3..] == tokens && sent[1..3] == ["-i", Itoa(counter)]))
      && HasId(sent)
  {
    var tokens := Tokens(line);
    var parts := WithId(tokens, counter);
    TokensJoin(line);
    ItoaFree(counter, ' ');
    assert AllFree(parts, ' ');
    SplitJoin(parts, ' ');
    if !HasId(tokens) {
      assert parts[1] == "-i";
      assert parts[..1] + parts[3..] == tokens;
    }
  }

  lemma InsertedOnce(first: string, flag: string, id: string, tail: seq<string>)
    requires flag != first && flag != id && flag !in tail
    ensures var sent := [first, flag, id] + tail;
      forall k | 0 <= k < |sent| :: sent[k] == flag <==> k == 1
  {
  }

  /** A trimmed line with a `-i` anywhere among its tokens is sent as it is. Any other gets exactly one,
      as its second token, with the counter behind it. */
  lemma RewriteInserts(line: string, counter: int)
    ensures var tokens, sent := Split(TrimSpace(line), ' '), Split(Rewrite(line, counter), ' ');
      && ("-i" in tokens ==> sent == tokens)
      && ("-i" !in tokens ==>
            && sent == [tokens[0], "-i", Itoa(counter)] + tokens[1..]
            && forall k | 0 <= k < |sent| :: sent[k] == "-i" <==> k == 1)
  {
    var tokens := Tokens(line);
    RewriteKeepsTokens(line, counter);
    HasIdIs(tokens);
    if !HasId(tokens) {
      ItoaIsNoFlag(counter);
      InsertedOnce(tokens[0], "-i", Itoa(counter), tokens[1..]);
    }
  }

  /** A joined text that does not start with a space starts with its first part. */
  lemma FirstIsNotEmpty(first: string, tail: seq<string>)
    requires Join([first] + tail, ' ') != "" && Join([first] + tail, ' ')[0] != ' '
    ensures first != ""
  {
    if tail != [] {
      JoinCons(first, tail, ' ');
    }
  }

  /** Parts inserted after the first one leave the first character alone, and the last one too
      unless they become the end. */
  lemma InsertedEnds(first: string, a: string, b: string, tail: seq<string>)
    requires first != "" && b != ""
    ensures var before, after := Join([first] + tail, ' '), Join([first] + ([a] + ([b] + tail)), ' ');
      && before != "" && after != "" && after[0] == before[0]
      && after[|after| - 1] == if tail == [] then b[|b| - 1] else before[|before| - 1]
  {
    JoinCons(first, [a] + ([b] + tail), ' ');
    JoinCons(a, [b] + tail, ' ');
    if tail == [] {
      assert [b] + tail == [b];
    } else {
      JoinCons(b, tail, ' ');
      JoinCons(first, tail, ' ');
    }
  }

  /** A non-blank line has the same first and last characters before and after. */
  lemma RewriteOfNonBlank(line: string, counter: int)
    requires TrimSpace(line) != ""
    ensures TrimSpace(Rewrite(line, counter)) == Rewrite(line, counter)
  {
    var trimmed, tokens := TrimSpace(line), Tokens(line);
    TokensJoin(line);
    if !HasId(tokens) {
      var tail, id := tokens[1..], Itoa(counter);
      assert tokens == [tokens[0]] + tail;
      assert WithId(tokens, counter) == [tokens[0]] + (["-i"] + ([id] + tail));
      FirstIsNotEmpty(tokens[0], tail);
      InsertedEnds(tokens[0], "-i", id, tail);
    }
  }

  function IdText(id: string): string {
    "-i" + [' '] + id
  }

  lemma RewriteOfBlank(line: string, counter: int)
    requires TrimSpace(line) == ""
    ensures Rewrite(line, counter) == [' '] + IdText(Itoa(counter))
  {
    var id := Itoa(counter);
    assert Tokens(line) == [""] && !HasId([""]);
    assert WithId([""], counter) == [""] + (["-i"] + [id]);
    JoinCons("", ["-i"] + [id], ' ');
    JoinCons("-i", [id], ' ');
    assert "" + [' '] + IdText(id) == [' '] + IdText(id);
  }

  lemma TrimOfId(id: string)
    requires |id| >= 1 && !IsSpace(id[|id| - 1])
    ensures TrimSpace([' '] + IdText(id)) == IdText(id)
  {
    var trimmed := IdText(id);
    assert ([' '] + trimmed)[1..] == trimmed;
    assert trimmed[0] == '-';
  }

  lemma TokensOfId(id: string)
    requires ' ' !in id
    ensures Split(IdText(id), ' ') == ["-i", id]
  {
    SplitFirst("-i", id, ' ');
    SplitFree(id, ' ');
  }

  /** Rewriting a rewritten line takes no number, blank or not. */
  lemma {:induction false} SecondTakesNone(line: string, counter: int, later: int)
    ensures NextCounter(Tokens(Rewrite(line, counter)), later) == later
  {
    RewriteKeepsTokens(line, counter);
    if TrimSpace(line) != "" {
      RewriteOfNonBlank(line, counter);
    } else {
      RewriteOfBlank(line, counter);
      TrimOfId(Itoa(counter));
      ItoaFree(counter, ' ');
      TokensOfId(Itoa(counter));
      assert Tokens(Rewrite(line, counter))[0] == "-i";
    }
  }

  /** So rewriting twice gives the trimmed text of rewriting once, which is the same text exactly when
      the line is not blank. */
  lemma {:induction false} RewriteTwice(line: string, counter: int, later: int)
    ensures Rewrite(Rewrite(line, counter), later) == Rewrite(line, counter) <==> TrimSpace(line) != ""
  {
    var r := Rewrite(line, counter);
    SecondTakesNone(line, counter, later);
    assert HasId(Tokens(r)) && Rewrite(r, later) == Join(Tokens(r), ' ');
    TokensJoin(r);
    if TrimSpace(line) != "" {
      RewriteOfNonBlank(line, counter);
    } else {
      RewriteOfBlank(line, counter);
      TrimOfId(Itoa(counter));
    }
  }

  // ----- Transaction numbers over a whole session -----

  /** The lines one client sends, in order, and its counter afterwards. */
  function SendAll(lines: seq<string>, counter: int): (r: (seq<string>, int))
    ensures |r.0| == |lines|
  {
    if lines == [] then ([], counter)
    else
      var (sent, counter') := SendAll(lines[1..], NextCounter(Tokens(lines[0]), counter));
      ([Rewrite(lines[0], counter)] + sent, counter')
  }

  /** How many lines come without an id of their own. */
  function Lacking(lines: seq<string>): nat {
    if lines == [] then 0
    else (if HasId(Tokens(lines[0])) then 0 else 1) + Lacking(lines[1..])
  }

  lemma SendAllStep(lines: seq<string>, counter: int)
    requires lines != []
    ensures var rest := SendAll(lines[1..], NextCounter(Tokens(lines[0]), counter));
      SendAll(lines, counter) == ([Rewrite(lines[0], counter)] + rest.0, rest.1)
  {
  }

  lemma {:induction false} SentAt(lines: seq<string>, counter: int, j: nat)
    requires j < |lines|
    ensures SendAll(lines, counter).0[j] == Rewrite(lines[j], SendAll(lines[..j], counter).1)
  {
    SendAllStep(lines, counter);
    if j > 0 {
      var next := NextCounter(Tokens(lines[0]), counter);
      SentAt(lines[1..], next, j - 1);
      SendAllStep(lines[..j], counter);
      assert lines[..j][1..] == lines[1..][..j - 1];
    }
  }

  lemma {:induction false} CounterAfter(lines: seq<string>, counter: int)
    ensures SendAll(lines, counter).1 == counter + Lacking(lines)
  {
    if lines != [] {
      CounterAfter(lines[1..], NextCounter(Tokens(lines[0]), counter));
    }
  }

  function Trues(marks: seq<bool>): nat {
    if marks == [] then 0 else (if marks[0] then 1 else 0) + Trues(marks[1..])
  }

  lemma {:induction false} TruesSnoc(front: seq<bool>, mark: bool)
    ensures Trues(front + [mark]) == Trues(front) + if mark then 1 else 0
  {
    if front == [] {
      assert front + [mark] == [mark] && [mark][1..] == [];
    } else {
      TruesSnoc(front[1..], mark);
      assert (front + [mark])[1..] == front[1..] + [mark];
    }
  }

  lemma {:induction false} TruesAre(marks: seq<bool>, n: nat)
    requires n <= |marks|
    ensures Trues(marks[..n]) == |set k | 0 <= k < n && marks[k]|
  {
    var now := set k | 0 <= k < n && marks[k];
    if n == 0 {
      assert now == {};
    } else {
      var m := n - 1;
      TruesAre(marks, m);
      TruesSnoc(marks[..m], marks[m]);
      assert marks[..n] == marks[..m] + [marks[m]];
      assert now == (set k | 0 <= k < m && marks[k]) + if marks[m] then {m} else {};
    }
  }

  /** Which lines come without an id. */
  function Marks(lines: seq<string>): seq<bool> {
    seq(|lines|, i requires 0 <= i < |lines| => "-i" !in Tokens(lines[i]))
  }

  lemma {:induction false} LackingIsTrues(lines: seq<string>)
    ensures Lacking(lines) == Trues(Marks(lines))
  {
    if lines != [] {
      LackingIsTrues(lines[1..]);
      HasIdIs(Tokens(lines[0]));
      assert Marks(lines)[1..] == Marks(lines[1..]);
    }
  }

  lemma LackingIsCount(lines: seq<string>, n: nat)
    requires n <= |lines|
    ensures Lacking(lines[..n]) == |set k | 0 <= k < n && "-i" !in Tokens(lines[k])|
  {
    var marks := Marks(lines);
    LackingIsTrues(lines[..n]);
    assert Marks(lines[..n]) == marks[..n];
    TruesAre(marks, n);
    assert (set k | 0 <= k < n && "-i" !in Tokens(lines[k])) == (set k | 0 <= k < n && marks[k]);
  }

  /** The number a line gets is the first one plus the number of earlier lines that lacked an id:
      no gap, no repeat. A line with an id of its own keeps it, and moves no number. */
  lemma Numbering(lines: seq<string>, counter: int, j: nat)
    requires j < |lines|
    ensures var tokens, sent := Tokens(lines[j]), Split(SendAll(lines, counter).0[j], ' ');
      sent == if "-i" in tokens then tokens
              else [tokens[0], "-i", Itoa(counter + |set k | 0 <= k < j && "-i" !in Tokens(lines[k])|)] + tokens[1..]
    ensures SendAll(lines, counter).1 == counter + |set k | 0 <= k < |lines| && "-i" !in Tokens(lines[k])|
  {
    var n := counter + Lacking(lines[..j]);
    SentAt(lines, counter, j);
    CounterAfter(lines[..j], counter);
    CounterAfter(lines, counter);
    RewriteInserts(lines[j], n);
    LackingIsCount(lines, j);
    LackingIsCount(lines, |lines|);
    assert lines[..|lines|] == lines;
  }

  // ----- Printers and the server's parser -----

  /** `registerWithProxy`. */
  function RegisterLine(key: string, port: int, ssl: bool): string {
    var command := "proxyinit -m 1 -k " + key + " -p " + Itoa(port);
    if ssl then command + " -s 1" else command
  }

  /** `unregisterWithProxy`. */
  function UnregisterLine(key: string): string {
    "proxystop -k " + key
  }

  /** The lines sent to the cloud. */
  function CloudInitLine(user: string): string {
    "cloudinit -u " + user
  }

  function CloudStopLine(user: string): string {
    "cloudstop -u " + user
  }

  /** The lines as they are typed out, for one key. */
  lemma PrintedLines()
    ensures RegisterLine("me", 9012, false) == "proxyinit -m 1 -k me -p 9012"
    ensures RegisterLine("me", 9012, true) == "proxyinit -m 1 -k me -p 9012 -s 1"
    ensures UnregisterLine("me") == "proxystop -k me"
    ensures CloudInitLine("me") == "cloudinit -u me"
    ensures CloudStopLine("me") == "cloudstop -u me"
  {
    DigitsExample();
  }

  datatype Command = ProxyInit(ip: string, settings: Settings) | ProxyStop(key: string)

  /** `parseLine`; `ip` is the host part of the peer's address. */
  function ParseLine(data: string, ip: string): Result<Command> {
    var parts := Split(data, ' ');
    if parts[0] == "proxyinit" then
      match ParseInit(parts[1..])
      case Err(error) => Err(error)
      case Ok(settings) => Ok(ProxyInit(ip, settings))
    else if parts[0] == "proxystop" then
      match ParseKey("-k", parts[1..])
      case Err(error) => Err(error)
      case Ok(key) => Ok(ProxyStop(key))
    else Err(UnknownCommand(parts))
  }

  datatype CloudCommand = CloudInit(user: string) | CloudStop(user: string)

  /** `parseCloudLine`. */
  function ParseCloudLine(data: string): Result<CloudCommand> {
    var parts := Split(data, ' ');
    if parts[0] == "cloudinit" then
      match ParseKey("-u", parts[1..])
      case Err(error) => Err(error)
      case Ok(user) => Ok(CloudInit(user))
    else if parts[0] == "cloudstop" then
      match ParseKey("-u", parts[1..])
      case Err(error) => Err(error)
      case Ok(user) => Ok(CloudStop(user))
    else Err(UnknownCommand(parts))
  }

  /** One line on a stream: a field with its trailing NULs cut off, or nothing if the read fails. */
  function ReceiveLine(items: seq<Item>, end: Cause): (Option<string>, seq<Item>) {
    var (field, rest) := ReadField(items, end);
    match field
    case Cut(_, _) => (None, rest)
    case Field(data) => (Some(TrimRight(data, c => c == NUL)), rest)
  }

  /** `ReadCommand`. */
  function ReceiveCommand(items: seq<Item>, end: Cause, ip: string): (Option<Result<Command>>, seq<Item>) {
    var (line, rest) := ReceiveLine(items, end);
    (if line.Some? then Some(ParseLine(line.value, ip)) else None, rest)
  }

  /** `ReadCloudCommand`. */
  function ReceiveCloudCommand(items: seq<Item>, end: Cause): (Option<Result<CloudCommand>>, seq<Item>) {
    var (line, rest) := ReceiveLine(items, end);
    (if line.Some? then Some(ParseCloudLine(line.value)) else None, rest)
  }

  // ----- Round trips -----

  ghost predicate IsKey(key: string) {
    key != "" && ' ' !in key && NUL !in key
  }

  function RegisterTokens(key: string, port: int, ssl: bool): seq<string> {
    ["proxyinit", "-m", "1", "-k", key, "-p", Itoa(port)] + if ssl then ["-s", "1"] else []
  }

  /** A line sent with its NUL is received as it was, and nothing behind it is touched. */
  lemma LineArrives(line: string, rest: seq<Item>, end: Cause)
    requires NUL !in line
    ensures ReceiveLine(AsItems(line + [NUL]) + rest, end) == (Some(line), rest)
  {
    var d := line + [NUL];
    assert d[..|d| - 1] == line;
    ReadFieldWhole(d, rest, end);
    if line != "" {
      assert line[|line| - 1] in line;
    }
    assert TrimRight(d, c => c == NUL) == TrimRight(line, c => c == NUL) == line;
  }

  lemma SplitAround(head: string, key: string, flag: string, p: string)
    requires ' ' !in key && ' ' !in flag && ' ' !in p
    ensures Split((head + [' ']) + key + ([' '] + flag + [' ']) + p, ' ') == Split(head, ' ') + [key, flag, p]
  {
    var inner := key + [' '] + (flag + [' '] + p);
    assert (head + [' ']) + key + ([' '] + flag + [' ']) + p == head + [' '] + inner;
    SplitAppend(head, inner, ' ');
    SplitFirst(key, flag + [' '] + p, ' ');
    SplitFirst(flag, p, ' ');
    SplitFree(p, ' ');
  }

  lemma {:induction false} SplitFour(a: string, b: string, c: string, d: string)
    requires ' ' !in a && ' ' !in b && ' ' !in c && ' ' !in d
    ensures Split(a + [' '] + (b + [' '] + (c + [' '] + d)), ' ') == [a, b, c, d]
  {
    SplitFirst(a, b + [' '] + (c + [' '] + d), ' ');
    SplitFirst(b, c + [' '] + d, ' ');
    SplitFirst(c, d, ' ');
    SplitFree(d, ' ');
  }

  lemma SplitTwoMore(line: string, a: string, b: string)
    requires ' ' !in a && ' ' !in b
    ensures Split(line + ([' '] + a + [' '] + b), ' ') == Split(line, ' ') + [a, b]
  {
    assert line + ([' '] + a + [' '] + b) == line + [' '] + (a + [' '] + b);
    SplitAppend(line, a + [' '] + b, ' ');
    SplitFirst(a, b, ' ');
    SplitFree(b, ' ');
  }

  lemma Literals()
    ensures "proxyinit -m 1 -k" == "proxyinit" + [' '] + ("-m" + [' '] + ("1" + [' '] + "-k"))
    ensures "proxyinit -m 1 -k " == "proxyinit -m 1 -k" + [' ']
    ensures " -p " == [' '] + "-p" + [' ']
    ensures " -s 1" == [' '] + "-s" + [' '] + "1"
  {
  }

  lemma RegisterHead() returns (head: string)
    ensures head + [' '] == "proxyinit -m 1 -k "
    ensures Split(head, ' ') == ["proxyinit", "-m", "1", "-k"]
  {
    head := "proxyinit" + [' '] + ("-m" + [' '] + ("1" + [' '] + "-k"));
    Literals();
    SplitFour("proxyinit", "-m", "1", "-k");
  }

  /** `RegisterLine` with its pieces as variables. */
  lemma SplitPieces(head: string, key: string, flag: string, p: string, flag': string, one: string, ssl: bool)
    requires ' ' !in key && ' ' !in flag && ' ' !in p && ' ' !in flag' && ' ' !in one
    ensures var line := (head + [' ']) + key + ([' '] + flag + [' ']) + p;
      Split(if ssl then line + ([' '] + flag' + [' '] + one) else line, ' ')
        == Split(head, ' ') + [key, flag, p] + if ssl then [flag', one] else []
  {
    SplitAround(head, key, flag, p);
    if ssl {
      SplitTwoMore((head + [' ']) + key + ([' '] + flag + [' ']) + p, flag', one);
    }
  }

  lemma RegisterLineTokens(key: string, port: int, ssl: bool)
    requires ' ' !in key
    ensures Split(RegisterLine(key, port, ssl), ' ') == RegisterTokens(key, port, ssl)
  {
    var head := RegisterHead();
    ItoaFree(port, ' ');
    Literals();
    SplitPieces(head, key, "-p", Itoa(port), "-s", "1", ssl);
  }

  lemma {:induction false} JoinFree(parts: seq<string>, sep: char, c: char)
    requires AllFree(parts, c) && c != sep
    ensures c !in Join(parts, sep)
  {
    if |parts| > 1 {
      JoinFree(parts[1..], sep, c);
    }
  }

  lemma ParseRegister(key: string, port: int, ssl: bool)
    requires IsInt(port) && key != ""
    ensures ParseInit(RegisterTokens(key, port, ssl)[1..]) == Ok(Settings(port, key, true, ssl))
  {
    AtoiItoa(port);
    var args := RegisterTokens(key, port, ssl)[1..];
    var s1 := DEFAULTS.(multiple := true);
    var s2 := s1.(key := key);
    var s3 := s2.(port := port);
    assert InitFrom(args, DEFAULTS) == InitFrom(args[2..], s1);
    assert InitFrom(args[2..], s1) == InitFrom(args[2..][2..], s2);
    assert InitFrom(args[2..][2..], s2) == InitFrom(args[2..][2..][2..], s3);
    var last := args[2..][2..][2..];
    if ssl {
      AtoiItoa(1);
      assert Itoa(1) == "1";
      assert last == ["-s", "1"];
      assert InitFrom(last, s3) == InitFrom(last[2..], s3.(ssl := true));
    } else {
      assert last == [];
    }
  }

  lemma {:induction false} SplitChars(s: string, sep: char, i: nat, c: char)
    requires i < |Split(s, sep)| && c in Split(s, sep)[i]
    ensures c in s && c != sep
  {
    SplitIsFree(s, sep);
    var rest := Split(s[1..], sep);
    if s[0] == sep {
      SplitChars(s[1..], sep, i - 1, c);
    } else if i > 0 {
      assert Split(s, sep)[i] == rest[i];
      SplitChars(s[1..], sep, i, c);
    } else if c != s[0] {
      assert c in rest[0];
      SplitChars(s[1..], sep, 0, c);
    }
  }

  lemma {:induction false} LastValueIsArg(args: seq<string>, flag: string)
    requires LastValue(args, flag).Some?
    ensures exists i: nat :: i < |args| && args[i] == LastValue(args, flag).value
  {
    var n := |args|;
    if args[n - 2] == flag {
      assert args[n - 1] == LastValue(args, flag).value;
    } else {
      LastValueIsArg(args[..n - 2], flag);
      var i: nat :| i < n - 2 && args[..n - 2][i] == LastValue(args, flag).value;
      assert args[i] == LastValue(args, flag).value;
    }
  }

  /** A parsed key is one of the tokens. */
  lemma InitKeyIsToken(parts: seq<string>) returns (i: nat)
    requires parts != [] && ParseInit(parts[1..]).Ok?
    ensures i < |parts| && parts[i] == ParseInit(parts[1..]).value.key != ""
  {
    var args := parts[1..];
    ParseInitAccepts(args);
    LastValueIsArg(args, "-k");
    var j: nat :| j < |args| && args[j] == LastValue(args, "-k").value;
    i := j + 1;
  }

  lemma KeyIsToken(keyFlag: string, parts: seq<string>) returns (i: nat)
    requires keyFlag != "-i" && parts != [] && ParseKey(keyFlag, parts[1..]).Ok?
    ensures i < |parts| && parts[i] == ParseKey(keyFlag, parts[1..]).value != ""
  {
    var args := parts[1..];
    ParseKeyAccepts(keyFlag, args);
    LastValueIsArg(args, keyFlag);
    var j: nat :| j < |args| && args[j] == LastValue(args, keyFlag).value;
    i := j + 1;
  }

  /** Whatever arrives, a non-empty token of a received line is a key: no space, no NUL. */
  lemma ReceivedTokenIsKey(items: seq<Item>, end: Cause, i: nat)
    requires var line := ReceiveLine(items, end).0;
      line.Some? && i < |Split(line.value, ' ')| && Split(line.value, ' ')[i] != ""
    ensures IsKey(Split(ReceiveLine(items, end).0.value, ' ')[i])
  {
    var field := ReadField(items, end).0;
    ReadFieldShape(items, end);
    var line := ReceiveLine(items, end).0.value;
    assert line <= field.data[..|field.data| - 1];
    var key := Split(line, ' ')[i];
    forall c | c in key ensures c != ' ' && c != NUL {
      SplitChars(line, ' ', i, c);
    }
  }

  lemma {:induction false} TrimLeftChars(s: string, c: char)
    requires c in TrimLeft(s, IsSpace)
    ensures c in s
  {
    if s != "" && IsSpace(s[0]) {
      TrimLeftChars(s[1..], c);
    }
  }

  lemma TrimmedChars(s: string, c: char)
    requires c in TrimSpace(s)
    ensures c in s
  {
    TrimLeftChars(s, c);
  }

  lemma RewriteHasNoNul(line: string, counter: int)
    requires NUL !in line
    ensures NUL !in Rewrite(line, counter)
  {
    var tokens := Tokens(line);
    forall i | 0 <= i < |tokens| ensures NUL !in tokens[i] {
      if NUL in tokens[i] {
        SplitChars(TrimSpace(line), ' ', i, NUL);
        TrimmedChars(line, NUL);
      }
    }
    ItoaFree(counter, NUL);
    JoinFree(WithId(tokens, counter), ' ', NUL);
  }

  lemma RegisterLineShape(key: string, port: int, ssl: bool)
    ensures var line := RegisterLine(key, port, ssl);
      && TrimSpace(line) == line
      && (NUL !in key ==> NUL !in line)
  {
    var line := RegisterLine(key, port, ssl);
    ItoaFree(port, NUL);
    assert line[0] == 'p';
    assert !IsSpace(line[|line| - 1]);
  }

  /** Arguments behind the command name, with or without an id put in front. */
  ghost predicate MayHaveId(args: seq<string>, plain: seq<string>, counter: int) {
    args == plain || args == ["-i", Itoa(counter)] + plain
  }

  lemma RewrittenArgs(line: string, counter: int)
    ensures var tokens, sent := Tokens(line), Split(Rewrite(line, counter), ' ');
      sent[0] == tokens[0] && MayHaveId(sent[1..], tokens[1..], counter)
  {
    RewriteKeepsTokens(line, counter);
    var tokens := Tokens(line);
    assert WithId(tokens, counter)[1..] == tokens[1..]
      || WithId(tokens, counter)[1..] == ["-i", Itoa(counter)] + tokens[1..];
  }

  lemma InitWithId(args: seq<string>, plain: seq<string>, counter: int)
    requires MayHaveId(args, plain, counter)
    ensures ParseInit(args) == ParseInit(plain)
  {
    InitIgnoresIds(plain, 0, Itoa(counter), DEFAULTS);
    assert plain[..0] + ["-i", Itoa(counter)] + plain[0..] == ["-i", Itoa(counter)] + plain;
  }

  lemma KeyWithId(keyFlag: string, args: seq<string>, plain: seq<string>, counter: int)
    requires MayHaveId(args, plain, counter)
    ensures ParseKey(keyFlag, args) == ParseKey(keyFlag, plain)
  {
    KeyIgnoresIds(keyFlag, plain, 0, Itoa(counter), "");
    assert plain[..0] + ["-i", Itoa(counter)] + plain[0..] == ["-i", Itoa(counter)] + plain;
  }

  lemma ParseRegisterLine(key: string, port: int, ssl: bool, counter: int, ip: string)
    requires IsInt(port) && IsKey(key)
    ensures ParseLine(Rewrite(RegisterLine(key, port, ssl), counter), ip)
      == Ok(ProxyInit(ip, Settings(port, key, true, ssl)))
  {
    var line := RegisterLine(key, port, ssl);
    RegisterLineShape(key, port, ssl);
    RegisterLineTokens(key, port, ssl);
    RewrittenArgs(line, counter);
    var args := Split(Rewrite(line, counter), ' ')[1..];
    InitWithId(args, RegisterTokens(key, port, ssl)[1..], counter);
    ParseRegister(key, port, ssl);
  }

  /** A registration, from the client's printer through its rewriting, the wire and the proxy's
      reader and parser: the proxy gets exactly the key, port and SSL flag that were printed if and
      only if the key is not empty and holds no space and no NUL. */
  lemma RegisterRoundTrip(key: string, port: int, ssl: bool, counter: int,
                          rest: seq<Item>, end: Cause, ip: string)
    requires IsInt(port)
    ensures var wire := Rewrite(RegisterLine(key, port, ssl), counter) + [NUL];
      var sent := Some(Ok(ProxyInit(ip, Settings(port, key, true, ssl))));
      && (ReceiveCommand(AsItems(wire) + rest, end, ip).0 == sent <==> IsKey(key))
      && (IsKey(key) ==> ReceiveCommand(AsItems(wire) + rest, end, ip).1 == rest)
  {
    var line := RegisterLine(key, port, ssl);
    var r := Rewrite(line, counter);
    var items := AsItems(r + [NUL]) + rest;
    if IsKey(key) {
      RegisterLineShape(key, port, ssl);
      RewriteHasNoNul(line, counter);
      LineArrives(r, rest, end);
      ParseRegisterLine(key, port, ssl, counter, ip);
    } else if ReceiveCommand(items, end, ip).0 == Some(Ok(ProxyInit(ip, Settings(port, key, true, ssl)))) {
      var i := InitKeyIsToken(Split(ReceiveLine(items, end).0.value, ' '));
      ReceivedTokenIsKey(items, end, i);
    }
  }

  // The other commands end in the key, so trimming the line can reach it.

  ghost predicate IsWord(w: string) {
    w != "" && forall i | 0 <= i < |w| :: !IsSpace(w[i]) && w[i] != NUL
  }

  /** A command name and a flag, and what is sent in front of the key. */
  ghost predicate IsHead(head: string, name: string, flag: string) {
    head == name + [' '] + flag + [' '] && IsWord(name) && IsWord(flag) && flag != "-i"
  }

  lemma KeyLineTokens(head: string, name: string, flag: string, key: string)
    requires IsHead(head, name, flag) && ' ' !in key
    ensures Split(head + key, ' ') == [name, flag, key]
  {
    assert head + key == name + [' '] + (flag + [' '] + key);
    SplitFirst(name, flag + [' '] + key, ' ');
    SplitFirst(flag, key, ' ');
    SplitFree(key, ' ');
  }

  /** What the parser is to find in the received line. */
  ghost predicate Finds(line: string, name: string, flag: string, key: string) {
    Split(line, ' ')[0] == name && ParseKey(flag, Split(line, ' ')[1..]) == Ok(key)
  }

  lemma KeyLineIsFound(head: string, name: string, flag: string, key: string, counter: int)
    requires IsHead(head, name, flag) && IsKey(key) && TrimSpace(head + key) == head + key
    ensures Finds(Rewrite(head + key, counter), name, flag, key)
  {
    KeyLineTokens(head, name, flag, key);
    RewrittenArgs(head + key, counter);
    var args := Split(Rewrite(head + key, counter), ' ')[1..];
    KeyWithId(flag, args, [flag, key], counter);
    assert KeyFrom(flag, [flag, key], "") == KeyFrom(flag, [flag, key][2..], key) == Ok(key);
  }

  lemma TokenOfLine(line: string, counter: int, i: nat) returns (j: nat)
    requires i < |WithId(Tokens(line), counter)|
    requires var t := WithId(Tokens(line), counter)[i]; t != "" && IsSpace(t[|t| - 1])
    ensures j < |Tokens(line)| && Tokens(line)[j] == WithId(Tokens(line), counter)[i]
  {
    j := if HasId(Tokens(line)) || i == 0 then i else i - 2;
  }

  lemma TrimCuts(head: string, name: string, flag: string, key: string)
    requires IsHead(head, name, flag) && key != "" && IsSpace(key[|key| - 1])
    ensures TrimSpace(head + key) < head + key
  {
    var line := head + key;
    assert line[0] == name[0] && line[|line| - 1] == key[|key| - 1];
  }

  lemma HeadSpaces(head: string, name: string, flag: string, c: char)
    requires IsHead(head, name, flag) && IsSpace(c) && c in head
    ensures c == ' '
  {
  }

  lemma CutKeyToken(head: string, name: string, flag: string, key: string, trimmed: string, j: nat)
    requires IsHead(head, name, flag) && IsKey(key) && IsSpace(key[|key| - 1])
    requires trimmed < head + key
    requires j < |Split(trimmed, ' ')|
    ensures Split(trimmed, ' ')[j] != key
  {
    var c := key[|key| - 1];
    assert c in key;
    if |trimmed| > |head| {
      var cut := key[..|trimmed| - |head|];
      assert trimmed == head + cut;
      KeyLineTokens(head, name, flag, cut);
      assert |name| > 0 && name[|name| - 1] != c && flag[|flag| - 1] != c;
    } else {
      assert trimmed <= head;
      if Split(trimmed, ' ')[j] == key {
        SplitChars(trimmed, ' ', j, c);
        HeadSpaces(head, name, flag, c);
      }
    }
  }

  /** Where trimming cuts into the key, no token ends in the key's last character. */
  lemma TrimmedKeyIsLost(head: string, name: string, flag: string, key: string, counter: int)
    requires IsHead(head, name, flag) && IsKey(key) && IsSpace(key[|key| - 1])
    ensures !Finds(Rewrite(head + key, counter), name, flag, key)
  {
    var line := head + key;
    if Finds(Rewrite(line, counter), name, flag, key) {
      var i := KeyIsToken(flag, Split(Rewrite(line, counter), ' '));
      RewriteKeepsTokens(line, counter);
      var j := TokenOfLine(line, counter, i);
      TrimCuts(head, name, flag, key);
      CutKeyToken(head, name, flag, key, TrimSpace(line), j);
    }
  }

  /** A line that ends in its key, from printing to parsing: the key comes through if and only if it
      is not empty, holds no space and no NUL, and does not end in white space of any kind. */
  lemma KeyLineRoundTrip(head: string, name: string, flag: string, key: string, counter: int,
                         rest: seq<Item>, end: Cause)
    requires IsHead(head, name, flag)
    ensures var received := ReceiveLine(AsItems(Rewrite(head + key, counter) + [NUL]) + rest, end);
      var good := IsKey(key) && !IsSpace(key[|key| - 1]);
      && (received.0.Some? && Finds(received.0.value, name, flag, key) <==> good)
      && (good ==> received.1 == rest)
  {
    var line := head + key;
    var r := Rewrite(line, counter);
    var items := AsItems(r + [NUL]) + rest;
    if IsKey(key) {
      assert NUL !in line;
      RewriteHasNoNul(line, counter);
      LineArrives(r, rest, end);
      if IsSpace(key[|key| - 1]) {
        TrimmedKeyIsLost(head, name, flag, key, counter);
      } else {
        assert line[0] == name[0] && line[|line| - 1] == key[|key| - 1];
        KeyLineIsFound(head, name, flag, key, counter);
      }
    } else if ReceiveLine(items, end).0.Some? && Finds(ReceiveLine(items, end).0.value, name, flag, key) {
      var i := KeyIsToken(flag, Split(ReceiveLine(items, end).0.value, ' '));
      ReceivedTokenIsKey(items, end, i);
    }
  }

  ghost predicate SurvivesTrimming(key: string) {
    IsKey(key) && !IsSpace(key[|key| - 1])
  }

  lemma CommandHeads()
    ensures IsHead("proxystop -k ", "proxystop", "-k")
    ensures IsHead("cloudinit -u ", "cloudinit", "-u")
    ensures IsHead("cloudstop -u ", "cloudstop", "-u")
  {
    assert "proxystop -k " == "proxystop" + [' '] + "-k" + [' '];
    assert "cloudinit -u " == "cloudinit" + [' '] + "-u" + [' '];
    assert "cloudstop -u " == "cloudstop" + [' '] + "-u" + [' '];
  }

  /** An unregistration, from the client to the proxy. */
  lemma UnregisterRoundTrip(key: string, counter: int, rest: seq<Item>, end: Cause, ip: string)
    ensures var wire := AsItems(Rewrite(UnregisterLine(key), counter) + [NUL]) + rest;
      && (ReceiveCommand(wire, end, ip).0 == Some(Ok(ProxyStop(key))) <==> SurvivesTrimming(key))
      && (SurvivesTrimming(key) ==> ReceiveCommand(wire, end, ip).1 == rest)
  {
    CommandHeads();
    KeyLineRoundTrip("proxystop -k ", "proxystop", "-k", key, counter, rest, end);
  }

  /** A cloud session's first line. */
  lemma CloudInitRoundTrip(user: string, counter: int, rest: seq<Item>, end: Cause)
    ensures var wire := AsItems(Rewrite(CloudInitLine(user), counter) + [NUL]) + rest;
      ReceiveCloudCommand(wire, end).0 == Some(Ok(CloudInit(user))) <==> SurvivesTrimming(user)
  {
    CommandHeads();
    KeyLineRoundTrip("cloudinit -u ", "cloudinit", "-u", user, counter, rest, end);
  }

  /** A cloud session's last line. */
  lemma CloudStopRoundTrip(user: string, counter: int, rest: seq<Item>, end: Cause)
    ensures var wire := AsItems(Rewrite(CloudStopLine(user), counter) + [NUL]) + rest;
      ReceiveCloudCommand(wire, end).0 == Some(Ok(CloudStop(user))) <==> SurvivesTrimming(user)
  {
    CommandHeads();
    KeyLineRoundTrip("cloudstop -u ", "cloudstop", "-u", user, counter, rest, end);
  }
}
