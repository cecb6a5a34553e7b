/** The argument lists of the four proxy and cloud commands: `flag value flag value ...`. Each
    parser is a loop with the state "do I expect a value, and for which flag". */
module Arguments {
  import opened Text
  import opened Decimal

  datatype ParseError =
    | UnknownArgument(flag: string, value: string)
    | BadPort(value: string)
    | BadSsl(value: string)
    | MissingValue(flag: string)
    | NoKey
    | UnknownCommand(parts: seq<string>)

  datatype Result<+T> = Ok(value: T) | Err(error: ParseError)

  const DEFAULT_PORT := 9003

  /** The fields of a `proxyinit` command that its arguments set. */
  datatype Settings = Settings(port: int, key: string, multiple: bool, ssl: bool)

  const DEFAULTS := Settings(DEFAULT_PORT, "", false, false)

  // ----- proxyinit -----

  function SetInit(s: Settings, flag: string, value: string): Result<Settings> {
    if flag == "-i" then Ok(s)
    else if flag == "-p" then
      match Atoi(value)
      case None => Err(BadPort(value))
      case Some(port) => Ok(s.(port := port))
    else if flag == "-k" then Ok(s.(key := value))
    else if flag == "-m" then Ok(if value == "1" then s.(multiple := true) else s)
    else if flag == "-s" then
      match Atoi(value)
      case None => Err(BadSsl(value))
      case Some(ssl) => Ok(s.(ssl := ssl == 1))
    else Err(UnknownArgument(flag, value))
  }

  /** Takes the arguments two by two. */
  function InitFrom(args: seq<string>, s: Settings): Result<Settings> {
    if args == [] then Ok(s)
    else if |args| == 1 then Err(MissingValue(args[0]))
    else
      match SetInit(s, args[0], args[1])
      case Err(error) => Err(error)
      case Ok(s') => InitFrom(args[2..], s')
  }

  function ParseInit(args: seq<string>): Result<Settings> {
    match InitFrom(args, DEFAULTS)
    case Err(error) => Err(error)
    case Ok(s) => if s.key == "" then Err(NoKey) else Ok(s)
  }

  /** The loop of `CreateProxyInit`. */
  method CreateProxyInit(args: seq<string>) returns (r: Result<Settings>)
    ensures r == ParseInit(args)
  {
    var s := DEFAULTS;
    var expectValue, expectValueFor := false, "";
    for i := 0 to |args|
      invariant InitFrom(args, DEFAULTS)
        == InitFrom(if expectValue then [expectValueFor] + args[i..] else args[i..], s)
    {
      assert args[i..] == [args[i]] + args[i + 1..];
      if expectValue {
        expectValue := false;
        ghost var rest := [expectValueFor] + args[i..];
        assert rest[1] == args[i] && rest[2..] == args[i + 1..];
        match SetInit(s, expectValueFor, args[i]) {
          case Err(error) => return Err(error);
          case Ok(s') => s := s';
        }
      } else {
        expectValueFor := args[i];
        expectValue := true;
      }
    }
    if expectValue {
      return Err(MissingValue(expectValueFor));
    }
    if s.key == "" {
      return Err(NoKey);
    }
    return Ok(s);
  }

  // ----- proxystop, cloudinit and cloudstop: one key, given with `-k` or `-u` -----

  function KeyFrom(keyFlag: string, args: seq<string>, key: string): Result<string> {
    if args == [] then Ok(key)
    else if |args| == 1 then Err(MissingValue(args[0]))
    else if args[0] == "-i" then KeyFrom(keyFlag, args[2..], key)
    else if args[0] == keyFlag then KeyFrom(keyFlag, args[2..], args[1])
    else Err(UnknownArgument(args[0], args[1]))
  }

  function ParseKey(keyFlag: string, args: seq<string>): Result<string> {
    match KeyFrom(keyFlag, args, "")
    case Err(error) => Err(error)
    case Ok(key) => if key == "" then Err(NoKey) else Ok(key)
  }

  /** The loop that `CreateProxyStop` (`-k`), `CreateCloudInit` and `CreateCloudStop` (`-u`)
      each contain. */
  method CreateKeyed(keyFlag: string, args: seq<string>) returns (r: Result<string>)
    ensures r == ParseKey(keyFlag, args)
  {
    var key := "";
    var expectValue, expectValueFor := false, "";
    for i := 0 to |args|
      invariant KeyFrom(keyFlag, args, "")
        == KeyFrom(keyFlag, if expectValue then [expectValueFor] + args[i..] else args[i..], key)
    {
      assert args[i..] == [args[i]] + args[i + 1..];
      if expectValue {
        expectValue := false;
        ghost var rest := [expectValueFor] + args[i..];
        assert rest[1] == args[i] && rest[2..] == args[i + 1..];
        if expectValueFor == "-i" {
        } else if expectValueFor == keyFlag {
          key := args[i];
        } else {
          return Err(UnknownArgument(expectValueFor, args[i]));
        }
      } else {
        expectValueFor := args[i];
        expectValue := true;
      }
    }
    if expectValue {
      return Err(MissingValue(expectValueFor));
    }
    if key == "" {
      return Err(NoKey);
    }
    return Ok(key);
  }

  // ----- What the parsers accept, and what they make of it -----

  /** The value that goes with the last occurrence of a flag, looking from the end. */
  function LastValue(args: seq<string>, flag: string): Option<string> {
    if |args| < 2 then None
    else if args[|args| - 2] == flag then Some(args[|args| - 1])
    else LastValue(args[..|args| - 2], flag)
  }

  ghost predicate IsFlagAt(args: seq<string>, i: nat) {
    i % 2 == 0 && i + 1 < |args|
  }

  ghost predicate GoodInitPair(flag: string, value: string) {
    || flag == "-i" || flag == "-k" || flag == "-m"
    || ((flag == "-p" || flag == "-s") && Atoi(value).Some?)
  }

  ghost predicate GoodInitArgs(args: seq<string>) {
    && |args| % 2 == 0
    && forall i: nat | IsFlagAt(args, i) :: GoodInitPair(args[i], args[i + 1])
  }

  function NumberOr(text: Option<string>, default: int): int {
    if text.Some? && Atoi(text.value).Some? then Atoi(text.value).value else default
  }

  ghost predicate AnyMultiple(args: seq<string>) {
    exists i: nat :: IsFlagAt(args, i) && args[i] == "-m" && args[i + 1] == "1"
  }

  ghost function LastKey(args: seq<string>, flag: string): string {
    if LastValue(args, flag).Some? then LastValue(args, flag).value else ""
  }

  /** A list is read the same from its front as from its last pair. */
  lemma {:induction false} InitFromSnoc(args: seq<string>, flag: string, value: string, s: Settings)
    requires |args| % 2 == 0
    ensures InitFrom(args + [flag, value], s) ==
      match InitFrom(args, s)
      case Err(error) => Err(error)
      case Ok(s') => SetInit(s', flag, value)
  {
    if args == [] {
      assert args + [flag, value] == [flag, value];
    } else {
      assert (args + [flag, value])[2..] == args[2..] + [flag, value];
      match SetInit(s, args[0], args[1])
      case Err(_) =>
      case Ok(s') => InitFromSnoc(args[2..], flag, value, s');
    }
  }

  lemma {:induction false} OddIsRefused(args: seq<string>, s: Settings)
    requires |args| % 2 == 1
    ensures InitFrom(args, s).Err?
  {
    if |args| > 1 {
      match SetInit(s, args[0], args[1])
      case Err(_) =>
      case Ok(s') => OddIsRefused(args[2..], s');
    }
  }

  /** What the pairs of a list mean: `-k`, `-p` and `-s` by their last occurrence, `-m` by any. */
  ghost function Meaning(args: seq<string>): Settings {
    Settings(
      NumberOr(LastValue(args, "-p"), DEFAULT_PORT), LastKey(args, "-k"),
      AnyMultiple(args), NumberOr(LastValue(args, "-s"), 0) == 1)
  }

  lemma PairsSnoc(init: seq<string>, flag: string, value: string)
    requires |init| % 2 == 0
    ensures var args := init + [flag, value];
      && (GoodInitArgs(args) <==> GoodInitArgs(init) && GoodInitPair(flag, value))
      && (AnyMultiple(args) <==> AnyMultiple(init) || (flag == "-m" && value == "1"))
  {
    var args, n := init + [flag, value], |init|;
    assert IsFlagAt(args, n) && args[n] == flag && args[n + 1] == value;
    forall i: nat | IsFlagAt(init, i)
      ensures IsFlagAt(args, i) && args[i] == init[i] && args[i + 1] == init[i + 1]
    {
    }
    forall i: nat | IsFlagAt(args, i) ensures i == n || IsFlagAt(init, i) {
    }
  }

  lemma LastValueSnoc(init: seq<string>, flag: string, value: string, wanted: string)
    ensures LastValue(init + [flag, value], wanted)
      == if flag == wanted then Some(value) else LastValue(init, wanted)
  {
    assert (init + [flag, value])[..|init|] == init;
  }

  lemma MeaningSnoc(init: seq<string>, flag: string, value: string)
    requires |init| % 2 == 0 && GoodInitPair(flag, value)
    ensures SetInit(Meaning(init), flag, value) == Ok(Meaning(init + [flag, value]))
  {
    PairsSnoc(init, flag, value);
    LastValueSnoc(init, flag, value, "-p");
    LastValueSnoc(init, flag, value, "-k");
    LastValueSnoc(init, flag, value, "-s");
  }

  lemma {:induction false} InitFromMeaning(args: seq<string>)
    requires |args| % 2 == 0
    ensures InitFrom(args, DEFAULTS) == Ok(Meaning(args)) || !GoodInitArgs(args)
    ensures InitFrom(args, DEFAULTS).Ok? ==> GoodInitArgs(args)
  {
    if args != [] {
      var n := |args| - 2;
      var init, flag, value := args[..n], args[n], args[n + 1];
      assert args == init + [flag, value];
      InitFromMeaning(init);
      InitFromSnoc(init, flag, value, DEFAULTS);
      PairsSnoc(init, flag, value);
      if GoodInitPair(flag, value) {
        MeaningSnoc(init, flag, value);
      }
    }
  }

  /** `CreateProxyInit` accepts exactly the lists of whole pairs with known flags, numbers where
      numbers belong, and a last key that is not empty. */
  lemma ParseInitAccepts(args: seq<string>)
    ensures ParseInit(args).Ok? <==> GoodInitArgs(args) && LastKey(args, "-k") != ""
    ensures ParseInit(args).Ok? ==> ParseInit(args).value == Meaning(args)
  {
    if |args| % 2 == 1 {
      OddIsRefused(args, DEFAULTS);
    } else {
      InitFromMeaning(args);
    }
  }

  /** A transaction id anywhere between the pairs changes nothing, not even the error reported. */
  lemma {:induction false} InitIgnoresIds(args: seq<string>, at: nat, id: string, s: Settings)
    requires at <= |args| && at % 2 == 0
    ensures InitFrom(args[..at] + ["-i", id] + args[at..], s) == InitFrom(args, s)
  {
    var longer := args[..at] + ["-i", id] + args[at..];
    if at == 0 {
      assert longer[2..] == args;
    } else {
      assert longer[2..] == args[2..][..at - 2] + ["-i", id] + args[2..][at - 2..];
      match SetInit(s, args[0], args[1])
      case Err(_) =>
      case Ok(s') => InitIgnoresIds(args[2..], at - 2, id, s');
    }
  }

  lemma {:induction false} KeyIgnoresIds(keyFlag: string, args: seq<string>, at: nat, id: string, key: string)
    requires at <= |args| && at % 2 == 0
    ensures KeyFrom(keyFlag, args[..at] + ["-i", id] + args[at..], key) == KeyFrom(keyFlag, args, key)
  {
    var longer := args[..at] + ["-i", id] + args[at..];
    if at == 0 {
      assert longer[2..] == args;
    } else {
      assert longer[2..] == args[2..][..at - 2] + ["-i", id] + args[2..][at - 2..];
      if args[0] == "-i" {
        KeyIgnoresIds(keyFlag, args[2..], at - 2, id, key);
      } else if args[0] == keyFlag {
        KeyIgnoresIds(keyFlag, args[2..], at - 2, id, args[1]);
      }
    }
  }

  ghost predicate GoodKeyArgs(keyFlag: string, args: seq<string>) {
    && |args| % 2 == 0
    && forall i: nat | IsFlagAt(args, i) :: args[i] == "-i" || args[i] == keyFlag
  }

  lemma GoodKeyCons(keyFlag: string, args: seq<string>)
    requires |args| >= 2
    ensures GoodKeyArgs(keyFlag, args) <==>
      (args[0] == "-i" || args[0] == keyFlag) && GoodKeyArgs(keyFlag, args[2..])
  {
    var rest := args[2..];
    assert IsFlagAt(args, 0);
    forall i: nat | IsFlagAt(rest, i) ensures IsFlagAt(args, i + 2) && args[i + 2] == rest[i] {
    }
    forall i: nat | IsFlagAt(args, i) && i >= 2 ensures IsFlagAt(rest, i - 2) {
    }
  }

  lemma {:induction false} LastValueCons(flag: string, value: string, rest: seq<string>, wanted: string)
    requires |rest| % 2 == 0
    ensures LastValue([flag, value] + rest, wanted)
      == if LastValue(rest, wanted).Some? then LastValue(rest, wanted)
         else if flag == wanted then Some(value) else None
  {
    var args := [flag, value] + rest;
    if rest == [] {
      assert args[..0] == [];
    } else {
      assert args[..|args| - 2] == [flag, value] + rest[..|rest| - 2];
      LastValueCons(flag, value, rest[..|rest| - 2], wanted);
    }
  }

  lemma {:induction false} KeyFromMeaning(keyFlag: string, args: seq<string>, key: string)
    requires keyFlag != "-i"
    ensures KeyFrom(keyFlag, args, key).Ok? <==> GoodKeyArgs(keyFlag, args)
    ensures var last := LastValue(args, keyFlag);
      KeyFrom(keyFlag, args, key).Ok? ==>
        KeyFrom(keyFlag, args, key).value == if last.Some? then last.value else key
  {
    if |args| >= 2 {
      var rest, key' := args[2..], if args[0] == keyFlag then args[1] else key;
      KeyFromMeaning(keyFlag, rest, key');
      if |args| % 2 == 0 {
        LastValueCons(args[0], args[1], rest, keyFlag);
      }
      assert args == [args[0], args[1]] + rest;
      GoodKeyCons(keyFlag, args);
    }
  }

  /** The other three parsers accept exactly the lists of whole pairs that use only `-i` and the
      key flag, with a last key that is not empty, and take that key. */
  lemma ParseKeyAccepts(keyFlag: string, args: seq<string>)
    requires keyFlag != "-i"
    ensures ParseKey(keyFlag, args).Ok? <==> GoodKeyArgs(keyFlag, args) && LastKey(args, keyFlag) != ""
    ensures ParseKey(keyFlag, args).Ok? ==> ParseKey(keyFlag, args).value == LastKey(args, keyFlag)
  {
    KeyFromMeaning(keyFlag, args, "");
  }

  // ----- The same on the list itself -----

  /** The last pair with a flag, at `i`, is the one whose value is found. */
  lemma {:induction false} LastValueAt(args: seq<string>, flag: string, i: int)
    requires |args| % 2 == 0 && 0 <= i < |args| && i % 2 == 0 && args[i] == flag
    requires forall j | i < j < |args| && j % 2 == 0 :: args[j] != flag
    ensures i + 1 < |args| && LastValue(args, flag) == Some(args[i + 1])
  {
    var n := |args| - 2;
    if i < n {
      assert args[n] != flag;
      LastValueAt(args[..n], flag, i);
    }
  }

  lemma {:induction false} NoLastValue(args: seq<string>, flag: string)
    requires |args| % 2 == 0
    requires forall j | 0 <= j < |args| && j % 2 == 0 :: args[j] != flag
    ensures LastValue(args, flag) == None
  {
    if args != [] {
      var n := |args| - 2;
      assert args[n] != flag;
      NoLastValue(args[..n], flag);
    }
  }

  /** `i` is the place of a flag in a list of pairs after which it does not occur again, or -1. */
  lemma LastValueIs(args: seq<string>, flag: string, i: int)
    requires |args| % 2 == 0 && -1 <= i < |args|
    requires i >= 0 ==> i % 2 == 0 && args[i] == flag
    requires forall j | i < j < |args| && j % 2 == 0 :: args[j] != flag
    ensures LastValue(args, flag) == if i >= 0 then Some(args[i + 1]) else None
  {
    if i >= 0 {
      LastValueAt(args, flag, i);
    } else {
      NoLastValue(args, flag);
    }
  }

  lemma GoodInitArgsAre(args: seq<string>)
    requires |args| % 2 == 0
    ensures GoodInitArgs(args) <==>
      forall i | 0 <= i < |args| && i % 2 == 0 ::
        || args[i] == "-i" || args[i] == "-k" || args[i] == "-m"
        || ((args[i] == "-p" || args[i] == "-s") && Atoi(args[i + 1]).Some?)
  {
    if GoodInitArgs(args) {
      forall i | 0 <= i < |args| && i % 2 == 0
        ensures
          || args[i] == "-i" || args[i] == "-k" || args[i] == "-m"
          || ((args[i] == "-p" || args[i] == "-s") && Atoi(args[i + 1]).Some?)
      {
        assert IsFlagAt(args, i);
        assert GoodInitPair(args[i], args[i + 1]);
      }
    } else {
      var i: nat :| IsFlagAt(args, i) && !GoodInitPair(args[i], args[i + 1]);
      assert 0 <= i < |args| && i % 2 == 0;
    }
  }

  lemma AnyMultipleIs(args: seq<string>)
    requires |args| % 2 == 0
    ensures AnyMultiple(args) <==> exists i | 0 <= i < |args| && i % 2 == 0 :: args[i] == "-m" && args[i + 1] == "1"
  {
    if i :| 0 <= i < |args| && i % 2 == 0 && args[i] == "-m" && args[i + 1] == "1" {
      assert IsFlagAt(args, i);
    }
  }

  /** Which lists of pairs `CreateProxyInit` accepts; `k` is the place of the last `-k`, or -1. */
  lemma ParseInitTakesLists(args: seq<string>, k: int)
    requires |args| % 2 == 0 && -1 <= k < |args|
    requires k >= 0 ==> k % 2 == 0 && args[k] == "-k"
    requires forall j | k < j < |args| && j % 2 == 0 :: args[j] != "-k"
    ensures ParseInit(args).Ok? <==>
      && k >= 0 && args[k + 1] != ""
      && forall i | 0 <= i < |args| && i % 2 == 0 ::
           || args[i] == "-i" || args[i] == "-k" || args[i] == "-m"
           || ((args[i] == "-p" || args[i] == "-s") && Atoi(args[i + 1]).Some?)
  {
    ParseInitAccepts(args);
    GoodInitArgsAre(args);
    LastValueIs(args, "-k", k);
  }

  /** The port it takes is that of the last `-p`, at `p`, or 9003. */
  lemma ParseInitTakesPort(args: seq<string>, p: int)
    requires |args| % 2 == 0 && -1 <= p < |args|
    requires p >= 0 ==> p % 2 == 0 && args[p] == "-p"
    requires forall j | p < j < |args| && j % 2 == 0 :: args[j] != "-p"
    requires ParseInit(args).Ok?
    ensures p >= 0 ==> Atoi(args[p + 1]) == Some(ParseInit(args).value.port)
    ensures p < 0 ==> ParseInit(args).value.port == 9003
  {
    ParseInitAccepts(args);
    LastValueIs(args, "-p", p);
    if p >= 0 {
      assert IsFlagAt(args, p);
    }
  }

  /** SSL is on exactly if the last `-s`, at `s`, says 1. */
  lemma ParseInitTakesSsl(args: seq<string>, s: int)
    requires |args| % 2 == 0 && -1 <= s < |args|
    requires s >= 0 ==> s % 2 == 0 && args[s] == "-s"
    requires forall j | s < j < |args| && j % 2 == 0 :: args[j] != "-s"
    requires ParseInit(args).Ok?
    ensures ParseInit(args).value.ssl <==> s >= 0 && Atoi(args[s + 1]) == Some(1)
  {
    ParseInitAccepts(args);
    LastValueIs(args, "-s", s);
    if s >= 0 {
      assert IsFlagAt(args, s);
    }
  }

  /** The key is that of the last `-k`, at `k`, and multiple sessions are on exactly if any `-m` says 1. */
  lemma ParseInitTakesKey(args: seq<string>, k: int)
    requires |args| % 2 == 0 && -1 <= k < |args|
    requires k >= 0 ==> k % 2 == 0 && args[k] == "-k"
    requires forall j | k < j < |args| && j % 2 == 0 :: args[j] != "-k"
    requires ParseInit(args).Ok?
    ensures k >= 0 && ParseInit(args).value.key == args[k + 1]
    ensures ParseInit(args).value.multiple <==>
      exists i | 0 <= i < |args| && i % 2 == 0 :: args[i] == "-m" && args[i + 1] == "1"
  {
    ParseInitAccepts(args);
    AnyMultipleIs(args);
    LastValueIs(args, "-k", k);
  }

  /** A list with a part left over is refused. */
  lemma OddListIsRefused(args: seq<string>, keyFlag: string)
    requires |args| % 2 == 1 && keyFlag != "-i"
    ensures ParseInit(args).Err? && ParseKey(keyFlag, args).Err?
  {
    OddIsRefused(args, DEFAULTS);
    ParseKeyAccepts(keyFlag, args);
  }

  /** A port or SSL value with a character that is neither a digit nor a leading sign, or with no digit, is
      refused, wherever it stands. */
  lemma BadNumberIsRefused(args: seq<string>, i: int)
    requires 0 <= i && i + 1 < |args| && i % 2 == 0 && (args[i] == "-p" || args[i] == "-s")
    requires var v := args[i + 1];
      || v == "" || v == "+" || v == "-"
      || exists j | 0 <= j < |v| :: !('0' <= v[j] <= '9') && !(j == 0 && (v[0] == '+' || v[0] == '-'))
    ensures ParseInit(args).Err?
  {
    NoNumber(args[i + 1]);
    ParseInitAccepts(args);
    assert IsFlagAt(args, i);
  }

  /** The first pair that is no good is the one reported, with its value; without such a pair, a part left
      over; without that, a missing key. */
  lemma {:induction false} FirstErrorFrom(args: seq<string>, i: nat, s: Settings)
    requires i % 2 == 0 && i <= |args|
    requires forall j: nat | j < i && j % 2 == 0 :: GoodInitPair(args[j], args[j + 1])
    ensures i + 1 < |args| && !GoodInitPair(args[i], args[i + 1]) ==>
      InitFrom(args, s) == Err(
        if args[i] == "-p" then BadPort(args[i + 1])
        else if args[i] == "-s" then BadSsl(args[i + 1]) else UnknownArgument(args[i], args[i + 1]))
    ensures i + 1 == |args| ==> InitFrom(args, s) == Err(MissingValue(args[i]))
  {
    if i > 0 {
      assert GoodInitPair(args[0], args[1]);
      var s' := SetInit(s, args[0], args[1]).value;
      forall j: nat | j < i - 2 && j % 2 == 0 ensures GoodInitPair(args[2..][j], args[2..][j + 1]) {
        assert GoodInitPair(args[j + 2], args[j + 3]);
      }
      FirstErrorFrom(args[2..], i - 2, s');
    }
  }

  lemma ParseInitErrors(args: seq<string>, i: nat)
    requires i % 2 == 0 && i < |args|
    requires forall j | 0 <= j < i && j % 2 == 0 ::
      || args[j] == "-i" || args[j] == "-k" || args[j] == "-m"
      || ((args[j] == "-p" || args[j] == "-s") && Atoi(args[j + 1]).Some?)
    ensures i + 1 == |args| ==> ParseInit(args) == Err(MissingValue(args[i]))
    ensures i + 1 < |args| && args[i] == "-p" && Atoi(args[i + 1]).None? ==>
      ParseInit(args) == Err(BadPort(args[i + 1]))
    ensures i + 1 < |args| && args[i] == "-s" && Atoi(args[i + 1]).None? ==>
      ParseInit(args) == Err(BadSsl(args[i + 1]))
    ensures i + 1 < |args| ==>
      args[i] != "-i" && args[i] != "-k" && args[i] != "-m" && args[i] != "-p" && args[i] != "-s" ==>
      ParseInit(args) == Err(UnknownArgument(args[i], args[i + 1]))
  {
    forall j: nat | j < i && j % 2 == 0 ensures GoodInitPair(args[j], args[j + 1]) {
    }
    FirstErrorFrom(args, i, DEFAULTS);
  }

  /** The other parsers on a list of pairs, where `k` is the place of the last key flag, or -1. */
  lemma ParseKeyMeans(keyFlag: string, args: seq<string>, k: int)
    requires |args| % 2 == 0 && -1 <= k < |args| && keyFlag != "-i"
    requires k >= 0 ==> k % 2 == 0 && args[k] == keyFlag
    requires forall j | k < j < |args| && j % 2 == 0 :: args[j] != keyFlag
    ensures ParseKey(keyFlag, args).Ok? <==>
      && k >= 0 && args[k + 1] != ""
      && forall i | 0 <= i < |args| && i % 2 == 0 :: args[i] == "-i" || args[i] == keyFlag
    ensures ParseKey(keyFlag, args).Ok? ==> ParseKey(keyFlag, args).value == args[k + 1]
  {
    ParseKeyAccepts(keyFlag, args);
    LastValueIs(args, keyFlag, k);
    assert forall i: nat :: IsFlagAt(args, i) <==> i < |args| && i % 2 == 0;
  }
}
