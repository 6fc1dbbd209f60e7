/** The command binder of Simple Parameter Mode: tokens of a command are bound to
    positional arguments, to repeating groups of arguments, and to options. */
module SpmCommand {

  import opened Options
  import Tokens = SpmTokenizer

  // ---- Token types ----

  datatype TokenType =
    | String
    | Bare
    | Num
    | Int
    | Oneof(choices: seq<string>)
    | Bool
    | Dev(devtype: string)
    | DevParam
    | SetupName
    | DeviceName

  /** An argument of the generated call: a string, or text put there as it is. */
  datatype Arg = Str(text: string) | Verbatim(text: string) | Float(x: real) | Integer(n: int)

  /** `multi` holds the types of a final `Multi` argument, if there is one. */
  datatype Syntax = Syntax(positional: seq<TokenType>, multi: Option<seq<TokenType>>, options: map<string, TokenType>)

  datatype Entity = Command(syntax: Option<Syntax>) | Device | Other

  /** The parts of the session that are asked.  `explicit` maps explicitly created
      devices to the classes they are instances of; `toFloat` and `toInt` stand
      for Python's conversions. */
  datatype Session = Session(
    namespace: map<string, Entity>,
    explicit: map<string, set<string>>,
    setups: set<string>,
    configured: set<string>,
    toFloat: string -> Option<real>,
    toInt: string -> Option<int>)

  datatype SpmError =
    | CouldNotParse(token: string, expected: string)
    | NoSuchName(name: string)
    | TooManyForDevice
    | PrematureEnd
    | InvalidArgument(token: string)
    | TooManyArguments(token: string)
    | InvalidOption(token: string)

  predicate IsLetter(c: char) {
    'a' <= c <= 'z' || 'A' <= c <= 'Z' || c == '_'
  }

  /** The pattern of identifiers; its `$` also matches before a final newline. */
  predicate IsIdentifier(s: string) {
    var t := if s != "" && s[|s| - 1] == '\n' then s[..|s| - 1] else s;
    t != "" && IsLetter(t[0]) && forall k :: 0 <= k < |t| ==> IsLetter(t[k]) || '0' <= t[k] <= '9'
  }

  function Lower(s: string): string {
    seq(|s|, i requires 0 <= i < |s| => if 'A' <= s[i] <= 'Z' then s[i] - 'A' + 'a' else s[i])
  }

  function Handle(t: TokenType, arg: string, s: Session): Option<Arg> {
    match t
    case String =>
      if arg != "" && Tokens.IsQuote(arg[0]) && Tokens.Quoted(arg[1..], arg[0]).Some?
      then Some(Verbatim(arg)) else Some(Str(arg))
    case Bare =>
      if IsIdentifier(arg) && arg !in s.namespace then Some(Str(arg)) else Some(Verbatim("(" + arg + ")"))
    case Num => var x := s.toFloat(arg); if x.Some? then Some(Float(x.value)) else None
    case Int => var n := s.toInt(arg); if n.Some? then Some(Integer(n.value)) else None
    case Oneof(choices) => if Lower(arg) in choices then Some(Str(Lower(arg))) else None
    case Bool =>
      if Lower(arg) == "true" then Some(Verbatim("True"))
      else if Lower(arg) == "false" then Some(Verbatim("False"))
      else None
    case Dev(devtype) => if arg in s.explicit && devtype in s.explicit[arg] then Some(Verbatim(arg)) else None
    case DevParam => Some(Str(arg))
    case SetupName => if arg in s.setups then Some(Str(arg)) else None
    case DeviceName => if arg in s.configured then Some(Str(arg)) else None
  }

  /** What an accepted argument becomes.  A string is the argument itself; text put
      as it is can only be the argument, a literal or the argument in parentheses. */
  lemma AcceptedValues(t: TokenType, arg: string, s: Session)
    requires Handle(t, arg, s).Some?
    ensures
      match Handle(t, arg, s).value
      case Str(text) =>
        if t.Oneof? then text in t.choices && text == Lower(arg) else text == arg
      case Verbatim(text) =>
        || (t.Bool? && (text == "True" || text == "False") && Lower(text) == Lower(arg))
        || (t.Dev? && text == arg && arg in s.explicit && t.devtype in s.explicit[arg])
        || (t.Bare? && text == "(" + arg + ")" && (IsIdentifier(arg) ==> arg in s.namespace))
        || (t.String? && text == arg && arg != "" && Tokens.IsQuote(arg[0]))
      case Float(x) => t.Num? && s.toFloat(arg) == Some(x)
      case Integer(n) => t.Int? && s.toInt(arg) == Some(n)
  {
    assert Lower("True") == "true" && Lower("False") == "false";
  }

  /** Which arguments are refused. */
  lemma RefusedValues(t: TokenType, arg: string, s: Session)
    ensures Handle(t, arg, s).None? <==>
      || (t.Num? && s.toFloat(arg).None?)
      || (t.Int? && s.toInt(arg).None?)
      || (t.Oneof? && Lower(arg) !in t.choices)
      || (t.Bool? && Lower(arg) != "true" && Lower(arg) != "false")
      || (t.Dev? && !(arg in s.explicit && t.devtype in s.explicit[arg]))
      || (t.SetupName? && arg !in s.setups)
      || (t.DeviceName? && arg !in s.configured)
  {
  }

  // ---- Positional arguments ----

  /** How many positional arguments come before the repeating group. */
  function Fixed(syn: Syntax): nat {
    |syn.positional|
  }

  /** The size of the repeating group; an empty group is none. */
  function Group(syn: Syntax): nat {
    if syn.multi.Some? then |syn.multi.value| else 0
  }

  /** There is an argument number `k`: cycling through a group never ends. */
  predicate HasElement(syn: Syntax, k: nat) {
    k < Fixed(syn) || Group(syn) > 0
  }

  function ElementAt(syn: Syntax, k: nat): TokenType
    requires HasElement(syn, k)
  {
    if k < Fixed(syn) then syn.positional[k] else syn.multi.value[(k - Fixed(syn)) % Group(syn)]
  }

  /** A number of arguments that may end the command before its options. */
  predicate Complete(syn: Syntax, n: nat) {
    n >= Fixed(syn) && (Group(syn) > 0 ==> (n - Fixed(syn)) % Group(syn) == 0)
  }

  /** The first loop, from argument `k` on: the arguments bound and the tokens left. */
  function BindArgs(syn: Syntax, k: nat, rest: seq<string>, s: Session): Result<(seq<Arg>, seq<string>), SpmError>
    decreases |rest|
  {
    if !HasElement(syn, k) then Ok(([], rest))
    else if rest == [] then (if Complete(syn, k) then Ok(([], rest)) else Err(PrematureEnd))
    else
      match Handle(ElementAt(syn, k), rest[0], s)
      case None => Err(InvalidArgument(rest[0]))
      case Some(a) =>
        match BindArgs(syn, k + 1, rest[1..], s)
        case Err(e) => Err(e)
        case Ok((args, left)) => Ok(([a] + args, left))
  }

  // ---- Options ----

  function OptionValue(syn: Syntax, name: string, val: string, s: Session): Result<Arg, SpmError> {
    if !IsIdentifier(name) then Err(InvalidOption(name))
    else if name in syn.options then
      var v := Handle(syn.options[name], val, s);
      if v.Some? then Ok(v.value) else Err(InvalidArgument(val))
    else Ok(Verbatim(val))
  }

  /** The second loop. */
  function BindOpts(
    syn: Syntax, opts: map<string, Arg>, rest: seq<string>, s: Session): Result<map<string, Arg>, SpmError>
    requires |rest| % 2 == 0
    decreases |rest|
  {
    if rest == [] then Ok(opts)
    else
      match OptionValue(syn, rest[0], rest[1], s)
      case Err(e) => Err(e)
      case Ok(v) => BindOpts(syn, opts[rest[0] := v], rest[2..], s)
  }

  function Bind(syn: Syntax, args: seq<string>, s: Session): Result<(seq<Arg>, map<string, Arg>), SpmError> {
    match BindArgs(syn, 0, args, s)
    case Err(e) => Err(e)
    case Ok((cmdargs, left)) =>
      if |left| % 2 != 0 then Err(TooManyArguments(left[|left| - 1]))
      else
        match BindOpts(syn, map[], left, s)
        case Err(e) => Err(e)
        case Ok(opts) => Ok((cmdargs, opts))
  }

  /** A command without a declared syntax takes any number of bare values. */
  function SyntaxOf(syntax: Option<Syntax>, n: nat): Syntax {
    if syntax.Some? then syntax.value else Syntax(seq(n, _ => Bare), None, map[])
  }

  /** `handle_command`. */
  method HandleCommand(syntax: Option<Syntax>, args: seq<string>, s: Session)
    returns (r: Result<(seq<Arg>, map<string, Arg>), SpmError>)
    ensures r == Bind(SyntaxOf(syntax, |args|), args, s)
  {
    var syn := SyntaxOf(syntax, |args|);
    var rest, cmdargs, nargs := args, [], 0;
    ghost var all := BindArgs(syn, 0, args, s);
    assert all.Ok? ==> [] + all.value.0 == all.value.0;
    while HasElement(syn, nargs)
      invariant all == Prefixed(cmdargs, BindArgs(syn, nargs, rest, s))
      decreases |rest|
    {
      if rest == [] {
        if !Complete(syn, nargs) {
          return Err(PrematureEnd);
        }
        break;
      }
      var parg := Handle(ElementAt(syn, nargs), rest[0], s);
      if parg.None? {
        return Err(InvalidArgument(rest[0]));
      }
      PrefixedStep(cmdargs, parg.value, BindArgs(syn, nargs + 1, rest[1..], s));
      cmdargs, rest, nargs := cmdargs + [parg.value], rest[1..], nargs + 1;
    }
    assert cmdargs + [] == cmdargs;
    assert all == Ok((cmdargs, rest));
    hide BindArgs;
    if |rest| % 2 != 0 {
      return Err(TooManyArguments(rest[|rest| - 1]));
    }
    var cmdopts: map<string, Arg> := map[];
    ghost var bound := BindOpts(syn, map[], rest, s);
    while rest != []
      invariant |rest| % 2 == 0 && bound == BindOpts(syn, cmdopts, rest, s)
      decreases |rest|
    {
      var name, val := rest[0], rest[1];
      rest := rest[2..];
      if !IsIdentifier(name) {
        return Err(InvalidOption(name));
      }
      if name in syn.options {
        var v := Handle(syn.options[name], val, s);
        if v.None? {
          return Err(InvalidArgument(val));
        }
        cmdopts := cmdopts[name := v.value];
      } else {
        cmdopts := cmdopts[name := Verbatim(val)];
      }
    }
    r := Ok((cmdargs, cmdopts));
  }

  ghost function Prefixed(
    done: seq<Arg>, r: Result<(seq<Arg>, seq<string>), SpmError>): Result<(seq<Arg>, seq<string>), SpmError>
  {
    match r
    case Err(e) => Err(e)
    case Ok((args, left)) => Ok((done + args, left))
  }

  lemma PrefixedStep(done: seq<Arg>, a: Arg, r: Result<(seq<Arg>, seq<string>), SpmError>)
    ensures Prefixed(done + [a], r) == Prefixed(done, Prefixed([a], r))
  {
    if r.Ok? {
      assert done + [a] + r.value.0 == done + ([a] + r.value.0);
    }
  }

  // ---- When a command is accepted, and what it is bound to ----

  /** How many of the tokens from argument `k` on are positional. */
  ghost function Wanted(syn: Syntax, k: nat, n: nat): nat {
    if Group(syn) > 0 then n else if k < Fixed(syn) then Fixed(syn) - k else 0
  }

  ghost predicate Accepts(syn: Syntax, k: nat, arg: string, s: Session) {
    HasElement(syn, k) && Handle(ElementAt(syn, k), arg, s).Some?
  }

  /** Token `arg`, as argument number `k`, is bound to `a`. */
  ghost predicate BoundTo(syn: Syntax, k: nat, arg: string, a: Arg, s: Session) {
    HasElement(syn, k) && Handle(ElementAt(syn, k), arg, s) == Some(a)
  }

  ghost predicate OptionFits(syn: Syntax, rest: seq<string>, j: nat, s: Session)
    requires 2 * j + 1 < |rest|
  {
    OptionValue(syn, rest[2 * j], rest[2 * j + 1], s).Ok?
  }

  /** The tokens are the positional arguments, then whole rounds of the group or,
      without a group, name and value pairs, all accepted by their types. */
  ghost predicate Fits(syn: Syntax, args: seq<string>, s: Session) {
    var n := Wanted(syn, 0, |args|);
    && n <= |args| && Complete(syn, n)
    && (forall k :: 0 <= k < n ==> Accepts(syn, k, args[k], s))
    && (|args| - n) % 2 == 0
    && (forall j {:trigger OptionFits(syn, args[n..], j, s)} :: 0 <= j < (|args| - n) / 2 ==>
          OptionFits(syn, args[n..], j, s))
  }

  /** If the first loop succeeds, it took the positional tokens in order, each with
      the type at its place. */
  lemma {:induction false} BoundArgs(syn: Syntax, k: nat, rest: seq<string>, s: Session)
    requires BindArgs(syn, k, rest, s).Ok?
    ensures
      var n, r := Wanted(syn, k, |rest|), BindArgs(syn, k, rest, s).value;
      && n <= |rest| && |r.0| == n && r.1 == rest[n..]
      && (Group(syn) > 0 ==> Complete(syn, k + n))
      && (forall j :: 0 <= j < n ==> BoundTo(syn, k + j, rest[j], r.0[j], s))
    decreases |rest|
  {
    hide Handle, ElementAt;
    if HasElement(syn, k) && rest != [] {
      hide Complete;
      var n, r := Wanted(syn, k, |rest|), BindArgs(syn, k, rest, s).value;
      var later := BindArgs(syn, k + 1, rest[1..], s).value;
      BoundArgs(syn, k + 1, rest[1..], s);
      assert r == ([Handle(ElementAt(syn, k), rest[0], s).value] + later.0, later.1);
      assert rest[1..][n - 1..] == rest[n..];
      forall j | 0 <= j < n
        ensures BoundTo(syn, k + j, rest[j], r.0[j], s)
      {
        if j == 0 {
          assert k + j == k;
        } else {
          assert BoundTo(syn, (k + 1) + (j - 1), rest[1..][j - 1], later.0[j - 1], s);
          assert (k + 1) + (j - 1) == k + j && rest[1..][j - 1] == rest[j] && later.0[j - 1] == r.0[j];
        }
      }
    }
  }

  lemma {:induction false} ArgsAreBound(syn: Syntax, k: nat, rest: seq<string>, s: Session)
    requires Wanted(syn, k, |rest|) <= |rest|
    requires Group(syn) > 0 ==> Complete(syn, k + |rest|)
    requires forall j :: 0 <= j < Wanted(syn, k, |rest|) ==> Accepts(syn, k + j, rest[j], s)
    ensures BindArgs(syn, k, rest, s).Ok?
    decreases |rest|
  {
    hide Handle, ElementAt, Complete;
    if HasElement(syn, k) && rest != [] {
      assert Accepts(syn, k + 0, rest[0], s);
      forall j | 0 <= j < Wanted(syn, k + 1, |rest[1..]|) ensures Accepts(syn, (k + 1) + j, rest[1..][j], s) {
        assert Accepts(syn, k + (j + 1), rest[j + 1], s);
      }
      assert k + |rest| == k + 1 + |rest[1..]|;
      ArgsAreBound(syn, k + 1, rest[1..], s);
    }
  }

  lemma {:induction false} OptsAreBound(syn: Syntax, opts: map<string, Arg>, rest: seq<string>, s: Session)
    requires |rest| % 2 == 0
    ensures BindOpts(syn, opts, rest, s).Ok? <==> forall j :: 0 <= j < |rest| / 2 ==> OptionFits(syn, rest, j, s)
    decreases |rest|
  {
    hide OptionValue;
    if rest != [] {
      assert OptionFits(syn, rest, 0, s) <==> OptionValue(syn, rest[0], rest[1], s).Ok?;
      forall j | 1 <= j < |rest| / 2 ensures OptionFits(syn, rest, j, s) <==> OptionFits(syn, rest[2..], j - 1, s) {
        OptionFitsLater(syn, rest, j, s);
      }
      if OptionFits(syn, rest, 0, s) {
        var v := OptionValue(syn, rest[0], rest[1], s).value;
        OptsAreBound(syn, opts[rest[0] := v], rest[2..], s);
        hide OptionFits;
        if forall j :: 0 <= j < |rest| / 2 ==> OptionFits(syn, rest, j, s) {
          forall j | 0 <= j < |rest[2..]| / 2 ensures OptionFits(syn, rest[2..], j, s) {
            assert OptionFits(syn, rest, j + 1, s);
          }
        } else {
          var j :| 0 <= j < |rest| / 2 && !OptionFits(syn, rest, j, s);
          assert !OptionFits(syn, rest[2..], j - 1, s);
        }
      }
    }
  }

  lemma OptionFitsLater(syn: Syntax, rest: seq<string>, j: nat, s: Session)
    requires 1 <= j && 2 * j + 1 < |rest|
    ensures OptionFits(syn, rest, j, s) <==> OptionFits(syn, rest[2..], j - 1, s)
  {
    assert rest[2..][2 * (j - 1)] == rest[2 * j] && rest[2..][2 * (j - 1) + 1] == rest[2 * j + 1];
  }

  /** A command is accepted exactly if its tokens fit its syntax. */
  lemma AcceptedIffFits(syn: Syntax, args: seq<string>, s: Session)
    ensures Bind(syn, args, s).Ok? <==> Fits(syn, args, s)
  {
    hide Handle, ElementAt, OptionFits;
    var n := Wanted(syn, 0, |args|);
    if BindArgs(syn, 0, args, s).Ok? {
      BoundArgs(syn, 0, args, s);
      forall k | 0 <= k < n ensures Accepts(syn, k, args[k], s) {
        assert BoundTo(syn, 0 + k, args[k], BindArgs(syn, 0, args, s).value.0[k], s);
      }
      if (|args| - n) % 2 == 0 {
        OptsAreBound(syn, map[], args[n..], s);
      }
    } else if Fits(syn, args, s) {
      assert Complete(syn, 0 + n);
      ArgsAreBound(syn, 0, args, s);
    }
  }

  /** Tokens are missing exactly if all that are there are accepted and they end
      before the positional arguments or inside a round of the group. */
  lemma MissingIffIncomplete(syn: Syntax, args: seq<string>, s: Session)
    ensures
      Bind(syn, args, s) == Err(PrematureEnd) <==>
      !Complete(syn, |args|) && forall k :: 0 <= k < |args| ==> Accepts(syn, k, args[k], s)
  {
    hide Handle, ElementAt, OptionValue;
    MissingArgs(syn, 0, args, s);
    if BindArgs(syn, 0, args, s).Ok? {
      var left := BindArgs(syn, 0, args, s).value.1;
      if |left| % 2 == 0 {
        OptsAreNotMissing(syn, map[], left, s);
      }
    }
    assert forall k :: 0 <= k < |args| ==> Accepts(syn, 0 + k, args[k], s) == Accepts(syn, k, args[k], s);
  }

  lemma {:induction false} MissingArgs(syn: Syntax, k: nat, rest: seq<string>, s: Session)
    ensures
      BindArgs(syn, k, rest, s) == Err(PrematureEnd) <==>
      !Complete(syn, k + |rest|) && forall j :: 0 <= j < |rest| ==> Accepts(syn, k + j, rest[j], s)
    decreases |rest|
  {
    hide Handle, ElementAt;
    if rest == [] {
      assert !HasElement(syn, k) ==> Complete(syn, k);
    } else {
      assert HasElement(syn, k) <== !Complete(syn, k + |rest|) && Accepts(syn, k + 0, rest[0], s);
      hide Complete;
      var later := rest[1..];
      MissingArgs(syn, k + 1, later, s);
      assert k + 1 + |later| == k + |rest|;
      if forall j :: 0 <= j < |rest| ==> Accepts(syn, k + j, rest[j], s) {
        assert Accepts(syn, k + 0, rest[0], s);
        forall j | 0 <= j < |later| ensures Accepts(syn, (k + 1) + j, later[j], s) {
          assert Accepts(syn, k + (j + 1), rest[j + 1], s);
        }
      } else {
        var j :| 0 <= j < |rest| && !Accepts(syn, k + j, rest[j], s);
        assert j > 0 ==> !Accepts(syn, (k + 1) + (j - 1), later[j - 1], s);
      }
    }
  }

  lemma {:induction false} OptsAreNotMissing(syn: Syntax, opts: map<string, Arg>, rest: seq<string>, s: Session)
    requires |rest| % 2 == 0
    ensures BindOpts(syn, opts, rest, s) != Err(PrematureEnd)
    decreases |rest|
  {
    if rest != [] {
      var v := OptionValue(syn, rest[0], rest[1], s);
      if v.Ok? {
        OptsAreNotMissing(syn, opts[rest[0] := v.value], rest[2..], s);
      }
    }
  }

  // ---- What the error names ----

  /** Token `j` is the first that its type refuses, as argument number `k + j`. */
  ghost predicate FirstRefused(syn: Syntax, k: nat, rest: seq<string>, j: nat, s: Session) {
    && j < |rest| && HasElement(syn, k + j) && !Accepts(syn, k + j, rest[j], s)
    && forall i :: 0 <= i < j ==> Accepts(syn, k + i, rest[i], s)
  }

  /** Pair `j` is the first that is no valid option. */
  ghost predicate FirstMisfit(syn: Syntax, rest: seq<string>, j: nat, s: Session) {
    2 * j + 1 < |rest| && !OptionFits(syn, rest, j, s) && forall i :: 0 <= i < j ==> OptionFits(syn, rest, i, s)
  }

  /** The error for pair `j`: the name if it is none, otherwise the value. */
  ghost function Misfit(rest: seq<string>, j: nat): SpmError
    requires 2 * j + 1 < |rest|
  {
    if IsIdentifier(rest[2 * j]) then InvalidArgument(rest[2 * j + 1]) else InvalidOption(rest[2 * j])
  }

  lemma {:induction false} ArgsError(syn: Syntax, k: nat, rest: seq<string>, s: Session)
    requires BindArgs(syn, k, rest, s).Err? && BindArgs(syn, k, rest, s) != Err(PrematureEnd)
    ensures exists j: nat ::
      FirstRefused(syn, k, rest, j, s) && BindArgs(syn, k, rest, s) == Err(InvalidArgument(rest[j]))
    decreases |rest|
  {
    hide Handle, ElementAt, Complete;
    if Handle(ElementAt(syn, k), rest[0], s).None? {
      assert FirstRefused(syn, k, rest, 0, s);
    } else {
      var later := rest[1..];
      ArgsError(syn, k + 1, later, s);
      var j: nat :| FirstRefused(syn, k + 1, later, j, s)
               && BindArgs(syn, k + 1, later, s) == Err(InvalidArgument(later[j]));
      forall i | 0 <= i < j + 1 ensures Accepts(syn, k + i, rest[i], s) {
        assert i > 0 ==> Accepts(syn, k + 1 + (i - 1), later[i - 1], s);
      }
      assert k + 1 + j == k + (j + 1) && later[j] == rest[j + 1];
      assert FirstRefused(syn, k, rest, j + 1, s);
    }
  }

  lemma {:induction false} OptsError(syn: Syntax, opts: map<string, Arg>, rest: seq<string>, s: Session)
    requires |rest| % 2 == 0 && BindOpts(syn, opts, rest, s).Err?
    ensures exists j: nat :: FirstMisfit(syn, rest, j, s) && BindOpts(syn, opts, rest, s) == Err(Misfit(rest, j))
    decreases |rest|
  {
    var v := OptionValue(syn, rest[0], rest[1], s);
    assert OptionFits(syn, rest, 0, s) <==> v.Ok?;
    if v.Err? {
      assert FirstMisfit(syn, rest, 0, s);
    } else {
      hide OptionValue;
      var later := rest[2..];
      OptsError(syn, opts[rest[0] := v.value], later, s);
      var j: nat :| FirstMisfit(syn, later, j, s)
               && BindOpts(syn, opts[rest[0] := v.value], later, s) == Err(Misfit(later, j));
      MisfitLater(syn, rest, j, s);
    }
  }

  lemma MisfitLater(syn: Syntax, rest: seq<string>, j: nat, s: Session)
    requires |rest| >= 2 && OptionFits(syn, rest, 0, s) && FirstMisfit(syn, rest[2..], j, s)
    ensures FirstMisfit(syn, rest, j + 1, s) && Misfit(rest, j + 1) == Misfit(rest[2..], j)
  {
    hide OptionFits;
    OptionFitsLater(syn, rest, j + 1, s);
    forall i | 0 <= i < j + 1 ensures OptionFits(syn, rest, i, s) {
      if i > 0 {
        OptionFitsLater(syn, rest, i, s);
      }
    }
  }

  /** The error of a refused command, apart from a premature end: the first token
      its type refuses; or else the last token, if the options do not come in
      pairs; or else what is wrong with the first pair that is no option. */
  lemma ErrorNamesTheFirst(syn: Syntax, args: seq<string>, s: Session)
    requires Bind(syn, args, s).Err? && Bind(syn, args, s) != Err(PrematureEnd)
    ensures
      var e, n := Bind(syn, args, s).error, Wanted(syn, 0, |args|);
      || (exists j: nat :: FirstRefused(syn, 0, args, j, s) && e == InvalidArgument(args[j]))
      || (n < |args| && (forall k :: 0 <= k < n ==> Accepts(syn, k, args[k], s))
          && if (|args| - n) % 2 != 0 then e == TooManyArguments(args[|args| - 1])
             else exists j: nat :: FirstMisfit(syn, args[n..], j, s) && e == Misfit(args[n..], j))
  {
    hide Handle, ElementAt, OptionValue, OptionFits, Misfit;
    if BindArgs(syn, 0, args, s).Err? {
      ArgsError(syn, 0, args, s);
    } else {
      BoundArgs(syn, 0, args, s);
      var n := Wanted(syn, 0, |args|);
      forall k | 0 <= k < n ensures Accepts(syn, k, args[k], s) {
        assert BoundTo(syn, 0 + k, args[k], BindArgs(syn, 0, args, s).value.0[k], s);
      }
      if (|args| - n) % 2 == 0 {
        OptsError(syn, map[], args[n..], s);
      }
    }
  }

  /** The value of an option: what its type makes of it, or the text as it is if the
      command does not know the option. */
  lemma OptionValues(syn: Syntax, name: string, val: string, s: Session)
    ensures
      var r := OptionValue(syn, name, val, s);
      && (r.Ok? <==> IsIdentifier(name) && (name in syn.options ==> Handle(syn.options[name], val, s).Some?))
      && (r.Ok? && name in syn.options ==> Some(r.value) == Handle(syn.options[name], val, s))
      && (r.Ok? && name !in syn.options ==> r.value == Verbatim(val))
  {
    hide Handle, IsIdentifier;
  }

  /** What an accepted command is bound to: every token is used once, the positional
      ones in order, the values of options by name; a later value of the same
      name wins. */
  lemma BoundAsGiven(syn: Syntax, args: seq<string>, s: Session)
    requires Bind(syn, args, s).Ok?
    ensures
      var n, (cmdargs, opts) := Wanted(syn, 0, |args|), Bind(syn, args, s).value;
      && n <= |args| && |cmdargs| == n && (|args| - n) % 2 == 0
      && (forall k :: 0 <= k < n ==> BoundTo(syn, k, args[k], cmdargs[k], s))
      && OptionsOf(syn, map[], args[n..], opts, s)
  {
    hide Handle, ElementAt, OptionsOf;
    BoundArgs(syn, 0, args, s);
    var n := Wanted(syn, 0, |args|);
    BoundOpts(syn, map[], args[n..], s);
    var cmdargs := Bind(syn, args, s).value.0;
    forall k | 0 <= k < n ensures BoundTo(syn, k, args[k], cmdargs[k], s) {
      assert BoundTo(syn, 0 + k, args[k], cmdargs[k], s);
    }
  }

  ghost predicate Named(rest: seq<string>, j: nat, name: string) {
    2 * j + 1 < |rest| && rest[2 * j] == name
  }

  ghost predicate IsNamed(rest: seq<string>, name: string) {
    exists j: nat :: Named(rest, j, name)
  }

  /** Pair `j` is the last with the name. */
  ghost predicate LastNamed(rest: seq<string>, j: nat, name: string) {
    Named(rest, j, name) && forall i: nat :: Named(rest, i, name) ==> i <= j
  }

  /** The entry for one name: the value of the last pair with that name, or what
      was there before. */
  ghost predicate OptionOf(
    syn: Syntax, before: map<string, Arg>, rest: seq<string>, opts: map<string, Arg>, o: string, s: Session)
  {
    if IsNamed(rest, o) then
      o in opts && forall j: nat :: LastNamed(rest, j, o) ==> OptionValue(syn, o, rest[2 * j + 1], s) == Ok(opts[o])
    else
      (o in opts <==> o in before) && (o in opts ==> opts[o] == before[o])
  }

  ghost predicate OptionsOf(
    syn: Syntax, before: map<string, Arg>, rest: seq<string>, opts: map<string, Arg>, s: Session)
  {
    forall o :: OptionOf(syn, before, rest, opts, o, s)
  }

  lemma {:induction false} BoundOpts(syn: Syntax, before: map<string, Arg>, rest: seq<string>, s: Session)
    requires |rest| % 2 == 0 && BindOpts(syn, before, rest, s).Ok?
    ensures OptionsOf(syn, before, rest, BindOpts(syn, before, rest, s).value, s)
    decreases |rest|
  {
    hide OptionValue;
    if rest == [] {
    } else {
      var v := OptionValue(syn, rest[0], rest[1], s).value;
      var mid, later := before[rest[0] := v], rest[2..];
      BoundOpts(syn, mid, later, s);
      hide BindOpts;
      OptionsStep(syn, before, rest, v, BindOpts(syn, mid, later, s).value, s);
    }
  }

  lemma OptionsStep(
    syn: Syntax, before: map<string, Arg>, rest: seq<string>, v: Arg, opts: map<string, Arg>, s: Session)
    requires |rest| >= 2 && OptionValue(syn, rest[0], rest[1], s) == Ok(v)
    requires OptionsOf(syn, before[rest[0] := v], rest[2..], opts, s)
    ensures OptionsOf(syn, before, rest, opts, s)
  {
    forall o ensures OptionOf(syn, before, rest, opts, o, s) {
      assert OptionOf(syn, before[rest[0] := v], rest[2..], opts, o, s);
      OptionStep(syn, before, rest, v, opts, o, s);
    }
  }

  lemma OptionStep(
    syn: Syntax, before: map<string, Arg>, rest: seq<string>, v: Arg, opts: map<string, Arg>, o: string, s: Session)
    requires |rest| >= 2 && OptionValue(syn, rest[0], rest[1], s) == Ok(v)
    requires OptionOf(syn, before[rest[0] := v], rest[2..], opts, o, s)
    ensures OptionOf(syn, before, rest, opts, o, s)
  {
    hide OptionValue;
    var later := rest[2..];
    IsNamedStep(rest, o);
    if IsNamed(rest, o) {
      hide IsNamed;
      forall j: nat | LastNamed(rest, j, o) ensures OptionValue(syn, o, rest[2 * j + 1], s) == Ok(opts[o]) {
        if IsNamed(later, o) {
          LastNamedStep(rest, j, o);
        } else {
          OnlyFirstNamed(rest, j, o);
        }
      }
    }
  }

  lemma NamedStep(rest: seq<string>, j: nat, o: string)
    requires |rest| >= 2
    ensures Named(rest, j + 1, o) <==> Named(rest[2..], j, o)
  {
    assert 2 * j + 1 < |rest[2..]| ==> rest[2..][2 * j] == rest[2 * (j + 1)];
  }

  lemma IsNamedStep(rest: seq<string>, o: string)
    requires |rest| >= 2
    ensures IsNamed(rest, o) <==> o == rest[0] || IsNamed(rest[2..], o)
  {
    if j: nat :| Named(rest, j, o) && j > 0 {
      NamedStep(rest, j - 1, o);
    }
    if j: nat :| Named(rest[2..], j, o) {
      NamedStep(rest, j, o);
    }
    if o == rest[0] {
      assert Named(rest, 0, o);
    }
  }

  lemma LastNamedStep(rest: seq<string>, j: nat, o: string)
    requires |rest| >= 2 && LastNamed(rest, j, o) && IsNamed(rest[2..], o)
    ensures j > 0 && LastNamed(rest[2..], j - 1, o) && rest[2..][2 * (j - 1) + 1] == rest[2 * j + 1]
  {
    var i: nat :| Named(rest[2..], i, o);
    NamedStep(rest, i, o);
    NamedStep(rest, j - 1, o);
    forall i: nat | Named(rest[2..], i, o) ensures i <= j - 1 {
      NamedStep(rest, i, o);
    }
  }

  lemma OnlyFirstNamed(rest: seq<string>, j: nat, o: string)
    requires |rest| >= 2 && Named(rest, j, o) && !IsNamed(rest[2..], o)
    ensures j == 0
  {
    if j > 0 {
      NamedStep(rest, j - 1, o);
    }
  }

  /** A command without a declared syntax takes all its tokens as bare values. */
  lemma NoSyntaxTakesAll(args: seq<string>, s: Session)
    ensures
      var r := Bind(SyntaxOf(None, |args|), args, s);
      && r.Ok? && |r.value.0| == |args| && r.value.1 == map[]
      && forall k :: 0 <= k < |args| ==> Some(r.value.0[k]) == Handle(Bare, args[k], s)
  {
    hide Handle;
    var syn := SyntaxOf(None, |args|);
    assert forall k :: 0 <= k < |args| ==> Handle(Bare, args[k], s).Some? by {
      BareTakesAll(args, s);
    }
    forall k | 0 <= k < |args| ensures Accepts(syn, k, args[k], s) {
      assert ElementAt(syn, k) == Bare;
    }
    assert forall k :: 0 <= k < |args| ==> Accepts(syn, 0 + k, args[k], s);
    ArgsAreBound(syn, 0, args, s);
    BoundArgs(syn, 0, args, s);
    var cmdargs := BindArgs(syn, 0, args, s).value.0;
    forall k | 0 <= k < |args| ensures Some(cmdargs[k]) == Handle(Bare, args[k], s) {
      assert BoundTo(syn, 0 + k, args[k], cmdargs[k], s);
    }
  }

  lemma BareTakesAll(args: seq<string>, s: Session)
    ensures forall k :: 0 <= k < |args| ==> Handle(Bare, args[k], s).Some?
  {
  }
}
