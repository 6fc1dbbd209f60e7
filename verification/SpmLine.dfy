/** A whole line of Simple Parameter Mode: the escapes, and the calls generated
    for the commands on the line. */
module SpmLine {

  import opened Options
  import opened SpmTokenizer
  import Cmd = SpmCommand

  datatype Call =
    | Pass
    | Invoke(name: string, args: seq<Cmd.Arg>, opts: map<string, Cmd.Arg>)
    | Read(dev: string)
    | Maw(dev: string, target: string)

  datatype Code = PassLine | Python(text: string) | Help(text: string) | Sim(code: Code) | Calls(calls: seq<Call>)

  // ---- The escapes ----

  function StripLeft(s: string): string {
    if s != "" && IsSpace(s[0]) then StripLeft(s[1..]) else s
  }

  function StripRight(s: string): string {
    if s != "" && IsSpace(s[|s| - 1]) then StripRight(s[..|s| - 1]) else s
  }

  function StripMarksLeft(s: string): string {
    if s != "" && s[0] == '?' then StripMarksLeft(s[1..]) else s
  }

  function StripMarksRight(s: string): string {
    if s != "" && s[|s| - 1] == '?' then StripMarksRight(s[..|s| - 1]) else s
  }

  /** A line that is none of: comment, Python, help, simulation. */
  predicate IsPlain(command: string) {
    command != "" ==> command[0] !in "#!?:" && command[|command| - 1] != '?'
  }

  // ---- The calls ----

  function HandleDevice(dev: string, args: seq<string>): Result<Call, Cmd.SpmError> {
    if args == [] then Ok(Read(dev))
    else if |args| == 1 then Ok(Maw(dev, args[0]))
    else Err(Cmd.TooManyForDevice)
  }

  /** The call for the tokens of one command. */
  function CallOf(tokens: seq<string>, s: Cmd.Session): Result<Call, Cmd.SpmError> {
    if tokens == [] then Ok(Pass)
    else
      var name, args := tokens[0], tokens[1..];
      if name !in s.namespace || s.namespace[name].Other? then Err(Cmd.NoSuchName(name))
      else if s.namespace[name].Device? then HandleDevice(name, args)
      else
        match Cmd.Bind(Cmd.SyntaxOf(s.namespace[name].syntax, |args|), args, s)
        case Err(e) => Err(e)
        case Ok((cmdargs, opts)) => Ok(Invoke(name, cmdargs, opts))
  }

  /** The calls for all commands, or the first error. */
  function AllCalls(commands: seq<seq<string>>, s: Cmd.Session): Result<seq<Call>, Cmd.SpmError> {
    if commands == [] then Ok([])
    else
      var n := |commands| - 1;
      match AllCalls(commands[..n], s)
      case Err(e) => Err(e)
      case Ok(calls) =>
        match CallOf(commands[n], s)
        case Err(e) => Err(e)
        case Ok(call) => Ok(calls + [call])
  }

  function LineCode(command: string, s: Cmd.Session): Result<Code, Cmd.SpmError>
    decreases |command|
  {
    if command != "" && command[0] == '#' then Ok(PassLine)
    else if command != "" && command[0] == '!' then Ok(Python(StripRight(StripLeft(command[1..]))))
    else if command != "" && (command[0] == '?' || command[|command| - 1] == '?') then
      Ok(Help(StripMarksRight(StripMarksLeft(command))))
    else if command != "" && command[0] == ':' then
      match LineCode(command[1..], s)
      case Err(e) => Err(e)
      case Ok(code) => Ok(Sim(code))
    else
      match Collected([[]], command)
      case Err(e) => Err(Cmd.CouldNotParse(e.token, e.expected))
      case Ok(commands) =>
        match AllCalls(commands, s)
        case Err(e) => Err(e)
        case Ok(calls) => Ok(Calls(calls))
  }

  lemma {:induction false} FirstErrorEnds(commands: seq<seq<string>>, k: nat, s: Cmd.Session)
    requires k <= |commands| && AllCalls(commands[..k], s).Err?
    ensures AllCalls(commands, s) == AllCalls(commands[..k], s)
    decreases |commands|
  {
    if k < |commands| {
      var n := |commands| - 1;
      assert commands[..n][..k] == commands[..k];
      FirstErrorEnds(commands[..n], k, s);
    } else {
      assert commands[..k] == commands;
    }
  }

  /** `handle_line`. */
  method HandleLine(command: string, s: Cmd.Session) returns (r: Result<Code, Cmd.SpmError>)
    ensures r == LineCode(command, s)
    decreases |command|
  {
    hide StripLeft, StripRight, StripMarksLeft, StripMarksRight;
    if command != "" {
      if command[0] == '#' {
        return Ok(PassLine);
      }
      if command[0] == '!' {
        return Ok(Python(StripRight(StripLeft(command[1..]))));
      }
      if command[0] == '?' || command[|command| - 1] == '?' {
        return Ok(Help(StripMarksRight(StripMarksLeft(command))));
      }
      if command[0] == ':' {
        var code := HandleLine(command[1..], s);
        return if code.Ok? then Ok(Sim(code.value)) else code;
      }
    }
    var commands := Tokenize(command);
    if commands.Err? {
      return Err(Cmd.CouldNotParse(commands.error.token, commands.error.expected));
    }
    hide Collected;
    var code: seq<Call> := [];
    for k := 0 to |commands.value|
      invariant AllCalls(commands.value[..k], s) == Ok(code)
    {
      var tokens := commands.value[k];
      assert commands.value[..k + 1][..k] == commands.value[..k];
      var call;
      if tokens == [] {
        call := Ok(Pass);
      } else if tokens[0] in s.namespace && s.namespace[tokens[0]].Command? {
        var bound := Cmd.HandleCommand(s.namespace[tokens[0]].syntax, tokens[1..], s);
        call := if bound.Ok? then Ok(Invoke(tokens[0], bound.value.0, bound.value.1)) else Err(bound.error);
      } else if tokens[0] in s.namespace && s.namespace[tokens[0]].Device? {
        call := HandleDevice(tokens[0], tokens[1..]);
      } else {
        call := Err(Cmd.NoSuchName(tokens[0]));
      }
      assert call == CallOf(tokens, s);
      if call.Err? {
        FirstErrorEnds(commands.value, k + 1, s);
        return Err(call.error);
      }
      code := code + [call.value];
    }
    assert commands.value[..|commands.value|] == commands.value;
    r := Ok(Calls(code));
  }

  /** A line succeeds exactly if each of its commands does, and its calls are
      theirs, in order; otherwise the error is that of the first that fails. */
  lemma {:induction false} AllCallsMeaning(commands: seq<seq<string>>, s: Cmd.Session)
    ensures
      match AllCalls(commands, s)
      case Ok(calls) =>
        |calls| == |commands| && forall k :: 0 <= k < |commands| ==> CallOf(commands[k], s) == Ok(calls[k])
      case Err(e) =>
        exists k :: 0 <= k < |commands| && CallOf(commands[k], s) == Err(e)
                    && forall j :: 0 <= j < k ==> CallOf(commands[j], s).Ok?
  {
    hide CallOf;
    if commands != [] {
      var n := |commands| - 1;
      var init := commands[..n];
      AllCallsMeaning(init, s);
      match AllCalls(init, s)
      case Err(e) =>
        var k :| 0 <= k < n && CallOf(init[k], s) == Err(e) && forall j :: 0 <= j < k ==> CallOf(init[j], s).Ok?;
        assert commands[k] == init[k];
        assert forall j :: 0 <= j < k ==> commands[j] == init[j];
      case Ok(calls) =>
        assert forall j :: 0 <= j < n ==> commands[j] == init[j];
        assert CallOf(commands[n], s).Err? ==> AllCalls(commands, s) == Err(CallOf(commands[n], s).error);
    }
  }

  // ---- What the escapes mean ----

  ghost predicate OnlySpaces(s: string) {
    forall k :: 0 <= k < |s| ==> IsSpace(s[k])
  }

  ghost predicate OnlyMarks(s: string) {
    forall k :: 0 <= k < |s| ==> s[k] == '?'
  }

  /** `core` is the text without the spaces around it. */
  ghost predicate Stripped(s: string, left: string, core: string, right: string) {
    && s == left + core + right && OnlySpaces(left) && OnlySpaces(right)
    && (core != "" ==> !IsSpace(core[0]) && !IsSpace(core[|core| - 1]))
  }

  ghost predicate Unmarked(s: string, left: string, core: string, right: string) {
    && s == left + core + right && OnlyMarks(left) && OnlyMarks(right)
    && (core != "" ==> core[0] != '?' && core[|core| - 1] != '?')
  }

  lemma {:induction false} StripLeftMeaning(s: string) returns (left: string)
    ensures s == left + StripLeft(s) && OnlySpaces(left)
    ensures StripLeft(s) != "" ==> !IsSpace(StripLeft(s)[0])
  {
    left := "";
    if s != "" && IsSpace(s[0]) {
      left := StripLeftMeaning(s[1..]);
      left := [s[0]] + left;
    }
  }

  lemma {:induction false} StripRightMeaning(s: string) returns (right: string)
    ensures s == StripRight(s) + right && OnlySpaces(right)
    ensures StripRight(s) != "" ==> StripRight(s)[0] == s[0] && !IsSpace(StripRight(s)[|StripRight(s)| - 1])
  {
    right := "";
    if s != "" && IsSpace(s[|s| - 1]) {
      right := StripRightMeaning(s[..|s| - 1]);
      right := right + [s[|s| - 1]];
    }
  }

  lemma {:induction false} MarksLeftMeaning(s: string) returns (left: string)
    ensures s == left + StripMarksLeft(s) && OnlyMarks(left)
    ensures StripMarksLeft(s) != "" ==> StripMarksLeft(s)[0] != '?'
  {
    left := "";
    if s != "" && s[0] == '?' {
      left := MarksLeftMeaning(s[1..]);
      left := [s[0]] + left;
    }
  }

  lemma {:induction false} MarksRightMeaning(s: string) returns (right: string)
    ensures s == StripMarksRight(s) + right && OnlyMarks(right)
    ensures StripMarksRight(s) != "" ==>
      StripMarksRight(s)[0] == s[0] && StripMarksRight(s)[|StripMarksRight(s)| - 1] != '?'
  {
    right := "";
    if s != "" && s[|s| - 1] == '?' {
      right := MarksRightMeaning(s[..|s| - 1]);
      right := right + [s[|s| - 1]];
    }
  }

  /** Which lines are escapes, and what they stand for: a comment does nothing, a
      Python line is its text without the spaces around it, a help line the text
      without its question marks, and a simulated line stands for the rest. */
  lemma EscapesMean(line: string, s: Cmd.Session)
    requires line != ""
    ensures
      var r, rest := LineCode(line, s), line[1..];
      if line[0] == '#' then r == Ok(PassLine)
      else if line[0] == '!' then
        exists left, core, right :: Stripped(rest, left, core, right) && r == Ok(Python(core))
      else if line[0] == '?' || line[|line| - 1] == '?' then
        exists left, core, right :: Unmarked(line, left, core, right) && r == Ok(Help(core))
      else if line[0] == ':' then
        r == match LineCode(rest, s) case Ok(code) => Ok(Sim(code)) case Err(e) => Err(e)
      else r.Ok? ==> r.value.Calls?
  {
    hide Collected, AllCalls, Stripped, Unmarked, StripLeft, StripRight, StripMarksLeft, StripMarksRight;
    var left, right := StripMeaning(line[1..]);
    left, right := MarksMeaning(line);
  }

  lemma StripMeaning(s: string) returns (left: string, right: string)
    ensures Stripped(s, left, StripRight(StripLeft(s)), right)
  {
    left := StripLeftMeaning(s);
    right := StripRightMeaning(StripLeft(s));
    hide StripLeft, StripRight;
  }

  lemma MarksMeaning(s: string) returns (left: string, right: string)
    ensures Unmarked(s, left, StripMarksRight(StripMarksLeft(s)), right)
  {
    left := MarksLeftMeaning(s);
    right := MarksRightMeaning(StripMarksLeft(s));
    hide StripMarksLeft, StripMarksRight;
  }

  /** A name that is neither a command nor a device is refused; a command is called
      with exactly what its tokens are bound to, and refused with the error of that. */
  lemma CommandCalls(tokens: seq<string>, s: Cmd.Session)
    requires tokens != []
    ensures
      var r, name := CallOf(tokens, s), tokens[0];
      && (r == Err(Cmd.NoSuchName(name)) <==> !(name in s.namespace && !s.namespace[name].Other?))
      && (name in s.namespace && s.namespace[name].Command? ==>
            var bound := Cmd.Bind(Cmd.SyntaxOf(s.namespace[name].syntax, |tokens| - 1), tokens[1..], s);
            && (forall a, o :: r == Ok(Invoke(name, a, o)) <==> bound == Ok((a, o)))
            && (forall e :: r == Err(e) <==> bound == Err(e)))
  {
    hide Cmd.Handle;
    if tokens[0] in s.namespace && s.namespace[tokens[0]].Command? {
      var syn, args := Cmd.SyntaxOf(s.namespace[tokens[0]].syntax, |tokens| - 1), tokens[1..];
      if Cmd.Bind(syn, args, s).Err? && Cmd.Bind(syn, args, s) != Err(Cmd.PrematureEnd) {
        Cmd.ErrorNamesTheFirst(syn, args, s);
      }
      hide Cmd.Bind;
    }
  }

  /** A device alone is read; with one argument it is moved there; more are refused. */
  lemma DeviceCalls(dev: string, args: seq<string>, s: Cmd.Session)
    requires dev in s.namespace && s.namespace[dev].Device?
    ensures
      var r := CallOf([dev] + args, s);
      && (r == Ok(Read(dev)) <==> args == [])
      && (forall target :: r == Ok(Maw(dev, target)) <==> args == [target])
      && (r == Err(Cmd.TooManyForDevice) <==> |args| > 1)
  {
    assert ([dev] + args)[1..] == args;
  }

  /** The line that prints some commands does what these commands do. */
  lemma PrintedLineRuns(commands: seq<seq<string>>, sep: string, s: Cmd.Session)
    requires commands != [] && Separator(sep) && IsPlain(Print(commands, sep))
    requires forall k :: 0 <= k < |commands| ==> AllWellFormed(commands[k])
    ensures
      LineCode(Print(commands, sep), s) ==
      match AllCalls(commands, s)
      case Err(e) => Err(e)
      case Ok(calls) => Ok(Calls(calls))
  {
    TokenizeOfPrint(commands, sep);
    hide AllCalls, Collected, Print;
  }
}
