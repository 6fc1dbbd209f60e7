/** The tokenizer of Simple Parameter Mode: quoted strings, parentheses,
    brackets, bare words, and `;` between commands. */
module SpmTokenizer {

  import opened Options

  datatype NoParse = NoParse(expected: string, token: string)

  /** What one turn of the tokenizer takes off the line. */
  datatype Piece = Token(text: string) | Space(text: string) | Semicolon

  function Text(p: Piece): string {
    if p.Semicolon? then ";" else p.text
  }

  /** White space as in `str.isspace` and the pattern `\s`. */
  predicate IsSpace(c: char) {
    || '\t' <= c <= '\r'
    || '\U{1c}' <= c <= ' '
    || c == '\U{85}' || c == '\U{a0}' || c == '\U{1680}'
    || '\U{2000}' <= c <= '\U{200a}'
    || c == '\U{2028}' || c == '\U{2029}' || c == '\U{202f}' || c == '\U{205f}' || c == '\U{3000}'
  }

  /** The characters that end a bare word. */
  predicate EndsWord(c: char) {
    c == ' ' || c == '\t' || c == ';'
  }

  // ---- The patterns ----

  /** The length of the longest prefix of white space. */
  function Spaces(s: string): (n: nat)
    ensures n <= |s|
    ensures forall k :: 0 <= k < n ==> IsSpace(s[k])
    ensures n < |s| ==> !IsSpace(s[n])
  {
    if s == "" || !IsSpace(s[0]) then 0 else 1 + Spaces(s[1..])
  }

  /** The length of the longest prefix that a bare word can take. */
  function Word(s: string): (n: nat)
    ensures n <= |s|
    ensures forall k :: 0 <= k < n ==> !EndsWord(s[k])
    ensures n < |s| ==> EndsWord(s[n])
  {
    if s == "" || EndsWord(s[0]) then 0 else 1 + Word(s[1..])
  }

  /** The pattern of a quoted string after its opening quote `q`: how many
      characters are matched up to and including the closing quote.  The
      alternatives are tried in order, with backtracking: an escaped backslash,
      an escaped quote, any character but the quote. */
  function Quoted(s: string, q: char): (n: Option<nat>)
    ensures n.Some? ==> 0 < n.value <= |s| && s[n.value - 1] == q
    decreases |s|
  {
    if s == "" then None
    else if |s| >= 2 && s[0] == '\\' && (s[1] == '\\' || s[1] == q) then
      var two := Quoted(s[2..], q);
      if two.Some? then Some(2 + two.value)
      else
        var one := Quoted(s[1..], q);
        if one.Some? then Some(1 + one.value) else None
    else if s[0] == q then Some(1)
    else
      var one := Quoted(s[1..], q);
      if one.Some? then Some(1 + one.value) else None
  }

  /** Thanks to backtracking, a quoted string is found exactly if there is any
      closing quote. */
  lemma {:induction false} QuotedIffQuote(s: string, q: char)
    requires IsQuote(q)
    ensures Quoted(s, q).Some? <==> q in s
    decreases |s|
  {
    if s != "" {
      QuotedIffQuote(s[1..], q);
      if |s| >= 2 {
        QuotedIffQuote(s[2..], q);
        assert s[1..][1..] == s[2..];
      }
    }
  }

  /** The position of the first `c` from `i` on; the length if there is none. */
  function Find(s: string, c: char, i: nat): (k: nat)
    requires i <= |s|
    ensures i <= k <= |s|
    ensures forall j :: i <= j < k ==> s[j] != c
    ensures k < |s| ==> s[k] == c
    decreases |s| - i
  {
    if i == |s| || s[i] == c then i else Find(s, c, i + 1)
  }

  // ---- One turn ----

  predicate IsQuote(c: char) {
    c == '\'' || c == '"'
  }

  predicate IsBracket(c: char) {
    c == '(' || c == '['
  }

  function Closer(c: char): char {
    if c == '(' then ')' else if c == '[' then ']' else c
  }

  function Expected(c: char): string {
    if c == '\'' then "single-quoted string"
    else if c == '"' then "double-quoted string"
    else if c == '(' then "closing parenthesis"
    else "closing bracket"
  }

  function Next(rest: string): (r: Result<Piece, NoParse>)
    requires rest != ""
    ensures r.Ok? ==> Text(r.value) != "" && Text(r.value) <= rest
  {
    var c := rest[0];
    if IsQuote(c) then
      var n := Quoted(rest[1..], c);
      if n.Some? then Ok(Token(rest[..1 + n.value])) else Err(NoParse(Expected(c), rest))
    else if IsBracket(c) then
      var k := Find(rest, Closer(c), 1);
      if k < |rest| then Ok(Token(rest[..k + 1])) else Err(NoParse(Expected(c), rest))
    else if IsSpace(c) then Ok(Space(rest[..Spaces(rest)]))
    else if c == ';' then Ok(Semicolon)
    else
      assert Word(rest) > 0;
      Ok(Token(rest[..Word(rest)]))
  }

  /** The pieces of a line. */
  function Scan(rest: string): Result<seq<Piece>, NoParse>
    decreases |rest|
  {
    if rest == "" then Ok([])
    else
      match Next(rest)
      case Err(e) => Err(e)
      case Ok(p) =>
        match Scan(rest[|Text(p)|..])
        case Err(e) => Err(e)
        case Ok(ps) => Ok([p] + ps)
  }

  /** Adds a piece to the commands collected so far. */
  function Add(commands: seq<seq<string>>, p: Piece): (r: seq<seq<string>>)
    requires commands != []
    ensures r != []
  {
    match p
    case Token(text) => commands[..|commands| - 1] + [commands[|commands| - 1] + [text]]
    case Space(_) => commands
    case Semicolon => commands + [[]]
  }

  function AddAll(commands: seq<seq<string>>, ps: seq<Piece>): (r: seq<seq<string>>)
    requires commands != []
    ensures r != []
    decreases |ps|
  {
    if ps == [] then commands else AddAll(Add(commands, ps[0]), ps[1..])
  }

  function Collected(commands: seq<seq<string>>, rest: string): Result<seq<seq<string>>, NoParse>
    requires commands != []
  {
    match Scan(rest)
    case Err(e) => Err(e)
    case Ok(ps) => Ok(AddAll(commands, ps))
  }

  lemma CollectedStep(commands: seq<seq<string>>, rest: string)
    requires commands != [] && rest != ""
    ensures
      Collected(commands, rest) ==
      match Next(rest)
      case Err(e) => Err(e)
      case Ok(p) => Collected(Add(commands, p), rest[|Text(p)|..])
  {
    if Next(rest).Ok? {
      var p := Next(rest).value;
      var more := Scan(rest[|Text(p)|..]);
      if more.Ok? {
        assert ([p] + more.value)[1..] == more.value;
      }
    }
  }

  /** The loops that look for a closing parenthesis or bracket. */
  method FindCloser(rest: string, c: char) returns (i: nat)
    requires rest != ""
    ensures 1 <= i <= |rest| && i == Find(rest, c, 1)
  {
    i := 1;
    while i < |rest| && rest[i] != c
      invariant 1 <= i <= |rest|
      invariant Find(rest, c, 1) == Find(rest, c, i)
    {
      i := i + 1;
    }
  }

  /** `tokenize`, not partial. */
  method Tokenize(command: string) returns (r: Result<seq<seq<string>>, NoParse>)
    ensures r == Collected([[]], command)
  {
    var rest := command;
    var commands: seq<seq<string>> := [[]];
    r := Ok(commands);
    while rest != ""
      invariant commands != [] && r.Ok?
      invariant Collected([[]], command) == Collected(commands, rest)
      decreases |rest|
    {
      CollectedStep(commands, rest);
      hide Collected, Quoted, Find, Spaces, Word, IsSpace, Expected;
      ghost var had, was, p := commands, rest, Semicolon;
      var c := rest[0];
      var last := |commands| - 1;
      if c == '\'' || c == '"' {
        var m := Quoted(rest[1..], c);
        if m.None? {
          r := Err(NoParse(Expected(c), rest));
          break;
        }
        p := Token(rest[..m.value + 1]);
        commands := commands[..last] + [commands[last] + [rest[..m.value + 1]]];
        rest := rest[m.value + 1..];
      } else if c == '(' || c == '[' {
        var i := FindCloser(rest, Closer(c));
        if i == |rest| {
          r := Err(NoParse(Expected(c), rest));
          break;
        }
        p := Token(rest[..i + 1]);
        commands := commands[..last] + [commands[last] + [rest[..i + 1]]];
        rest := rest[i + 1..];
      } else if IsSpace(c) {
        p := Space(rest[..Spaces(rest)]);
        rest := rest[Spaces(rest)..];
      } else if c == ';' {
        commands := commands + [[]];
        rest := rest[1..];
      } else {
        p := Token(rest[..Word(rest)]);
        commands := commands[..last] + [commands[last] + [rest[..Word(rest)]]];
        rest := rest[Word(rest)..];
      }
      assert Next(was) == Ok(p);
      assert commands == Add(had, p) && rest == was[|Text(p)|..];
    }
    if r.Ok? {
      r := Ok(commands);
    }
  }

  // ---- Nothing is lost ----

  ghost function Flatten(ps: seq<Piece>): string {
    if ps == [] then "" else Text(ps[0]) + Flatten(ps[1..])
  }

  /** What a piece of each kind looks like. */
  ghost predicate Shaped(p: Piece) {
    match p
    case Semicolon => true
    case Space(t) => t != "" && forall k :: 0 <= k < |t| ==> IsSpace(t[k])
    case Token(t) =>
      && t != ""
      && if IsQuote(t[0]) then |t| >= 2 && t[|t| - 1] == t[0]
         else if IsBracket(t[0]) then |t| >= 2 && Find(t, Closer(t[0]), 1) == |t| - 1
         else !IsSpace(t[0]) && forall k :: 0 <= k < |t| ==> !EndsWord(t[k])
  }

  /** On success the pieces, in order, are the line: tokens and what was skipped
      between them rebuild it. */
  lemma {:induction false} ScanLosesNothing(rest: string)
    ensures Scan(rest).Ok? ==> Flatten(Scan(rest).value) == rest
    ensures Scan(rest).Ok? ==> forall k :: 0 <= k < |Scan(rest).value| ==> Shaped(Scan(rest).value[k])
    decreases |rest|
  {
    if rest != "" && Next(rest).Ok? {
      var p := Next(rest).value;
      NextIsShaped(rest);
      hide Next, Shaped;
      ScanLosesNothing(rest[|Text(p)|..]);
      if Scan(rest).Ok? {
        assert Scan(rest).value[1..] == Scan(rest[|Text(p)|..]).value;
        assert Text(p) == rest[..|Text(p)|];
      }
    }
  }

  lemma NextIsShaped(rest: string)
    requires rest != "" && Next(rest).Ok?
    ensures Shaped(Next(rest).value)
  {
    var c, t := rest[0], Text(Next(rest).value);
    if IsBracket(c) {
      FindPrefix(rest, Closer(c), 1);
    }
  }

  lemma {:induction false} FindPrefix(s: string, c: char, i: nat)
    requires i <= |s| && Find(s, c, i) < |s|
    ensures Find(s[..Find(s, c, i) + 1], c, i) == Find(s, c, i)
    decreases |s| - i
  {
    if s[i] != c {
      FindPrefix(s, c, i + 1);
    }
  }

  /** On failure the reported token is the end of the line, from a quote,
      parenthesis or bracket that is never closed. */
  lemma {:induction false} FailureIsUnclosed(rest: string)
    ensures
      Scan(rest).Err? ==>
        var e := Scan(rest).error;
        && e.token != "" && |e.token| <= |rest| && e.token == rest[|rest| - |e.token|..]
        && (IsQuote(e.token[0]) || IsBracket(e.token[0]))
        && Closer(e.token[0]) !in e.token[1..]
        && e.expected == Expected(e.token[0])
    decreases |rest|
  {
    if rest != "" {
      match Next(rest)
      case Err(e) =>
        if IsQuote(rest[0]) {
          QuotedIffQuote(rest[1..], rest[0]);
        }
      case Ok(p) =>
        FailureIsUnclosed(rest[|Text(p)|..]);
    }
  }

  // ---- Printed commands read back ----

  /** The inside of a quoted string: backslashes escape backslashes and quotes,
      and stand for themselves before other characters. */
  ghost predicate Escaped(body: string, q: char)
    decreases |body|
  {
    if body == "" then true
    else if body[0] == '\\' then
      && |body| >= 2
      && if body[1] == '\\' || body[1] == q then Escaped(body[2..], q) else Escaped(body[1..], q)
    else body[0] != q && Escaped(body[1..], q)
  }

  ghost predicate IsWord(t: string) {
    && t != "" && !IsQuote(t[0]) && !IsBracket(t[0]) && !IsSpace(t[0])
    && forall k :: 0 <= k < |t| ==> !EndsWord(t[k])
  }

  ghost predicate WellFormed(t: string) {
    || (|t| >= 2 && IsQuote(t[0]) && t[|t| - 1] == t[0] && Escaped(t[1..|t| - 1], t[0]))
    || (|t| >= 2 && IsBracket(t[0]) && t[|t| - 1] == Closer(t[0]) && Closer(t[0]) !in t[1..|t| - 1])
    || IsWord(t)
  }

  /** Pieces that may follow each other: bare words must be ended by a blank, a tab
      or a semicolon, and white space is taken all at once. */
  ghost predicate Separate(ps: seq<Piece>) {
    ps == [] ||
    (var tail := Flatten(ps[1..]);
     && Separate(ps[1..])
     && match ps[0]
        case Semicolon => true
        case Space(w) => w != "" && (forall k :: 0 <= k < |w| ==> IsSpace(w[k])) && (tail != "" ==> !IsSpace(tail[0]))
        case Token(t) => WellFormed(t) && (IsWord(t) && tail != "" ==> EndsWord(tail[0])))
  }

  /** Well-formed pieces are read back as they are. */
  lemma {:induction false} ScanOfFlatten(ps: seq<Piece>)
    requires Separate(ps)
    ensures Scan(Flatten(ps)) == Ok(ps)
  {
    if ps != [] {
      var p, tail := ps[0], Flatten(ps[1..]);
      ScanOfFlatten(ps[1..]);
      NextOfPiece(p, tail);
      hide Next;
      assert (Text(p) + tail)[|Text(p)|..] == tail;
      assert [p] + ps[1..] == ps;
    }
  }

  lemma NextOfPiece(p: Piece, tail: string)
    requires p.Space? ==>
      p.text != "" && (forall k :: 0 <= k < |p.text| ==> IsSpace(p.text[k])) && (tail != "" ==> !IsSpace(tail[0]))
    requires p.Token? ==> WellFormed(p.text) && (IsWord(p.text) && tail != "" ==> EndsWord(tail[0]))
    ensures Text(p) + tail != "" && Next(Text(p) + tail) == Ok(p)
  {
    match p
    case Semicolon =>
    case Space(w) => NextOfSpace(w, tail);
    case Token(t) =>
      if IsQuote(t[0]) {
        NextOfQuoted(t, tail);
      } else if IsBracket(t[0]) {
        NextOfBracketed(t, tail);
      } else {
        NextOfWord(t, tail);
      }
  }

  lemma NextOfSpace(w: string, tail: string)
    requires w != "" && (forall k :: 0 <= k < |w| ==> IsSpace(w[k])) && (tail != "" ==> !IsSpace(tail[0]))
    ensures Next(w + tail) == Ok(Space(w))
  {
    SpanOf(w, tail);
    assert IsSpace(w[0]) && !IsQuote(w[0]) && !IsBracket(w[0]);
    hide Spaces, IsSpace;
    assert (w + tail)[..|w|] == w && (w + tail)[0] == w[0];
  }

  lemma NextOfWord(t: string, tail: string)
    requires IsWord(t) && (tail != "" ==> EndsWord(tail[0]))
    ensures Next(t + tail) == Ok(Token(t))
  {
    SpanOf(t, tail);
    hide Word, Spaces, IsSpace;
    assert (t + tail)[..|t|] == t && (t + tail)[0] == t[0];
  }

  lemma NextOfQuoted(t: string, tail: string)
    requires WellFormed(t) && IsQuote(t[0])
    ensures Next(t + tail) == Ok(Token(t))
  {
    var rest, body := t + tail, t[1..|t| - 1];
    assert !IsBracket(t[0]);
    assert rest[0] == t[0] && rest[..|t|] == t;
    assert rest[1..] == body + [t[0]] + tail;
    QuotedOf(body, t[0], tail);
  }

  lemma NextOfBracketed(t: string, tail: string)
    requires WellFormed(t) && IsBracket(t[0])
    ensures Next(t + tail) == Ok(Token(t))
  {
    var rest := t + tail;
    assert !IsQuote(t[0]);
    assert rest[0] == t[0] && rest[..|t|] == t;
    var k := Find(rest, Closer(t[0]), 1);
    assert rest[|t| - 1] == Closer(t[0]);
    forall j | 1 <= j < |t| - 1 ensures rest[j] != Closer(t[0]) {
      assert t[1..|t| - 1][j - 1] == rest[j];
    }
  }

  lemma SpanOf(t: string, tail: string)
    ensures (forall k :: 0 <= k < |t| ==> IsSpace(t[k])) && (tail != "" ==> !IsSpace(tail[0])) ==>
      Spaces(t + tail) == |t|
    ensures (forall k :: 0 <= k < |t| ==> !EndsWord(t[k])) && (tail != "" ==> EndsWord(tail[0])) ==>
      Word(t + tail) == |t|
  {
    var s := t + tail;
    var n, m := Spaces(s), Word(s);
    assert forall k :: 0 <= k < |t| ==> s[k] == t[k];
    assert tail != "" ==> s[|t|] == tail[0];
    assert n < |s| ==> !IsSpace(s[n]);
    assert m < |s| ==> EndsWord(s[m]);
  }

  lemma {:induction false} QuotedOf(body: string, q: char, tail: string)
    requires Escaped(body, q) && IsQuote(q)
    ensures Quoted(body + [q] + tail, q) == Some(|body| + 1)
    decreases |body|
  {
    var s := body + [q] + tail;
    if body != "" {
      assert s[0] == body[0];
      assert s[1..] == body[1..] + [q] + tail;
      if body[0] == '\\' {
        assert s[1] == body[1];
        if body[1] == '\\' || body[1] == q {
          assert s[2..] == body[2..] + [q] + tail;
          QuotedOf(body[2..], q, tail);
        } else {
          QuotedOf(body[1..], q, tail);
        }
      } else {
        QuotedOf(body[1..], q, tail);
      }
    }
  }

  /** The pieces of one command, its tokens separated by `sep`. */
  ghost function CommandPieces(tokens: seq<string>, sep: string): seq<Piece> {
    if tokens == [] then []
    else if |tokens| == 1 then [Token(tokens[0])]
    else [Token(tokens[0]), Space(sep)] + CommandPieces(tokens[1..], sep)
  }

  ghost function Pieces(commands: seq<seq<string>>, sep: string): seq<Piece>
    requires commands != []
  {
    if |commands| == 1 then CommandPieces(commands[0], sep)
    else CommandPieces(commands[0], sep) + [Semicolon] + Pieces(commands[1..], sep)
  }

  /** The line that prints a list of commands. */
  ghost function Print(commands: seq<seq<string>>, sep: string): string
    requires commands != []
  {
    Flatten(Pieces(commands, sep))
  }

  /** White space that also ends a bare word. */
  ghost predicate Separator(sep: string) {
    sep != "" && EndsWord(sep[0]) && forall k :: 0 <= k < |sep| ==> IsSpace(sep[k])
  }

  ghost predicate AllWellFormed(tokens: seq<string>) {
    forall k :: 0 <= k < |tokens| ==> WellFormed(tokens[k])
  }

  /** Printing a list of commands of well-formed tokens and tokenizing the line
      gives the same list; commands may be empty. */
  lemma TokenizeOfPrint(commands: seq<seq<string>>, sep: string)
    requires commands != [] && Separator(sep)
    requires forall k :: 0 <= k < |commands| ==> AllWellFormed(commands[k])
    ensures Collected([[]], Print(commands, sep)) == Ok(commands)
  {
    hide Separate, Separator, AllWellFormed, Pieces, AddAll, Scan, Flatten;
    PiecesSeparate(commands, sep);
    ScanOfFlatten(Pieces(commands, sep));
    var none: seq<string> := [];
    var empty: seq<seq<string>> := [];
    assert empty + [none] == [[]];
    AddPieces(empty, none, commands, sep);
    assert none + commands[0] == commands[0];
    assert empty + [commands[0]] + commands[1..] == commands;
  }

  lemma {:induction false} AddPieces
    (before: seq<seq<string>>, open: seq<string>, commands: seq<seq<string>>, sep: string)
    requires commands != []
    ensures AddAll(before + [open], Pieces(commands, sep)) == before + [open + commands[0]] + commands[1..]
    decreases |commands|
  {
    var first := CommandPieces(commands[0], sep);
    AddCommand(before, open, commands[0], sep);
    if |commands| == 1 {
      assert before + [open + commands[0]] + commands[1..] == before + [open + commands[0]];
    } else {
      var done := before + [open + commands[0]];
      var later := Pieces(commands[1..], sep);
      assert first + [Semicolon] + later == first + ([Semicolon] + later);
      AddAppend(before + [open], first, [Semicolon] + later);
      assert ([Semicolon] + later)[1..] == later;
      AddPieces(done, [], commands[1..], sep);
      assert [] + commands[1..][0] == commands[1];
      assert done + [commands[1]] + commands[1..][1..] == done + commands[1..];
    }
  }

  lemma {:induction false} AddCommand(before: seq<seq<string>>, open: seq<string>, tokens: seq<string>, sep: string)
    ensures AddAll(before + [open], CommandPieces(tokens, sep)) == before + [open + tokens]
    decreases |tokens|
  {
    if tokens == [] {
      assert open + tokens == open;
    } else {
      var all := before + [open];
      assert all[..|all| - 1] == before;
      var ps := CommandPieces(tokens, sep);
      var next := before + [open + [tokens[0]]];
      assert Add(all, ps[0]) == next;
      if |tokens| == 1 {
        assert ps[1..] == [];
        assert tokens == [tokens[0]];
      } else {
        assert ps[1..] == [Space(sep)] + CommandPieces(tokens[1..], sep);
        assert ps[1..][1..] == CommandPieces(tokens[1..], sep);
        AddCommand(before, open + [tokens[0]], tokens[1..], sep);
        assert open + [tokens[0]] + tokens[1..] == open + tokens;
      }
    }
  }

  lemma {:induction false} AddAppend(commands: seq<seq<string>>, a: seq<Piece>, b: seq<Piece>)
    requires commands != []
    ensures AddAll(commands, a + b) == AddAll(AddAll(commands, a), b)
    decreases |a|
  {
    if a == [] {
      assert a + b == b;
    } else {
      assert (a + b)[1..] == a[1..] + b;
      AddAppend(Add(commands, a[0]), a[1..], b);
    }
  }

  lemma {:induction false} PiecesSeparate(commands: seq<seq<string>>, sep: string)
    requires commands != [] && Separator(sep)
    requires forall k :: 0 <= k < |commands| ==> AllWellFormed(commands[k])
    ensures Separate(Pieces(commands, sep))
    decreases |commands|
  {
    if |commands| == 1 {
      hide Separate, Separator, CommandPieces;
      assert Separate([]) by {
        SeparateNothing();
      }
      CommandSeparate(commands[0], sep, []);
      assert CommandPieces(commands[0], sep) + [] == CommandPieces(commands[0], sep);
    } else {
      hide Separator, CommandPieces;
      PiecesSeparate(commands[1..], sep);
      var later := [Semicolon] + Pieces(commands[1..], sep);
      assert later[1..] == Pieces(commands[1..], sep);
      assert Separate(later);
      hide Separate;
      CommandSeparate(commands[0], sep, later);
      assert CommandPieces(commands[0], sep) + later == Pieces(commands, sep);
    }
  }

  lemma SeparateNothing()
    ensures Separate([])
  {
  }

  lemma {:induction false} CommandSeparate(tokens: seq<string>, sep: string, later: seq<Piece>)
    requires Separator(sep) && AllWellFormed(tokens) && Separate(later)
    requires later == [] || later[0] == Semicolon
    ensures Separate(CommandPieces(tokens, sep) + later)
    decreases |tokens|
  {
    if tokens == [] {
      assert CommandPieces(tokens, sep) + later == later;
    } else {
      var rest := CommandPieces(tokens[1..], sep) + later;
      CommandSeparate(tokens[1..], sep, later);
      if |tokens| == 1 {
        assert CommandPieces(tokens[1..], sep) == [];
        assert rest == later;
        assert CommandPieces(tokens, sep) + later == [Token(tokens[0])] + later;
        hide CommandPieces, Separator;
        TokenThenEnd(tokens[0], later);
      } else {
        assert rest[0] == Token(tokens[1]);
        assert CommandPieces(tokens, sep) + later == [Token(tokens[0]), Space(sep)] + rest;
        hide CommandPieces, Separate, Separator, WellFormed;
        TokenThenSpace(tokens[0], sep, rest);
      }
    }
  }

  lemma TokenThenEnd(t: string, later: seq<Piece>)
    requires WellFormed(t) && Separate(later)
    requires later == [] || later[0] == Semicolon
    ensures Separate([Token(t)] + later)
  {
    hide WellFormed, IsWord;
    var all := [Token(t)] + later;
    assert all[1..] == later;
  }

  lemma SpaceThenToken(sep: string, rest: seq<Piece>)
    requires Separator(sep) && Separate(rest)
    requires rest != [] && rest[0].Token?
    ensures Separate([Space(sep)] + rest) && Flatten([Space(sep)] + rest) == sep + Flatten(rest)
  {
    assert ([Space(sep)] + rest)[1..] == rest;
    assert WellFormed(rest[0].text);
    assert Flatten(rest)[0] == rest[0].text[0];
  }

  lemma TokenThenSpace(t: string, sep: string, rest: seq<Piece>)
    requires WellFormed(t) && Separator(sep) && Separate(rest)
    requires rest != [] && rest[0].Token?
    ensures Separate([Token(t), Space(sep)] + rest)
  {
    hide WellFormed, IsWord, Flatten, IsSpace, EndsWord;
    var spaced := [Space(sep)] + rest;
    SpaceThenToken(sep, rest);
    assert [Token(t)] + spaced == [Token(t), Space(sep)] + rest;
    assert EndsWord(Flatten(spaced)[0]);
    TokenThenBlank(t, spaced);
  }

  lemma TokenThenBlank(t: string, later: seq<Piece>)
    requires WellFormed(t) && Separate(later)
    requires Flatten(later) != "" && EndsWord(Flatten(later)[0])
    ensures Separate([Token(t)] + later)
  {
    hide WellFormed, IsWord, EndsWord, Flatten;
    assert ([Token(t)] + later)[1..] == later;
  }
}
