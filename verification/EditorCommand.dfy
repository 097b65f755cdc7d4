/**
 How `$EDITOR` is split into arguments: apps/cli/src/editor-command.ts. The loop is a state machine over
 characters; what it accepts is given again as a grammar of tokens, and the two are proved to agree.
 */
module EditorCommand {
  import opened Wrappers
  import opened JsString

  datatype State = State(args: seq<string>, current: string, quote: Option<char>, escaping: bool)

  const START := State([], [], None, false)

  /** One turn of the loop. */
  function Step(s: State, c: char): State {
    if s.escaping then s.(current := s.current + [c], escaping := false)
    else if c == '\\' && s.quote != Some('\'') then s.(escaping := true)
    else if s.quote.Some? then
      if Some(c) == s.quote then s.(quote := None) else s.(current := s.current + [c])
    else if c == '"' || c == '\'' then s.(quote := Some(c))
    else if IsSpace(c) then
      if |s.current| > 0 then s.(args := s.args + [s.current], current := []) else s
    else s.(current := s.current + [c])
  }

  function Steps(s: State, input: string): State
    decreases |input|
  {
    if input == [] then s else Steps(Step(s, input[0]), input[1..])
  }

  datatype ParseError = UnterminatedQuote

  /** What follows the loop. */
  function Finish(s: State): Result<seq<string>, ParseError> {
    var current := if s.escaping then s.current + "\\" else s.current;
    if s.quote.Some? then Err(UnterminatedQuote)
    else
      var args := if |current| > 0 then s.args + [current] else s.args;
      Ok(if |args| > 0 then args else ["vi"])
  }

  function Input(value: Option<string>): string {
    var trimmed := if value.Some? then Trim(value.value) else [];
    if trimmed != [] then trimmed else "vi"
  }

  function Parse(value: Option<string>): Result<seq<string>, ParseError> {
    Finish(Steps(START, Input(value)))
  }

  method ParseEditorCommand(value: Option<string>) returns (r: Result<seq<string>, ParseError>)
    ensures r == Parse(value)
  {
    hide Input, IsSpace;
    var input := Input(value);
    var args: seq<string> := [];
    var current := "";
    var quote: Option<char> := None;
    var escaping := false;
    var i := 0;
    while i < |input|
      invariant 0 <= i <= |input|
      invariant Steps(State(args, current, quote, escaping), input[i..]) == Steps(START, input)
    {
      var c := input[i];
      assert input[i..][1..] == input[i + 1..];
      i := i + 1;
      if escaping {
        current := current + [c];
        escaping := false;
        continue;
      }
      if c == '\\' && quote != Some('\'') {
        escaping := true;
        continue;
      }
      if quote.Some? {
        if Some(c) == quote {
          quote := None;
        } else {
          current := current + [c];
        }
        continue;
      }
      if c == '"' || c == '\'' {
        quote := Some(c);
        continue;
      }
      if IsSpace(c) {
        if |current| > 0 {
          args := args + [current];
          current := "";
        }
        continue;
      }
      current := current + [c];
    }
    if escaping {
      current := current + "\\";
    }
    if quote.Some? {
      return Err(UnterminatedQuote);
    }
    if |current| > 0 {
      args := args + [current];
    }
    r := Ok(if |args| > 0 then args else ["vi"]);
  }

  // ---------------------------------------------------------------- the grammar

  /** A character between double quotes, as itself or after a backslash. */
  datatype Part = Literal(c: char) | Backslashed(c: char)

  datatype Token =
    | Space(c: char)
    | Bare(c: char)
    | Escaped(c: char)
    | Single(text: string)
    | Double(parts: seq<Part>)

  /** How a command may end: cleanly, with a lone backslash, or inside a quote. */
  datatype Ending = Clean | LoneBackslash | InSingle(text: string) | InDouble(parts: seq<Part>, backslash: bool)

  predicate PartOk(p: Part) {
    p.Literal? ==> p.c != '"' && p.c != '\\'
  }

  predicate TokenOk(t: Token) {
    match t
    case Space(c) => IsSpace(c) && c != '"' && c != '\'' && c != '\\'
    case Bare(c) => !IsSpace(c) && c != '"' && c != '\'' && c != '\\'
    case Escaped(_) => true
    case Single(text) => '\'' !in text
    case Double(parts) => forall p :: p in parts ==> PartOk(p)
  }

  predicate EndingOk(e: Ending) {
    match e
    case Clean => true
    case LoneBackslash => true
    case InSingle(text) => '\'' !in text
    case InDouble(parts, _) => forall p :: p in parts ==> PartOk(p)
  }

  function PartText(p: Part): string {
    if p.Literal? then [p.c] else ['\\', p.c]
  }

  function PartsText(parts: seq<Part>): string {
    if parts == [] then [] else PartText(parts[0]) + PartsText(parts[1..])
  }

  function PartsValue(parts: seq<Part>): (r: string)
    ensures |r| == |parts|
    ensures forall i :: 0 <= i < |parts| ==> r[i] == parts[i].c
  {
    seq(|parts|, i requires 0 <= i < |parts| => parts[i].c)
  }

  function TokenText(t: Token): string {
    match t
    case Space(c) => [c]
    case Bare(c) => [c]
    case Escaped(c) => ['\\', c]
    case Single(text) => "'" + text + "'"
    case Double(parts) => "\"" + PartsText(parts) + "\""
  }

  function TokensText(tokens: seq<Token>): string {
    if tokens == [] then [] else TokenText(tokens[0]) + TokensText(tokens[1..])
  }

  function EndingText(e: Ending): string {
    match e
    case Clean => []
    case LoneBackslash => "\\"
    case InSingle(text) => "'" + text
    case InDouble(parts, backslash) => "\"" + PartsText(parts) + if backslash then "\\" else []
  }

  function TokenValue(t: Token): string {
    match t
    case Space(_) => []
    case Bare(c) => [c]
    case Escaped(c) => [c]
    case Single(text) => text
    case Double(parts) => PartsValue(parts)
  }

  /** The words that the tokens spell: spaces separate them, all else adds to the word, empty words vanish. */
  function Words(done: seq<string>, word: string, tokens: seq<Token>): (seq<string>, string)
    decreases |tokens|
  {
    if tokens == [] then (done, word)
    else if tokens[0].Space? then Words(if word == [] then done else done + [word], [], tokens[1..])
    else Words(done, word + TokenValue(tokens[0]), tokens[1..])
  }

  function NonEmpty(done: seq<string>, word: string): seq<string> {
    if word == [] then done else done + [word]
  }

  function OrVi(args: seq<string>): seq<string> {
    if args == [] then ["vi"] else args
  }

  // ---------------------------------------------------------------- the machine follows the grammar

  lemma {:induction false} StepsConcat(s: State, a: string, b: string)
    ensures Steps(s, a + b) == Steps(Steps(s, a), b)
    decreases |a|
  {
    hide Step;
    if a == [] {
      assert a + b == b;
    } else {
      assert (a + b)[1..] == a[1..] + b;
      StepsConcat(Step(s, a[0]), a[1..], b);
    }
  }

  lemma OneStep(s: State, c: char)
    ensures Steps(s, [c]) == Step(s, c)
  {
    assert Steps(Step(s, c), []) == Step(s, c);
  }

  lemma TwoSteps(s: State, c: char, d: char)
    ensures Steps(s, [c, d]) == Step(Step(s, c), d)
  {
    hide Step;
    assert [c, d][1..] == [d];
    OneStep(Step(s, c), d);
  }

  lemma {:induction false} InsideSingle(s: State, text: string)
    requires s.quote == Some('\'') && !s.escaping && '\'' !in text
    ensures Steps(s, text) == s.(current := s.current + text)
    decreases |text|
  {
    if text == [] {
      assert s.current + [] == s.current;
    } else {
      InsideSingle(Step(s, text[0]), text[1..]);
      assert (s.current + [text[0]]) + text[1..] == s.current + text;
    }
  }

  lemma {:induction false} InsideDouble(s: State, parts: seq<Part>)
    requires s.quote == Some('"') && !s.escaping && forall p :: p in parts ==> PartOk(p)
    ensures Steps(s, PartsText(parts)) == s.(current := s.current + PartsValue(parts))
    decreases |parts|
  {
    hide PartsValue;
    if parts == [] {
      assert s.current + PartsValue([]) == s.current;
    } else {
      var p := parts[0];
      assert PartOk(p);
      InsideDoublePart(s, p);
      StepsConcat(s, PartText(p), PartsText(parts[1..]));
      InsideDouble(s.(current := s.current + [p.c]), parts[1..]);
      assert (s.current + [p.c]) + PartsValue(parts[1..]) == s.current + PartsValue(parts);
    }
  }

  lemma InsideDoublePart(s: State, p: Part)
    requires s.quote == Some('"') && !s.escaping && PartOk(p)
    ensures Steps(s, PartText(p)) == s.(current := s.current + [p.c])
  {
    if p.Literal? {
      OneStep(s, p.c);
    } else {
      TwoSteps(s, '\\', p.c);
    }
  }

  function AfterToken(s: State, t: Token): State {
    if t.Space? then s.(args := NonEmpty(s.args, s.current), current := [])
    else s.(current := s.current + TokenValue(t))
  }

  lemma TokenIsRead(s: State, t: Token)
    requires s.quote.None? && !s.escaping && TokenOk(t)
    ensures Steps(s, TokenText(t)) == AfterToken(s, t)
  {
    hide Steps, PartsText, PartsValue, IsSpace;
    match t
    case Space(c) => OneStep(s, c);
    case Bare(c) => OneStep(s, c);
    case Escaped(c) => TwoSteps(s, '\\', c);
    case Single(text) =>
      var inside := s.(quote := Some('\''));
      OneStep(s, '\'');
      StepsConcat(s, "'", text + "'");
      StepsConcat(inside, text, "'");
      InsideSingle(inside, text);
      OneStep(inside.(current := s.current + text), '\'');
      assert "'" + (text + "'") == TokenText(t);
    case Double(parts) =>
      var inside, text := s.(quote := Some('"')), PartsText(parts);
      OneStep(s, '"');
      StepsConcat(s, "\"", text + "\"");
      StepsConcat(inside, text, "\"");
      InsideDouble(inside, parts);
      OneStep(inside.(current := s.current + PartsValue(parts)), '"');
      assert "\"" + (text + "\"") == TokenText(t);
  }

  lemma {:induction false} TokensAreRead(s: State, tokens: seq<Token>)
    requires s.quote.None? && !s.escaping && forall t :: t in tokens ==> TokenOk(t)
    ensures Steps(s, TokensText(tokens))
         == State(Words(s.args, s.current, tokens).0, Words(s.args, s.current, tokens).1, None, false)
    decreases |tokens|
  {
    hide TokenOk, TokenText, TokenValue;
    if tokens != [] {
      TokenIsRead(s, tokens[0]);
      StepsConcat(s, TokenText(tokens[0]), TokensText(tokens[1..]));
      TokensAreRead(AfterToken(s, tokens[0]), tokens[1..]);
    }
  }

  /** What a command spells: its words, a lone backslash at the end standing for itself. */
  function Spelled(tokens: seq<Token>, e: Ending): Result<seq<string>, ParseError> {
    var w := Words([], [], tokens);
    match e
    case Clean => Ok(OrVi(NonEmpty(w.0, w.1)))
    case LoneBackslash => Ok(w.0 + [w.1 + "\\"])
    case _ => Err(UnterminatedQuote)
  }

  lemma EndingIsRead(s: State, e: Ending)
    requires s.quote.None? && !s.escaping && EndingOk(e)
    ensures var t := Steps(s, EndingText(e));
            (match e
             case Clean => t == s
             case LoneBackslash => t == s.(escaping := true)
             case _ => t.quote.Some?)
  {
    hide PartsText, PartsValue;
    match e
    case Clean =>
    case LoneBackslash => OneStep(s, '\\');
    case InSingle(text) =>
      OneStep(s, '\'');
      StepsConcat(s, "'", text);
      InsideSingle(s.(quote := Some('\'')), text);
    case InDouble(parts, backslash) =>
      var inside := s.(quote := Some('"'));
      var after := inside.(current := s.current + PartsValue(parts));
      OneStep(s, '"');
      StepsConcat(s, "\"", PartsText(parts));
      InsideDouble(inside, parts);
      if backslash {
        StepsConcat(s, "\"" + PartsText(parts), "\\");
        OneStep(after, '\\');
      } else {
        assert "\"" + PartsText(parts) + [] == "\"" + PartsText(parts);
      }
  }

  /** The machine reads every command of the grammar as what it spells. */
  lemma CommandIsRead(tokens: seq<Token>, e: Ending)
    requires EndingOk(e) && forall t :: t in tokens ==> TokenOk(t)
    ensures Finish(Steps(START, TokensText(tokens) + EndingText(e))) == Spelled(tokens, e)
  {
    hide Steps, Words, TokenOk, TokensText, EndingText, EndingOk;
    StepsConcat(START, TokensText(tokens), EndingText(e));
    TokensAreRead(START, tokens);
    EndingIsRead(Steps(START, TokensText(tokens)), e);
  }

  // ---------------------------------------------------------------- the grammar has every input

  lemma {:induction false} TokensTextSnoc(tokens: seq<Token>, t: Token)
    ensures TokensText(tokens + [t]) == TokensText(tokens) + TokenText(t)
    decreases |tokens|
  {
    hide TokenText;
    if tokens == [] {
      assert [t][1..] == [];
      assert TokenText(t) + [] == TokenText(t);
      assert [] + [t] == [t];
    } else {
      assert (tokens + [t])[1..] == tokens[1..] + [t];
      TokensTextSnoc(tokens[1..], t);
    }
  }

  lemma {:induction false} PartsTextSnoc(parts: seq<Part>, p: Part)
    ensures PartsText(parts + [p]) == PartsText(parts) + PartText(p)
    decreases |parts|
  {
    hide PartText;
    if parts == [] {
      assert [p][1..] == [];
      assert PartText(p) + [] == PartText(p);
      assert [] + [p] == [p];
    } else {
      assert (parts + [p])[1..] == parts[1..] + [p];
      PartsTextSnoc(parts[1..], p);
    }
  }

  ghost predicate Derives(s: string, tokens: seq<Token>, e: Ending) {
    EndingOk(e) && (forall t :: t in tokens ==> TokenOk(t)) && s == TokensText(tokens) + EndingText(e)
  }

  lemma AddToken(s: string, tokens: seq<Token>, t: Token)
    requires (forall u :: u in tokens ==> TokenOk(u)) && TokenOk(t) && s == TokensText(tokens) + TokenText(t)
    ensures Derives(s, tokens + [t], Clean)
  {
    hide TokensText, TokenText, TokenOk;
    TokensTextSnoc(tokens, t);
    assert s + [] == s;
  }

  /** One character more: the token it belongs to grows or ends. */
  lemma DeriveStep(s: string, c: char, tokens: seq<Token>, e: Ending) returns (tokens': seq<Token>, e': Ending)
    requires Derives(s, tokens, e)
    ensures Derives(s + [c], tokens', e')
  {
    hide TokensText, PartsText, IsSpace;
    tokens', e' := tokens, e;
    var front := TokensText(tokens);
    match e
    case Clean =>
      assert s == front;
      if c == '\\' {
        e' := LoneBackslash;
      } else if c == '\'' {
        e' := InSingle([]);
        assert "'" + [] == "'";
      } else if c == '"' {
        e' := InDouble([], false);
        EmptyDouble();
      } else {
        var t := if IsSpace(c) then Space(c) else Bare(c);
        AddToken(s + [c], tokens, t);
        tokens', e' := tokens + [t], Clean;
      }
    case LoneBackslash =>
      assert s + [c] == front + ['\\', c];
      AddToken(s + [c], tokens, Escaped(c));
      tokens', e' := tokens + [Escaped(c)], Clean;
    case InSingle(text) =>
      if c == '\'' {
        assert s + [c] == front + ("'" + text + "'");
        AddToken(s + [c], tokens, Single(text));
        tokens', e' := tokens + [Single(text)], Clean;
      } else {
        e' := InSingle(text + [c]);
        assert s + [c] == front + ("'" + (text + [c]));
      }
    case InDouble(parts, backslash) =>
      var p := if backslash then Backslashed(c) else Literal(c);
      PartsTextSnoc(parts, p);
      if !backslash && c == '"' {
        assert s + [c] == front + ("\"" + PartsText(parts) + "\"");
        AddToken(s + [c], tokens, Double(parts));
        tokens', e' := tokens + [Double(parts)], Clean;
      } else if !backslash && c == '\\' {
        e' := InDouble(parts, true);
        assert s + [c] == front + ("\"" + PartsText(parts) + "\\");
      } else {
        e' := InDouble(parts + [p], false);
        assert s + [c] == front + ("\"" + PartsText(parts + [p]) + []);
      }
  }

  lemma EmptyDouble()
    ensures EndingText(InDouble([], false)) == "\""
  {
  }

  lemma {:induction false} EveryInputDerives(s: string) returns (tokens: seq<Token>, e: Ending)
    ensures Derives(s, tokens, e)
    decreases |s|
  {
    hide TokenOk, EndingOk, Derives;
    if s == [] {
      tokens, e := [], Clean;
      NothingDerives();
    } else {
      tokens, e := EveryInputDerives(s[..|s| - 1]);
      tokens, e := DeriveStep(s[..|s| - 1], s[|s| - 1], tokens, e);
      assert s == s[..|s| - 1] + [s[|s| - 1]];
    }
  }

  lemma NothingDerives()
    ensures Derives([], [], Clean)
  {
  }

  // ---------------------------------------------------------------- main results

  /** Every value is parsed as what its tokens spell, and every value has tokens. */
  lemma ParseIsSpelled(value: Option<string>) returns (tokens: seq<Token>, e: Ending)
    ensures Derives(Input(value), tokens, e) && Parse(value) == Spelled(tokens, e)
  {
    hide Input, Spelled, Steps, Finish;
    tokens, e := EveryInputDerives(Input(value));
    CommandIsRead(tokens, e);
  }

  /** The input ends inside a quote that nothing closes. */
  ghost predicate EndsInQuote(s: string) {
    exists tokens, e :: Derives(s, tokens, e) && (e.InSingle? || e.InDouble?)
  }

  /** It throws exactly when the input ends inside an open quote. */
  lemma ThrowsIff(value: Option<string>)
    ensures Parse(value).Err? <==> EndsInQuote(Input(value))
  {
    hide Input, Derives, Words, Steps, Finish;
    var tokens, e := ParseIsSpelled(value);
    forall tokens, e | Derives(Input(value), tokens, e) && (e.InSingle? || e.InDouble?) ensures Parse(value).Err? {
      DerivedIsRead(Input(value), tokens, e);
    }
  }

  lemma DerivedIsRead(s: string, tokens: seq<Token>, e: Ending)
    requires Derives(s, tokens, e)
    ensures Finish(Steps(START, s)) == Spelled(tokens, e)
  {
    CommandIsRead(tokens, e);
  }

  lemma {:induction false} StepsKeepNonEmpty(s: State, input: string)
    requires forall a :: a in s.args ==> a != []
    ensures forall a :: a in Steps(s, input).args ==> a != []
    decreases |input|
  {
    if input != [] {
      StepsKeepNonEmpty(Step(s, input[0]), input[1..]);
    }
  }

  /** Otherwise it returns at least one argument, and no empty one. */
  lemma ArgsAreNonEmpty(value: Option<string>)
    requires Parse(value).Ok?
    ensures Parse(value).value != [] && forall a :: a in Parse(value).value ==> a != []
  {
    hide Input, Step;
    StepsKeepNonEmpty(START, Input(value));
  }

  // ---------------------------------------------------------------- quoting

  /** Backslash before each double quote and backslash. */
  function EscapeAll(arg: string): string {
    if arg == [] then []
    else (if arg[0] == '"' || arg[0] == '\\' then ['\\', arg[0]] else [arg[0]]) + EscapeAll(arg[1..])
  }

  function Quoted(arg: string): string {
    "\"" + EscapeAll(arg) + "\""
  }

  function QuotedAll(args: seq<string>): (r: seq<string>)
    ensures |r| == |args| && forall i :: 0 <= i < |args| ==> r[i] == Quoted(args[i])
  {
    seq(|args|, i requires 0 <= i < |args| => Quoted(args[i]))
  }

  function PartsOf(arg: string): (r: seq<Part>)
    ensures |r| == |arg| && forall p :: p in r ==> PartOk(p)
    ensures forall i :: 0 <= i < |arg| ==> r[i].c == arg[i]
  {
    seq(|arg|, i requires 0 <= i < |arg| =>
      if arg[i] == '"' || arg[i] == '\\' then Backslashed(arg[i]) else Literal(arg[i]))
  }

  lemma {:induction false} EscapeAllIsParts(arg: string)
    ensures EscapeAll(arg) == PartsText(PartsOf(arg))
    decreases |arg|
  {
    if arg != [] {
      EscapeAllIsParts(arg[1..]);
      assert PartsOf(arg)[1..] == PartsOf(arg[1..]);
    }
  }

  function QuotedTokens(args: seq<string>): seq<Token> {
    if args == [] then []
    else if |args| == 1 then [Double(PartsOf(args[0]))]
    else [Double(PartsOf(args[0])), Space(' ')] + QuotedTokens(args[1..])
  }

  function DropEmpty(args: seq<string>): seq<string> {
    if args == [] then [] else (if args[0] == [] then [] else [args[0]]) + DropEmpty(args[1..])
  }

  lemma {:induction false} QuotedTokensAreOk(args: seq<string>)
    ensures forall t :: t in QuotedTokens(args) ==> TokenOk(t)
  {
    if |args| > 1 {
      QuotedTokensAreOk(args[1..]);
    }
  }

  lemma {:induction false} QuotedTokensText(args: seq<string>)
    ensures TokensText(QuotedTokens(args)) == Join(QuotedAll(args), " ")
  {
    hide EscapeAll, PartsText;
    if args != [] {
      var d := Double(PartsOf(args[0]));
      EscapeAllIsParts(args[0]);
      assert TokenText(d) == Quoted(args[0]);
      if |args| == 1 {
        assert [d][1..] == [];
        assert TokensText([d]) == TokenText(d) + TokensText([]);
      } else {
        var rest := QuotedTokens(args[1..]);
        QuotedTokensText(args[1..]);
        assert QuotedAll(args)[1..] == QuotedAll(args[1..]);
        assert ([d, Space(' ')] + rest)[1..] == [Space(' ')] + rest;
        assert ([Space(' ')] + rest)[1..] == rest;
        assert TokensText([Space(' ')] + rest) == " " + TokensText(rest);
        assert Quoted(args[0]) + (" " + TokensText(rest)) == Quoted(args[0]) + " " + TokensText(rest);
      }
    }
  }

  lemma WordsOfDouble(done: seq<string>, arg: string, rest: seq<Token>)
    ensures Words(done, [], [Double(PartsOf(arg))] + rest) == Words(done, arg, rest)
  {
    hide PartsOf, PartsValue;
    var tokens := [Double(PartsOf(arg))] + rest;
    PartsOfValue(arg);
    assert tokens[1..] == rest && [] + arg == arg;
  }

  lemma WordsOfSpace(done: seq<string>, word: string, rest: seq<Token>)
    ensures Words(done, word, [Space(' ')] + rest) == Words(NonEmpty(done, word), [], rest)
  {
    assert ([Space(' ')] + rest)[1..] == rest;
  }

  lemma {:induction false} QuotedTokensSpell(done: seq<string>, args: seq<string>)
    ensures var w := Words(done, [], QuotedTokens(args)); NonEmpty(w.0, w.1) == done + DropEmpty(args)
    decreases |args|
  {
    hide PartsOf, Words;
    if args == [] {
      NoWords(done, []);
    } else if |args| == 1 {
      WordsOfDouble(done, args[0], []);
      NoWords(done, args[0]);
      assert [Double(PartsOf(args[0]))] + [] == [Double(PartsOf(args[0]))];
      assert DropEmpty(args[1..]) == [];
    } else {
      var rest := QuotedTokens(args[1..]);
      assert [Double(PartsOf(args[0])), Space(' ')] + rest == [Double(PartsOf(args[0]))] + ([Space(' ')] + rest);
      WordsOfDouble(done, args[0], [Space(' ')] + rest);
      WordsOfSpace(done, args[0], rest);
      QuotedTokensSpell(NonEmpty(done, args[0]), args[1..]);
      assert NonEmpty(done, args[0]) + DropEmpty(args[1..]) == done + DropEmpty(args);
    }
  }

  lemma NoWords(done: seq<string>, word: string)
    ensures Words(done, word, []) == (done, word) && done + [] == done
  {
  }

  lemma PartsOfValue(arg: string)
    ensures PartsValue(PartsOf(arg)) == arg
  {
  }

  lemma {:induction false} JoinEnds(parts: seq<string>, sep: string)
    requires parts != [] && forall p :: p in parts ==> p != [] && p[0] == '"' && p[|p| - 1] == '"'
    ensures var s := Join(parts, sep); s != [] && s[0] == '"' && s[|s| - 1] == '"'
  {
    assert parts[0] in parts;
    if |parts| > 1 {
      JoinEnds(parts[1..], sep);
      assert Join(parts, sep) == parts[0] + sep + Join(parts[1..], sep);
    }
  }

  /** Parsing undoes quoting, whatever the arguments contain; only empty arguments are lost. */
  lemma ParseUndoesQuoting(args: seq<string>)
    ensures Parse(Some(Join(QuotedAll(args), " "))) == Ok(OrVi(DropEmpty(args)))
  {
    hide Join, Steps, Finish, Words, TokensText, EscapeAll, DropEmpty;
    if args == [] {
      assert QuotedAll([]) == [];
      EmptyCommand();
    } else {
      var s := Join(QuotedAll(args), " ");
      JoinEnds(QuotedAll(args), " ");
      TrimKeepsSolidEnds(s);
      QuotedTokensAreOk(args);
      QuotedTokensText(args);
      CommandIsRead(QuotedTokens(args), Clean);
      assert s + [] == s;
      QuotedTokensSpell([], args);
      assert [] + DropEmpty(args) == DropEmpty(args);
    }
  }

  lemma EmptyCommand()
    ensures Parse(Some(Join([], " "))) == Ok(["vi"]) && DropEmpty([]) == []
  {
    hide Steps, Words;
    var tokens := [Bare('v'), Bare('i')];
    assert TokensText(tokens) == "vi" by {
      assert tokens[1..] == [Bare('i')] && tokens[1..][1..] == [];
      assert TokensText([Bare('i')]) == "i" + TokensText([]);
    }
    CommandIsRead(tokens, Clean);
    assert "vi" + [] == "vi";
    ViWords();
    assert Trim(Join([], " ")) == [];
    assert Input(Some(Join([], " "))) == "vi";
    assert NonEmpty([], "vi") == ["vi"];
  }

  /** No value, or one of spaces only: the fallback editor. */
  lemma NoEditorIsVi(value: Option<string>)
    requires value.None? || forall c :: c in value.value ==> IsSpace(c)
    ensures Parse(value) == Ok(["vi"])
  {
    hide Steps, Finish;
    EmptyCommand();
    if value.Some? {
      TrimmedToNothingIff(value.value);
    }
    assert Trim(Join([], " ")) == [];
  }

  /** Spaces around a command that neither starts nor ends with one do not matter. */
  lemma SpacesAroundAreDropped(before: string, command: string, after: string)
    requires command != "" && !IsSpace(command[0]) && !IsSpace(command[|command| - 1])
    requires (forall c :: c in before ==> IsSpace(c)) && forall c :: c in after ==> IsSpace(c)
    ensures Input(Some(before + command + after)) == command
    ensures Parse(Some(before + command + after)) == Parse(Some(command))
  {
    hide Steps, Finish, Trim;
    TrimDropsSpaces(before, command, after);
    TrimKeepsSolidEnds(command);
  }

  lemma ViWords()
    ensures Words([], [], [Bare('v'), Bare('i')]) == ([], "vi")
  {
    var tokens := [Bare('v'), Bare('i')];
    assert tokens[1..] == [Bare('i')] && [Bare('i')][1..] == [];
    assert [] + TokenValue(tokens[0]) == "v" && "v" + TokenValue(tokens[1]) == "vi";
    assert Words([], "v", [Bare('i')]) == Words([], "vi", []);
  }

  lemma {:induction false} NothingToDrop(args: seq<string>)
    requires forall a :: a in args ==> a != []
    ensures DropEmpty(args) == args
  {
    if args != [] {
      assert args[0] in args;
      forall a | a in args[1..] ensures a != [] {
        assert a in args;
      }
      NothingToDrop(args[1..]);
    }
  }

  /** So a list of arguments comes back unchanged exactly when there is one and none is empty. */
  lemma QuotingRoundTripsIff(args: seq<string>)
    ensures Parse(Some(Join(QuotedAll(args), " "))) == Ok(args) <==> args != [] && forall a :: a in args ==> a != []
  {
    hide DropEmpty, Parse, Join;
    ParseUndoesQuoting(args);
    if forall a :: a in args ==> a != [] {
      NothingToDrop(args);
    } else {
      DropEmptyHasNone(args);
    }
  }

  lemma {:induction false} DropEmptyHasNone(args: seq<string>)
    ensures forall a :: a in DropEmpty(args) ==> a != []
  {
    if args != [] {
      DropEmptyHasNone(args[1..]);
    }
  }
}
