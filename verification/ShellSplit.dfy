/** Splitting a command line into arguments, with quotes and escapes (extensions/tlon/index.ts). */
module ShellSplit {
  import opened Text

  datatype State = State(args: seq<string>, cur: string, inDouble: bool, inSingle: bool, escape: bool)

  function Start(): State { State([], "", false, false, false) }

  function Push(s: State): seq<string> { if s.cur != "" then s.args + [s.cur] else s.args }

  function Next(s: State, ch: char): State {
    if s.escape then State(s.args, s.cur + [ch], s.inDouble, s.inSingle, false)
    else if ch == '\\' && !s.inSingle then State(s.args, s.cur, s.inDouble, s.inSingle, true)
    else if ch == '"' && !s.inSingle then State(s.args, s.cur, !s.inDouble, s.inSingle, false)
    else if ch == '\'' && !s.inDouble then State(s.args, s.cur, s.inDouble, !s.inSingle, false)
    else if IsJsSpace(ch) && !s.inDouble && !s.inSingle then State(Push(s), "", s.inDouble, s.inSingle, false)
    else State(s.args, s.cur + [ch], s.inDouble, s.inSingle, false)
  }

  function Run(s: State, text: string): State {
    if text == "" then s else Next(Run(s, text[..|text| - 1]), text[|text| - 1])
  }

  function Split(text: string): seq<string> { Push(Run(Start(), text)) }

  method ShellSplit(str: string) returns (args: seq<string>)
    ensures args == Split(str)
  {
    args := [];
    var cur := "";
    var inDouble, inSingle, escape := false, false, false;
    for i := 0 to |str|
      invariant State(args, cur, inDouble, inSingle, escape) == Run(Start(), str[..i])
    {
      var ch := str[i];
      assert str[..i + 1][..i] == str[..i];
      if escape {
        cur := cur + [ch];
        escape := false;
      } else if ch == '\\' && !inSingle {
        escape := true;
      } else if ch == '"' && !inSingle {
        inDouble := !inDouble;
      } else if ch == '\'' && !inDouble {
        inSingle := !inSingle;
      } else if IsJsSpace(ch) && !inDouble && !inSingle {
        if cur != "" {
          args := args + [cur];
          cur := "";
        }
      } else {
        cur := cur + [ch];
      }
    }
    assert str[..|str|] == str;
    if cur != "" {
      args := args + [cur];
    }
  }

  // ---------------------------------------------------------------- arguments

  predicate NoneEmpty(args: seq<string>) { forall i :: 0 <= i < |args| ==> args[i] != "" }

  /** No argument is ever empty. */
  lemma {:induction false} NoEmptyArgument(text: string)
    ensures NoneEmpty(Run(Start(), text).args) && NoneEmpty(Split(text))
  {
    if text != "" { NoEmptyArgument(text[..|text| - 1]); }
  }

  lemma {:induction false} RunConcat(s: State, a: string, b: string)
    ensures Run(s, a + b) == Run(Run(s, a), b)
  {
    if b == "" {
      assert a + b == a;
    } else {
      RunConcat(s, a, b[..|b| - 1]);
      assert (a + b)[..|a + b| - 1] == a + b[..|b| - 1];
    }
  }

  /** The state with more arguments in front. */
  function After(args: seq<string>, s: State): State { State(args + s.args, s.cur, s.inDouble, s.inSingle, s.escape) }

  lemma {:induction false} RunAfter(args: seq<string>, s: State, text: string)
    ensures Run(After(args, s), text) == After(args, Run(s, text))
  {
    if text != "" {
      var init := text[..|text| - 1];
      RunAfter(args, s, init);
      NextAfter(args, Run(s, init), text[|text| - 1]);
    }
  }

  lemma NextAfter(args: seq<string>, s: State, ch: char)
    ensures Next(After(args, s), ch) == After(args, Next(s, ch))
  {
    assert args + (s.args + [s.cur]) == args + s.args + [s.cur];
  }

  /** The text ends outside quotes and not behind a backslash. */
  predicate EndsPlain(text: string) {
    var s := Run(Start(), text);
    !s.inDouble && !s.inSingle && !s.escape
  }

  /** A text that ends plain is split independently of what follows a space. */
  lemma SplitsApart(a: string, b: string)
    requires EndsPlain(a)
    ensures Split(a + " " + b) == Split(a) + Split(b)
  {
    var s := Run(Start(), a);
    RunConcat(Start(), a, " ");
    assert Run(s, " ") == Next(s, ' ');
    assert Next(s, ' ') == After(Push(s), Start());
    RunConcat(Start(), a + " ", b);
    RunAfter(Push(s), Start(), b);
    var t := Run(Start(), b);
    assert Push(s) + (t.args + [t.cur]) == Push(s) + t.args + [t.cur];
  }

  /** A space at the end is dropped exactly when the text ends plain. */
  lemma TrailingSpaceIff(text: string)
    ensures Split(text + " ") == Split(text) <==> EndsPlain(text)
  {
    var s := Run(Start(), text);
    RunConcat(Start(), text, " ");
    assert Run(s, " ") == Next(s, ' ');
    if EndsPlain(text) {
      SplitsApart(text, "");
      assert text + " " + "" == text + " " && Split(text) + [] == Split(text);
    } else {
      var t := Next(s, ' ');
      assert t.cur == s.cur + " ";
      assert Push(t) == s.args + [t.cur];
      if s.cur != "" { assert Push(t)[|s.args|] == t.cur && Push(s)[|s.args|] == s.cur; }
    }
  }

  // ---------------------------------------------------------------- quoting

  /** Every character behind a backslash. */
  function Quoted(arg: string): string {
    if arg == "" then "" else Quoted(arg[..|arg| - 1]) + ['\\', arg[|arg| - 1]]
  }

  function QuotedLine(args: seq<string>): string {
    if args == [] then ""
    else if |args| == 1 then Quoted(args[0])
    else QuotedLine(args[..|args| - 1]) + " " + Quoted(args[|args| - 1])
  }

  lemma RunTwo(s: State, a: char, b: char)
    ensures Run(s, [a, b]) == Next(Next(s, a), b)
  {
    assert [a, b][..1] == [a] && [a][..0] == "";
    assert Run(s, [a]) == Next(s, a);
  }

  lemma {:induction false} RunQuoted(arg: string)
    ensures Run(Start(), Quoted(arg)) == State([], arg, false, false, false)
  {
    if arg != "" {
      var init, c := arg[..|arg| - 1], arg[|arg| - 1];
      RunQuoted(init);
      RunConcat(Start(), Quoted(init), ['\\', c]);
      RunTwo(Run(Start(), Quoted(init)), '\\', c);
      assert arg == init + [c];
    }
  }

  lemma {:induction false} QuotedSplits(args: seq<string>)
    requires NoneEmpty(args)
    ensures Split(QuotedLine(args)) == args && EndsPlain(QuotedLine(args))
  {
    if |args| == 1 {
      RunQuoted(args[0]);
      assert args == [args[0]];
    } else if |args| > 1 {
      var init, last := args[..|args| - 1], args[|args| - 1];
      QuotedSplits(init);
      RunQuoted(last);
      SplitsApart(QuotedLine(init), Quoted(last));
      assert args == init + [last];
      EndsWith(QuotedLine(init), Quoted(last));
    }
  }

  lemma EndsWith(a: string, b: string)
    requires EndsPlain(a) && EndsPlain(b)
    ensures EndsPlain(a + " " + b)
  {
    var s := Run(Start(), a);
    RunConcat(Start(), a, " ");
    assert Run(s, " ") == Next(s, ' ');
    assert Next(s, ' ') == After(Push(s), Start());
    RunConcat(Start(), a + " ", b);
    RunAfter(Push(s), Start(), b);
  }

  /** Quoting every character and joining with spaces is undone exactly when no argument is empty. */
  lemma QuotingRoundTripsIff(args: seq<string>)
    ensures Split(QuotedLine(args)) == args <==> NoneEmpty(args)
  {
    NoEmptyArgument(QuotedLine(args));
    if NoneEmpty(args) { QuotedSplits(args); }
  }

  // ---------------------------------------------------------------- quotes

  /** The character stands for itself: in quotes all but these, and in double quotes all but backslashes. */
  predicate IsLiteral(s: State, c: char) {
    if s.inSingle then c != '\'' else if s.inDouble then c != '"' && c != '\\'
    else c != '\'' && c != '"' && c != '\\' && !IsJsSpace(c)
  }

  /** The state outside quotes in which `cur` has been read of an argument. */
  function Reading(args: seq<string>, cur: string): State { State(args, cur, false, false, false) }

  lemma {:induction false} RunPlain(s: State, text: string)
    requires !s.escape && forall c :: c in text ==> IsLiteral(s, c)
    ensures Run(s, text) == s.(cur := s.cur + text)
  {
    if text == "" {
      assert s.cur + text == s.cur;
    } else {
      var init, last := text[..|text| - 1], text[|text| - 1];
      RunPlain(s, init);
      assert last in text && s.cur + text == s.cur + init + [last];
    }
  }

  /** Outside single quotes a backslash makes the next character stand for itself. */
  lemma {:induction false} RunEscaped(s: State, text: string)
    requires !s.escape && !s.inSingle
    ensures Run(s, Quoted(text)) == s.(cur := s.cur + text)
  {
    if text == "" {
      assert s.cur + text == s.cur;
    } else {
      var init, last := text[..|text| - 1], text[|text| - 1];
      RunEscaped(s, init);
      RunConcat(s, Quoted(init), ['\\', last]);
      RunTwo(Run(s, Quoted(init)), '\\', last);
      assert s.cur + text == s.cur + init + [last];
    }
  }

  /** A piece of an argument: as it is, with every character behind a backslash, or in quotes of either kind. */
  datatype Piece = Bare(text: string) | Escaped(text: string) | Double(text: string) | DoubleEscaped(text: string)
    | Single(text: string)

  function Written(p: Piece): string {
    match p
    case Bare(text) => text
    case Escaped(text) => Quoted(text)
    case Double(text) => ['"'] + text + ['"']
    case DoubleEscaped(text) => ['"'] + Quoted(text) + ['"']
    case Single(text) => ['\''] + text + ['\'']
  }

  /** The piece can be written that way. */
  predicate IsPiece(p: Piece) {
    match p
    case Bare(text) => forall c :: c in text ==> c != '\'' && c != '"' && c != '\\' && !IsJsSpace(c)
    case Escaped(_) => true
    case Double(text) => '"' !in text && '\\' !in text
    case DoubleEscaped(_) => true
    case Single(text) => '\'' !in text
  }

  lemma RunBetween(args: seq<string>, cur: string, inner: string, meant: string, quote: char, s: State)
    requires (quote == '"' && s == Reading(args, cur).(inDouble := true))
           || (quote == '\'' && s == Reading(args, cur).(inSingle := true))
    requires Run(s, inner) == s.(cur := cur + meant)
    ensures Run(Reading(args, cur), [quote] + inner + [quote]) == Reading(args, cur + meant)
  {
    var start := Reading(args, cur);
    assert [quote][..0] == "" && Run(start, [quote]) == Next(start, quote) == s;
    RunConcat(start, [quote], inner);
    RunConcat(start, [quote] + inner, [quote]);
    assert Run(s.(cur := cur + meant), [quote]) == Next(s.(cur := cur + meant), quote);
  }

  lemma PieceRead(args: seq<string>, cur: string, p: Piece)
    requires IsPiece(p)
    ensures Run(Reading(args, cur), Written(p)) == Reading(args, cur + p.text)
  {
    var double, single := Reading(args, cur).(inDouble := true), Reading(args, cur).(inSingle := true);
    match p {
      case Bare(text) => RunPlain(Reading(args, cur), text);
      case Escaped(text) => RunEscaped(Reading(args, cur), text);
      case Double(text) =>
        RunPlain(double, text);
        RunBetween(args, cur, text, text, '"', double);
      case DoubleEscaped(text) =>
        RunEscaped(double, text);
        RunBetween(args, cur, Quoted(text), text, '"', double);
      case Single(text) =>
        RunPlain(single, text);
        RunBetween(args, cur, text, text, '\'', single);
    }
  }

  function AllWritten(ps: seq<Piece>): string {
    if ps == [] then "" else AllWritten(ps[..|ps| - 1]) + Written(ps[|ps| - 1])
  }

  function AllMeant(ps: seq<Piece>): string {
    if ps == [] then "" else AllMeant(ps[..|ps| - 1]) + ps[|ps| - 1].text
  }

  lemma {:induction false} PiecesRead(ps: seq<Piece>)
    requires forall p :: p in ps ==> IsPiece(p)
    ensures Run(Start(), AllWritten(ps)) == Reading([], AllMeant(ps))
  {
    if ps != [] {
      var init := ps[..|ps| - 1];
      PiecesRead(init);
      RunConcat(Start(), AllWritten(init), Written(ps[|ps| - 1]));
      PieceRead([], AllMeant(init), ps[|ps| - 1]);
    }
  }

  /** Pieces written one behind the other are one argument, without their quotes and backslashes. */
  lemma PiecesAreArgument(ps: seq<Piece>)
    requires forall p :: p in ps ==> IsPiece(p)
    ensures Split(AllWritten(ps)) == (if AllMeant(ps) == "" then [] else [AllMeant(ps)]) && EndsPlain(AllWritten(ps))
  {
    PiecesRead(ps);
  }

  /** A quote that is not closed reaches to the end, white space included. */
  lemma OpenQuoteReachesEnd(text: string)
    ensures '\'' !in text ==> Split(['\''] + text) == (if text == "" then [] else [text])
    ensures '"' !in text && '\\' !in text ==> Split(['"'] + text) == (if text == "" then [] else [text])
  {
    OpenQuote(text, '\'', Start().(inSingle := true));
    OpenQuote(text, '"', Start().(inDouble := true));
  }

  lemma OpenQuote(text: string, quote: char, s: State)
    requires (quote == '"' && s == Start().(inDouble := true)) || (quote == '\'' && s == Start().(inSingle := true))
    ensures (forall c :: c in text ==> IsLiteral(s, c)) ==>
              Split([quote] + text) == if text == "" then [] else [text]
  {
    assert [quote][..0] == "" && Run(Start(), [quote]) == Next(Start(), quote) == s;
    RunConcat(Start(), [quote], text);
    if forall c :: c in text ==> IsLiteral(s, c) {
      RunPlain(s, text);
      assert "" + text == text;
    }
  }
}
