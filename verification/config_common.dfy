/**
 * What `src/config.rs` and `src/lib/config.rs` share: the configuration
 * types, the `-l` value parser and the left-to-right argument loop. The two
 * files differ only in how a source argument is classified, so the loop is
 * parameterised by a `Classifier` (see LibConfig and BinConfig).
 *
 * The loop is specified by `ParseArgsSpec`: the arguments after the program
 * name are first cut into tokens (`Lex`), then the tokens are interpreted
 * (`Interpret`). The lemmas below state what the interpretation means.
 */
module ConfigCommon {
  import opened Wrappers
  import opened RustUsize

  datatype Sources =
    | PlainText(arg: string)
    | FilePath(arg: string)
    | DirPath(arg: string)

  datatype MatchDisplayingMode =
    | Up(count: Usize)
    | Around(count: Usize)
    | Down(count: Usize)

  datatype Config = Config(searchExpr: string, sources: seq<Sources>, matchDisplayingMode: MatchDisplayingMode)

  datatype ArgsParsingResult = Built(config: Config) | NeedHelp

  /** The error outcomes; the message texts are not modelled. */
  datatype ConfigError =
    | LinesCountRequired        // bad or missing value of `-l`
    | InsufficientArguments     // no search expression
    | CannotStat(path: string)  // filesystem stat failed (src/config.rs only)

  /** What a stat of a path reports: the filesystem is an oracle. */
  datatype Stat = StatError | Missing | IsFile | IsDirectory

  type FileSystem = string -> Stat

  /** How one free argument after the search expression becomes a source. */
  type Classifier = string -> Result<Sources, ConfigError>

  const DEFAULT_MODE: MatchDisplayingMode := Around(4)

  // ---------------------------------------------------------------------
  // The value of `-l`
  // ---------------------------------------------------------------------

  /**
   * `char::is_alphabetic`, restricted to ASCII. For a non-ASCII last
   * character the model takes the numeric branch, whose parse then fails.
   */
  predicate IsAlphabetic(c: char) {
    'a' <= c <= 'z' || 'A' <= c <= 'Z'
  }

  function Last(s: string): char
    requires |s| > 0
  {
    s[|s| - 1]
  }

  /**
   * `parse_match_displaying_mode`: `value` is the next argument after `-l`,
   * if there is one. `Nu` is `Up(N)`, `Nd` is `Down(N)`, a bare `N` is
   * `Around(N)`; everything else is an error.
   */
  function ParseMatchDisplayingMode(value: Option<string>): (r: Result<MatchDisplayingMode, ConfigError>)
    ensures r.Err? ==> r.error == LinesCountRequired
    ensures value.None? || value == Some("") ==> r.Err?
    ensures r.Ok? ==> value.Some? && |value.value| > 0
    ensures r.Ok? ==> (r.value.Up? <==> Last(value.value) == 'u')
    ensures r.Ok? ==> (r.value.Down? <==> Last(value.value) == 'd')
    ensures (value.Some? && |value.value| > 0 && IsAlphabetic(Last(value.value))
             && Last(value.value) != 'u' && Last(value.value) != 'd') ==> r.Err?
  {
    match value
    case None => Err(LinesCountRequired)
    case Some(s) =>
      if |s| == 0 then Err(LinesCountRequired)
      else if IsAlphabetic(Last(s)) then
        match ParseUsize(s[..|s| - 1])
        case None => Err(LinesCountRequired)
        case Some(n) =>
          if Last(s) == 'u' then Ok(Up(n))
          else if Last(s) == 'd' then Ok(Down(n))
          else Err(LinesCountRequired)
      else
        match ParseUsize(s)
        case None => Err(LinesCountRequired)
        case Some(n) => Ok(Around(n))
  }

  /** The canonical spelling of a mode as a `-l` value. */
  function RenderMode(m: MatchDisplayingMode): string {
    match m
    case Up(n) => Decimal(n) + "u"
    case Down(n) => Decimal(n) + "d"
    case Around(n) => Decimal(n)
  }

  /** The count is the `usize` spelled before the suffix letter, or by the whole value for `Around`. */
  lemma ParseModeCount(value: Option<string>)
    requires ParseMatchDisplayingMode(value).Ok?
    ensures var s, m := value.value, ParseMatchDisplayingMode(value).value;
            if m.Around? then ParseUsize(s) == Some(m.count)
            else ParseUsize(s[..|s| - 1]) == Some(m.count)
  {
  }

  /**
   * The converse of `ParseModeCount`: any spelling of a count that `usize`
   * accepts (a leading `+`, leading zeros) works, before `u`, before `d`,
   * or alone.
   */
  lemma ParseModeFromCount(s: string, n: Usize)
    requires |s| > 0
    ensures Last(s) == 'u' && ParseUsize(s[..|s| - 1]) == Some(n) ==> ParseMatchDisplayingMode(Some(s)) == Ok(Up(n))
    ensures Last(s) == 'd' && ParseUsize(s[..|s| - 1]) == Some(n) ==> ParseMatchDisplayingMode(Some(s)) == Ok(Down(n))
    ensures !IsAlphabetic(Last(s)) && ParseUsize(s) == Some(n) ==> ParseMatchDisplayingMode(Some(s)) == Ok(Around(n))
  {
  }

  /** The value `+05u` is `Up(5)`: signs and leading zeros are accepted in the count. */
  lemma SignedPaddedCountAccepted()
    ensures ParseMatchDisplayingMode(Some("+05u")) == Ok(Up(5))
  {
    assert "+05u"[..3] == "+05";
    assert "+05"[1..] == "05";
    assert "05"[..1] == "0" && "0"[..0] == "";
  }

  /** Every display mode is read back from its canonical spelling. */
  lemma ParseModeRoundTrip(m: MatchDisplayingMode)
    ensures ParseMatchDisplayingMode(Some(RenderMode(m))) == Ok(m)
  {
    var s := RenderMode(m);
    ParseUsizeRoundTrip(m.count);
    if !m.Around? {
      assert s[..|s| - 1] == Decimal(m.count);
    }
  }

  /** A suffix letter with no count in front of it ("u", "d") is rejected. */
  lemma SuffixWithoutCountRejected(c: char)
    requires IsAlphabetic(c)
    ensures ParseMatchDisplayingMode(Some([c])).Err?
  {
    assert [c][..0] == "";
  }

  // ---------------------------------------------------------------------
  // Tokens: how the argument list is cut up
  // ---------------------------------------------------------------------

  /** One step of the loop: `-h`, `-l` with the argument it consumes, or a free argument. */
  datatype Arg = HelpFlag | LinesFlag(value: Option<string>) | Free(text: string)

  /** The arguments after the program name (`args_iterator.skip(1)`). */
  function ProgramArgs(args: seq<string>): (rest: seq<string>)
    ensures |args| > 0 ==> [args[0]] + rest == args
    ensures |args| == 0 ==> rest == []
  {
    if |args| == 0 then [] else args[1..]
  }

  /** A token list `Lex` can produce: free arguments are never flags, and a valueless `-l` is last. */
  ghost predicate WellFormed(toks: seq<Arg>) {
    (forall k :: 0 <= k < |toks| && toks[k].Free? ==> toks[k].text != "-h" && toks[k].text != "-l")
    && (forall k :: 0 <= k < |toks| - 1 ==> toks[k] != LinesFlag(None))
  }

  function Lex(args: seq<string>): (toks: seq<Arg>)
    ensures WellFormed(toks)
    decreases |args|
  {
    if args == [] then []
    else if args[0] == "-h" then [HelpFlag] + Lex(args[1..])
    else if args[0] == "-l" then
      if |args| == 1 then [LinesFlag(None)] else [LinesFlag(Some(args[1]))] + Lex(args[2..])
    else [Free(args[0])] + Lex(args[1..])
  }

  function Spell(t: Arg): seq<string> {
    match t
    case HelpFlag => ["-h"]
    case LinesFlag(None) => ["-l"]
    case LinesFlag(Some(v)) => ["-l", v]
    case Free(a) => [a]
  }

  function Unlex(toks: seq<Arg>): seq<string>
    decreases |toks|
  {
    if toks == [] then [] else Spell(toks[0]) + Unlex(toks[1..])
  }

  /** Cutting into tokens loses and invents nothing: every argument is spelled back. */
  lemma {:induction false} LexRoundTrip(args: seq<string>)
    ensures Unlex(Lex(args)) == args
    decreases |args|
  {
    if args == [] {
    } else if args[0] == "-h" {
      LexRoundTrip(args[1..]);
    } else if args[0] == "-l" {
      if |args| > 1 {
        LexRoundTrip(args[2..]);
        assert args == ["-l", args[1]] + args[2..];
      }
    } else {
      LexRoundTrip(args[1..]);
    }
  }

  /**
   * The tokens are determined by the arguments: a well-formed token list is
   * exactly what `Lex` makes of its spelling. So the value taken by `-l` is
   * never a free argument, and a free argument is never `-h` or `-l`.
   */
  lemma {:induction false} UnlexRoundTrip(toks: seq<Arg>)
    requires WellFormed(toks)
    ensures Lex(Unlex(toks)) == toks
    decreases |toks|
  {
    if toks != [] {
      var rest := toks[1..];
      assert WellFormed(rest) by {
        forall k | 0 <= k < |rest| && rest[k].Free?
          ensures rest[k].text != "-h" && rest[k].text != "-l"
        {
          assert rest[k] == toks[k + 1];
        }
        forall k | 0 <= k < |rest| - 1
          ensures rest[k] != LinesFlag(None)
        {
          assert rest[k] == toks[k + 1];
        }
      }
      UnlexRoundTrip(rest);
      var s := Unlex(toks);
      assert s == Spell(toks[0]) + Unlex(rest);
      match toks[0]
      case HelpFlag =>
        assert s[1..] == Unlex(rest);
      case Free(a) =>
        assert s[1..] == Unlex(rest);
      case LinesFlag(None) =>
        assert rest == [];
      case LinesFlag(Some(v)) =>
        assert s[2..] == Unlex(rest);
    }
  }

  // ---------------------------------------------------------------------
  // Interpretation of the tokens
  // ---------------------------------------------------------------------

  /** The three loop variables: `search_expr`, `sources`, `match_displaying_mode`. */
  datatype Partial = Partial(searchExpr: Option<string>, sources: seq<Sources>, mode: Option<MatchDisplayingMode>)

  const Initial: Partial := Partial(None, [], None)

  /** After the loop: a search expression is required, the mode defaults to `Around(4)`. */
  function Finish(p: Partial): (r: Result<ArgsParsingResult, ConfigError>)
    ensures r.Err? <==> p.searchExpr.None?
    ensures r.Err? ==> r.error == InsufficientArguments
    ensures r.Ok? ==> r.value.Built? && r.value.config.searchExpr == p.searchExpr.value
                      && r.value.config.sources == p.sources
                      && r.value.config.matchDisplayingMode == p.mode.GetOr(DEFAULT_MODE)
  {
    if p.searchExpr.None? then Err(InsufficientArguments)
    else Ok(Built(Config(p.searchExpr.value, p.sources, p.mode.GetOr(DEFAULT_MODE))))
  }

  /** The loop over tokens, from the state `p`; the first error or `-h` ends it. */
  function Interpret(toks: seq<Arg>, p: Partial, classify: Classifier): Result<ArgsParsingResult, ConfigError>
    decreases |toks|
  {
    if toks == [] then Finish(p)
    else match toks[0]
      case HelpFlag => Ok(NeedHelp)
      case LinesFlag(v) =>
        (match ParseMatchDisplayingMode(v)
         case Err(e) => Err(e)
         case Ok(m) => Interpret(toks[1..], p.(mode := Some(m)), classify))
      case Free(a) =>
        if p.searchExpr.None? then Interpret(toks[1..], p.(searchExpr := Some(a)), classify)
        else
          (match classify(a)
           case Err(e) => Err(e)
           case Ok(s) => Interpret(toks[1..], p.(sources := p.sources + [s]), classify))
  }

  /** What `parse_args` returns for the full argument list (program name first). */
  function ParseArgsSpec(args: seq<string>, classify: Classifier): Result<ArgsParsingResult, ConfigError> {
    Interpret(Lex(ProgramArgs(args)), Initial, classify)
  }

  /**
   * `Config::parse_args`: the `while let` loop over the arguments, with its
   * three mutable variables. `-h` returns at once, `-l` consumes the next
   * argument, the first free argument is the search expression and every
   * later one is classified into a source.
   */
  method ParseArgsWith(args: seq<string>, classify: Classifier) returns (r: Result<ArgsParsingResult, ConfigError>)
    ensures r == ParseArgsSpec(args, classify)
  {
    var searchExpr: Option<string> := None;
    var sources: seq<Sources> := [];
    var mode: Option<MatchDisplayingMode> := None;
    var rest := ProgramArgs(args);
    var i := 0;
    while i < |rest|
      invariant 0 <= i <= |rest|
      invariant ParseArgsSpec(args, classify) == Interpret(Lex(rest[i..]), Partial(searchExpr, sources, mode), classify)
    {
      var arg := rest[i];
      ghost var here := rest[i..];
      assert here[0] == arg && here[1..] == rest[i + 1..];
      i := i + 1;
      if arg == "-h" {
        return Ok(NeedHelp);
      } else if arg == "-l" {
        var value: Option<string> := None;
        if i < |rest| {
          value := Some(rest[i]);
          assert here[2..] == rest[i + 1..];
          i := i + 1;
        }
        var parsed := ParseMatchDisplayingMode(value);
        if parsed.Err? {
          return Err(parsed.error);
        }
        mode := Some(parsed.value);
      } else {
        match searchExpr {
          case None =>
            searchExpr := Some(arg);
          case Some(_) =>
            var source := classify(arg);
            if source.Err? {
              return Err(source.error);
            }
            sources := sources + [source.value];
        }
      }
    }
    assert rest[i..] == [];
    if searchExpr.None? {
      return Err(InsufficientArguments);
    }
    r := Ok(Built(Config(searchExpr.value, sources, mode.GetOr(DEFAULT_MODE))));
  }

  // ---------------------------------------------------------------------
  // What the interpretation means
  // ---------------------------------------------------------------------

  function Frees(toks: seq<Arg>): (frees: seq<string>)
    ensures |frees| <= |toks|
    decreases |toks|
  {
    if toks == [] then []
    else (if toks[0].Free? then [toks[0].text] else []) + Frees(toks[1..])
  }

  ghost predicate NoHelp(toks: seq<Arg>) {
    forall k :: 0 <= k < |toks| ==> !toks[k].HelpFlag?
  }

  ghost predicate ModesValid(toks: seq<Arg>) {
    forall k :: 0 <= k < |toks| && toks[k].LinesFlag? ==> ParseMatchDisplayingMode(toks[k].value).Ok?
  }

  /** The free arguments that the loop classifies: all of them once a search expression is known. */
  function ToClassify(p: Partial, toks: seq<Arg>): seq<string> {
    var frees := Frees(toks);
    if p.searchExpr.Some? then frees else if frees == [] then [] else frees[1..]
  }

  ghost predicate Classifiable(xs: seq<string>, classify: Classifier) {
    forall k :: 0 <= k < |xs| ==> classify(xs[k]).Ok?
  }

  /** The sources made of `xs`, in order; an argument that fails to classify contributes nothing. */
  function ClassifyAll(xs: seq<string>, classify: Classifier): (srcs: seq<Sources>)
    ensures |srcs| <= |xs|
    decreases |xs|
  {
    if xs == [] then []
    else (match classify(xs[0]) case Ok(s) => [s] case Err(_) => []) + ClassifyAll(xs[1..], classify)
  }

  /** No `-h`, no bad `-l` value and no failing source in `toks`, started from `p`. */
  ghost predicate Clean(p: Partial, toks: seq<Arg>, classify: Classifier) {
    NoHelp(toks) && ModesValid(toks) && Classifiable(ToClassify(p, toks), classify)
  }

  /** The mode after `toks`: the value of the last `-l`, or `d` if there is none. */
  function LastMode(toks: seq<Arg>, d: Option<MatchDisplayingMode>): Option<MatchDisplayingMode>
    decreases |toks|
  {
    if toks == [] then d
    else LastMode(toks[1..], if toks[0].LinesFlag? then ModeOr(toks[0].value, d) else d)
  }

  /** The mode a `-l` value sets, or `d` when it is invalid. */
  function ModeOr(v: Option<string>, d: Option<MatchDisplayingMode>): Option<MatchDisplayingMode> {
    match ParseMatchDisplayingMode(v)
    case Ok(m) => Some(m)
    case Err(_) => d
  }

  /**
   * The state reached after a clean run of tokens, stated without a loop:
   * the search expression is the first free argument (unless one is already
   * known), the sources are the remaining free arguments classified in
   * order, and the mode is the last `-l`'s.
   */
  function After(p: Partial, toks: seq<Arg>, classify: Classifier): Partial {
    var frees := Frees(toks);
    Partial(
      if p.searchExpr.Some? then p.searchExpr else if frees == [] then None else Some(frees[0]),
      p.sources + ClassifyAll(ToClassify(p, toks), classify),
      LastMode(toks, p.mode))
  }

  lemma ClassifyAllCons(x: string, xs: seq<string>, classify: Classifier)
    requires classify(x).Ok?
    ensures ClassifyAll([x] + xs, classify) == [classify(x).value] + ClassifyAll(xs, classify)
  {
    assert ([x] + xs)[1..] == xs;
  }

  /** The loop state after one clean, non-`-h` token. */
  function Step(p: Partial, t: Arg, classify: Classifier): Partial {
    match t
    case HelpFlag => p
    case LinesFlag(v) => p.(mode := ModeOr(v, p.mode))
    case Free(a) =>
      if p.searchExpr.None? then p.(searchExpr := Some(a))
      else p.(sources := p.sources + ClassifyAll([a], classify))
  }

  lemma CleanTail(p: Partial, pre: seq<Arg>, classify: Classifier)
    requires pre != [] && Clean(p, pre, classify)
    ensures !pre[0].HelpFlag?
    ensures pre[0].LinesFlag? ==> ParseMatchDisplayingMode(pre[0].value).Ok?
    ensures NoHelp(pre[1..]) && ModesValid(pre[1..])
    ensures Frees(pre) == (if pre[0].Free? then [pre[0].text] else []) + Frees(pre[1..])
  {
    var tail := pre[1..];
    forall k | 0 <= k < |tail| ensures tail[k] == pre[k + 1] { }
  }

  /** A clean `-l` token: only the mode changes. */
  lemma StepLinesClean(p: Partial, pre: seq<Arg>, classify: Classifier)
    requires pre != [] && pre[0].LinesFlag? && Clean(p, pre, classify)
    ensures ParseMatchDisplayingMode(pre[0].value).Ok?
    ensures Clean(Step(p, pre[0], classify), pre[1..], classify)
    ensures After(Step(p, pre[0], classify), pre[1..], classify) == After(p, pre, classify)
  {
    CleanTail(p, pre, classify);
    var q := Step(p, pre[0], classify);
    assert q == p.(mode := Some(ParseMatchDisplayingMode(pre[0].value).value));
    assert Frees(pre) == Frees(pre[1..]);
    assert ToClassify(q, pre[1..]) == ToClassify(p, pre);
  }

  /** The first free token becomes the search expression. */
  lemma StepFirstFreeClean(p: Partial, pre: seq<Arg>, classify: Classifier)
    requires pre != [] && pre[0].Free? && p.searchExpr.None? && Clean(p, pre, classify)
    ensures Clean(Step(p, pre[0], classify), pre[1..], classify)
    ensures After(Step(p, pre[0], classify), pre[1..], classify) == After(p, pre, classify)
  {
    CleanTail(p, pre, classify);
    var q := Step(p, pre[0], classify);
    assert q == p.(searchExpr := Some(pre[0].text));
    assert Frees(pre) == [pre[0].text] + Frees(pre[1..]);
    assert ToClassify(q, pre[1..]) == ToClassify(p, pre);
  }

  /** Once a search expression is known, the free arguments to classify are this one and those after it. */
  lemma ToClassifySource(p: Partial, pre: seq<Arg>, classify: Classifier)
    requires pre != [] && pre[0].Free? && p.searchExpr.Some? && Clean(p, pre, classify)
    ensures ToClassify(p, pre) == [pre[0].text] + ToClassify(p, pre[1..])
    ensures classify(pre[0].text).Ok? && Classifiable(ToClassify(p, pre[1..]), classify)
    ensures ClassifyAll(ToClassify(p, pre), classify)
            == [classify(pre[0].text).value] + ClassifyAll(ToClassify(p, pre[1..]), classify)
  {
    CleanTail(p, pre, classify);
    var a, xs := pre[0].text, ToClassify(p, pre[1..]);
    assert ToClassify(p, pre) == [a] + xs;
    assert ToClassify(p, pre)[0] == a;
    forall k | 0 <= k < |xs| ensures xs[k] == ToClassify(p, pre)[k + 1] { }
    ClassifyAllCons(a, xs, classify);
  }

  /** A later free token is classified and appended to the sources. */
  lemma StepSourceClean(p: Partial, pre: seq<Arg>, classify: Classifier)
    requires pre != [] && pre[0].Free? && p.searchExpr.Some? && Clean(p, pre, classify)
    ensures classify(pre[0].text).Ok?
    ensures Clean(Step(p, pre[0], classify), pre[1..], classify)
    ensures After(Step(p, pre[0], classify), pre[1..], classify) == After(p, pre, classify)
  {
    CleanTail(p, pre, classify);
    ToClassifySource(p, pre, classify);
    var a, tail := pre[0].text, pre[1..];
    var xs := ToClassify(p, tail);
    var q := Step(p, pre[0], classify);
    assert q == p.(sources := p.sources + [classify(a).value]);
    assert ToClassify(q, tail) == xs;
    var after, after' := After(q, tail, classify), After(p, pre, classify);
    assert after.sources == after'.sources by {
      calc {
        after.sources;
        (p.sources + [classify(a).value]) + ClassifyAll(xs, classify);
        p.sources + ([classify(a).value] + ClassifyAll(xs, classify));
        after'.sources;
      }
    }
  }

  /** The first token of a clean run is one step of `Interpret`, and `After` agrees with it. */
  lemma StepClean(p: Partial, pre: seq<Arg>, classify: Classifier)
    requires pre != [] && Clean(p, pre, classify)
    ensures !pre[0].HelpFlag?
    ensures pre[0].LinesFlag? ==> ParseMatchDisplayingMode(pre[0].value).Ok?
    ensures pre[0].Free? && p.searchExpr.Some? ==> classify(pre[0].text).Ok?
    ensures Clean(Step(p, pre[0], classify), pre[1..], classify)
    ensures After(Step(p, pre[0], classify), pre[1..], classify) == After(p, pre, classify)
  {
    CleanTail(p, pre, classify);
    if pre[0].LinesFlag? {
      StepLinesClean(p, pre, classify);
    } else if p.searchExpr.None? {
      StepFirstFreeClean(p, pre, classify);
    } else {
      StepSourceClean(p, pre, classify);
    }
  }

  lemma InterpretStep(t: Arg, xs: seq<Arg>, p: Partial, classify: Classifier)
    requires !t.HelpFlag?
    requires t.LinesFlag? ==> ParseMatchDisplayingMode(t.value).Ok?
    requires t.Free? && p.searchExpr.Some? ==> classify(t.text).Ok?
    ensures Interpret([t] + xs, p, classify) == Interpret(xs, Step(p, t, classify), classify)
  {
    assert ([t] + xs)[0] == t && ([t] + xs)[1..] == xs;
    match t
    case LinesFlag(v) =>
    case Free(a) =>
      if p.searchExpr.Some? {
        assert [a][1..] == [];
        assert ClassifyAll([a], classify) == [classify(a).value];
      }
  }

  lemma InterpretHead(pre: seq<Arg>, rest: seq<Arg>, p: Partial, classify: Classifier)
    requires pre != [] && !pre[0].HelpFlag?
    requires pre[0].LinesFlag? ==> ParseMatchDisplayingMode(pre[0].value).Ok?
    requires pre[0].Free? && p.searchExpr.Some? ==> classify(pre[0].text).Ok?
    ensures Interpret(pre + rest, p, classify) == Interpret(pre[1..] + rest, Step(p, pre[0], classify), classify)
  {
    assert pre + rest == [pre[0]] + (pre[1..] + rest);
    InterpretStep(pre[0], pre[1..] + rest, p, classify);
  }

  /** A clean prefix can be replaced by the state it leads to. */
  lemma {:induction false} InterpretClean(pre: seq<Arg>, rest: seq<Arg>, p: Partial, classify: Classifier)
    requires Clean(p, pre, classify)
    ensures Interpret(pre + rest, p, classify) == Interpret(rest, After(p, pre, classify), classify)
    decreases |pre|
  {
    if pre == [] {
      assert pre + rest == rest;
      assert After(p, pre, classify) == p;
    } else {
      var tail := pre[1..];
      StepClean(p, pre, classify);
      InterpretHead(pre, rest, p, classify);
      InterpretClean(tail, rest, Step(p, pre[0], classify), classify);
    }
  }

  /** `-h` returns `NeedHelp` at once, whatever follows it, once nothing before it failed. */
  lemma HelpShortCircuits(pre: seq<Arg>, post: seq<Arg>, p: Partial, classify: Classifier)
    requires Clean(p, pre, classify)
    ensures Interpret(pre + [HelpFlag] + post, p, classify) == Ok(NeedHelp)
  {
    assert pre + [HelpFlag] + post == pre + ([HelpFlag] + post);
    InterpretClean(pre, [HelpFlag] + post, p, classify);
  }

  /** An invalid `-l` value fails the parse, whatever follows, once nothing before it failed. */
  lemma BadLinesValueFails(pre: seq<Arg>, v: Option<string>, post: seq<Arg>, p: Partial, classify: Classifier)
    requires Clean(p, pre, classify)
    requires ParseMatchDisplayingMode(v).Err?
    ensures Interpret(pre + [LinesFlag(v)] + post, p, classify) == Err(LinesCountRequired)
  {
    assert pre + [LinesFlag(v)] + post == pre + ([LinesFlag(v)] + post);
    InterpretClean(pre, [LinesFlag(v)] + post, p, classify);
  }

  /** A source argument that cannot be classified fails the parse with the classifier's error. */
  lemma SourceErrorFails(pre: seq<Arg>, a: string, post: seq<Arg>, p: Partial, classify: Classifier)
    requires Clean(p, pre, classify)
    requires After(p, pre, classify).searchExpr.Some?
    requires classify(a).Err?
    ensures Interpret(pre + [Free(a)] + post, p, classify) == Err(classify(a).error)
  {
    assert pre + [Free(a)] + post == pre + ([Free(a)] + post);
    InterpretClean(pre, [Free(a)] + post, p, classify);
  }

  /**
   * A clean argument list builds a configuration: the first free argument is
   * the search expression, the later free arguments are the sources in
   * order, the last `-l` sets the mode (default `Around(4)`); with no free
   * argument the parse fails for lack of a search expression.
   */
  lemma CleanArgsBuild(toks: seq<Arg>, classify: Classifier)
    requires Clean(Initial, toks, classify)
    ensures Frees(toks) == [] ==> Interpret(toks, Initial, classify) == Err(InsufficientArguments)
    ensures Frees(toks) != [] ==>
              Interpret(toks, Initial, classify)
              == Ok(Built(Config(Frees(toks)[0],
                                 ClassifyAll(Frees(toks)[1..], classify),
                                 LastMode(toks, None).GetOr(DEFAULT_MODE))))
  {
    assert toks + [] == toks;
    InterpretClean(toks, [], Initial, classify);
    var q := After(Initial, toks, classify);
    assert q.sources == ClassifyAll(ToClassify(Initial, toks), classify);
  }

  /** The last `-l` wins: the mode is that of the last `-l` token, or the default when there is none. */
  lemma {:induction false} LastLinesFlagWins(toks: seq<Arg>, d: Option<MatchDisplayingMode>, k: int)
    requires ModesValid(toks)
    requires 0 <= k < |toks| && toks[k].LinesFlag?
    requires forall j :: k < j < |toks| ==> !toks[j].LinesFlag?
    ensures LastMode(toks, d) == Some(ParseMatchDisplayingMode(toks[k].value).value)
    decreases |toks|
  {
    var tail := toks[1..];
    assert ModesValid(tail) by {
      forall j | 0 <= j < |tail| ensures tail[j] == toks[j + 1] { }
    }
    if k > 0 {
      LastLinesFlagWins(tail, if toks[0].LinesFlag? then Some(ParseMatchDisplayingMode(toks[0].value).value) else d, k - 1);
    } else {
      NoLinesFlagKeepsMode(tail, Some(ParseMatchDisplayingMode(toks[0].value).value));
    }
  }

  lemma {:induction false} NoLinesFlagKeepsMode(toks: seq<Arg>, d: Option<MatchDisplayingMode>)
    requires forall j :: 0 <= j < |toks| ==> !toks[j].LinesFlag?
    ensures ModesValid(toks)
    ensures LastMode(toks, d) == d
    decreases |toks|
  {
    if toks != [] {
      NoLinesFlagKeepsMode(toks[1..], d);
    }
  }

  /** Two classifiers that agree on every free argument give the same parse. */
  lemma {:induction false} ClassifiersAgree(toks: seq<Arg>, p: Partial, c1: Classifier, c2: Classifier)
    requires forall k :: 0 <= k < |toks| && toks[k].Free? ==> c1(toks[k].text) == c2(toks[k].text)
    ensures Interpret(toks, p, c1) == Interpret(toks, p, c2)
    decreases |toks|
  {
    if toks != [] {
      var q := toks[1..];
      forall k | 0 <= k < |q| && q[k].Free? ensures c1(q[k].text) == c2(q[k].text) {
        assert q[k] == toks[k + 1];
      }
      match toks[0]
      case HelpFlag =>
      case LinesFlag(v) =>
        if ParseMatchDisplayingMode(v).Ok? {
          ClassifiersAgree(q, p.(mode := Some(ParseMatchDisplayingMode(v).value)), c1, c2);
        }
      case Free(a) =>
        ClassifiersAgree(q, p.(searchExpr := Some(a)), c1, c2);
        if c1(a).Ok? {
          ClassifiersAgree(q, p.(sources := p.sources + [c1(a).value]), c1, c2);
        }
    }
  }
}
