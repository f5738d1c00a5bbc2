/**
 * `src/lib/config.rs`: argument parsing whose source classification never
 * fails; a path whose stat fails is taken as plain text.
 */
module LibConfig {
  import opened Wrappers
  import opened ConfigCommon

  /** `Path::try_exists`: an error when the stat itself fails. */
  function TryExists(st: Stat): Result<bool, ()> {
    if st == StatError then Err(()) else Ok(st == IsFile || st == IsDirectory)
  }

  /**
   * `parse_source`: an existing directory is a `DirPath`, any other existing
   * path a `FilePath`, and a missing path or one that cannot be stat'ed is
   * `PlainText`. It never returns an error.
   */
  function ParseSource(arg: string, fs: FileSystem): (r: Result<Sources, ConfigError>)
    ensures r.Ok? && r.value.arg == arg
    ensures r.value.DirPath? <==> fs(arg) == IsDirectory
    ensures r.value.FilePath? <==> fs(arg) == IsFile
    ensures r.value.PlainText? <==> fs(arg) == Missing || fs(arg) == StatError
  {
    var found := match TryExists(fs(arg)) case Ok(b) => b case Err(_) => false;
    if found then
      if fs(arg) == IsDirectory then Ok(DirPath(arg)) else Ok(FilePath(arg))
    else Ok(PlainText(arg))
  }

  function Classify(fs: FileSystem): Classifier {
    a => ParseSource(a, fs)
  }

  /** `Config::parse_args` of `src/lib/config.rs`. */
  method ParseArgs(args: seq<string>, fs: FileSystem) returns (r: Result<ArgsParsingResult, ConfigError>)
    ensures r == ParseArgsSpec(args, Classify(fs))
  {
    r := ParseArgsWith(args, Classify(fs));
  }

  /** With this classifier, a prefix is clean as soon as it holds no `-h` and no bad `-l` value. */
  lemma CleanWithoutFailures(p: Partial, toks: seq<Arg>, fs: FileSystem)
    requires NoHelp(toks) && ModesValid(toks)
    ensures Clean(p, toks, Classify(fs))
  {
    var xs := ToClassify(p, toks);
    forall k | 0 <= k < |xs| ensures Classify(fs)(xs[k]).Ok? {
      assert Classify(fs)(xs[k]) == ParseSource(xs[k], fs);
    }
  }

  /**
   * Without `-h` and with valid `-l` values, the parse builds the
   * configuration: the first free argument is the search expression, the
   * others are the sources in order, the last `-l` gives the mode
   * (default `Around(4)`). With no free argument it fails.
   */
  lemma ParseArgsBuilds(args: seq<string>, fs: FileSystem)
    requires NoHelp(Lex(ProgramArgs(args))) && ModesValid(Lex(ProgramArgs(args)))
    ensures var toks := Lex(ProgramArgs(args));
            Frees(toks) == [] ==> ParseArgsSpec(args, Classify(fs)) == Err(InsufficientArguments)
    ensures var toks := Lex(ProgramArgs(args));
            Frees(toks) != [] ==>
              ParseArgsSpec(args, Classify(fs))
              == Ok(Built(Config(Frees(toks)[0],
                                 ClassifyAll(Frees(toks)[1..], Classify(fs)),
                                 LastMode(toks, None).GetOr(DEFAULT_MODE))))
  {
    var toks := Lex(ProgramArgs(args));
    CleanWithoutFailures(Initial, toks, fs);
    CleanArgsBuild(toks, Classify(fs));
  }

  /** `-h` gives `NeedHelp` unless an earlier `-l` value was invalid. */
  lemma HelpUnlessEarlierBadLines(pre: seq<Arg>, post: seq<Arg>, fs: FileSystem)
    requires NoHelp(pre) && ModesValid(pre)
    ensures Interpret(pre + [HelpFlag] + post, Initial, Classify(fs)) == Ok(NeedHelp)
  {
    CleanWithoutFailures(Initial, pre, fs);
    HelpShortCircuits(pre, post, Initial, Classify(fs));
  }
}
