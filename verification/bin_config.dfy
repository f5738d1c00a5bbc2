/**
 * `src/config.rs`: the binary's copy of the argument parser. It differs from
 * `src/lib/config.rs` in one place: a failing stat of a source path is an
 * error of the whole parse.
 */
module BinConfig {
  import opened Wrappers
  import opened ConfigCommon
  import LibConfig

  /**
   * `parse_source`: the error of `Path::try_exists` is propagated with `?`;
   * otherwise an existing directory is a `DirPath`, another existing path a
   * `FilePath`, and a missing path `PlainText`.
   */
  function ParseSource(arg: string, fs: FileSystem): (r: Result<Sources, ConfigError>)
    ensures r.Err? <==> fs(arg) == StatError
    ensures r.Err? ==> r.error == CannotStat(arg)
    ensures r.Ok? ==> r.value.arg == arg
    ensures r.Ok? ==> (r.value.DirPath? <==> fs(arg) == IsDirectory)
    ensures r.Ok? ==> (r.value.FilePath? <==> fs(arg) == IsFile)
  {
    match LibConfig.TryExists(fs(arg))
    case Err(_) => Err(CannotStat(arg))
    case Ok(found) =>
      if found then
        if fs(arg) == IsDirectory then Ok(DirPath(arg)) else Ok(FilePath(arg))
      else Ok(PlainText(arg))
  }

  function Classify(fs: FileSystem): Classifier {
    a => ParseSource(a, fs)
  }

  /** `Config::parse_args` of `src/config.rs`. */
  method ParseArgs(args: seq<string>, fs: FileSystem) returns (r: Result<ArgsParsingResult, ConfigError>)
    ensures r == ParseArgsSpec(args, Classify(fs))
  {
    r := ParseArgsWith(args, Classify(fs));
  }

  /**
   * A source whose stat fails makes the whole parse fail with that error,
   * whatever follows, once nothing before it failed and a search expression
   * is already known.
   */
  lemma StatErrorPropagates(pre: seq<Arg>, a: string, post: seq<Arg>, fs: FileSystem)
    requires Clean(Initial, pre, Classify(fs))
    requires Frees(pre) != []
    requires fs(a) == StatError
    ensures Interpret(pre + [Free(a)] + post, Initial, Classify(fs)) == Err(CannotStat(a))
  {
    assert Classify(fs)(a) == ParseSource(a, fs);
    SourceErrorFails(pre, a, post, Initial, Classify(fs));
  }

  /** Where every stat succeeds, the two copies of `parse_args` agree. */
  lemma AgreesWithLibWhenStatSucceeds(args: seq<string>, fs: FileSystem)
    requires forall k :: 0 <= k < |args| ==> fs(args[k]) != StatError
    ensures ParseArgsSpec(args, Classify(fs)) == ParseArgsSpec(args, LibConfig.Classify(fs))
  {
    var toks := Lex(ProgramArgs(args));
    LexRoundTrip(ProgramArgs(args));
    forall k | 0 <= k < |toks| && toks[k].Free?
      ensures Classify(fs)(toks[k].text) == LibConfig.Classify(fs)(toks[k].text)
    {
      FreeIsArgument(toks, k);
      var a := toks[k].text;
      assert a in ProgramArgs(args);
      assert fs(a) != StatError;
      assert Classify(fs)(a) == ParseSource(a, fs);
      assert LibConfig.Classify(fs)(a) == LibConfig.ParseSource(a, fs);
    }
    ClassifiersAgree(toks, Initial, Classify(fs), LibConfig.Classify(fs));
  }

  /** The text of a free token is one of the arguments the tokens spell. */
  lemma {:induction false} FreeIsArgument(toks: seq<Arg>, k: int)
    requires 0 <= k < |toks| && toks[k].Free?
    ensures toks[k].text in Unlex(toks)
    decreases |toks|
  {
    if k > 0 {
      FreeIsArgument(toks[1..], k - 1);
    }
  }
}
