/**
 * The patcher updater's start-up: it takes the path of the binary to replace
 * and the URL of the new one from the first two arguments, and hands every
 * further argument back to the replaced binary as one command line.
 *
 * Too few arguments make the source fail on a list index; the model returns
 * a failure there.
 */
module PatcherUpdater {
  import opened Wrappers
  import opened CmdArgs

  /** What the updater window is created with; `mainArgs` is null when nothing is handed back. */
  datatype Startup = Startup(path: string, url: string, mainArgs: Option<string>)

  const MissingArgument: string := "index out of range"

  /** The meaning of the updater's argument list. */
  function StartupOf(args: seq<string>): Result<Startup, string>
  {
    if |args| < 2 then Failure(MissingArgument)
    else Success(Startup(args[0], args[1], if |args| > 2 then Some(CmdLine(args[2..])) else None))
  }

  /** Reads the path, then the URL, removing each from the list, then writes what is left. */
  method ParseStartup(args: seq<string>) returns (r: Result<Startup, string>)
    ensures r == StartupOf(args)
  {
    var rest := args;
    if |rest| == 0 {
      return Failure(MissingArgument);
    }
    var path := rest[0];
    rest := rest[1..];
    if |rest| == 0 {
      return Failure(MissingArgument);
    }
    var url := rest[0];
    rest := rest[1..];
    assert rest == args[2..];
    var mainArgs: Option<string> := None;
    if |rest| > 0 {
      var line := ToCmdArgs(rest);
      mainArgs := Some(line);
    }
    return Success(Startup(path, url, mainArgs));
  }

  /**
   * The updater starts exactly when it has at least two arguments; it then
   * keeps the first two as they are and hands something back exactly when
   * there was more.
   */
  lemma StartupShape(args: seq<string>)
    ensures StartupOf(args).Success? <==> |args| >= 2
    ensures StartupOf(args).Success? ==>
      && StartupOf(args).value.path == args[0]
      && StartupOf(args).value.url == args[1]
      && (StartupOf(args).value.mainArgs.Some? <==> |args| > 2)
  {
  }

  /**
   * What the updater hands back reads as the arguments after the first two,
   * whenever each of them contains a space or an even number of quotes.
   */
  lemma StartupHandsBackRest(args: seq<string>)
    requires |args| > 2
    requires forall i :: 2 <= i < |args| ==> ' ' in args[i] || QuoteCount(args[i]) % 2 == 0
    ensures StartupOf(args).Success? && StartupOf(args).value.mainArgs.Some?
    ensures ParseCmdLine(StartupOf(args).value.mainArgs.value) == args[2..]
  {
    var rest := args[2..];
    forall i | 0 <= i < |rest| ensures ' ' in rest[i] || QuoteCount(rest[i]) % 2 == 0 {
      assert rest[i] == args[i + 2];
    }
    ParseCmdLineRoundTrip(rest);
  }
}
