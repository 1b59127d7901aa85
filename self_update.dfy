/**
 * How the three programs fit together when the patcher replaces itself:
 * the server describes the patcher binary it serves, the wrapper compares
 * that description with its own binary and starts the updater, and the
 * updater hands the wrapper's arguments back to the new wrapper.
 */
module SelfUpdate {
  import opened Wrappers
  import opened Hex
  import opened Manifest
  import opened CmdArgs
  import opened PatchingServer
  import opened SyncPlanner
  import opened PatcherUpdater

  /**
   * Against the description the server builds, the wrapper replaces itself
   * exactly when the served binary's digest differs from the running one's.
   */
  lemma SelfUpdateIffDigestsDiffer(url: string, served: seq<Byte>, running: seq<Byte>, md5: HashFn)
    ensures NeedsSelfUpdate(PatcherOf(url, served, md5), DigestHex(md5(running))) <==> md5(served) != md5(running)
  {
    var p := PatcherOf(url, served, md5);
    ParseHexRoundTrip(md5(served));
    ParseHexRoundTrip(md5(running));
    if p.hash == Some(DigestHex(md5(running))) {
      assert Some(md5(served)) == ParseHex(DigestHex(md5(running)));
    }
  }

  /** The arguments after the updater's own two: the flag when set, then the rest. */
  function HandedBack(noStartup: bool, rest: seq<string>): seq<string>
  {
    (if noStartup then [NoStartupFlag] else []) + rest
  }

  /**
   * The wrapper's arguments survive the hand-over.  The wrapper writes the
   * updater's list with `ToCmdArgs`; the updater, reading that command line,
   * receives the binary path and the URL still wrapped in the quote
   * characters the wrapper added, and the new wrapper, reading the command
   * line the updater passes on, strips the same `noStartup` flag and is left
   * with the same remaining arguments.  This holds when something is handed
   * back, no argument has an odd number of quotes without a space, and a
   * flag that was not set is not imitated by the first remaining argument.
   */
  lemma ArgumentsSurviveSelfUpdate(self: string, url: string, noStartup: bool, rest: seq<string>)
    requires ' ' in self || QuoteCount(self) % 2 == 0
    requires ' ' in url || QuoteCount(url) % 2 == 0
    requires noStartup || rest != []
    requires forall i :: 0 <= i < |rest| ==> ' ' in rest[i] || QuoteCount(rest[i]) % 2 == 0
    requires !noStartup ==> rest[0] != NoStartupFlag
    ensures var s := StartupOf(ParseCmdLine(CmdLine(UpdaterArgs(self, url, noStartup, rest))));
      && s.Success?
      && s.value.path == "\"" + self + "\""
      && s.value.url == "\"" + url + "\""
      && s.value.mainArgs.Some?
      && NoStartupSplit(ParseCmdLine(s.value.mainArgs.value)) == (rest, noStartup)
  {
    var args := UpdaterArgs(self, url, noStartup, rest);
    WrappedReadable(self);
    WrappedReadable(url);
    HandsOver(args, noStartup, rest);
  }

  /**
   * The hand-over with the path and URL passed as they are: the updater
   * receives exactly the wrapper's binary path and the URL, and the new
   * wrapper gets the same flag and remaining arguments.
   */
  lemma CorrectedArgumentsSurviveSelfUpdate(self: string, url: string, noStartup: bool, rest: seq<string>)
    requires ' ' in self || QuoteCount(self) % 2 == 0
    requires ' ' in url || QuoteCount(url) % 2 == 0
    requires noStartup || rest != []
    requires forall i :: 0 <= i < |rest| ==> ' ' in rest[i] || QuoteCount(rest[i]) % 2 == 0
    requires !noStartup ==> rest[0] != NoStartupFlag
    ensures var s := StartupOf(ParseCmdLine(CmdLine(DirectUpdaterArgs(self, url, noStartup, rest))));
      && s.Success?
      && s.value.path == self
      && s.value.url == url
      && s.value.mainArgs.Some?
      && NoStartupSplit(ParseCmdLine(s.value.mainArgs.value)) == (rest, noStartup)
  {
    HandsOver(DirectUpdaterArgs(self, url, noStartup, rest), noStartup, rest);
  }

  /**
   * A wrapper whose binary path holds a space, such as `P F/w.exe`, hands
   * the updater a path that still holds the quote characters the wrapper
   * added, so it is not the wrapper's path.
   */
  lemma SpacedPathArrivesQuoted(self: string, url: string)
    requires ' ' in self
    requires ' ' in url || QuoteCount(url) % 2 == 0
    ensures var s := StartupOf(ParseCmdLine(CmdLine(UpdaterArgs(self, url, true, []))));
      && s.Success?
      && s.value.path == "\"" + self + "\""
      && s.value.path != self
  {
    ArgumentsSurviveSelfUpdate(self, url, true, []);
  }

  /** An argument wrapped in quotes reads back on its own when the argument does. */
  lemma WrappedReadable(a: string)
    requires ' ' in a || QuoteCount(a) % 2 == 0
    ensures ' ' in "\"" + a + "\"" || QuoteCount("\"" + a + "\"") % 2 == 0
  {
    var w := "\"" + a + "\"";
    if ' ' in a {
      var k :| 0 <= k < |a| && a[k] == ' ';
      assert w[k + 1] == ' ';
    } else {
      QuoteCountConcat("\"" + a, "\"");
      QuoteCountConcat("\"", a);
    }
  }

  /**
   * The round trip shared by both hand-overs: when every argument reads back
   * on its own, the updater receives the first two as they are, and the
   * command line it passes on reads back as the flag and the rest.
   */
  lemma HandsOver(args: seq<string>, noStartup: bool, rest: seq<string>)
    requires |args| >= 2 && args[2..] == HandedBack(noStartup, rest)
    requires ' ' in args[0] || QuoteCount(args[0]) % 2 == 0
    requires ' ' in args[1] || QuoteCount(args[1]) % 2 == 0
    requires noStartup || rest != []
    requires forall i :: 0 <= i < |rest| ==> ' ' in rest[i] || QuoteCount(rest[i]) % 2 == 0
    requires !noStartup ==> rest[0] != NoStartupFlag
    ensures var s := StartupOf(ParseCmdLine(CmdLine(args)));
      && s.Success?
      && s.value.path == args[0]
      && s.value.url == args[1]
      && s.value.mainArgs.Some?
      && NoStartupSplit(ParseCmdLine(s.value.mainArgs.value)) == (rest, noStartup)
  {
    var back := HandedBack(noStartup, rest);
    HandedBackReadable(noStartup, rest);
    forall i | 0 <= i < |args| ensures ' ' in args[i] || QuoteCount(args[i]) % 2 == 0 {
      if i >= 2 {
        assert args[i] == back[i - 2];
      }
    }
    ParseCmdLineRoundTrip(args);
    StartupHandsBackRest(args);
    HandedBackSplits(noStartup, rest);
  }

  /** Every handed-back argument reads back on its own: the flag has no quotes. */
  lemma HandedBackReadable(noStartup: bool, rest: seq<string>)
    requires forall i :: 0 <= i < |rest| ==> ' ' in rest[i] || QuoteCount(rest[i]) % 2 == 0
    ensures forall i :: 0 <= i < |HandedBack(noStartup, rest)| ==>
      ' ' in HandedBack(noStartup, rest)[i] || QuoteCount(HandedBack(noStartup, rest)[i]) % 2 == 0
  {
    var back := HandedBack(noStartup, rest);
    forall i | 0 <= i < |back| ensures ' ' in back[i] || QuoteCount(back[i]) % 2 == 0 {
      if noStartup && i == 0 {
        assert back[i] == NoStartupFlag;
        assert QuoteCount(NoStartupFlag) == 0;
      } else {
        assert back[i] == rest[i - (if noStartup then 1 else 0)];
      }
    }
  }

  /** The new wrapper strips the flag exactly when it was handed back. */
  lemma HandedBackSplits(noStartup: bool, rest: seq<string>)
    requires !noStartup ==> rest == [] || rest[0] != NoStartupFlag
    ensures NoStartupSplit(HandedBack(noStartup, rest)) == (rest, noStartup)
  {
    var back := HandedBack(noStartup, rest);
    if noStartup {
      assert back[0] == NoStartupFlag && back[1..] == rest;
    } else {
      assert back == rest;
    }
  }
}
