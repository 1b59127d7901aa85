/**
 * The patching wrapper's start-up decisions: the `noStartup` flag, whether
 * to hand over to the patcher updater, the argument list for the updater,
 * and the plan of which manifest files to fetch.
 *
 * The local directory is a map from relative path to bytes; the manifest is
 * the document the index request returned, or nothing when that request
 * failed.  Starting processes, message boxes and elevation are not modelled:
 * `OnStartup` returns what the wrapper goes on to do.
 */
module SyncPlanner {
  import opened Wrappers
  import opened Hex
  import opened Manifest
  import opened FileTree
  import opened CmdArgs

  /** A file the wrapper must fetch, with the size the manifest gives for it. */
  datatype PendingDownload = PendingDownload(path: string, size: nat)

  /** The wrapper's working directory: relative path to contents. */
  type LocalFiles = map<string, seq<Byte>>

  /** The no-verify matcher `.+\.ini$`: at least one character, then ".ini" at the end. */
  predicate NoVerify(path: string)
  {
    |path| > 4 && path[|path| - 4..] == ".ini"
  }

  /** What the planner does with one manifest member: fetch it, skip it, or raise. */
  function Decide(path: string, e: Entry, local: LocalFiles, md5: HashFn): Result<bool, string>
  {
    if path !in local then Success(true)
    else if NoVerify(path) && e.hash.Some? then Success(false)
    else if e.alg != Md5 then Failure("Invalid alg " + e.alg)
    else Success(e.hash != Some(DigestHex(md5(local[path]))))
  }

  /** The download each member would become. */
  function Candidates(files: seq<(string, Entry)>): seq<PendingDownload>
  {
    seq(|files|, i requires 0 <= i < |files| => PendingDownload(files[i].0, files[i].1.size))
  }

  /** The planner over the members in document order; the first member that raises ends it. */
  function Plan(files: seq<(string, Entry)>, local: LocalFiles, md5: HashFn): Result<seq<PendingDownload>, string>
    decreases |files|
  {
    if files == [] then Success([])
    else match Decide(files[0].0, files[0].1, local, md5)
      case Failure(e) => Failure(e)
      case Success(fetch) =>
        match Plan(files[1..], local, md5)
        case Failure(e) => Failure(e)
        case Success(rest) => Success((if fetch then [PendingDownload(files[0].0, files[0].1.size)] else []) + rest)
  }

  /** `done` followed by whatever `r` plans. */
  function After(done: seq<PendingDownload>, r: Result<seq<PendingDownload>, string>): Result<seq<PendingDownload>, string>
  {
    match r
    case Success(rest) => Success(done + rest)
    case Failure(e) => Failure(e)
  }

  lemma PlanStep(files: seq<(string, Entry)>, i: nat, local: LocalFiles, md5: HashFn)
    requires i < |files|
    ensures Plan(files[i..], local, md5) ==
      match Decide(files[i].0, files[i].1, local, md5)
      case Failure(e) => Failure(e)
      case Success(fetch) => After(if fetch then [PendingDownload(files[i].0, files[i].1.size)] else [],
                                   Plan(files[i + 1..], local, md5))
  {
    assert files[i..][0] == files[i] && files[i..][1..] == files[i + 1..];
  }

  lemma AfterAfter(a: seq<PendingDownload>, b: seq<PendingDownload>, r: Result<seq<PendingDownload>, string>)
    ensures After(a, After(b, r)) == After(a + b, r)
  {
    if r.Success? {
      assert a + (b + r.value) == a + b + r.value;
    }
  }

  /** The planner loop: appends a download for every member that is missing or fails its check. */
  method PlanDownloads(files: seq<(string, Entry)>, local: LocalFiles, md5: HashFn)
    returns (r: Result<seq<PendingDownload>, string>)
    ensures r == Plan(files, local, md5)
  {
    var pending: seq<PendingDownload> := [];
    assert files[0..] == files;
    match Plan(files, local, md5) {
      case Success(all) => assert [] + all == all;
      case Failure(e) =>
    }
    for i := 0 to |files|
      invariant Plan(files, local, md5) == After(pending, Plan(files[i..], local, md5))
    {
      PlanStep(files, i, local, md5);
      var path := files[i].0;
      var e := files[i].1;
      var fetch := false;
      if path !in local {
        fetch := true;
      } else if !NoVerify(path) || e.hash.None? {
        if e.alg != Md5 {
          return Failure("Invalid alg " + e.alg);
        }
        var localHash := DigestHex(md5(local[path]));
        fetch := e.hash != Some(localHash);
      }
      var step := if fetch then [PendingDownload(path, e.size)] else [];
      AfterAfter(pending, step, Plan(files[i + 1..], local, md5));
      if fetch {
        pending := pending + [PendingDownload(path, e.size)];
      } else {
        assert pending + step == pending;
      }
    }
    assert files[|files|..] == [];
    assert pending + [] == pending;
    return Success(pending);
  }

  // ---------------------------------------------------------------------
  // One member

  /** A member with no local file is fetched with no check at all, whatever its algorithm. */
  lemma MissingIsFetched(path: string, e: Entry, local: LocalFiles, md5: HashFn)
    requires path !in local
    ensures Decide(path, e, local, md5) == Success(true)
  {
  }

  /** An existing ".ini" file with a manifest hash is never fetched. */
  lemma NoVerifyIsSkipped(path: string, e: Entry, local: LocalFiles, md5: HashFn)
    requires path in local && NoVerify(path) && e.hash.Some?
    ensures Decide(path, e, local, md5) == Success(false)
  {
  }

  /** An existing file that must be checked with an algorithm other than "md5" raises. */
  lemma UnknownAlgRaises(path: string, e: Entry, local: LocalFiles, md5: HashFn)
    requires path in local && (!NoVerify(path) || e.hash.None?) && e.alg != Md5
    ensures Decide(path, e, local, md5).Failure?
  {
  }

  /**
   * An existing file checked with "md5" is fetched exactly when the
   * manifest hash is not the file's digest in upper-case hex; a null
   * manifest hash therefore always fetches.
   */
  lemma Md5CheckFetchesIffDiffers(path: string, e: Entry, local: LocalFiles, md5: HashFn)
    requires path in local && (!NoVerify(path) || e.hash.None?) && e.alg == Md5
    ensures Decide(path, e, local, md5).Success?
    ensures Decide(path, e, local, md5).value <==> e.hash != Some(DigestHex(md5(local[path])))
    ensures e.hash.None? ==> Decide(path, e, local, md5).value
  {
  }

  /**
   * The comparison is case-sensitive: a manifest hash with any character
   * outside "0123456789ABCDEF", a lower-case digit included, always fetches.
   */
  lemma LowerCaseHashFetches(path: string, e: Entry, local: LocalFiles, md5: HashFn, i: nat)
    requires path in local && !NoVerify(path) && e.alg == Md5
    requires e.hash.Some? && i < |e.hash.value| && e.hash.value[i] !in Digits
    ensures Decide(path, e, local, md5) == Success(true)
  {
    DigestHexDigits(md5(local[path]));
  }

  /** A matching upper-case digest skips the file. */
  lemma MatchingDigestIsSkipped(path: string, e: Entry, local: LocalFiles, md5: HashFn)
    requires path in local && e.alg == Md5
    requires e.hash == Some(DigestHex(md5(local[path])))
    ensures Decide(path, e, local, md5) == Success(false)
  {
  }

  // ---------------------------------------------------------------------
  // The whole plan

  /** `a` is `b` with some elements left out, order kept. */
  ghost predicate IsSubsequence(a: seq<PendingDownload>, b: seq<PendingDownload>)
    decreases |b|
  {
    if a == [] then true
    else if b == [] then false
    else (a[0] == b[0] && IsSubsequence(a[1..], b[1..])) || IsSubsequence(a, b[1..])
  }

  lemma {:induction false} SubsequenceLength(a: seq<PendingDownload>, b: seq<PendingDownload>)
    requires IsSubsequence(a, b)
    ensures |a| <= |b|
    decreases |b|
  {
    if a != [] {
      if a[0] == b[0] && IsSubsequence(a[1..], b[1..]) {
        SubsequenceLength(a[1..], b[1..]);
      } else {
        SubsequenceLength(a, b[1..]);
      }
    }
  }

  /**
   * The plan keeps the manifest's order and takes each member at most once
   * with the manifest's size, so it is never longer than the manifest.
   */
  lemma {:induction false} PlanIsSubsequence(files: seq<(string, Entry)>, local: LocalFiles, md5: HashFn)
    requires Plan(files, local, md5).Success?
    ensures IsSubsequence(Plan(files, local, md5).value, Candidates(files))
    ensures |Plan(files, local, md5).value| <= |files|
    decreases |files|
  {
    var out := Plan(files, local, md5).value;
    if files != [] {
      var c := Candidates(files);
      assert c[1..] == Candidates(files[1..]);
      PlanIsSubsequence(files[1..], local, md5);
      var rest := Plan(files[1..], local, md5).value;
      if Decide(files[0].0, files[0].1, local, md5).value {
        assert out == [c[0]] + rest;
        assert out[1..] == rest;
      } else {
        assert out == rest;
        if rest != [] {
          assert IsSubsequence(rest, c[1..]);
        }
      }
    }
    SubsequenceLength(out, Candidates(files));
  }

  /** The plan raises exactly when some member raises. */
  lemma {:induction false} PlanFailsIff(files: seq<(string, Entry)>, local: LocalFiles, md5: HashFn)
    ensures Plan(files, local, md5).Failure? <==>
      exists i :: 0 <= i < |files| && Decide(files[i].0, files[i].1, local, md5).Failure?
    decreases |files|
  {
    if files != [] {
      PlanFailsIff(files[1..], local, md5);
      if Decide(files[0].0, files[0].1, local, md5).Failure? {
        assert Decide(files[0].0, files[0].1, local, md5).Failure?;
      } else if Plan(files[1..], local, md5).Failure? {
        var j :| 0 <= j < |files[1..]| && Decide(files[1..][j].0, files[1..][j].1, local, md5).Failure?;
        assert files[1..][j] == files[j + 1];
      } else {
        forall i | 0 <= i < |files| ensures Decide(files[i].0, files[i].1, local, md5).Success? {
          if i > 0 {
            assert files[i] == files[1..][i - 1];
          }
        }
      }
    }
  }

  /**
   * A successful plan holds exactly the members that need fetching: each
   * planned download is one of them, and each of them is planned.
   */
  lemma {:induction false} PlanHoldsExactlyFetched(files: seq<(string, Entry)>, local: LocalFiles, md5: HashFn)
    requires Plan(files, local, md5).Success?
    ensures forall x :: x in Plan(files, local, md5).value <==>
      exists i :: 0 <= i < |files| && Decide(files[i].0, files[i].1, local, md5) == Success(true)
                  && x == Candidates(files)[i]
    decreases |files|
  {
    if files != [] {
      PlanHoldsExactlyFetched(files[1..], local, md5);
      var out := Plan(files, local, md5).value;
      var rest := Plan(files[1..], local, md5).value;
      var c := Candidates(files);
      assert c[1..] == Candidates(files[1..]);
      var fetch0 := Decide(files[0].0, files[0].1, local, md5) == Success(true);
      assert out == (if fetch0 then [c[0]] else []) + rest;
      forall x | x in out
        ensures exists i :: 0 <= i < |files| && Decide(files[i].0, files[i].1, local, md5) == Success(true) && x == c[i]
      {
        if fetch0 && x == c[0] {
          assert Decide(files[0].0, files[0].1, local, md5) == Success(true) && x == c[0];
        } else {
          assert x in rest;
          var j :| 0 <= j < |files[1..]| && Decide(files[1..][j].0, files[1..][j].1, local, md5) == Success(true)
                   && x == Candidates(files[1..])[j];
          assert files[1..][j] == files[j + 1] && x == c[j + 1];
        }
      }
      forall i | 0 <= i < |files| && Decide(files[i].0, files[i].1, local, md5) == Success(true)
        ensures c[i] in out
      {
        if i > 0 {
          assert files[i] == files[1..][i - 1];
          assert c[i] == Candidates(files[1..])[i - 1];
        }
      }
    }
  }

  function Names(files: seq<(string, Entry)>): seq<string>
  {
    seq(|files|, i requires 0 <= i < |files| => files[i].0)
  }

  function PendingPaths(out: seq<PendingDownload>): seq<string>
  {
    seq(|out|, i requires 0 <= i < |out| => out[i].path)
  }

  /** A manifest without repeated names gives a plan without repeated paths. */
  lemma {:induction false} PlanHasNoRepeats(files: seq<(string, Entry)>, local: LocalFiles, md5: HashFn)
    requires Distinct(Names(files)) && Plan(files, local, md5).Success?
    ensures Distinct(PendingPaths(Plan(files, local, md5).value))
    decreases |files|
  {
    if files != [] {
      var tail := files[1..];
      assert Distinct(Names(tail)) by {
        forall i, j | 0 <= i < j < |tail| ensures tail[i].0 != tail[j].0 {
          assert tail[i] == files[i + 1] && tail[j] == files[j + 1];
          assert Names(files)[i + 1] != Names(files)[j + 1];
        }
      }
      PlanHasNoRepeats(tail, local, md5);
      var rest := Plan(tail, local, md5).value;
      if Decide(files[0].0, files[0].1, local, md5).value {
        var out := Plan(files, local, md5).value;
        var head := PendingDownload(files[0].0, files[0].1.size);
        assert out == [head] + rest;
        PlanHoldsExactlyFetched(tail, local, md5);
        forall y | y in PendingPaths(rest) ensures y != head.path {
          var k :| 0 <= k < |rest| && PendingPaths(rest)[k] == y;
          assert rest[k] in rest;
          var j :| 0 <= j < |tail| && Decide(tail[j].0, tail[j].1, local, md5) == Success(true)
                   && rest[k] == Candidates(tail)[j];
          assert tail[j] == files[j + 1];
          assert Names(files)[0] != Names(files)[j + 1];
        }
        assert PendingPaths(out) == [head.path] + PendingPaths(rest);
        DistinctConcat([head.path], PendingPaths(rest));
      } else {
        assert Plan(files, local, md5).value == rest;
      }
    }
  }

  // ---------------------------------------------------------------------
  // Start-up

  /** The patcher is replaced unless the manifest names "md5" and the running binary's digest. */
  function NeedsSelfUpdate(patcher: PatcherInfo, currHash: string): bool
  {
    patcher.alg != Some(Md5) || patcher.hash != Some(currHash)
  }

  /** A leading "noStartup" is taken off the arguments and sets the flag. */
  function NoStartupSplit(args: seq<string>): (r: (seq<string>, bool))
    ensures r.1 ==> [NoStartupFlag] + r.0 == args
    ensures !r.1 ==> r.0 == args && (args == [] || args[0] != NoStartupFlag)
  {
    if |args| > 0 && args[0] == NoStartupFlag then (args[1..], true) else (args, false)
  }

  const NoStartupFlag: string := "noStartup"

  /** `args.RemoveAt(0)` when the first argument is the flag. */
  method StripNoStartup(args: seq<string>) returns (rest: seq<string>, noStartup: bool)
    ensures (rest, noStartup) == NoStartupSplit(args)
  {
    rest := args;
    noStartup := false;
    if |rest| > 0 && rest[0] == NoStartupFlag {
      rest := rest[1..];
      noStartup := true;
    }
  }

  /** The updater's arguments: the quoted binary path, the quoted URL, the flag if set, the rest. */
  function UpdaterArgs(self: string, url: string, noStartup: bool, rest: seq<string>): (r: seq<string>)
    ensures |r| >= 2 && r[0] == "\"" + self + "\"" && r[1] == "\"" + url + "\""
    ensures r[2..] == (if noStartup then [NoStartupFlag] else []) + rest
  {
    ["\"" + self + "\"", "\"" + url + "\""] + (if noStartup then [NoStartupFlag] else []) + rest
  }

  /**
   * The updater's arguments as evidently intended: the binary path and the
   * URL as they are, left to `ToCmdArgs` to quote when they hold a space.
   */
  function DirectUpdaterArgs(self: string, url: string, noStartup: bool, rest: seq<string>): (r: seq<string>)
    ensures |r| >= 2 && r[0] == self && r[1] == url
    ensures r[2..] == (if noStartup then [NoStartupFlag] else []) + rest
  {
    [self, url] + (if noStartup then [NoStartupFlag] else []) + rest
  }

  /** The list the wrapper builds before starting the updater. */
  method BuildUpdaterArgs(self: string, url: string, noStartup: bool, rest: seq<string>) returns (updaterArgs: seq<string>)
    ensures updaterArgs == UpdaterArgs(self, url, noStartup, rest)
  {
    updaterArgs := [];
    updaterArgs := updaterArgs + ["\"" + self + "\""];
    updaterArgs := updaterArgs + ["\"" + url + "\""];
    if noStartup {
      updaterArgs := updaterArgs + [NoStartupFlag];
    }
    updaterArgs := updaterArgs + rest;
  }

  /** What the wrapper goes on to do; `ranMain` says the main program was run and waited for first. */
  datatype Launch =
    | Offline(ranMain: bool, reportError: bool)
    | NoEndPoint(ranMain: bool)
    | SelfUpdate(ranMain: bool, updaterArgs: seq<string>)
    | InvalidAlg(ranMain: bool, message: string)
    | UpToDate(ranMain: bool)
    | Update(ranMain: bool, endpoint: string, pending: seq<PendingDownload>, startAfterDownload: bool)

  /**
   * The start-up sequence: strip the flag, run the main program when it is
   * there and not suppressed, read the manifest, read the content end point
   * (raising when the manifest has no `content_endpoint`), hand over to the
   * updater when the patcher is stale, and otherwise plan the downloads.
   */
  method OnStartup(args: seq<string>, mainExists: bool, meta: Option<Document>,
                   self: string, selfBytes: seq<Byte>, local: LocalFiles, md5: HashFn)
    returns (r: Launch)
    ensures var (rest, flag) := NoStartupSplit(args);
      && (r.ranMain <==> !flag && mainExists)
      && (meta.None? ==> r == Offline(r.ranMain, !flag && !mainExists))
      && (meta.Some? && ClientEndPointKey !in meta.value.strings ==> r == NoEndPoint(r.ranMain))
      && (meta.Some? && ClientEndPointKey in meta.value.strings &&
          NeedsSelfUpdate(meta.value.patcher, DigestHex(md5(selfBytes))) ==>
            r == SelfUpdate(r.ranMain, UpdaterArgs(self, meta.value.patcher.url, flag || mainExists, rest)))
      && (meta.Some? && ClientEndPointKey in meta.value.strings &&
          !NeedsSelfUpdate(meta.value.patcher, DigestHex(md5(selfBytes))) ==>
            match Plan(meta.value.files, local, md5)
            case Failure(e) => r == InvalidAlg(r.ranMain, e)
            case Success(p) =>
              if p == [] then r == UpToDate(r.ranMain)
              else r == Update(r.ranMain, meta.value.strings[ClientEndPointKey], p, !flag && !mainExists))
  {
    var rest, noStartup := StripNoStartup(args);
    var startupAfterDownload := false;
    var ranMain := false;
    if !noStartup {
      if mainExists {
        ranMain := true;
        noStartup := true;
      } else {
        startupAfterDownload := true;
      }
    }
    if meta.None? {
      return Offline(ranMain, startupAfterDownload);
    }
    var doc := meta.value;
    var member := StringMember(doc, ClientEndPointKey);
    if member.None? {
      return NoEndPoint(ranMain);
    }
    var endpoint := member.value;
    var currHash := DigestHex(md5(selfBytes));
    if NeedsSelfUpdate(doc.patcher, currHash) {
      var updaterArgs := BuildUpdaterArgs(self, doc.patcher.url, noStartup, rest);
      return SelfUpdate(ranMain, updaterArgs);
    }
    var plan := PlanDownloads(doc.files, local, md5);
    match plan
    case Failure(e) =>
      return InvalidAlg(ranMain, e);
    case Success(pending) =>
      if pending == [] {
        return UpToDate(ranMain);
      }
      return Update(ranMain, endpoint, pending, startupAfterDownload);
  }

  // ---------------------------------------------------------------------
  // The main program's command line

  /** `string.Join("", args)`: how the wrapper passes its own arguments on to the main program. */
  function JoinedArgs(args: seq<string>): string
  {
    if args == [] then "" else args[0] + JoinedArgs(args[1..])
  }

  lemma {:induction false} JoinedArgsHasNoSpace(args: seq<string>)
    requires forall i :: 0 <= i < |args| ==> ' ' !in args[i]
    ensures ' ' !in JoinedArgs(args)
  {
    if args != [] {
      JoinedArgsHasNoSpace(args[1..]);
    }
  }

  lemma {:induction false} TokensWithoutSpace(s: string, q: bool, cur: string)
    requires ' ' !in s
    ensures Tokens(s, q, cur) == [cur + s]
    decreases |s|
  {
    if s != [] {
      TokensWithoutSpace(s[1..], if s[0] == '"' then !q else q, cur + [s[0]]);
      assert cur + [s[0]] + s[1..] == cur + s;
    } else {
      assert cur + s == cur;
    }
  }

  /**
   * Joined without separators, arguments that have no spaces reach the
   * main program as one single argument.
   */
  lemma JoinedArgsAreOneArgument(args: seq<string>)
    requires forall i :: 0 <= i < |args| ==> ' ' !in args[i]
    ensures ParseCmdLine(JoinedArgs(args)) == [JoinedArgs(args)]
  {
    JoinedArgsHasNoSpace(args);
    TokensWithoutSpace(JoinedArgs(args), false, "");
    assert "" + JoinedArgs(args) == JoinedArgs(args);
  }

  /** The two arguments `-a -b` reach the main program as the single argument `-a-b`. */
  lemma JoinedArgsMergeTwo()
    ensures ParseCmdLine(JoinedArgs(["-a", "-b"])) == ["-a-b"]
  {
    var args := ["-a", "-b"];
    assert ' ' !in args[0] && ' ' !in args[1];
    JoinedArgsAreOneArgument(args);
    assert args[1..][1..] == [];
    assert JoinedArgs(args[1..]) == "-b" + "";
    assert JoinedArgs(args) == "-a" + ("-b" + "") == "-a-b";
  }

  /**
   * The command line the main program should receive: its arguments
   * written as `ToCmdArgs` writes them, so that they read back unchanged.
   */
  function MainCommandLine(args: seq<string>): (line: string)
    ensures |args| >= 1 && (forall i :: 0 <= i < |args| ==> ' ' in args[i] || QuoteCount(args[i]) % 2 == 0)
            ==> ParseCmdLine(line) == args
  {
    if |args| >= 1 && (forall i :: 0 <= i < |args| ==> ' ' in args[i] || QuoteCount(args[i]) % 2 == 0) then
      ParseCmdLineRoundTrip(args);
      CmdLine(args)
    else
      CmdLine(args)
  }
}
